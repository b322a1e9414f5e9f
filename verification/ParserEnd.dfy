/** The end of the stream: which messages it completes. */
module ParserEnd {
  import opened Ascii
  import opened ParserTypes
  import opened ParserStep
  import opened ParserInvariant
  import opened ParserRun
  import opened ParserEvents
  import opened ParserCuts
  import opened ParserLimit
  import opened ParserFraming
  import opened ParserBody
  import opened ParserExecute

  /** No message has begun that is not complete. */
  predicate BetweenMessages(s: State) {
    s == S_PRE_START_REQ_OR_RES || s == S_PRE_START_RES || s == S_PRE_START_REQ
  }

  /** As many messages were completed as begun, but for the one that is being read. */
  predicate Balanced(s: State, begun: int, completed: int) {
    begun == completed + if BetweenMessages(s) then 0 else 1
  }

  /** A step that goes on begins a message as it leaves the place between two, and completes one as it
      comes back there. */
  predicate Balances(s: State, a: Act) {
    a.ctl == Next ==>
      && Tally(a.notes, Beginning) == (if BetweenMessages(s) && !BetweenMessages(a.p.state) then 1 else 0)
      && Tally(a.notes, Completion) == (if !BetweenMessages(s) && BetweenMessages(a.p.state) then 1 else 0)
  }

  lemma SmallTally(es: seq<Event>, k: Sort)
    requires |es| <= 2
    ensures Tally(es, k)
         == (if |es| > 0 && IsOf(es[0], k) then 1 else 0) + (if |es| > 1 && IsOf(es[1], k) then 1 else 0)
  {
    assert es != [] ==> |es[..|es| - 1]| < 2;
    assert |es| == 2 ==> es[..1][..0] == [];
    assert Tally([], k) == 0;
  }

  /** The same said of the callbacks one by one. */
  predicate NotesBalance(s: State, a: Act) {
    a.ctl == Next ==>
      && |a.notes| <= 2
      && (forall i :: 0 <= i < |a.notes| ==>
            && (a.notes[i].MessageBegin? ==> i == 0 && BetweenMessages(s) && !BetweenMessages(a.p.state))
            && (a.notes[i].MessageComplete? ==>
                  i == |a.notes| - 1 && !BetweenMessages(s) && BetweenMessages(a.p.state)))
      && (BetweenMessages(s) && !BetweenMessages(a.p.state) ==> a.notes != [] && a.notes[0].MessageBegin?)
      && (!BetweenMessages(s) && BetweenMessages(a.p.state) ==>
            a.notes != [] && a.notes[|a.notes| - 1].MessageComplete?)
  }

  lemma CountNotes(s: State, a: Act)
    requires NotesBalance(s, a)
    ensures Balances(s, a)
  {
    hide Tally;
    if a.ctl == Next {
      SmallTally(a.notes, Beginning);
      SmallTally(a.notes, Completion);
    }
  }

  lemma StartBalances(cfg: Settings, p: Parser, b: Byte)
    requires InStart(p.state)
    ensures NotesBalance(p.state, StepStart(cfg, p, b))
  {
    hide FirstMethod;
  }

  lemma LineBalances(p: Parser, b: Byte)
    requires InLine(p.state)
    ensures NotesBalance(p.state, StepLine(p, b))
  {
    hide LineMove, Perform, MoveFits;
    LineMoveFits(p.state, p.line.verb == M_CONNECT, b);
    MoveBalances(p, LineMove(p.state, p.line.verb == M_CONNECT, b), b);
  }

  lemma MoveBalances(p: Parser, m: Move, b: Byte)
    requires InLine(p.state) && MoveFits(p.state, m)
    ensures NotesBalance(p.state, Perform(p, m, b))
  {
    hide Digit;
  }

  lemma MethodBalances(p: Parser, b: Byte)
    requires p.state == S_REQ_METHOD
    ensures NotesBalance(p.state, StepMethod(p, b))
  {
    hide MethodChar, SwitchMethod;
  }

  /** The end of the headers makes no callback but the completion. */
  lemma HeadersDoneNotes(cfg: Settings, p: Parser)
    ensures var a := StepHeadersDone(cfg, p);
            if BetweenMessages(a.p.state) then a.notes == [MessageComplete]
            else a.notes == [] || p.state != S_HEADERS_DONE
  {
  }

  lemma EmptyLineBalances(cfg: Settings, p: Parser, b: Byte)
    requires p.state == S_HEADERS_ALMOST_DONE
    ensures NotesBalance(p.state, StepHeadersAlmostDone(cfg, p, b))
  {
    hide StepHeadersDone;
    var q := p.(state := S_HEADERS_DONE, upgrade := p.flags.upgrade || p.line.verb == M_CONNECT);
    HeadersDoneNotes(cfg, q);
    HeadersDoneNotes(cfg, q.(flags := q.flags.(skipBody := true)));
  }

  lemma HeadersBalance(cfg: Settings, p: Parser, b: Byte)
    requires InHeaders(p.state)
    ensures NotesBalance(p.state, StepHeaders(cfg, p, b))
  {
    hide StepHeadersAlmostDone, StepHeadersDone, Match, Token, IsToken;
    EmptyLineBalances(cfg, p.(state := S_HEADERS_ALMOST_DONE), b);
    HeadersDoneNotes(cfg, p);
  }

  lemma BodyBalances(cfg: Settings, p: Parser, b: Byte)
    requires InBody(p.state)
    ensures NotesBalance(p.state, StepBody(cfg, p, b))
  {
    hide Unhex;
  }

  lemma StepBalances(cfg: Settings, p: Parser, b: Byte)
    requires Live(p)
    ensures Balances(p.state, Step(cfg, p, b))
  {
    hide StepStart, StepMethod, StepLine, StepHeaders, StepBody, NotesBalance, Balances;
    if InStart(p.state) {
      StartBalances(cfg, p, b);
    } else if p.state == S_REQ_METHOD {
      MethodBalances(p, b);
    } else if InLine(p.state) {
      LineBalances(p, b);
    } else if InHeaders(p.state) {
      HeadersBalance(cfg, p, b);
    } else {
      BodyBalances(cfg, p, b);
    }
    CountNotes(p.state, Step(cfg, p, b));
  }

  // ---------------------------------------------------------------- calls in a row

  lemma {:induction false} TallyAppend(es: seq<Event>, fs: seq<Event>, k: Sort)
    ensures Tally(es + fs, k) == Tally(es, k) + Tally(fs, k)
    decreases |fs|
  {
    hide IsOf;
    if fs == [] {
      assert es + fs == es;
    } else {
      assert (es + fs)[..|es + fs| - 1] == es + fs[..|fs| - 1];
      TallyAppend(es, fs[..|fs| - 1], k);
    }
  }

  lemma AdvanceTally(cfg: Settings, r: Run, b: Byte, k: Sort)
    requires r.live && Advance(cfg, r, b).live
    ensures Tally(Advance(cfg, r, b).out, k) == Tally(r.out, k) + Tally(Step(cfg, r.p, b).notes, k)
  {
    hide Step, Tally;
    var a := Step(cfg, r.p, b);
    var text := Flushed(r.mark, a.op, b);
    TextTally(text, k);
    TallyAppend(r.out, text, k);
    TallyAppend(r.out + text, a.notes, k);
  }

  /** A call that runs to its end keeps the balance, `m` messages having been begun and `n` completed before it. */
  lemma {:induction false} RunBalances(cfg: Settings, r: Run, s: Bytes, m: int, n: int)
    requires RunFits(r) && r.live && RunOver(cfg, r, s).live
    requires Balanced(r.p.state, m + Tally(r.out, Beginning), n + Tally(r.out, Completion))
    ensures var q := RunOver(cfg, r, s);
            Balanced(q.p.state, m + Tally(q.out, Beginning), n + Tally(q.out, Completion))
  {
    hide Step, Tally, RunFits, Flushed, NextMark, BetweenMessages;
    if s != [] {
      var t, b := s[..|s| - 1], s[|s| - 1];
      var q := RunOver(cfg, r, t);
      RunBalances(cfg, r, t, m, n);
      RunOverFits(cfg, r, t);
      RunLive(q);
      StepBalances(cfg, q.p, b);
      AdvanceTally(cfg, q, b, Beginning);
      AdvanceTally(cfg, q, b, Completion);
    }
  }

  lemma RunLive(r: Run)
    requires RunFits(r) && r.live
    ensures Live(r.p)
  {
  }

  predicate Counted(f: Fed) {
    !f.stopped ==> Live(f.p) && Balanced(f.p.state, Tally(f.out, Beginning), Tally(f.out, Completion))
  }

  lemma FeedBalances(cfg: Settings, f: Fed, data: Bytes)
    requires Counted(f) && data != []
    ensures Counted(Feed(cfg, f, data))
  {
    hide Step, Inv, Tally, PushAll, RunOver, BetweenMessages;
    var g := Feed(cfg, f, data);
    if !g.stopped {
      var r := Begin(f.p, f.nread);
      BeginFits(f.p, f.nread);
      var m, n := Tally(f.out, Beginning), Tally(f.out, Completion);
      TextTally([], Beginning);
      TextTally([], Completion);
      RunBalances(cfg, r, data, m, n);
      RunOverFits(cfg, r, data);
      var q := RunOver(cfg, r, data);
      var left := if q.mark.Mark? then [Piece(q.mark.k, q.mark.text, q.p.state)] else [];
      forall k ensures Tally(g.out, k) == Tally(f.out, k) + Tally(q.out, k) {
        TextTally(left, k);
        TallyAppend(q.out, left, k);
        TallyPushAll(f.out, q.out + left, k);
      }
    }
  }

  /** In every run from a new message, as many messages are complete as have begun, but for one that the
      parser is in the middle of. */
  lemma {:induction false} MessagesBalance(cfg: Settings, p: Parser, pieces: seq<Bytes>)
    requires Live(p) && BetweenMessages(p.state) && NoneEmpty(pieces)
    ensures Counted(FeedAll(cfg, Fresh(p, 0), pieces))
  {
    hide Feed, Inv;
    if pieces != [] {
      MessagesBalance(cfg, p, pieces[..|pieces| - 1]);
      FeedBalances(cfg, FeedAll(cfg, Fresh(p, 0), pieces[..|pieces| - 1]), pieces[|pieces| - 1]);
    }
  }

  // ---------------------------------------------------------------- the end

  predicate Unfinished(f: Fed) { Tally(f.out, Completion) != Tally(f.out, Beginning) }

  /** What the end of the stream comes to. */
  predicate EndsRight(cfg: Settings, f: Fed, g: Fed) {
    if !Unfinished(f) then g == f.(stopped := true)
    else if f.p.state == S_BODY_IDENTITY_EOF then
      !Unfinished(g) && g.out == Push(f.out, MessageComplete) && g.pos == f.pos
      && (cfg.onMessageComplete == Proceed ==> g.p == f.p)
    else g.out == f.out && g.p == f.p.(errno := HPE_INVALID_EOF_STATE)
  }

  /** The end of the stream, after any number of calls on a stream from a new message: if every message that
      has begun is complete nothing happens; a message whose body goes on up to the close is completed; and
      in the middle of any other message it is an error, and the message is not completed. */
  lemma EndExactly(cfg: Settings, p: Parser, pieces: seq<Bytes>)
    requires Live(p) && BetweenMessages(p.state) && NoneEmpty(pieces)
    requires !FeedAll(cfg, Fresh(p, 0), pieces).stopped
    ensures EndsRight(cfg, FeedAll(cfg, Fresh(p, 0), pieces), Feed(cfg, FeedAll(cfg, Fresh(p, 0), pieces), []))
  {
    hide FeedAll, Inv, Tally, Push, RunOver;
    var f := FeedAll(cfg, Fresh(p, 0), pieces);
    MessagesBalance(cfg, p, pieces);
    PushNothing(f.out);
    PushAllOne(f.out, MessageComplete);
    TallyPush(f.out, MessageComplete, Completion);
    TallyPush(f.out, MessageComplete, Beginning);
  }

  /** A call on bytes of a body up to the close. */
  lemma BodyFed(cfg: Settings, f: Fed, data: Bytes)
    requires !f.stopped && Live(f.p) && f.p.state == S_BODY_IDENTITY_EOF && data != []
    ensures Feed(cfg, f, data) == f.(out := WithBody(f.out, data), pos := f.pos + |data|)
  {
    hide Inv, Push, RunOver;
    var r := Begin(f.p, f.nread);
    EofTaken(cfg, r, data);
    PushAllOne(f.out, Piece(Body, data, S_BODY_IDENTITY));
    assert [] + data == data;
  }

  lemma WithBodyTwice(out: seq<Event>, s: Bytes, t: Bytes)
    ensures WithBody(WithBody(out, s), t) == WithBody(out, s + t)
  {
    hide Push;
    if s == [] {
      assert s + t == t;
    } else if t == [] {
      assert s + t == s;
    } else {
      PushTwice(out, Body, s, S_BODY_IDENTITY, t, S_BODY_IDENTITY);
    }
  }

  lemma {:induction false} BodyAllFed(cfg: Settings, f: Fed, pieces: seq<Bytes>)
    requires !f.stopped && Live(f.p) && f.p.state == S_BODY_IDENTITY_EOF && NoneEmpty(pieces)
    ensures var s := Concat(pieces);
            FeedAll(cfg, f, pieces) == f.(out := WithBody(f.out, s), pos := f.pos + |s|)
  {
    hide Feed, Inv, WithBody;
    if pieces == [] {
      NoBodyText(f.out);
    } else {
      var front, last := pieces[..|pieces| - 1], pieces[|pieces| - 1];
      BodyAllFed(cfg, f, front);
      BodyFed(cfg, FeedAll(cfg, f, front), last);
      WithBodyTwice(f.out, Concat(front), last);
    }
  }

  /** A message whose headers, ended by the byte `b` after `s`, leave its body to go on up to the close: in
      whatever pieces the head and the body arrive, all that follows the head is delivered as body, and the
      message is complete with the end of the stream and not before. */
  lemma UntilCloseReads(cfg: Settings, p: Parser, s: Bytes, b: Byte, head: seq<Bytes>, pieces: seq<Bytes>)
    requires Live(p) && !InBody(p.state) && Unclaimed(p.state)
    requires Whole(cfg, p, s).live && HeadersComplete in Step(cfg, Whole(cfg, p, s).p, b).notes
    requires cfg.onHeadersComplete == Proceed || cfg.onHeadersComplete == SkipBody
    requires FramingOf(Whole(cfg, p, s).p.line, cfg.onHeadersComplete == SkipBody, Received(Whole(cfg, p, s)).lines)
          == UntilClose
    requires IsCutOf(head, s + [b]) && FeedAll(cfg, Fresh(p, 0), head).p.errno != HPE_HEADER_OVERFLOW
    requires NoneEmpty(pieces)
    ensures var f := FeedAll(cfg, Fresh(p, 0), head);
            var g := FeedAll(cfg, f, pieces);
            && g == f.(out := WithBody(f.out, Concat(pieces)), pos := f.pos + |Concat(pieces)|) && !g.stopped
            && Feed(cfg, g, []).out == Push(g.out, MessageComplete)
  {
    hide Step, Inv, FeedAll, ReadAll, NoteAll, FramingOf, Unclaimed, WithBody, Push, PushAll, TextOf;
    FramingDecision(cfg, p, s, b);
    ReadOneMore(cfg, AtFirst(p), s, b);
    FeedAllPlace(cfg, p, 0, head);
    var f := FeedAll(cfg, Fresh(p, 0), head);
    BodyAllFed(cfg, f, pieces);
    var g := FeedAll(cfg, f, pieces);
    PushAllOne(g.out, MessageComplete);
  }
}
