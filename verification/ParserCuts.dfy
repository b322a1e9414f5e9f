/** Independence of the parser from how the network cuts the stream into calls. */
module ParserCuts {
  import opened Ascii
  import opened ParserTypes
  import opened ParserStep
  import opened ParserInvariant
  import opened ParserRun
  import opened ParserEvents

  /** A reading of the stream that knows no calls: every byte of a text is delivered at once and
      merged with what it continues. `gap` holds just after a byte other than LF took the
      parser from s_header_almost_done back to s_header_value; `clean` while no byte has been accepted in a gap. */
  datatype Stream = Stream(p: Parser, out: seq<Event>, pos: nat, live: bool, gap: bool, clean: bool)

  /** A stream in order: running, with no gap before or behind. */
  predicate Neat(e: Stream) { e.live && e.clean && !e.gap }

  /** The text a byte adds to the stream of callbacks. */
  function TextOf(s: State, op: MarkOp, b: Byte, t: State): seq<Event> {
    match op
    case Keep =>
      (match ZoneOf(s)
       case UrlZone => [Piece(Url, [b], t)]
       case FieldZone => [Piece(Field, [b], t)]
       case ValueZone => [Piece(Value, [b], t)]
       case _ => [])
    case Start(k) => [Piece(k, [b], t)]
    case Flush(k, at) => if k == Body then [] else [Piece(k, [], at)]
    case MarkFlush(k, at) => [Piece(k, [], at)]
    case Take(k) => [Piece(k, [b], t)]
  }

  function Accept(e: Stream, a: Act, b: Byte): Stream {
    if a.ctl == StopBefore then e.(p := a.p, out := PushAll(e.out, a.notes), live := false)
    else Stream(a.p,
                PushAll(PushAll(e.out, TextOf(e.p.state, a.op, b, a.p.state)), a.notes),
                e.pos + 1,
                a.ctl == Next,
                e.p.state == S_HEADER_ALMOST_DONE && a.p.state == S_HEADER_VALUE,
                e.clean && !e.gap)
  }

  function Read(cfg: Settings, e: Stream, b: Byte): Stream {
    if e.live then Accept(e, Step(cfg, e.p, b), b) else e
  }

  function ReadAll(cfg: Settings, e: Stream, s: Bytes): Stream {
    if s == [] then e else Read(cfg, ReadAll(cfg, e, s[..|s| - 1]), s[|s| - 1])
  }

  lemma ReadOneMore(cfg: Settings, e: Stream, s: Bytes, b: Byte)
    ensures ReadAll(cfg, e, s + [b]) == Read(cfg, ReadAll(cfg, e, s), b)
  {
    hide Read;
    assert (s + [b])[..|s + [b]| - 1] == s;
  }

  lemma {:induction false} ReadAllAppend(cfg: Settings, e: Stream, s: Bytes, t: Bytes)
    ensures ReadAll(cfg, e, s + t) == ReadAll(cfg, ReadAll(cfg, e, s), t)
    decreases |t|
  {
    hide Read;
    if t == [] {
      assert s + t == s;
    } else {
      assert (s + t)[..|s + t| - 1] == s + t[..|t| - 1];
      ReadAllAppend(cfg, e, s, t[..|t| - 1]);
    }
  }

  /** Two streams that differ at most in where there was a gap. */
  predicate SameButGaps(e: Stream, d: Stream) { d == e.(gap := d.gap, clean := d.clean) }

  lemma {:induction false} GapsDoNotMatter(cfg: Settings, e: Stream, d: Stream, s: Bytes)
    requires SameButGaps(e, d)
    ensures SameButGaps(ReadAll(cfg, e, s), ReadAll(cfg, d, s))
  {
    hide Step, PushAll, TextOf;
    if s != [] { GapsDoNotMatter(cfg, e, d, s[..|s| - 1]); }
  }

  // ---------------------------------------------------------------- one call reads like the stream

  /** The callback a run would make if it ran out of bytes now. */
  function Pending(r: Run): seq<Event> {
    if r.mark.Mark? && r.mark.text != [] then [Piece(r.mark.k, r.mark.text, r.p.state)] else []
  }

  /** The callbacks `seen` before the call together with those of the run. */
  function Delivered(seen: seq<Event>, r: Run): seq<Event> { PushAll(PushAll(seen, r.out), Pending(r)) }

  /** A run inside a call that started at stream position `off` with `seen` delivered, and the
      reading of the whole stream. */
  predicate Agrees(seen: seq<Event>, off: nat, r: Run, e: Stream) {
    && r.p == e.p
    && off + r.pos == e.pos
    && r.live == e.live
    && (r.live ==> Delivered(seen, r) == e.out)
    && (!r.live && Usable(r.p.errno) ==> PushAll(seen, r.out) == e.out)
    && (r.live && r.p.state == S_HEADER_VALUE && r.mark == NoMark ==> e.gap)
  }

  /** The callback for marked text, if there is any. */
  function Add(es: seq<Event>, k: Kind, t: Bytes, at: State): seq<Event> {
    if t == [] then es else Push(es, Piece(k, t, at))
  }

  lemma AddThenPush(es: seq<Event>, k: Kind, t: Bytes, s: State, u: Bytes, at: State)
    requires t == [] || Open(Piece(k, t, s))
    ensures Push(Add(es, k, t, s), Piece(k, u, at)) == Push(es, Piece(k, t + u, at))
  {
    if t == [] {
      assert t + u == u;
    } else {
      PushTwice(es, k, t, s, u, at);
    }
  }

  lemma PushOptional(es: seq<Event>, m: Mark, at: State)
    ensures var pend := if m.Mark? && m.text != [] then [Piece(m.k, m.text, at)] else [];
            PushAll(es, pend) == if m.Mark? then Add(es, m.k, m.text, at) else es
  {
    if m.Mark? { PushAllOne(es, Piece(m.k, m.text, at)); }
  }

  /** A step that ends a text. */
  lemma TextEnds(base: seq<Event>, s: State, m: Mark, op: MarkOp, b: Byte, t: State)
    requires OpFits(s, op, t) && MarkFits(ZoneOf(s), m) && (op.Flush? || op.MarkFlush?)
             && (s == S_HEADER_VALUE ==> m.Mark?)
    ensures var before := if m.Mark? then Add(base, m.k, m.text, s) else base;
            PushAll(before, TextOf(s, op, b, t)) == PushAll(base, Flushed(m, op, b))
  {
    hide Push, InUrl;
    var before := if m.Mark? then Add(base, m.k, m.text, s) else base;
    if op.Flush? {
      var k, at := op.k, op.at;
      if m.Mark? {
        AddThenPush(base, k, m.text, s, [], at);
        assert m.text + [] == m.text;
        PushAllOne(before, Piece(k, [], at));
        PushAllOne(base, Piece(k, m.text, at));
      }
    } else {
      var k, at := op.k, op.at;
      AddThenPush(base, k, MarkedText(m, k), s, [], at);
      assert MarkedText(m, k) + [] == MarkedText(m, k);
      PushAllOne(before, Piece(k, [], at));
      PushAllOne(base, Piece(k, MarkedText(m, k), at));
    }
  }

  /** In a step that goes on, the text called back and the text still pending afterwards are
      the text pending before and what the byte adds. */
  lemma TextStep(base: seq<Event>, s: State, m: Mark, op: MarkOp, b: Byte, t: State)
    requires OpFits(s, op, t) && MarkFits(ZoneOf(s), m)
    requires s == S_HEADER_VALUE ==> m.Mark?
    ensures var n := NextMark(m, op, b);
            var before := if m.Mark? then Add(base, m.k, m.text, s) else base;
            var called := PushAll(base, Flushed(m, op, b));
            PushAll(before, TextOf(s, op, b, t)) == if n.Mark? then Add(called, n.k, n.text, t) else called
  {
    hide Push, InUrl;
    var before := if m.Mark? then Add(base, m.k, m.text, s) else base;
    match op {
      case Keep =>
        if m.Mark? {
          AddThenPush(base, m.k, m.text, s, [b], t);
          PushAllOne(before, Piece(m.k, [b], t));
        }
      case Start(k) =>
        AddThenPush(base, k, MarkedText(m, k), s, [b], t);
        PushAllOne(before, Piece(k, [b], t));
      case Flush(k, at) => TextEnds(base, s, m, op, b, t);
      case MarkFlush(k, at) => TextEnds(base, s, m, op, b, t);
      case Take(k) =>
        AddThenPush(base, k, MarkedText(m, k), s, [b], t);
        PushAllOne(before, Piece(k, [b], t));
        PushAllOne(base, Piece(k, MarkedText(m, k) + [b], S_MESSAGE_DONE));
    }
  }

  /** The same with the notifications that follow the text. */
  lemma NotedTextStep(seen: seq<Event>, r: Run, a: Act, b: Byte)
    requires r.live && RunFits(r) && Fits(r.p, a) && a.ctl != StopBefore
    requires r.p.state == S_HEADER_VALUE ==> r.mark.Mark?
    ensures PushAll(PushAll(Delivered(seen, r), TextOf(r.p.state, a.op, b, a.p.state)), a.notes)
            == Delivered(seen, Apply(r, a, b))
  {
    hide Inv, ZoneOf, ZoneFits, Push, TextOf, Flushed;
    var q := Apply(r, a, b);
    var n := NextMark(r.mark, a.op, b);
    var base := PushAll(seen, r.out);
    var called := PushAll(base, Flushed(r.mark, a.op, b));
    PushOptional(base, r.mark, r.p.state);
    TextStep(base, r.p.state, r.mark, a.op, b, a.p.state);
    PushAllAppend(seen, r.out, Flushed(r.mark, a.op, b));
    PushAllAppend(seen, r.out + Flushed(r.mark, a.op, b), a.notes);
    PushOptional(PushAll(seen, q.out), q.mark, q.p.state);
    if a.ctl == StopAfter || a.notes != [] {
      assert n == NoMark;
    } else {
      assert PushAll(called, []) == called;
    }
  }

  lemma AgreesStep(cfg: Settings, seen: seq<Event>, off: nat, r: Run, e: Stream, b: Byte)
    requires RunFits(r) && Agrees(seen, off, r, e)
    requires Read(cfg, e, b).clean
    ensures Agrees(seen, off, Advance(cfg, r, b), Read(cfg, e, b))
  {
    hide Step, Inv, ZoneFits, Push, TextOf, Flushed;
    if r.live {
      StepFits(cfg, r.p, b);
      var a := Step(cfg, r.p, b);
      if a.ctl == StopBefore {
        PushAllAppend(seen, r.out, a.notes);
      } else {
        NotedTextStep(seen, r, a, b);
        NextMarkGap(r.p.state, r.mark, a.op, b, a.p.state);
      }
    }
  }

  /** A step into s_header_value that leaves no mark comes from s_header_almost_done. */
  lemma NextMarkGap(s: State, m: Mark, op: MarkOp, b: Byte, t: State)
    requires OpFits(s, op, t) && MarkFits(ZoneOf(s), m) && (s == S_HEADER_VALUE ==> m.Mark?)
    ensures t == S_HEADER_VALUE && NextMark(m, op, b) == NoMark ==> s == S_HEADER_ALMOST_DONE
  {
  }

  lemma {:induction false} AgreesAll(cfg: Settings, seen: seq<Event>, off: nat, r: Run, e: Stream, s: Bytes)
    requires RunFits(r) && Agrees(seen, off, r, e)
    requires ReadAll(cfg, e, s).clean
    ensures Agrees(seen, off, RunOver(cfg, r, s), ReadAll(cfg, e, s))
  {
    hide Agrees, RunFits, Step;
    if s != [] {
      var t := s[..|s| - 1];
      assert ReadAll(cfg, e, s) == Read(cfg, ReadAll(cfg, e, t), s[|s| - 1]);
      AgreesAll(cfg, seen, off, r, e, t);
      RunOverFits(cfg, r, t);
      AgreesStep(cfg, seen, off, RunOver(cfg, r, t), ReadAll(cfg, e, t), s[|s| - 1]);
    }
  }

  // ---------------------------------------------------------------- calls in a row

  /** The parser after some calls: its struct, `nread`, the callbacks of all calls merged, the
      bytes consumed in all, and whether a call returned early, after which no more are made. */
  datatype Fed = Fed(p: Parser, nread: nat, out: seq<Event>, pos: nat, stopped: bool)

  function Fresh(p: Parser, nread: nat): Fed { Fed(p, nread, [], 0, false) }

  function Feed(cfg: Settings, f: Fed, data: Bytes): Fed {
    if f.stopped then f
    else
      var o := Call(cfg, f.p, f.nread, data);
      Fed(o.p, o.nread, PushAll(f.out, o.calls), f.pos + o.consumed, o.stopped)
  }

  function FeedAll(cfg: Settings, f: Fed, pieces: seq<Bytes>): Fed {
    if pieces == [] then f else Feed(cfg, FeedAll(cfg, f, pieces[..|pieces| - 1]), pieces[|pieces| - 1])
  }

  function Concat(pieces: seq<Bytes>): Bytes {
    if pieces == [] then [] else Concat(pieces[..|pieces| - 1]) + pieces[|pieces| - 1]
  }

  predicate NoneEmpty(pieces: seq<Bytes>) { forall i :: 0 <= i < |pieces| ==> pieces[i] != [] }

  /** The reading of a stream from its first byte. */
  function Whole(cfg: Settings, p: Parser, s: Bytes): Stream {
    ReadAll(cfg, Stream(p, [], 0, true, false, true), s)
  }

  predicate FedAgrees(f: Fed, e: Stream) {
    && f.p == e.p
    && f.pos == e.pos
    && f.stopped == !e.live
    && (Usable(f.p.errno) ==> f.out == e.out)
  }

  lemma {:induction false} CleanBefore(cfg: Settings, e: Stream, s: Bytes, t: Bytes)
    requires ReadAll(cfg, e, s + t).clean
    ensures ReadAll(cfg, e, s).clean
    decreases |t|
  {
    hide Step;
    if t == [] {
      assert s + t == s;
    } else {
      assert (s + t)[..|s + t| - 1] == s + t[..|t| - 1];
      CleanBefore(cfg, e, s, t[..|t| - 1]);
    }
  }

  lemma {:induction false} ReadAllStopped(cfg: Settings, e: Stream, s: Bytes)
    requires !e.live
    ensures ReadAll(cfg, e, s) == e
  {
    if s != [] { ReadAllStopped(cfg, e, s[..|s| - 1]); }
  }

  /** One more call, on bytes that leave the stream clean. */
  lemma FeedReads(cfg: Settings, f: Fed, e: Stream, data: Bytes)
    requires FedAgrees(f, e) && Inv(f.p) && data != []
    requires !f.stopped ==> f.p.errno == HPE_OK
    requires ReadAll(cfg, e, data).clean
    requires Feed(cfg, f, data).p.errno != HPE_HEADER_OVERFLOW
    ensures var g := Feed(cfg, f, data);
            FedAgrees(g, ReadAll(cfg, e, data)) && Inv(g.p) && (!g.stopped ==> g.p.errno == HPE_OK)
  {
    hide Step, Inv, PushAll, RunOver, ReadAll;
    if f.stopped {
      ReadAllStopped(cfg, e, data);
    } else {
      var r := Begin(f.p, f.nread);
      BeginFits(f.p, f.nread);
      assert PushAll(f.out, []) == f.out by { PushNothing(f.out); }
      assert Pending(r) == [];
      assert Agrees(f.out, f.pos, r, e);
      AgreesAll(cfg, f.out, f.pos, r, e, data);
      RunOverFits(cfg, r, data);
      var q := RunOver(cfg, r, data);
      if q.live {
        FinishFlushes(cfg, r, data);
        PushAllAppend(f.out, q.out, Pending(q));
      }
    }
  }

  lemma PushNothing(es: seq<Event>)
    ensures PushAll(es, []) == es
  {
  }

  /** A call with bytes left no empty mark behind, so the callback at its end is the pending one. */
  lemma FinishFlushes(cfg: Settings, r: Run, data: Bytes)
    requires r.live && RunFits(r) && data != []
    ensures var q := RunOver(cfg, r, data);
            q.live ==> Pending(q) == if q.mark.Mark? then [Piece(q.mark.k, q.mark.text, q.p.state)] else []
  {
    hide Step, Inv;
    var t := data[..|data| - 1];
    RunOverPos(cfg, r, t);
    assert RunOver(cfg, r, data) == Advance(cfg, RunOver(cfg, r, t), data[|data| - 1]);
  }

  lemma {:induction false} FeedAllReads(cfg: Settings, p: Parser, nread: nat, pieces: seq<Bytes>)
    requires Live(p) && NoneEmpty(pieces)
    requires Whole(cfg, p, Concat(pieces)).clean
    requires FeedAll(cfg, Fresh(p, nread), pieces).p.errno != HPE_HEADER_OVERFLOW
    ensures var f := FeedAll(cfg, Fresh(p, nread), pieces);
            FedAgrees(f, Whole(cfg, p, Concat(pieces))) && Inv(f.p) && (!f.stopped ==> f.p.errno == HPE_OK)
  {
    hide Step, Inv, Feed;
    if pieces != [] {
      var front, last := pieces[..|pieces| - 1], pieces[|pieces| - 1];
      var e := Stream(p, [], 0, true, false, true);
      CleanBefore(cfg, e, Concat(front), last);
      ReadAllAppend(cfg, e, Concat(front), last);
      var f := FeedAll(cfg, Fresh(p, nread), front);
      if f.p.errno == HPE_HEADER_OVERFLOW { OverflowStays(cfg, f, last); }
      FeedAllReads(cfg, p, nread, front);
      FeedReads(cfg, f, Whole(cfg, p, Concat(front)), last);
    }
  }

  lemma OverflowStays(cfg: Settings, f: Fed, data: Bytes)
    requires f.p.errno == HPE_HEADER_OVERFLOW
    ensures Feed(cfg, f, data).p.errno == HPE_HEADER_OVERFLOW
  {
    hide RunOver;
  }

  // ---------------------------------------------------------------- the struct alone

  /** A run and the reading of the stream at the same place, whatever became of the callbacks. */
  predicate SamePlace(off: nat, r: Run, e: Stream) { r.p == e.p && off + r.pos == e.pos && r.live == e.live }

  lemma {:induction false} SamePlaceAll(cfg: Settings, off: nat, r: Run, e: Stream, s: Bytes)
    requires SamePlace(off, r, e)
    ensures SamePlace(off, RunOver(cfg, r, s), ReadAll(cfg, e, s))
  {
    hide Step, PushAll, Flushed, NextMark, TextOf;
    if s != [] {
      SamePlaceAll(cfg, off, r, e, s[..|s| - 1]);
    }
  }

  predicate FedPlace(f: Fed, e: Stream) {
    f.p == e.p && f.pos == e.pos && f.stopped == !e.live && Inv(f.p) && (!f.stopped ==> f.p.errno == HPE_OK)
  }

  lemma FeedPlace(cfg: Settings, f: Fed, e: Stream, data: Bytes)
    requires FedPlace(f, e) && data != [] && Feed(cfg, f, data).p.errno != HPE_HEADER_OVERFLOW
    ensures FedPlace(Feed(cfg, f, data), ReadAll(cfg, e, data))
  {
    hide Step, Inv, PushAll, RunOver, ReadAll;
    if f.stopped {
      ReadAllStopped(cfg, e, data);
    } else {
      var r := Begin(f.p, f.nread);
      BeginFits(f.p, f.nread);
      RunOverFits(cfg, r, data);
      SamePlaceAll(cfg, f.pos, r, e, data);
    }
  }

  lemma {:induction false} FeedAllPlace(cfg: Settings, p: Parser, nread: nat, pieces: seq<Bytes>)
    requires Live(p) && NoneEmpty(pieces) && FeedAll(cfg, Fresh(p, nread), pieces).p.errno != HPE_HEADER_OVERFLOW
    ensures FedPlace(FeedAll(cfg, Fresh(p, nread), pieces), Whole(cfg, p, Concat(pieces)))
  {
    hide Step, Inv, Feed, ReadAll;
    var e := Stream(p, [], 0, true, false, true);
    if pieces == [] {
      ReadNothing(cfg, e);
    } else {
      var front, last := pieces[..|pieces| - 1], pieces[|pieces| - 1];
      var f := FeedAll(cfg, Fresh(p, nread), front);
      if f.p.errno == HPE_HEADER_OVERFLOW { OverflowStays(cfg, f, last); }
      FeedAllPlace(cfg, p, nread, front);
      FeedPlace(cfg, f, Whole(cfg, p, Concat(front)), last);
      ReadAllAppend(cfg, e, Concat(front), last);
    }
  }

  lemma ReadNothing(cfg: Settings, e: Stream)
    ensures ReadAll(cfg, e, []) == e
  {
  }

  // ---------------------------------------------------------------- the theorem

  /** Two ways to feed a stream come to the same: the same struct (apart from `nread`), the same
      position, and, unless a parse error stopped them, the same callbacks up to the pieces. */
  predicate SameOutcome(f: Fed, g: Fed) {
    && f.p == g.p
    && f.pos == g.pos
    && f.stopped == g.stopped
    && (Usable(f.p.errno) ==> f.out == g.out)
  }

  /** Cut independence: fed in any pieces, a stream comes to the same struct, position and stop as in
      one call, and, if it is clean, to the same callbacks, unless the header limit, which is checked
      once per call, stops one of the two. */
  lemma CutIndependence(cfg: Settings, p: Parser, nread: nat, pieces: seq<Bytes>)
    requires Live(p) && NoneEmpty(pieces) && pieces != []
    requires FeedAll(cfg, Fresh(p, nread), pieces).p.errno != HPE_HEADER_OVERFLOW
    requires Feed(cfg, Fresh(p, nread), Concat(pieces)).p.errno != HPE_HEADER_OVERFLOW
    ensures var f, g := FeedAll(cfg, Fresh(p, nread), pieces), Feed(cfg, Fresh(p, nread), Concat(pieces));
            f.p == g.p && f.pos == g.pos && f.stopped == g.stopped
    ensures Whole(cfg, p, Concat(pieces)).clean ==>
              SameOutcome(FeedAll(cfg, Fresh(p, nread), pieces), Feed(cfg, Fresh(p, nread), Concat(pieces)))
  {
    hide Step, Inv, Feed;
    var s := Concat(pieces);
    var e := Stream(p, [], 0, true, false, true);
    FeedAllPlace(cfg, p, nread, pieces);
    FeedPlace(cfg, Fresh(p, nread), e, s);
    if Whole(cfg, p, s).clean {
      FeedAllReads(cfg, p, nread, pieces);
      FeedReads(cfg, Fresh(p, nread), e, s);
    }
  }

  ghost predicate IsCutOf(pieces: seq<Bytes>, s: Bytes) { NoneEmpty(pieces) && pieces != [] && Concat(pieces) == s }

  /** However a beginning of the stream is cut, it comes to the same as in one call. */
  ghost predicate CutsAgree(cfg: Settings, p: Parser, s: Bytes) {
    forall n, pieces :: 0 < n <= |s| && IsCutOf(pieces, s[..n]) ==>
      SameOutcome(FeedAll(cfg, Fresh(p, 0), pieces), Feed(cfg, Fresh(p, 0), s[..n]))
  }

  /** No way to cut a beginning of the stream runs into the header limit. */
  ghost predicate WithinLimit(cfg: Settings, p: Parser, s: Bytes) {
    forall n, pieces :: 0 < n <= |s| && IsCutOf(pieces, s[..n]) ==>
      FeedAll(cfg, Fresh(p, 0), pieces).p.errno != HPE_HEADER_OVERFLOW
  }

  lemma OnePiece(cfg: Settings, f: Fed, s: Bytes)
    requires s != []
    ensures IsCutOf([s], s) && FeedAll(cfg, f, [s]) == Feed(cfg, f, s)
  {
    hide Feed;
    assert [s][..0] == [] && Concat([]) == [];
    assert Concat([s]) == [] + s;
  }

  lemma TwoPieces(cfg: Settings, f: Fed, s: Bytes, t: Bytes)
    requires s != [] && t != []
    ensures IsCutOf([s, t], s + t) && FeedAll(cfg, f, [s, t]) == Feed(cfg, Feed(cfg, f, s), t)
  {
    hide Feed;
    assert [s, t][..1] == [s];
    OnePiece(cfg, f, s);
  }

  /** The position of the first accepted byte in a gap. */
  lemma {:induction false} FirstGap(cfg: Settings, p: Parser, s: Bytes) returns (i: nat)
    requires !Whole(cfg, p, s).clean
    ensures 0 < i < |s|
    ensures var e := Whole(cfg, p, s[..i]); e.clean && e.gap && e.live && Step(cfg, e.p, s[i]).ctl != StopBefore
  {
    hide Step, PushAll;
    var t := s[..|s| - 1];
    if Whole(cfg, p, t).clean {
      i := |t|;
      assert s[..i] == t;
    } else {
      i := FirstGap(cfg, p, t);
      assert s[..i] == t[..i];
    }
  }

  /** In a gap the one call that is still running has lost its mark. */
  lemma GapLosesMark(cfg: Settings, p: Parser, s: Bytes)
    requires Live(p) && s != []
    requires var e := Whole(cfg, p, s); e.clean && e.gap && e.live
    ensures var r := RunOver(cfg, Begin(p, 0), s);
            r.live && r.p.state == S_HEADER_VALUE && r.mark == NoMark && r.p == Whole(cfg, p, s).p
  {
    hide Step, Inv, PushAll;
    var t := s[..|s| - 1];
    var e0 := Stream(p, [], 0, true, false, true);
    BeginFits(p, 0);
    PushNothing([]);
    AgreesAll(cfg, [], 0, Begin(p, 0), e0, s);
    CleanBefore(cfg, e0, t, [s[|s| - 1]]);
    AgreesAll(cfg, [], 0, Begin(p, 0), e0, t);
    RunOverFits(cfg, Begin(p, 0), t);
    var r := RunOver(cfg, Begin(p, 0), t);
    StepFits(cfg, r.p, s[|s| - 1]);
  }

  lemma PushChanges(es: seq<Event>, f: Event)
    requires f.Data? && (f.text != [] || !Open(f))
    ensures Push(es, f) != es
  {
    if es != [] && Continues(es[|es| - 1], f) {
      var last := Push(es, f)[|es| - 1];
      assert last.text == es[|es| - 1].text + f.text;
    }
  }

  /** A byte of a header value makes no notification. */
  lemma ValueStep(cfg: Settings, p: Parser, b: Byte)
    requires p.state == S_HEADER_VALUE && Step(cfg, p, b).ctl != StopBefore
    ensures var a := Step(cfg, p, b);
            a.ctl == Next && a.notes == [] && (a.op == Keep || a.op == Flush(Value, S_HEADER_ALMOST_DONE))
  {
  }

  /** An accepted byte in a gap leaves no trace among the callbacks of the call it is in. */
  lemma GapInOneCall(cfg: Settings, f: Fed, s: Bytes, b: Byte)
    requires !f.stopped && f.p.errno == HPE_OK
    requires var r := RunOver(cfg, Begin(f.p, f.nread), s);
             r.live && r.p.state == S_HEADER_VALUE && r.mark == NoMark && Step(cfg, r.p, b).ctl != StopBefore
    requires Feed(cfg, f, s + [b]).p.errno != HPE_HEADER_OVERFLOW
    ensures var r := RunOver(cfg, Begin(f.p, f.nread), s);
            Feed(cfg, f, s + [b]).out == PushAll(f.out, r.out)
  {
    hide Step, PushAll, RunOver;
    var r := RunOver(cfg, Begin(f.p, f.nread), s);
    ValueStep(cfg, r.p, b);
    OneMoreByte(cfg, Begin(f.p, f.nread), s, b);
    assert r.out + [] + [] + [] == r.out;
  }

  /** A call that starts with the byte makes one more callback for it. */
  lemma GapInNewCall(cfg: Settings, f: Fed, b: Byte)
    requires !f.stopped && Live(f.p) && f.p.state == S_HEADER_VALUE && Step(cfg, f.p, b).ctl != StopBefore
    requires Feed(cfg, f, [b]).p.errno != HPE_HEADER_OVERFLOW
    ensures Feed(cfg, f, [b]).out != f.out && Feed(cfg, f, [b]).p.errno == HPE_OK
  {
    hide Step, Inv, Push;
    ValueStep(cfg, f.p, b);
    StepFits(cfg, f.p, b);
    var a := Step(cfg, f.p, b);
    var r := Begin(f.p, f.nread);
    assert r.mark == Mark(Value, []);
    OneMoreByte(cfg, r, [], b);
    assert [] + [b] == [b];
    assert RunOver(cfg, r, []) == r;
    var g := if a.op == Keep then Piece(Value, [] + [b], a.p.state) else Piece(Value, [], S_HEADER_ALMOST_DONE);
    assert Feed(cfg, f, [b]).out == PushAll(f.out, [g]);
    PushAllOne(f.out, g);
    PushChanges(f.out, g);
  }

  /** So the stream comes to something else when it is cut just before that byte. */
  lemma GapMatters(cfg: Settings, p: Parser, s: Bytes, b: Byte)
    requires Live(p) && s != []
    requires var e := Whole(cfg, p, s); e.clean && e.gap && e.live && Step(cfg, e.p, b).ctl != StopBefore
    requires Feed(cfg, Fresh(p, 0), s + [b]).p.errno != HPE_HEADER_OVERFLOW
    requires Feed(cfg, Feed(cfg, Fresh(p, 0), s), [b]).p.errno != HPE_HEADER_OVERFLOW
    ensures !SameOutcome(Feed(cfg, Feed(cfg, Fresh(p, 0), s), [b]), Feed(cfg, Fresh(p, 0), s + [b]))
  {
    hide Step, Inv, PushAll, RunOver, ReadAll;
    GapLosesMark(cfg, p, s);
    BeginFits(p, 0);
    RunOverFits(cfg, Begin(p, 0), s);
    GapInOneCall(cfg, Fresh(p, 0), s, b);
    var first := Feed(cfg, Fresh(p, 0), s);
    var r := RunOver(cfg, Begin(p, 0), s);
    if first.p.errno == HPE_HEADER_OVERFLOW { OverflowStays(cfg, first, [b]); }
    assert r.out + [] == r.out;
    GapInNewCall(cfg, first, b);
  }

  lemma OneMoreByte(cfg: Settings, r: Run, s: Bytes, b: Byte)
    ensures RunOver(cfg, r, s + [b]) == Advance(cfg, RunOver(cfg, r, s), b)
  {
    hide Advance;
    assert (s + [b])[..|s + [b]| - 1] == s;
  }

  /** Cut independence holds exactly when no byte is accepted in a gap, that is, when a byte other
      than LF met in s_header_almost_done is never followed by another accepted byte. */
  lemma CutsAgreeExactlyWhenClean(cfg: Settings, p: Parser, s: Bytes)
    requires Live(p) && WithinLimit(cfg, p, s)
    ensures CutsAgree(cfg, p, s) <==> Whole(cfg, p, s).clean
  {
    hide Step, Inv, Feed, FeedAll, SameOutcome, ReadAll, Concat;
    var f := Fresh(p, 0);
    if Whole(cfg, p, s).clean {
      forall n, pieces | 0 < n <= |s| && IsCutOf(pieces, s[..n])
        ensures SameOutcome(FeedAll(cfg, f, pieces), Feed(cfg, f, s[..n]))
      {
        assert s == s[..n] + s[n..];
        CleanBefore(cfg, Stream(p, [], 0, true, false, true), s[..n], s[n..]);
        OnePiece(cfg, f, s[..n]);
        CutIndependence(cfg, p, 0, pieces);
      }
    } else {
      var i := FirstGap(cfg, p, s);
      var t, b := s[..i], s[i];
      assert s[..i + 1] == t + [b];
      OnePiece(cfg, f, t + [b]);
      TwoPieces(cfg, f, t, [b]);
      GapMatters(cfg, p, t, b);
    }
  }
}
