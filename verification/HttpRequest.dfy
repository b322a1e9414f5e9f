/** `HttpRequest`: a request put together from the callbacks of its parser. */
module HttpRequests {
  import opened Ascii
  import opened ParserTypes
  import opened ParserStep
  import opened ParserInvariant
  import opened ParserRun
  import opened ParserEvents
  import opened ParserCuts
  import opened ParserExecute
  import opened ByteBuffer
  import UrlParser

  /** The replies of the callbacks `HttpRequest` installs: OnMessageEnd pauses the parser. */
  const CALLBACKS := Settings(Proceed, Proceed, Pause, Proceed, Proceed)

  /** The members the callbacks write. */
  datatype Content = Content(
    url: Bytes, field: Bytes, value: Bytes, fields: map<Bytes, Bytes>, preState: State, body: Bytes,
    completed: bool, parts: UrlParser.Parts)

  /** A new request; the struct `u` is not initialised. */
  predicate IsNew(r: Content) {
    && r.url == [] && r.field == [] && r.value == [] && r.fields == map[]
    && r.preState == 0 && r.body == [] && !r.completed
  }

  function OnField(r: Content, x: Bytes, at: State): Content {
    r.(field := if r.preState == S_HEADER_FIELD then r.field + x else x, preState := at)
  }

  /** The value is moved into the map, which leaves it empty. */
  function OnValue(r: Content, x: Bytes, at: State): Content {
    var v := if r.preState == S_HEADER_VALUE then r.value + x else x;
    if at == S_HEADER_ALMOST_DONE then r.(fields := r.fields[r.field := v], field := [], value := [], preState := at)
    else r.(value := v, preState := at)
  }

  function Handle(r: Content, e: Event): Content {
    match e
    case Data(k, x, at) =>
      (match k
       case Url => r.(url := r.url + x)
       case Field => OnField(r, x, at)
       case Value => OnValue(r, x, at)
       case Body => r.(body := r.body + x)
       case Reason => r)
    case HeadersComplete => r.(parts := UrlParser.ParseUrl(r.url, true, r.parts).u)
    case MessageComplete => r.(completed := true)
    case MessageBegin => r
    case ChunkHeader(_) => r
    case ChunkComplete => r
  }

  function HandleAll(r: Content, es: seq<Event>): Content {
    if es == [] then r else Handle(HandleAll(r, es[..|es| - 1]), es[|es| - 1])
  }

  // ---------------------------------------------------------------- pieces of text do not matter

  lemma HandleTwice(r: Content, e: Event, f: Event)
    requires Continues(e, f)
    ensures Handle(Handle(r, e), f) == Handle(r, Data(f.kind, e.text + f.text, f.at))
  {
    assert r.url + e.text + f.text == r.url + (e.text + f.text);
    assert r.field + e.text + f.text == r.field + (e.text + f.text);
    assert r.value + e.text + f.text == r.value + (e.text + f.text);
    assert r.body + e.text + f.text == r.body + (e.text + f.text);
  }

  lemma HandlePush(r: Content, es: seq<Event>, f: Event)
    ensures HandleAll(r, Push(es, f)) == Handle(HandleAll(r, es), f)
  {
    hide Handle, Continues;
    if es != [] && Continues(es[|es| - 1], f) {
      var front, last := es[..|es| - 1], es[|es| - 1];
      assert f.Data? && last.Data? by { ContinuesData(last, f); }
      var g := Data(f.kind, last.text + f.text, f.at);
      assert Push(es, f) == front + [g];
      assert (front + [g])[..|front|] == front;
      HandleTwice(HandleAll(r, front), last, f);
    } else {
      assert (es + [f])[..|es|] == es;
    }
  }

  lemma ContinuesData(e: Event, f: Event)
    requires Continues(e, f)
    ensures e.Data? && f.Data?
  {
  }

  /** Handling the callbacks of many calls one by one is handling their merged stream. */
  lemma {:induction false} HandlePushAll(r: Content, es: seq<Event>, fs: seq<Event>)
    ensures HandleAll(r, PushAll(es, fs)) == HandleAll(HandleAll(r, es), fs)
    decreases |fs|
  {
    hide Handle, Push;
    if fs != [] {
      HandlePushAll(r, es, fs[..|fs| - 1]);
      HandlePush(r, PushAll(es, fs[..|fs| - 1]), fs[|fs| - 1]);
    }
  }

  // ---------------------------------------------------------------- completed means paused

  /** What a step ends in under these callbacks: it goes on, or it has completed the message and
      paused, or it has failed. */
  predicate Ends(a: Act) {
    match a.ctl
    case Next => a.p.errno == HPE_OK && MessageComplete !in a.notes
    case StopAfter => a.p.errno == HPE_PAUSED && MessageComplete in a.notes
    case StopBefore => !Usable(a.p.errno) && MessageComplete !in a.notes
  }

  lemma StartEnds(p: Parser, b: Byte)
    requires p.errno == HPE_OK && InStart(p.state)
    ensures Ends(StepStart(CALLBACKS, p, b))
  {
  }

  lemma MethodEnds(p: Parser, b: Byte)
    requires p.errno == HPE_OK
    ensures Ends(StepMethod(p, b))
  {
    hide MethodChar, MethodString;
  }

  lemma LineEnds(p: Parser, b: Byte)
    requires p.errno == HPE_OK && InLine(p.state)
    ensures Ends(StepLine(p, b))
  {
    hide LineMove, Perform, MoveFits;
    LineMoveFits(p.state, p.line.verb == M_CONNECT, b);
    MoveEnds(p, LineMove(p.state, p.line.verb == M_CONNECT, b), b);
  }

  lemma MoveEnds(p: Parser, m: Move, b: Byte)
    requires p.errno == HPE_OK && MoveFits(p.state, m)
    ensures Ends(Perform(p, m, b))
  {
    hide Digit;
  }

  lemma CompleteEnds(p: Parser, leave: bool)
    requires p.errno == HPE_OK
    ensures Ends(Complete(CALLBACKS, p, leave)) && Complete(CALLBACKS, p, leave).ctl == StopAfter
  {
  }

  lemma HeadersDoneEnds(p: Parser)
    requires p.errno == HPE_OK
    ensures Ends(StepHeadersDone(CALLBACKS, p))
  {
  }

  lemma HeadersAlmostDoneEnds(p: Parser, b: Byte)
    requires p.errno == HPE_OK
    ensures Ends(StepHeadersAlmostDone(CALLBACKS, p, b))
  {
    hide StepHeadersDone, Complete;
    var q := p.(state := S_HEADERS_DONE, upgrade := p.flags.upgrade || p.line.verb == M_CONNECT);
    HeadersDoneEnds(q);
    var m := p.(state := S_MESSAGE_DONE);
    CompleteEnds(m.(state := NewMessage(m)), m.upgrade);
  }

  lemma HeadersEnds(p: Parser, b: Byte)
    requires p.errno == HPE_OK && Inv(p)
    ensures Ends(StepHeaders(CALLBACKS, p, b))
  {
    hide StepHeadersAlmostDone, StepHeadersDone, StepValue, StepValueStart, Match, IsToken, Token, FirstHeaderState;
    if p.state == S_HEADER_VALUE_START || p.state == S_HEADER_VALUE {
      ValueEnds(p, b);
    } else {
      HeadersAlmostDoneEnds(p, b);
      HeadersAlmostDoneEnds(p.(state := S_HEADERS_ALMOST_DONE), b);
      HeadersDoneEnds(p);
    }
  }

  lemma ValueEnds(p: Parser, b: Byte)
    requires p.errno == HPE_OK
    ensures Ends(StepValueStart(p, b)) && Ends(StepValue(p, b))
  {
    hide StepValue, StepValueStart;
    FirstByteEnds(p, b);
    ValueByteEnds(p, b);
  }

  lemma FirstByteEnds(p: Parser, b: Byte)
    requires p.errno == HPE_OK
    ensures Ends(StepValueStart(p, b))
  {
  }

  lemma ValueByteEnds(p: Parser, b: Byte)
    requires p.errno == HPE_OK
    ensures Ends(StepValue(p, b))
  {
    hide Match;
  }

  lemma BodyEnds(p: Parser, b: Byte)
    requires p.errno == HPE_OK
    ensures Ends(StepBody(CALLBACKS, p, b))
  {
  }

  lemma StepEnds(p: Parser, b: Byte)
    requires Live(p)
    ensures Ends(Step(CALLBACKS, p, b))
  {
    hide StepStart, StepMethod, StepLine, StepHeaders, StepBody, Ends;
    if InStart(p.state) {
      StartEnds(p, b);
    } else if p.state == S_REQ_METHOD {
      MethodEnds(p, b);
    } else if InLine(p.state) {
      LineEnds(p, b);
    } else if InHeaders(p.state) {
      HeadersEnds(p, b);
    } else {
      BodyEnds(p, b);
    }
  }

  lemma {:induction false} CompletedIn(r: Content, es: seq<Event>)
    ensures HandleAll(r, es).completed <==> r.completed || MessageComplete in es
  {
    if es != [] {
      CompletedIn(r, es[..|es| - 1]);
      assert es == es[..|es| - 1] + [es[|es| - 1]];
    }
  }

  /** A run has completed the message exactly when it has paused, and then it has stopped. */
  predicate RunEnds(q: Run) {
    if q.live then q.p.errno == HPE_OK && MessageComplete !in q.out
    else if Usable(q.p.errno) then q.p.errno == HPE_PAUSED && MessageComplete in q.out
    else MessageComplete !in q.out
  }

  lemma AdvanceEnds(q: Run, b: Byte)
    requires RunFits(q) && RunEnds(q)
    ensures RunEnds(Advance(CALLBACKS, q, b))
  {
    hide Step, Inv, RunFits, Flushed, NextMark;
    if q.live {
      assert Live(q.p) by { RunFitsLive(q); }
      StepEnds(q.p, b);
      FlushedText(q.mark, Step(CALLBACKS, q.p, b).op, b);
    }
  }

  lemma RunFitsLive(q: Run)
    requires RunFits(q) && q.live
    ensures Live(q.p)
  {
  }

  lemma FlushedText(m: Mark, op: MarkOp, b: Byte)
    ensures MessageComplete !in Flushed(m, op, b)
  {
  }

  lemma {:induction false} RunOverEnds(r: Run, s: Bytes)
    requires RunFits(r) && RunEnds(r)
    ensures RunEnds(RunOver(CALLBACKS, r, s))
  {
    hide RunFits, RunEnds, Advance;
    if s != [] {
      RunOverEnds(r, s[..|s| - 1]);
      RunOverFits(CALLBACKS, r, s[..|s| - 1]);
      AdvanceEnds(RunOver(CALLBACKS, r, s[..|s| - 1]), s[|s| - 1]);
    }
  }

  /** A call with bytes: it goes on, having taken them all, or pauses on a complete message, or fails. */
  predicate CallEnds(o: Outcome, n: nat) {
    o.consumed <= n
    && if !o.stopped then o.p.errno == HPE_OK && MessageComplete !in o.calls && o.consumed == n
       else if Usable(o.p.errno) then o.p.errno == HPE_PAUSED && MessageComplete in o.calls
       else MessageComplete !in o.calls
  }

  lemma CallCompletes(p: Parser, nread: nat, data: Bytes)
    requires Live(p) && data != []
    ensures CallEnds(Call(CALLBACKS, p, nread, data), |data|)
  {
    hide Inv, RunOver;
    var r := Begin(p, nread);
    BeginFits(p, nread);
    RunOverEnds(r, data);
    RunOverPos(CALLBACKS, r, data);
  }

  // ---------------------------------------------------------------- Parse, as bytes arrive

  /** A request and the buffer of its connection. */
  datatype Session = Session(p: Parser, nread: nat, r: Content, buf: Bytes)

  /** HttpRequest::Parse. */
  function Parsed(s: Session): Session {
    var o := Call(CALLBACKS, s.p, s.nread, s.buf);
    Session(o.p, o.nread, HandleAll(s.r, o.calls),
            if o.p.errno != HPE_OK && o.p.errno != HPE_PAUSED then s.buf
            else if o.consumed < |s.buf| then s.buf[o.consumed..] else [])
  }

  /** Parse is called again: it has returned 0 and the request is not completed. */
  predicate Unfinished(s: Session) { s.p.errno == HPE_OK && !s.r.completed }

  /** Bytes arrive, and are parsed unless the request is finished. */
  function Arrive(s: Session, x: Bytes): Session {
    var t := s.(buf := s.buf + x);
    if Unfinished(s) then Parsed(t) else t
  }

  function ArriveAll(s: Session, pieces: seq<Bytes>): Session {
    if pieces == [] then s else Arrive(ArriveAll(s, pieces[..|pieces| - 1]), pieces[|pieces| - 1])
  }

  /** The session and the parser fed with the same pieces of `all`. */
  predicate Matches(s: Session, f: Fed, r: Content, all: Bytes) {
    s.p == f.p && s.nread == f.nread && s.r == HandleAll(r, f.out)
    && (f.stopped <==> !Unfinished(s)) && (s.r.completed <==> s.p.errno == HPE_PAUSED) && Inv(s.p)
    && (Usable(s.p.errno) ==> s.p.errno == HPE_OK || s.p.errno == HPE_PAUSED)
    && f.pos <= |all|
    && (!f.stopped ==> f.pos == |all|)
    && (Usable(s.p.errno) ==> s.buf == all[f.pos..])
  }

  lemma MatchesStep(s: Session, f: Fed, r: Content, all: Bytes, x: Bytes)
    requires Matches(s, f, r, all) && x != []
    ensures Matches(Arrive(s, x), Feed(CALLBACKS, f, x), r, all + x)
  {
    hide Inv, Call, HandleAll, PushAll;
    if f.stopped {
      if Usable(s.p.errno) {
        assert (all + x)[f.pos..] == all[f.pos..] + x;
      }
    } else {
      MatchesCall(s, f, r, all, x);
    }
  }

  lemma MatchesCall(s: Session, f: Fed, r: Content, all: Bytes, x: Bytes)
    requires Matches(s, f, r, all) && x != [] && !f.stopped
    ensures Matches(Arrive(s, x), Feed(CALLBACKS, f, x), r, all + x)
  {
    hide Inv, Call, HandleAll, PushAll, CallEnds;
    NothingLeft(s, f, r, all, x);
    var o := Call(CALLBACKS, s.p, s.nread, x);
    CallCompletes(s.p, s.nread, x);
    CallKeepsInv(CALLBACKS, s.p, s.nread, x);
    HandlePushAll(r, f.out, o.calls);
    CompletedIn(s.r, o.calls);
    CallTail(o, all, x);
  }

  lemma NothingLeft(s: Session, f: Fed, r: Content, all: Bytes, x: Bytes)
    requires Matches(s, f, r, all) && !f.stopped
    ensures s.buf + x == x && f.pos == |all| && s.p.errno == HPE_OK
  {
    hide Inv, HandleAll;
    assert s.buf == all[f.pos..] == [];
  }

  lemma CallTail(o: Outcome, all: Bytes, x: Bytes)
    requires CallEnds(o, |x|)
    ensures o.consumed <= |x| && (all + x)[|all| + o.consumed..] == x[o.consumed..]
    ensures MessageComplete in o.calls <==> o.p.errno == HPE_PAUSED
    ensures !o.stopped <==> o.p.errno == HPE_OK
    ensures Usable(o.p.errno) ==> o.p.errno == HPE_OK || o.p.errno == HPE_PAUSED
    ensures !o.stopped ==> o.consumed == |x|
  {
  }

  lemma {:induction false} ArriveAllMatches(s: Session, pieces: seq<Bytes>)
    requires Live(s.p) && !s.r.completed && s.buf == [] && NoneEmpty(pieces)
    ensures Matches(ArriveAll(s, pieces), FeedAll(CALLBACKS, Fresh(s.p, s.nread), pieces), s.r, Concat(pieces))
  {
    hide Inv, Matches, Arrive, Feed;
    if pieces == [] {
      StartMatches(s);
    } else {
      var front, last := pieces[..|pieces| - 1], pieces[|pieces| - 1];
      ArriveAllMatches(s, front);
      MatchesStep(ArriveAll(s, front), FeedAll(CALLBACKS, Fresh(s.p, s.nread), front), s.r, Concat(front), last);
    }
  }

  lemma StartMatches(s: Session)
    requires Live(s.p) && !s.r.completed && s.buf == []
    ensures Matches(s, Fresh(s.p, s.nread), s.r, [])
  {
    hide Inv;
  }

  /** However the bytes of a request arrive, and however many follow it, the parser is where it is when
      they all arrive at once, and, for a clean stream, so are the request read and the bytes left in the
      buffer, unless the header limit stops one of the two. */
  lemma RequestCutIndependence(s: Session, pieces: seq<Bytes>)
    requires Live(s.p) && !s.r.completed && s.buf == [] && NoneEmpty(pieces) && pieces != []
    requires ArriveAll(s, pieces).p.errno != HPE_HEADER_OVERFLOW
    requires Arrive(s, Concat(pieces)).p.errno != HPE_HEADER_OVERFLOW
    ensures var t, one := ArriveAll(s, pieces), Arrive(s, Concat(pieces));
      t.p == one.p
      && (t.p.errno == HPE_OK || t.p.errno == HPE_PAUSED ==>
            t.buf == one.buf && (Whole(CALLBACKS, s.p, Concat(pieces)).clean ==> t.r == one.r))
    ensures var t := ArriveAll(s, pieces); t.r.completed <==> t.p.errno == HPE_PAUSED
  {
    hide Inv, Feed, FeedAll, Call, HandleAll, ReadAll;
    var all := Concat(pieces);
    ArriveAllMatches(s, pieces);
    StartMatches(s);
    assert all != [] by { ConcatSome(pieces); }
    assert [] + all == all;
    MatchesStep(s, Fresh(s.p, s.nread), s.r, [], all);
    CutIndependence(CALLBACKS, s.p, s.nread, pieces);
  }

  lemma ConcatSome(pieces: seq<Bytes>)
    requires NoneEmpty(pieces) && pieces != []
    ensures Concat(pieces) != []
  {
  }

  predicate Failed(s: Session) { s.p.errno != HPE_OK && s.p.errno != HPE_PAUSED }

  /** After a parse error nothing is taken from the buffer: it holds the bytes of the call that failed, whole, and
      all that arrived later. */
  lemma {:induction false} BufferAfterError(s: Session, pieces: seq<Bytes>, k: nat)
    requires Live(s.p) && !s.r.completed && s.buf == [] && NoneEmpty(pieces) && k < |pieces|
    requires !Failed(ArriveAll(s, pieces[..k])) && Failed(ArriveAll(s, pieces[..k + 1]))
    ensures Failed(ArriveAll(s, pieces)) && ArriveAll(s, pieces).buf == Concat(pieces[k..])
    decreases |pieces|
  {
    hide Inv, Call, HandleAll, Concat, Matches;
    var front, last := pieces[..|pieces| - 1], pieces[|pieces| - 1];
    if k == |front| {
      assert pieces[..k + 1] == pieces && pieces[..k] == front && pieces[k..] == [last];
      ArriveAllMatches(s, front);
      StillEmpty(s, ArriveAll(s, front), FeedAll(CALLBACKS, Fresh(s.p, s.nread), front), Concat(front));
      ConcatOne(last);
      assert [] + last == last;
    } else {
      assert front[..k] == pieces[..k] && front[..k + 1] == pieces[..k + 1];
      BufferAfterError(s, front, k);
      ConcatMore(front[k..], last);
      assert pieces[k..] == front[k..] + [last];
    }
  }

  /** While no call has stopped, all that arrived was taken from the buffer. */
  lemma StillEmpty(s: Session, t: Session, f: Fed, all: Bytes)
    requires Matches(t, f, s.r, all) && !Failed(t)
    ensures Unfinished(t) ==> t.buf == []
    ensures !Unfinished(t) ==> t.p.errno == HPE_PAUSED
  {
    hide Inv, HandleAll;
  }

  lemma ConcatOne(x: Bytes)
    ensures Concat([x]) == x
  {
    assert [x][..0] == [];
    assert Concat([]) == [];
    assert [] + x == x;
  }

  lemma ConcatMore(pieces: seq<Bytes>, x: Bytes)
    ensures Concat(pieces + [x]) == Concat(pieces) + x
  {
    assert (pieces + [x])[..|pieces|] == pieces;
  }

  // ---------------------------------------------------------------- as an object

  class HttpRequest {
    const body: Buffer
    const parser: HttpParser
    const u: UrlParser.HttpParserUrl
    var fieldValue: map<Bytes, Bytes>
    var field: Bytes
    var value: Bytes
    var url: Bytes
    var preState: State
    var isCompleted: bool

    ghost predicate Valid()
      reads this, body, parser
    {
      body.Valid() && Inv(parser.fields)
    }

    ghost function View(): Content
      requires Valid()
      reads this, body, body.buffer, parser, u
    {
      Content(url, field, value, fieldValue, preState, body.Contents(), isCompleted, u.View())
    }

    /** The struct `u` and most of the parser's are whatever they were. */
    constructor (junk: Parser, anyUrl: UrlParser.HttpParserUrl)
      ensures Valid() && IsNew(View()) && parser.fields == Init(junk, Request) && parser.nread == 0
              && Live(parser.fields)
      ensures u == anyUrl && fresh(body) && fresh(body.buffer) && fresh(parser)
    {
      body := new Buffer(1024, CHEAP_PREPEND_SIZE);
      parser := new HttpParser(Request, junk);
      u := anyUrl;
      fieldValue, field, value, url, preState, isCompleted := map[], [], [], [], 0, false;
    }

    /** The callback for `e`; pausing the parser is the reply of OnMessageEnd. */
    method On(e: Event)
      requires Valid()
      modifies this, body, body.buffer, u
      ensures Valid() && (body.buffer == old(body.buffer) || fresh(body.buffer))
      ensures View() == Handle(old(View()), e)
    {
      match e
      case Data(k, x, at) =>
        if k == Url {
          url := url + x;
        } else if k == Field {
          field := if preState == S_HEADER_FIELD then field + x else x;
          preState := at;
        } else if k == Value {
          value := if preState == S_HEADER_VALUE then value + x else x;
          if at == S_HEADER_ALMOST_DONE {
            fieldValue, value := fieldValue[field := value], [];
            field := [];
          }
          preState := at;
        } else if k == Body {
          body.Write(x);
        }
      case HeadersComplete =>
        var r := u.Parse(url, true);
      case MessageComplete =>
        isCompleted := true;
      case MessageBegin =>
      case ChunkHeader(_) =>
      case ChunkComplete =>
    }

    /** Parse: 0, or the error of the parser. */
    method Parse(buf: Buffer) returns (err: Errno)
      requires Valid() && buf.Valid() && buf != body && buf.buffer != body.buffer
      modifies this, body, body.buffer, parser, u, buf
      ensures Valid() && buf.Valid() && (body.buffer == old(body.buffer) || fresh(body.buffer))
              && buf.buffer == old(buf.buffer)
      ensures Session(parser.fields, parser.nread, View(), buf.Contents())
           == Parsed(Session(old(parser.fields), old(parser.nread), old(View()), old(buf.Contents())))
      ensures err == if parser.fields.errno == HPE_PAUSED then HPE_OK else parser.fields.errno
    {
      hide Call, Inv, Handle;
      ghost var start := View();
      ghost var data := buf.Contents();
      var consumed, calls := parser.Execute(CALLBACKS, buf.buffer[buf.readIndex..buf.writeIndex]);
      assert View() == HandleAll(start, calls[..0]);
      var i := 0;
      while i < |calls|
        invariant 0 <= i <= |calls| && Valid() && (body.buffer == old(body.buffer) || fresh(body.buffer))
        invariant buf.Valid() && buf.buffer == old(buf.buffer) && buf.buffer != body.buffer && buf.Contents() == data
        invariant parser.fields == Call(CALLBACKS, old(parser.fields), old(parser.nread), data).p
        invariant parser.nread == Call(CALLBACKS, old(parser.fields), old(parser.nread), data).nread
        invariant View() == HandleAll(start, calls[..i])
      {
        On(calls[i]);
        assert calls[..i + 1][..i] == calls[..i];
        i := i + 1;
      }
      assert calls[..|calls|] == calls;
      if parser.fields.errno != HPE_OK && parser.fields.errno != HPE_PAUSED {
        return parser.fields.errno;
      }
      buf.Skip(consumed);
      return HPE_OK;
    }
  }
}
