/** What the parser does with the replies of the notification callbacks. */
module ParserReplies {
  import opened Ascii
  import opened ParserTypes
  import opened ParserStep
  import opened ParserInvariant

  function ReplyTo(cfg: Settings, v: Event): Reply {
    match v
    case MessageBegin => cfg.onMessageBegin
    case HeadersComplete => cfg.onHeadersComplete
    case ChunkHeader(_) => cfg.onChunkHeader
    case ChunkComplete => cfg.onChunkComplete
    case MessageComplete => cfg.onMessageComplete
    case Data(_, _, _) => Proceed
  }

  /** A reply that ends the call: not 0, except the 1 of on_headers_complete. */
  predicate Ends(cfg: Settings, v: Event) {
    ReplyTo(cfg, v) != Proceed && !(v.HeadersComplete? && ReplyTo(cfg, v) == SkipBody)
  }

  /** The error of a callback that fails. */
  function ErrorOf(v: Event): Errno {
    match v
    case MessageBegin => 1
    case HeadersComplete => 8
    case MessageComplete => 10
    case ChunkHeader(_) => 12
    case ChunkComplete => 13
    case Data(_, _, _) => 0
  }

  /** The call returns before the byte, or after it. */
  predicate BeforeByte(p: Parser, v: Event) {
    v.MessageBegin? || v.HeadersComplete? || (v.ChunkComplete? && InHeaders(p.state))
  }

  /** A callback whose reply ends the call is the last one, and stops the parser as its reply says; and only such a
      reply pauses the parser or sets the error of a callback. */
  predicate Obeys(cfg: Settings, p: Parser, a: Act) {
    && (forall i :: 0 <= i < |a.notes| && Ends(cfg, a.notes[i]) ==>
          && i == |a.notes| - 1
          && a.ctl == (if BeforeByte(p, a.notes[i]) then StopBefore else StopAfter)
          && a.p.errno == if ReplyTo(cfg, a.notes[i]) == Pause then HPE_PAUSED else ErrorOf(a.notes[i]))
    && (a.p.errno == HPE_PAUSED || 0 < a.p.errno < HPE_INVALID_EOF_STATE ==>
          a.notes != [] && Ends(cfg, a.notes[|a.notes| - 1]))
  }

  lemma StartObeys(cfg: Settings, p: Parser, b: Byte)
    requires p.errno == HPE_OK && InStart(p.state)
    ensures Obeys(cfg, p, StepStart(cfg, p, b))
  {
    hide FirstMethod;
  }

  lemma MethodObeys(cfg: Settings, p: Parser, b: Byte)
    requires p.errno == HPE_OK && p.state == S_REQ_METHOD
    ensures Obeys(cfg, p, StepMethod(p, b))
  {
    hide MethodChar;
  }

  lemma LineObeys(cfg: Settings, p: Parser, b: Byte)
    requires p.errno == HPE_OK && InLine(p.state)
    ensures Obeys(cfg, p, StepLine(p, b))
  {
    hide LineMove, Perform, MoveFits;
    LineMoveFits(p.state, p.line.verb == M_CONNECT, b);
    MoveObeys(cfg, p, LineMove(p.state, p.line.verb == M_CONNECT, b), b);
  }

  lemma MoveObeys(cfg: Settings, p: Parser, m: Move, b: Byte)
    requires p.errno == HPE_OK && MoveFits(p.state, m)
    ensures Obeys(cfg, p, Perform(p, m, b))
  {
    hide Digit;
  }

  lemma HeadersDoneObeys(cfg: Settings, p: Parser)
    requires p.errno == HPE_OK
    ensures Obeys(cfg, p, StepHeadersDone(cfg, p))
    ensures StepHeadersDone(cfg, p).notes == [] || StepHeadersDone(cfg, p).notes == [MessageComplete]
  {
  }

  lemma MessageDoneObeys(cfg: Settings, p: Parser)
    requires p.errno == HPE_OK
    ensures Obeys(cfg, p, StepMessageDone(cfg, p)) && StepMessageDone(cfg, p).notes == [MessageComplete]
  {
  }

  /** Behind a callback that returned 0. */
  lemma PrefixObeys(cfg: Settings, p: Parser, q: Parser, v: Event, a: Act)
    requires Obeys(cfg, q, a) && !Ends(cfg, v) && (a.notes == [] || a.notes == [MessageComplete])
    ensures Obeys(cfg, p, Prefixed(v, a))
  {
    var n := [v] + a.notes;
    assert forall i :: 0 < i < |n| ==> n[i] == a.notes[i - 1];
  }

  lemma EmptyLineObeys(cfg: Settings, p: Parser, b: Byte)
    requires p.errno == HPE_OK && p.state == S_HEADERS_ALMOST_DONE
    ensures Obeys(cfg, p, StepHeadersAlmostDone(cfg, p, b))
  {
    hide StepHeadersDone, StepMessageDone, Prefixed;
    if b == LF && p.flags.trailing && cfg.onChunkComplete == Proceed {
      var q := p.(state := S_MESSAGE_DONE);
      MessageDoneObeys(cfg, q);
      PrefixObeys(cfg, p, q, ChunkComplete, StepMessageDone(cfg, q));
    } else if b == LF && !p.flags.trailing {
      var q := p.(state := S_HEADERS_DONE, upgrade := p.flags.upgrade || p.line.verb == M_CONNECT);
      var r := q.(flags := q.flags.(skipBody := true));
      HeadersDoneObeys(cfg, q);
      HeadersDoneObeys(cfg, r);
      if cfg.onHeadersComplete == Proceed { PrefixObeys(cfg, p, q, HeadersComplete, StepHeadersDone(cfg, q)); }
      if cfg.onHeadersComplete == SkipBody { PrefixObeys(cfg, p, r, HeadersComplete, StepHeadersDone(cfg, r)); }
    }
  }

  lemma HeadersObey(cfg: Settings, p: Parser, b: Byte)
    requires Live(p) && InHeaders(p.state)
    ensures Obeys(cfg, p, StepHeaders(cfg, p, b))
  {
    hide StepHeadersAlmostDone, StepHeadersDone, Match, Token, IsToken, FirstHeaderState, BeforeByte, Obeys;
    var q := p.(state := S_HEADERS_ALMOST_DONE);
    EmptyLineObeys(cfg, q, b);
    HeadersDoneObeys(cfg, p);
    if p.state == S_HEADERS_ALMOST_DONE {
      assert p == q;
    } else if (p.state == S_HEADER_FIELD_START || p.state == S_HEADER_VALUE_LWS) && b == LF {
      SameStop(cfg, p, q, StepHeadersAlmostDone(cfg, q, b));
    } else if p.state != S_HEADERS_DONE {
      LineQuiet(cfg, p, b);
    }
  }

  lemma SameStop(cfg: Settings, p: Parser, q: Parser, a: Act)
    requires Obeys(cfg, q, a) && InHeaders(p.state) && InHeaders(q.state)
    ensures Obeys(cfg, p, a)
  {
  }

  /** Within a header line no notification is made. */
  lemma LineQuiet(cfg: Settings, p: Parser, b: Byte)
    requires p.errno == HPE_OK && InHeaders(p.state) && p.state != S_HEADERS_ALMOST_DONE && p.state != S_HEADERS_DONE
    requires (p.state == S_HEADER_FIELD_START || p.state == S_HEADER_VALUE_LWS) ==> b != LF
    ensures Obeys(cfg, p, StepHeaders(cfg, p, b))
  {
    hide StepHeadersAlmostDone, StepHeadersDone, Match, Token, IsToken, FirstHeaderState, BeforeByte, FieldByte;
    FieldKeeps(p, b);
  }

  lemma FieldKeeps(p: Parser, b: Byte)
    ensures FieldByte(p, b).errno == p.errno
  {
    hide Match, Token;
  }

  lemma BodyObeys(cfg: Settings, p: Parser, b: Byte)
    requires p.errno == HPE_OK && InBody(p.state)
    ensures Obeys(cfg, p, StepBody(cfg, p, b))
  {
    hide Unhex;
  }

  /** Every callback whose reply is not 0 stops the parser right there, paused or with its error, with the byte
      consumed or not; and nothing else does. */
  lemma RepliesObeyed(cfg: Settings, p: Parser, b: Byte)
    requires Live(p)
    ensures Obeys(cfg, p, Step(cfg, p, b))
  {
    hide StepStart, StepMethod, StepLine, StepHeaders, StepBody, Obeys;
    if InStart(p.state) {
      StartObeys(cfg, p, b);
    } else if p.state == S_REQ_METHOD {
      MethodObeys(cfg, p, b);
    } else if InLine(p.state) {
      LineObeys(cfg, p, b);
    } else if InHeaders(p.state) {
      HeadersObey(cfg, p, b);
    } else {
      BodyObeys(cfg, p, b);
    }
  }
}
