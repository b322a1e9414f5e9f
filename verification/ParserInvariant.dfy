/** What every byte keeps: the facts the asserts of `http_parser_execute` rely on. */
module ParserInvariant {
  import opened Ascii
  import opened ParserTypes
  import opened ParserStep

  /** errno values that leave the parser usable (again): none, a pause, a refusing callback. */
  predicate Usable(e: Errno) { HPE_OK <= e <= HPE_CB_CHUNK_COMPLETE || e == HPE_PAUSED }

  /** The parse errors a byte can lead to; the others are found at the end of a call or never. */
  predicate ParseError(e: Errno) {
    HPE_INVALID_VERSION <= e <= HPE_INVALID_CONSTANT || e == HPE_STRICT || e == HPE_UNKNOWN
  }

  /** The header states possible inside a field name, and inside or just after a value. */
  predicate NameHs(hs: HeaderState) { hs == H_GENERAL || H_MATCHING_CONTENT_LENGTH <= hs <= H_UPGRADE }

  predicate ValueHs(hs: HeaderState) {
    H_GENERAL <= hs <= H_GENERAL_AND_QUOTE_AND_ESCAPE || hs == H_CONTENT_LENGTH
    || hs == H_MATCHING_TRANSFER_ENCODING_CHUNKED || hs == H_TRANSFER_ENCODING_CHUNKED
  }

  predicate InChunks(s: State) {
    S_CHUNK_SIZE_START <= s <= S_CHUNK_SIZE_ALMOST_DONE || S_CHUNK_DATA <= s <= S_CHUNK_DATA_DONE
  }

  /** Before the first byte of a message has been looked at `content_length` is whatever it was. */
  predicate BeforeMessage(s: State) { InStart(s) && s != S_RES_OR_RESP_H }

  predicate LengthFits(p: Parser) {
    && (BeforeMessage(p.state) || -1 <= p.length <= INT64_MAX)
    && (p.state == S_CHUNK_DATA || p.state == S_BODY_IDENTITY ==> p.length > 0)
    && (p.state == S_CHUNK_DATA_ALMOST_DONE ==> p.length == 0)
    && (S_CHUNK_SIZE <= p.state <= S_CHUNK_SIZE_ALMOST_DONE ==> p.length >= 0)
    && (S_HEADER_VALUE <= p.state <= S_HEADER_ALMOST_DONE && p.hs == H_CONTENT_LENGTH ==> p.length >= 0)
  }

  predicate HeaderFits(p: Parser) {
    && (p.state == S_HEADER_FIELD ==>
          && NameHs(p.hs)
          && (p.hs == H_MATCHING_CONTENT_LENGTH ==> p.index < 13)
          && (p.hs == H_MATCHING_TRANSFER_ENCODING ==> p.index < 16)
          && (p.hs == H_MATCHING_UPGRADE ==> p.index < 6))
    && (S_HEADER_VALUE <= p.state <= S_HEADER_ALMOST_DONE ==>
          && ValueHs(p.hs)
          && (p.hs == H_MATCHING_TRANSFER_ENCODING_CHUNKED ==> p.index < 6))
  }

  /** The invariant of the parser's fields between bytes and between calls. */
  predicate Inv(p: Parser) {
    Usable(p.errno) ==>
      && Handled(p.state)
      && (InChunks(p.state) ==> p.flags.chunked)
      && LengthFits(p)
      && HeaderFits(p)
      && p.line.verb < METHOD_COUNT
  }

  /** Which mark can be live in a state. `Text` stands for the states that mark body text,
      `TextEnd` for s_chunk_data_almost_done, where it is still marked. */
  datatype Zone = Plain | UrlZone | ReasonZone | FieldZone | ValueZone | Text | TextEnd

  function ZoneOf(s: State): Zone {
    if InUrl(s) then UrlZone
    else if s == S_RES_STATUS then ReasonZone
    else if s == S_HEADER_FIELD then FieldZone
    else if s == S_HEADER_VALUE then ValueZone
    else if s == S_CHUNK_DATA || s == S_BODY_IDENTITY || s == S_BODY_IDENTITY_EOF then Text
    else if s == S_CHUNK_DATA_ALMOST_DONE then TextEnd
    else Plain
  }

  /** Which mark operation goes with which change of zone. */
  predicate ZoneFits(z: Zone, op: MarkOp, y: Zone) {
    match op
    case Keep =>
      if z == FieldZone || z == ValueZone || z == UrlZone then y == z
      else z == Plain && (y == Plain || y == ReasonZone || y == Text || y == ValueZone)
    case Start(k) =>
      || (k == Url && z == Plain && y == UrlZone)
      || (k == Field && z == Plain && y == FieldZone)
      || (k == Value && z == Plain && y == ValueZone)
      || (k == Reason && z == ReasonZone && y == z)
      || (k == Body && z == Text && (y == Text || y == TextEnd))
    case Flush(k, at) =>
      && y == Plain
      && (|| (k == Url && z == UrlZone)
          || (k == Field && z == FieldZone && at == S_HEADER_VALUE_START)
          || (k == Value && z == ValueZone && at == S_HEADER_ALMOST_DONE)
          || (k == Body && z == TextEnd))
    case MarkFlush(k, at) =>
      && y == Plain
      && (|| (k == Reason && z == ReasonZone)
          || (k == Value && z == Plain && (at == S_HEADER_ALMOST_DONE || at == S_HEADER_FIELD_START)))
    case Take(k) => k == Body && z == Text && y == Plain
  }

  predicate OpFits(s: State, op: MarkOp, t: State) {
    && ZoneFits(ZoneOf(s), op, ZoneOf(t))
    && (op == Keep && ZoneOf(s) == Plain && ZoneOf(t) == ValueZone ==> s == S_HEADER_ALMOST_DONE)
    && (op == Start(Value) ==> s == S_HEADER_VALUE_START)
    && (op.MarkFlush? && op.k == Value ==> s == S_HEADER_VALUE_START)
    && (op == Start(Field) ==> s == S_HEADER_FIELD_START || s == S_HEADER_VALUE_LWS)
  }

  /** The step goes on, returns with errno unset, or returns with errno set; a byte is left
      unconsumed only with errno set; no byte meets an unhandled state. */
  predicate CtlFits(a: Act) {
    match a.ctl
    case Next => a.p.errno == HPE_OK
    case StopAfter => Usable(a.p.errno)
    case StopBefore => a.p.errno != HPE_OK && (Usable(a.p.errno) || ParseError(a.p.errno))
  }

  /** Everything that holds of one step, whatever the byte. A step that makes a notification or
      returns leaves no mark live, except when it returns with a parse error. */
  predicate Fits(p: Parser, a: Act) {
    && Inv(a.p)
    && CtlFits(a)
    && (a.ctl == StopBefore && Usable(a.p.errno) ==> ZoneOf(p.state) == Plain)
    && (a.ctl != StopBefore ==> OpFits(p.state, a.op, a.p.state))
    && (a.ctl == StopAfter || a.notes != [] ==> !a.op.Start? && (a.op == Keep ==> ZoneOf(p.state) == Plain))
  }

  predicate Live(p: Parser) { Inv(p) && p.errno == HPE_OK }

  lemma InitLive(junk: Parser, t: ParserType)
    ensures Live(Init(junk, t))
    ensures Init(junk, t).line.kind == t
    ensures Init(junk, t).state
         == match t case Request => S_PRE_START_REQ case Response => S_PRE_START_RES case Both => S_PRE_START_REQ_OR_RES
  {
  }

  /** States about which the invariant says no more than that the numbers are in range. */
  predicate Quiet(s: State) {
    InLine(s) || s == S_REQ_METHOD || s == S_RES_OR_RESP_H || s == S_HEADER_FIELD_START || s == S_HEADER_VALUE_START
    || s == S_HEADERS_ALMOST_DONE || s == S_HEADERS_DONE || s == S_BODY_IDENTITY_EOF || s == S_MESSAGE_DONE
  }

  predicate InRange(p: Parser) { -1 <= p.length <= INT64_MAX && p.line.verb < METHOD_COUNT }

  lemma QuietInv(p: Parser)
    requires Quiet(p.state) && InRange(p)
    ensures Inv(p)
  {
  }

  lemma FailInv(p: Parser)
    requires !Usable(p.errno)
    ensures Inv(p)
  {
  }

  lemma LiveInRange(p: Parser)
    requires Live(p) && !BeforeMessage(p.state)
    ensures InRange(p)
  {
  }

  lemma StartReqFits(p: Parser, b: Byte)
    requires Live(p) && p.state == S_START_REQ
    ensures Fits(p, StepStartReq(p, b)) && StepStartReq(p, b).op == Keep
  {
  }

  lemma StartResFits(p: Parser, b: Byte)
    requires Live(p) && p.state == S_START_RES
    ensures Fits(p, StepStartRes(p, b)) && StepStartRes(p, b).op == Keep
  {
  }

  lemma StartBothFits(p: Parser, b: Byte)
    requires Live(p) && p.state == S_START_REQ_OR_RES
    ensures Fits(p, StepStartBoth(p, b)) && StepStartBoth(p, b).op == Keep
  {
    if b == LETTER_H {
    } else {
      StartReqFits(p.(line := p.line.(kind := Request), state := S_START_REQ), b);
    }
  }

  lemma PreStartFits(cfg: Settings, p: Parser, b: Byte, started: Parser, next: Act)
    requires Live(p) && BeforeMessage(p.state)
    requires Live(started) && BeforeMessage(started.state)
    requires Fits(started, next) && next.op == Keep
    ensures Fits(p, StepPreStart(cfg, p, b, started, next))
  {
    assert ZoneOf(p.state) == ZoneOf(started.state) == Plain;
    hide ZoneOf;
    assert started.state != S_HEADER_ALMOST_DONE;
    var a := StepPreStart(cfg, p, b, started, next);
    if b == CR || b == LF {
    } else if cfg.onMessageBegin == Proceed {
      assert a.p == next.p && a.op == next.op && a.ctl == next.ctl;
    } else {
      assert a.p == started.(errno := StopErrno(cfg.onMessageBegin, HPE_CB_MESSAGE_BEGIN));
    }
  }

  lemma StartFits(cfg: Settings, p: Parser, b: Byte)
    requires Live(p) && InStart(p.state)
    ensures Fits(p, StepStart(cfg, p, b))
  {
    hide StepPreStart, StepStartBoth, StepStartReq, StepStartRes;
    if p.state == S_RES_OR_RESP_H {
    } else if p.state == S_PRE_START_REQ_OR_RES || p.state == S_START_REQ_OR_RES {
      var started := p.(state := S_START_REQ_OR_RES);
      StartBothFits(started, b);
      PreStartFits(cfg, p, b, started, StepStartBoth(started, b));
    } else if p.state == S_PRE_START_RES || p.state == S_START_RES {
      var started := p.(state := S_START_RES);
      StartResFits(started, b);
      PreStartFits(cfg, p, b, started, StepStartRes(started, b));
    } else {
      var started := p.(state := S_START_REQ);
      StartReqFits(started, b);
      PreStartFits(cfg, p, b, started, StepStartReq(started, b));
    }
  }

  /** What a move in the request or status line may do. */
  predicate MoveFits(s: State, m: Move) {
    match m
    case Go(t, op) => (InLine(t) || t == S_HEADER_FIELD_START) && OpFits(s, op, t)
    case First(_, t) => InLine(t) && OpFits(s, Keep, t)
    case More(_) => OpFits(s, Keep, s)
    case Http09(t) => InUrl(s) && (t == S_REQ_LINE_ALMOST_DONE || t == S_HEADER_FIELD_START)
    case Bad(e, t) => ParseError(e)
  }

  lemma StatusLineMoveFits(s: State, b: Byte)
    requires InStatusLine(s)
    ensures MoveFits(s, StatusLineMove(s, b))
  {
  }

  lemma AuthorityMoveFits(s: State, connect: bool, b: Byte)
    ensures MoveFits(S_REQ_SPACES_BEFORE_URL, TargetStartMove(connect, b))
    ensures InUrl(s) && s < S_REQ_PATH ==> MoveFits(s, AuthorityMove(s, b))
  {
    hide HostDoneMove;
    if InUrl(s) {
      HostDoneFits(s, b);
    }
  }

  lemma HostDoneFits(s: State, b: Byte)
    requires InUrl(s)
    ensures MoveFits(s, HostDoneMove(b))
  {
  }

  lemma PathMoveFits(s: State, b: Byte)
    requires S_REQ_PATH <= s <= S_REQ_FRAGMENT
    ensures MoveFits(s, PathMove(s, b))
  {
  }

  lemma VersionMoveFits(s: State, b: Byte)
    requires InVersion(s)
    ensures MoveFits(s, VersionMove(s, b))
  {
  }

  lemma LineMoveFits(s: State, connect: bool, b: Byte)
    requires InLine(s)
    ensures MoveFits(s, LineMove(s, connect, b))
  {
    hide StatusLineMove, AuthorityMove, TargetStartMove, PathMove, VersionMove;
    if InStatusLine(s) { StatusLineMoveFits(s, b); }
    else if s < S_REQ_PATH { AuthorityMoveFits(s, connect, b); }
    else if InUrl(s) { PathMoveFits(s, b); }
    else { VersionMoveFits(s, b); }
  }

  lemma PerformFits(p: Parser, m: Move, b: Byte)
    requires Live(p) && InLine(p.state) && MoveFits(p.state, m)
    ensures Fits(p, Perform(p, m, b))
  {
    hide Inv;
    LiveInRange(p);
    var a := Perform(p, m, b);
    assert InRange(a.p);
    match m {
      case Go(s, op) => QuietInv(a.p);
      case First(r, s) => QuietInv(a.p);
      case More(r) => QuietInv(a.p);
      case Http09(s) => QuietInv(a.p);
      case Bad(e, s) => FailInv(a.p);
    }
  }

  lemma LineFits(p: Parser, b: Byte)
    requires Live(p) && InLine(p.state)
    ensures Fits(p, StepLine(p, b))
  {
    hide LineMove, Perform;
    LineMoveFits(p.state, p.line.verb == M_CONNECT, b);
    PerformFits(p, LineMove(p.state, p.line.verb == M_CONNECT, b), b);
  }

  lemma SwitchMethodFits(m: nat, i: nat, b: Byte)
    ensures var w := SwitchMethod(m, i, b);
            if w.Try? then w.m < METHOD_COUNT else ParseError(w.e)
  {
  }

  lemma MethodFits(p: Parser, b: Byte)
    requires Live(p) && p.state == S_REQ_METHOD
    ensures Fits(p, StepMethod(p, b))
  {
    hide SwitchMethod, MethodChar, Inv;
    SwitchMethodFits(p.line.verb, p.index, b);
    LiveInRange(p);
    var a := StepMethod(p, b);
    if Usable(a.p.errno) { QuietInv(a.p); } else { FailInv(a.p); }
  }

  /** A step that touches no mark and ends neither in a header text nor in a url. */
  predicate PlainFits(a: Act) {
    && Inv(a.p)
    && CtlFits(a)
    && a.op == Keep
    && (ZoneOf(a.p.state) == Plain || ZoneOf(a.p.state) == Text || a.ctl == StopBefore)
  }

  lemma CompleteFits(cfg: Settings, p: Parser, leave: bool)
    requires p.errno == HPE_OK && p.line.verb < METHOD_COUNT
    ensures var a := Complete(cfg, p.(state := NewMessage(p)), leave);
            PlainFits(a) && ZoneOf(a.p.state) == Plain && a.ctl != StopBefore
  {
  }

  lemma HeadersDoneFits(cfg: Settings, p: Parser)
    requires p.errno == HPE_OK && InRange(p)
    ensures PlainFits(StepHeadersDone(cfg, p))
  {
    hide Complete;
    CompleteFits(cfg, p, true);
    CompleteFits(cfg, p, false);
  }

  lemma HeadersAlmostDoneFits(cfg: Settings, p: Parser, b: Byte)
    requires p.errno == HPE_OK && InRange(p)
    ensures PlainFits(StepHeadersAlmostDone(cfg, p, b))
  {
    hide StepHeadersDone, Complete;
    if b != LF {
    } else if p.flags.trailing {
      CompleteFits(cfg, p.(state := S_MESSAGE_DONE), p.upgrade);
    } else {
      var q := p.(state := S_HEADERS_DONE, upgrade := p.flags.upgrade || p.line.verb == M_CONNECT);
      HeadersDoneFits(cfg, q);
      HeadersDoneFits(cfg, q.(flags := q.flags.(skipBody := true)));
    }
  }

  lemma FieldStartFits(cfg: Settings, p: Parser, b: Byte)
    requires Live(p) && p.state == S_HEADER_FIELD_START
    ensures Fits(p, StepFieldStart(cfg, p, b)) && StepFieldStart(cfg, p, b).op in {Keep, Start(Field)}
  {
    hide StepHeadersAlmostDone;
    HeadersAlmostDoneFits(cfg, p.(state := S_HEADERS_ALMOST_DONE), b);
  }

  lemma FieldFits(p: Parser, b: Byte)
    requires Live(p) && p.state == S_HEADER_FIELD
    ensures Fits(p, StepField(p, b))
  {
    if IsToken(b) {
      var q := FieldByte(p, b);
      assert |CONTENT_LENGTH| == 14 && |TRANSFER_ENCODING| == 17 && |UPGRADE| == 7;
    }
  }

  lemma ValueStartFits(p: Parser, b: Byte)
    requires Live(p) && p.state == S_HEADER_VALUE_START
    ensures Fits(p, StepValueStart(p, b))
  {
    if b == CR || b == LF {
      EmptyValueFits(p, b);
    } else if p.hs == H_CONTENT_LENGTH {
    } else if p.hs == H_TRANSFER_ENCODING {
    } else if p.hs == H_UPGRADE {
    } else {
    }
  }

  lemma EmptyValueFits(p: Parser, b: Byte)
    requires Live(p) && p.state == S_HEADER_VALUE_START && (b == CR || b == LF)
    ensures Fits(p, StepValueStart(p, b))
  {
  }

  lemma ValueFits(p: Parser, b: Byte)
    requires Live(p) && p.state == S_HEADER_VALUE
    ensures Fits(p, StepValue(p, b))
  {
    hide Fits, StepValue;
    if p.hs != H_GENERAL_AND_QUOTE_AND_ESCAPE && (b == CR || b == LF || !IsHeaderChar(b)) {
      ValueEndFits(p, b);
    } else {
      ValueByteFits(p, b);
    }
  }

  lemma ValueEndFits(p: Parser, b: Byte)
    requires Live(p) && p.state == S_HEADER_VALUE
    requires p.hs != H_GENERAL_AND_QUOTE_AND_ESCAPE && (b == CR || b == LF || !IsHeaderChar(b))
    ensures Fits(p, StepValue(p, b))
  {
  }

  lemma ValueByteFits(p: Parser, b: Byte)
    requires Live(p) && p.state == S_HEADER_VALUE
    requires p.hs == H_GENERAL_AND_QUOTE_AND_ESCAPE || (b != CR && b != LF && IsHeaderChar(b))
    ensures Fits(p, StepValue(p, b))
  {
    assert |CHUNKED| == 7;
    if p.hs == H_CONTENT_LENGTH {
    } else if p.hs == H_MATCHING_TRANSFER_ENCODING_CHUNKED {
    } else {
    }
  }

  lemma AlmostDoneFits(p: Parser, b: Byte)
    requires Live(p) && p.state == S_HEADER_ALMOST_DONE
    ensures Fits(p, StepAlmostDone(p, b))
  {
  }

  lemma LwsFits(cfg: Settings, p: Parser, b: Byte)
    requires Live(p) && p.state == S_HEADER_VALUE_LWS
    ensures Fits(p, StepLws(cfg, p, b))
  {
    hide StepFieldStart;
    FieldStartFits(cfg, p.(state := S_HEADER_FIELD_START), b);
  }

  lemma HeadersFits(cfg: Settings, p: Parser, b: Byte)
    requires Live(p) && InHeaders(p.state)
    ensures Fits(p, StepHeaders(cfg, p, b))
  {
    hide StepFieldStart, StepField, StepValueStart, StepValue, StepLws, StepAlmostDone, StepHeadersAlmostDone,
         StepHeadersDone;
    if p.state == S_HEADER_FIELD_START { FieldStartFits(cfg, p, b); }
    else if p.state == S_HEADER_FIELD { FieldFits(p, b); }
    else if p.state == S_HEADER_VALUE_START { ValueStartFits(p, b); }
    else if p.state == S_HEADER_VALUE { ValueFits(p, b); }
    else if p.state == S_HEADER_VALUE_LWS { LwsFits(cfg, p, b); }
    else if p.state == S_HEADER_ALMOST_DONE { AlmostDoneFits(p, b); }
    else if p.state == S_HEADERS_ALMOST_DONE { HeadersAlmostDoneFits(cfg, p, b); }
    else { HeadersDoneFits(cfg, p); }
  }

  lemma ChunkSizeFits(cfg: Settings, p: Parser, b: Byte)
    requires Live(p) && S_CHUNK_SIZE_START <= p.state <= S_CHUNK_SIZE_ALMOST_DONE
    ensures Fits(p, StepBody(cfg, p, b))
  {
    hide StepChunkSizeAlmostDone, StepChunkSize;
    if p.state == S_CHUNK_SIZE_START {
    } else if p.state == S_CHUNK_SIZE {
      ChunkDigitFits(p, b);
    } else if p.state == S_CHUNK_PARAMETERS {
    } else {
      ChunkLineFits(cfg, p);
    }
  }

  lemma ChunkDigitFits(p: Parser, b: Byte)
    requires Live(p) && p.state == S_CHUNK_SIZE
    ensures Fits(p, StepChunkSize(p, b))
  {
  }

  lemma ChunkLineFits(cfg: Settings, p: Parser)
    requires Live(p) && p.state == S_CHUNK_SIZE_ALMOST_DONE
    ensures Fits(p, StepChunkSizeAlmostDone(cfg, p))
  {
  }

  lemma ChunkDataFits(cfg: Settings, p: Parser, b: Byte)
    requires Live(p) && S_CHUNK_DATA <= p.state <= S_CHUNK_DATA_DONE
    ensures Fits(p, StepBody(cfg, p, b))
  {
    if p.state == S_CHUNK_DATA {
    } else if p.state == S_CHUNK_DATA_ALMOST_DONE {
    } else {
    }
  }

  lemma BodyFits(cfg: Settings, p: Parser, b: Byte)
    requires Live(p) && InBody(p.state) && !InChunks(p.state)
    ensures Fits(p, StepBody(cfg, p, b))
  {
    hide Complete;
    if p.state == S_BODY_IDENTITY {
      var q := p.(length := p.length - 1);
      CompleteFits(cfg, q.(state := S_MESSAGE_DONE), q.upgrade);
    } else if p.state == S_BODY_IDENTITY_EOF {
    } else {
      CompleteFits(cfg, p, p.upgrade);
    }
  }

  /** Every step keeps the invariant, never meets an unhandled state, sets errno exactly when it
      leaves its byte unconsumed, and treats the marks as its change of state demands. */
  lemma StepFits(cfg: Settings, p: Parser, b: Byte)
    requires Live(p)
    ensures Fits(p, Step(cfg, p, b))
  {
    hide StepStart, StepMethod, StepLine, StepHeaders, StepBody;
    if InStart(p.state) { StartFits(cfg, p, b); }
    else if p.state == S_REQ_METHOD { MethodFits(p, b); }
    else if InLine(p.state) { LineFits(p, b); }
    else if InHeaders(p.state) { HeadersFits(cfg, p, b); }
    else if p.state <= S_CHUNK_SIZE_ALMOST_DONE { ChunkSizeFits(cfg, p, b); }
    else if p.state <= S_CHUNK_DATA_DONE { ChunkDataFits(cfg, p, b); }
    else { BodyFits(cfg, p, b); }
  }
}
