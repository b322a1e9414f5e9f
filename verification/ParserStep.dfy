/** The state machine of `http_parser_execute`, one byte at a time.

    `Step` is the `switch (state)` for one byte, with the `reexecute_byte` jumps followed to
    their end. What the source does with its mark pointers is returned as a `MarkOp`, so that
    the transition itself does not depend on where the current buffer starts. */
module ParserStep {
  import opened Ascii
  import opened ParserTypes

  /** `Next`: take the next byte. `StopAfter` / `StopBefore`: return, having consumed this byte or not. */
  datatype Ctl = Next | StopAfter | StopBefore

  /** What happens to the marks while the byte is handled.
      Keep: nothing, so a live mark grows by the byte;
      Start(k): MARK(k);
      Flush(k): CALLBACK_DATA(k), the text up to and without this byte;
      MarkFlush(k): MARK(k) and then CALLBACK_DATA(k);
      Take(k): MARK(k) and then the callback with this byte included. */
  datatype MarkOp =
    | Keep
    | Start(k: Kind)
    | Flush(k: Kind, at: State)
    | MarkFlush(k: Kind, at: State)
    | Take(k: Kind)

  /** The effect of one byte: new fields, what happens to the marks, the callbacks made after
      that, whether to go on, and whether `nread` and its start pointer are reset. */
  datatype Act = Act(p: Parser, op: MarkOp, notes: seq<Event>, ctl: Ctl, reset: bool)

  function Stay(p: Parser): Act { Act(p, Keep, [], Next, false) }

  function To(p: Parser, s: State): Act { Act(p.(state := s), Keep, [], Next, false) }

  function Fail(p: Parser, e: Errno): Act { Act(p.(errno := e), Keep, [], StopBefore, false) }

  /** errno after a notification callback that did not simply return 0. */
  function StopErrno(r: Reply, cb: Errno): Errno { if r == Pause then HPE_PAUSED else cb }

  /** `ch - '0'`, read only where the byte is a digit. */
  function Digit(b: Byte): nat { if IsDigit(b) then b - 48 else 0 }

  // ---------------------------------------------------------------- start of a message

  function StepPreStart(cfg: Settings, p: Parser, b: Byte, started: Parser, next: Act): Act {
    if b == CR || b == LF then Stay(p)
    else if cfg.onMessageBegin == Proceed then next.(notes := [MessageBegin])
    else Act(started.(errno := StopErrno(cfg.onMessageBegin, HPE_CB_MESSAGE_BEGIN)),
             Keep, [MessageBegin], StopBefore, false)
  }

  function WithVerb(p: Parser, m: nat, i: nat): Parser { p.(line := p.line.(verb := m), index := i) }

  function Cleared(p: Parser): Parser {
    p.(flags := Flags(false, false, false, false), length := -1)
  }

  /** The method the matcher tries first for a given first letter. */
  function FirstMethod(b: Byte): int {
    if b == LETTER_C then M_CONNECT
    else if b == LETTER_D then M_DELETE
    else if b == LETTER_G then M_GET
    else if b == LETTER_H then M_HEAD
    else if b == LETTER_L then M_LOCK
    else if b == LETTER_M then M_MKCOL
    else if b == LETTER_N then M_NOTIFY
    else if b == LETTER_O then M_OPTIONS
    else if b == LETTER_P then M_POST
    else if b == LETTER_R then M_REPORT
    else if b == LETTER_S then M_SUBSCRIBE
    else if b == LETTER_T then M_TRACE
    else if b == LETTER_U then M_UNLOCK
    else -1
  }

  function StepStartReq(p: Parser, b: Byte): Act {
    var p := Cleared(p);
    if !IsAlpha(b) then Fail(p, HPE_INVALID_METHOD)
    else if FirstMethod(b) < 0 then Fail(WithVerb(p, 0, 1), HPE_INVALID_METHOD)
    else To(WithVerb(p, FirstMethod(b), 1), S_REQ_METHOD)
  }

  function StepStartRes(p: Parser, b: Byte): Act {
    if b == LETTER_H then To(Cleared(p), S_RES_H) else Fail(Cleared(p), HPE_INVALID_CONSTANT)
  }

  function StepStartBoth(p: Parser, b: Byte): Act {
    if b == LETTER_H then To(Cleared(p), S_RES_OR_RESP_H)
    else StepStartReq(p.(line := p.line.(kind := Request), state := S_START_REQ), b)
  }

  predicate InStart(s: State) { S_PRE_START_REQ_OR_RES <= s <= S_START_RES || s == S_PRE_START_REQ || s == S_START_REQ }

  function StepResOrRespH(p: Parser, b: Byte): Act {
    if b == LETTER_T then To(p.(line := p.line.(kind := Response)), S_RES_HT)
    else if b == LETTER_E then To(p.(line := p.line.(kind := Request, verb := M_HEAD), index := 2), S_REQ_METHOD)
    else Fail(p, HPE_INVALID_CONSTANT)
  }

  function StepStart(cfg: Settings, p: Parser, b: Byte): Act {
    if p.state == S_PRE_START_REQ_OR_RES then
      var started := p.(state := S_START_REQ_OR_RES);
      StepPreStart(cfg, p, b, started, StepStartBoth(started, b))
    else if p.state == S_START_REQ_OR_RES then StepStartBoth(p, b)
    else if p.state == S_RES_OR_RESP_H then StepResOrRespH(p, b)
    else if p.state == S_PRE_START_RES then
      var started := p.(state := S_START_RES);
      StepPreStart(cfg, p, b, started, StepStartRes(started, b))
    else if p.state == S_START_RES then StepStartRes(p, b)
    else if p.state == S_PRE_START_REQ then
      var started := p.(state := S_START_REQ);
      StepPreStart(cfg, p, b, started, StepStartReq(started, b))
    else StepStartReq(p, b)
  }

  // ---------------------------------------------------------------- request and status line

  /** A step inside the request or status line changes little besides the state; the tables
      below say what. `First` and `More` read a digit into a number (at most 999), `Http09` ends
      a target that is not followed by a version, `Bad` is an error met in state `s`. */
  datatype Move =
    | Go(s: State, op: MarkOp)
    | First(r: Number, s: State)
    | More(r: Number)
    | Http09(s: State)
    | Bad(e: Errno, s: State)

  datatype Number = Major | Minor | Status

  predicate InStatusLine(s: State) { S_RES_H <= s <= S_RES_LINE_ALMOST_DONE && s != S_RES_STATUS_START }

  function StatusLineMove(s: State, b: Byte): Move {
    if s == S_RES_H then Go(S_RES_HT, Keep)
    else if s == S_RES_HT then Go(S_RES_HTT, Keep)
    else if s == S_RES_HTT then Go(S_RES_HTTP, Keep)
    else if s == S_RES_HTTP then Go(S_RES_FIRST_HTTP_MAJOR, Keep)
    else if s == S_RES_FIRST_HTTP_MAJOR then
      if IsDigit(b) then First(Major, S_RES_HTTP_MAJOR) else Bad(HPE_INVALID_VERSION, s)
    else if s == S_RES_HTTP_MAJOR then
      if b == DOT then Go(S_RES_FIRST_HTTP_MINOR, Keep)
      else if IsDigit(b) then More(Major)
      else Bad(HPE_INVALID_VERSION, s)
    else if s == S_RES_FIRST_HTTP_MINOR then
      if IsDigit(b) then First(Minor, S_RES_HTTP_MINOR) else Bad(HPE_INVALID_VERSION, s)
    else if s == S_RES_HTTP_MINOR then
      if b == SP then Go(S_RES_FIRST_STATUS_CODE, Keep)
      else if IsDigit(b) then More(Minor)
      else Bad(HPE_INVALID_VERSION, s)
    else if s == S_RES_FIRST_STATUS_CODE then
      if IsDigit(b) then First(Status, S_RES_STATUS_CODE)
      else if b == SP then Go(s, Keep)
      else Bad(HPE_INVALID_STATUS, s)
    else if s == S_RES_STATUS_CODE then
      if IsDigit(b) then More(Status)
      else if b == SP then Go(S_RES_STATUS, Keep)
      else if b == CR then Go(S_RES_LINE_ALMOST_DONE, Keep)
      else if b == LF then Go(S_HEADER_FIELD_START, Keep)
      else Bad(HPE_INVALID_STATUS, s)
    else if s == S_RES_STATUS then
      if b == CR then Go(S_RES_LINE_ALMOST_DONE, MarkFlush(Reason, S_RES_LINE_ALMOST_DONE))
      else if b == LF then Go(S_HEADER_FIELD_START, MarkFlush(Reason, S_HEADER_FIELD_START))
      else Go(s, Start(Reason))
    else Go(S_HEADER_FIELD_START, Keep)
  }

  /** The states in which a call that starts in them sets `url_mark`. */
  predicate InUrl(s: State) { S_REQ_SCHEMA <= s <= S_REQ_SCHEMA_SLASH_SLASH || S_REQ_HOST_START <= s <= S_REQ_FRAGMENT }

  function EndUrl(s: State): Move { Go(s, Flush(Url, s)) }

  /** The ends of a target that has reached its path: a space, or the line end of HTTP/0.9. */
  function EndOfTarget(s: State, b: Byte, bad: Errno): Move {
    if b == SP then EndUrl(S_REQ_HTTP_START)
    else if b == CR then Http09(S_REQ_LINE_ALMOST_DONE)
    else if b == LF then Http09(S_HEADER_FIELD_START)
    else Bad(bad, s)
  }

  function HostStartMove(b: Byte, op: MarkOp): Move {
    if b == LBRACKET then Go(S_REQ_HOST_IPV6, op)
    else if IsAlphaNum(b) then Go(S_REQ_HOST, op)
    else Bad(HPE_INVALID_HOST, S_REQ_HOST_START)
  }

  function HostDoneMove(b: Byte): Move {
    if b == COLON then Go(S_REQ_PORT, Keep)
    else if b == SLASH then Go(S_REQ_PATH, Keep)
    else if b == SP then EndUrl(S_REQ_HTTP_START)
    else if b == QMARK then Go(S_REQ_QUERY_STRING_START, Keep)
    else Bad(HPE_INVALID_HOST, S_REQ_HOST_DONE)
  }

  function TargetStartMove(connect: bool, b: Byte): Move {
    if b == SP then Go(S_REQ_SPACES_BEFORE_URL, Keep)
    else if connect then HostStartMove(b, Start(Url))
    else if b == SLASH || b == STAR then Go(S_REQ_PATH, Start(Url))
    else if IsAlpha(b) then Go(S_REQ_SCHEMA, Start(Url))
    else Bad(HPE_INVALID_URL, S_REQ_SPACES_BEFORE_URL)
  }

  function AuthorityMove(s: State, b: Byte): Move {
    if s == S_REQ_SCHEMA then
      if IsAlpha(b) then Go(s, Keep) else if b == COLON then Go(S_REQ_SCHEMA_SLASH, Keep) else Bad(HPE_INVALID_URL, s)
    else if s == S_REQ_SCHEMA_SLASH then Go(S_REQ_SCHEMA_SLASH_SLASH, Keep)
    else if s == S_REQ_SCHEMA_SLASH_SLASH then Go(S_REQ_HOST_START, Keep)
    else if s == S_REQ_HOST_START then HostStartMove(b, Keep)
    else if s == S_REQ_HOST then if IsHostChar(b) then Go(s, Keep) else HostDoneMove(b)
    else if s == S_REQ_HOST_IPV6 then
      if IsHex(b) || b == COLON then Go(s, Keep)
      else if b == RBRACKET then Go(S_REQ_HOST_DONE, Keep)
      else Bad(HPE_INVALID_HOST, s)
    else if s == S_REQ_HOST_DONE then HostDoneMove(b)
    else if IsDigit(b) then Go(s, Keep)
    else if b == SLASH then Go(S_REQ_PATH, Keep)
    else if b == SP then EndUrl(S_REQ_HTTP_START)
    else if b == QMARK then Go(S_REQ_QUERY_STRING_START, Keep)
    else Bad(HPE_INVALID_PORT, s)
  }

  function PathMove(s: State, b: Byte): Move {
    if s == S_REQ_PATH then
      if IsUrlChar(b) then Go(s, Keep)
      else if b == QMARK then Go(S_REQ_QUERY_STRING_START, Keep)
      else if b == HASH then Go(S_REQ_FRAGMENT_START, Keep)
      else EndOfTarget(s, b, HPE_INVALID_PATH)
    else if s == S_REQ_QUERY_STRING_START then
      if IsUrlChar(b) then Go(S_REQ_QUERY_STRING, Keep)
      else if b == QMARK then Go(s, Keep)
      else if b == HASH then Go(S_REQ_FRAGMENT_START, Keep)
      else EndOfTarget(s, b, HPE_INVALID_QUERY_STRING)
    else if s == S_REQ_QUERY_STRING then
      if IsUrlChar(b) || b == QMARK then Go(s, Keep)
      else if b == HASH then Go(S_REQ_FRAGMENT_START, Keep)
      else EndOfTarget(s, b, HPE_INVALID_QUERY_STRING)
    else if s == S_REQ_FRAGMENT_START then
      if IsUrlChar(b) || b == QMARK then Go(S_REQ_FRAGMENT, Keep)
      else if b == HASH then Go(s, Keep)
      else EndOfTarget(s, b, HPE_INVALID_FRAGMENT)
    else if IsUrlChar(b) || b == QMARK || b == HASH then Go(s, Keep)
    else EndOfTarget(s, b, HPE_INVALID_FRAGMENT)
  }

  predicate InVersion(s: State) { S_REQ_HTTP_START <= s <= S_REQ_LINE_ALMOST_DONE }

  function VersionMove(s: State, b: Byte): Move {
    if s == S_REQ_HTTP_START then
      if b == LETTER_H then Go(S_REQ_HTTP_H, Keep) else if b == SP then Go(s, Keep) else Bad(HPE_INVALID_CONSTANT, s)
    else if s == S_REQ_HTTP_H then Go(S_REQ_HTTP_HT, Keep)
    else if s == S_REQ_HTTP_HT then Go(S_REQ_HTTP_HTT, Keep)
    else if s == S_REQ_HTTP_HTT then Go(S_REQ_HTTP_HTTP, Keep)
    else if s == S_REQ_HTTP_HTTP then Go(S_REQ_FIRST_HTTP_MAJOR, Keep)
    else if s == S_REQ_FIRST_HTTP_MAJOR then
      if IsDigit(b) then First(Major, S_REQ_HTTP_MAJOR) else Bad(HPE_INVALID_VERSION, s)
    else if s == S_REQ_HTTP_MAJOR then
      if b == DOT then Go(S_REQ_FIRST_HTTP_MINOR, Keep)
      else if IsDigit(b) then More(Major)
      else Bad(HPE_INVALID_VERSION, s)
    else if s == S_REQ_FIRST_HTTP_MINOR then
      if IsDigit(b) then First(Minor, S_REQ_HTTP_MINOR) else Bad(HPE_INVALID_VERSION, s)
    else if s == S_REQ_HTTP_MINOR then
      if b == CR then Go(S_REQ_LINE_ALMOST_DONE, Keep)
      else if b == LF then Go(S_HEADER_FIELD_START, Keep)
      else if IsDigit(b) then More(Minor)
      else Bad(HPE_INVALID_VERSION, s)
    else if b == LF then Go(S_HEADER_FIELD_START, Keep)
    else Bad(HPE_LF_EXPECTED, s)
  }

  predicate InLine(s: State) { InStatusLine(s) || s == S_REQ_SPACES_BEFORE_URL || InUrl(s) || InVersion(s) }

  function LineMove(s: State, connect: bool, b: Byte): Move {
    if InStatusLine(s) then StatusLineMove(s, b)
    else if s == S_REQ_SPACES_BEFORE_URL then TargetStartMove(connect, b)
    else if s < S_REQ_PATH then AuthorityMove(s, b)
    else if InUrl(s) then PathMove(s, b)
    else VersionMove(s, b)
  }

  function SetNumber(p: Parser, r: Number, n: nat): Parser {
    match r
    case Major => p.(line := p.line.(major := n))
    case Minor => p.(line := p.line.(minor := n))
    case Status => p.(line := p.line.(status := n))
  }

  function GetNumber(p: Parser, r: Number): nat {
    match r
    case Major => p.line.major
    case Minor => p.line.minor
    case Status => p.line.status
  }

  function Perform(p: Parser, m: Move, b: Byte): Act {
    match m
    case Go(s, op) => Act(p.(state := s), op, [], Next, false)
    case First(r, s) => To(SetNumber(p, r, Digit(b)), s)
    case More(r) =>
      var n := GetNumber(p, r) * 10 + Digit(b);
      if n > 999 then Fail(SetNumber(p, r, n), if r == Status then HPE_INVALID_STATUS else HPE_INVALID_VERSION)
      else Stay(SetNumber(p, r, n))
    case Http09(s) => Act(p.(line := p.line.(major := 0, minor := 9), state := s), Flush(Url, s), [], Next, false)
    case Bad(e, s) => Fail(p.(state := s), e)
  }

  function StepLine(p: Parser, b: Byte): Act {
    Perform(p, LineMove(p.state, p.line.verb == M_CONNECT, b), b)
  }

  // ---------------------------------------------------------------- method

  /** `method_strings`. */
  function MethodString(m: nat): string {
    if m == M_DELETE then "DELETE"
    else if m == M_GET then "GET"
    else if m == M_HEAD then "HEAD"
    else if m == M_POST then "POST"
    else if m == M_PUT then "PUT"
    else if m == M_CONNECT then "CONNECT"
    else if m == M_OPTIONS then "OPTIONS"
    else if m == M_TRACE then "TRACE"
    else if m == M_COPY then "COPY"
    else if m == M_LOCK then "LOCK"
    else if m == M_MKCOL then "MKCOL"
    else if m == M_MOVE then "MOVE"
    else if m == M_PROPFIND then "PROPFIND"
    else if m == M_PROPPATCH then "PROPPATCH"
    else if m == M_UNLOCK then "UNLOCK"
    else if m == M_REPORT then "REPORT"
    else if m == M_MKACTIVITY then "MKACTIVITY"
    else if m == M_CHECKOUT then "CHECKOUT"
    else if m == M_MERGE then "MERGE"
    else if m == M_MSEARCH then "M-SEARCH"
    else if m == M_NOTIFY then "NOTIFY"
    else if m == M_SUBSCRIBE then "SUBSCRIBE"
    else if m == M_UNSUBSCRIBE then "UNSUBSCRIBE"
    else "PATCH"
  }

  /** `method_strings[m][i]`, with the terminating NUL. */
  function MethodChar(m: nat, i: nat): int {
    if i < |MethodString(m)| then MethodString(m)[i] as int else 0
  }

  /** The method the matcher switches to when the byte does not continue the current one,
      or the error it stops with. */
  datatype Switch = Try(m: nat) | NoMethod(e: Errno)

  function SwitchMethod(m: nat, i: nat, b: Byte): Switch {
    if m == M_CONNECT then
      if i == 1 && b == LETTER_H then Try(M_CHECKOUT)
      else if i == 2 && b == LETTER_P then Try(M_COPY)
      else NoMethod(HPE_UNKNOWN)
    else if m == M_MKCOL then
      if i == 1 && b == LETTER_O then Try(M_MOVE)
      else if i == 1 && b == LETTER_E then Try(M_MERGE)
      else if i == 1 && b == DASH then Try(M_MSEARCH)
      else if i == 2 && b == LETTER_A then Try(M_MKACTIVITY)
      else NoMethod(HPE_UNKNOWN)
    else if i == 1 && m == M_POST then
      if b == LETTER_R then Try(M_PROPFIND)
      else if b == LETTER_U then Try(M_PUT)
      else if b == LETTER_A then Try(M_PATCH)
      else NoMethod(HPE_UNKNOWN)
    else if i == 2 && m == M_UNLOCK && b == LETTER_S then Try(M_UNSUBSCRIBE)
    else if i == 4 && m == M_PROPFIND && b == LETTER_P then Try(M_PROPPATCH)
    else NoMethod(HPE_INVALID_METHOD)
  }

  function StepMethod(p: Parser, b: Byte): Act {
    if b == NUL then Fail(p, HPE_INVALID_METHOD)
    else if b == SP && MethodChar(p.line.verb, p.index) == 0 then To(p.(index := p.index + 1), S_REQ_SPACES_BEFORE_URL)
    else if b == MethodChar(p.line.verb, p.index) then Stay(p.(index := p.index + 1))
    else match SwitchMethod(p.line.verb, p.index, b)
      case Try(m) => Stay(WithVerb(p, m, p.index + 1))
      case NoMethod(e) => Fail(p, e)
  }

  // ---------------------------------------------------------------- end of headers and of the message

  function Complete(cfg: Settings, p: Parser, leave: bool): Act {
    var r := cfg.onMessageComplete;
    if r == Proceed then Act(p, Keep, [MessageComplete], if leave then StopAfter else Next, true)
    else Act(p.(errno := StopErrno(r, HPE_CB_MESSAGE_COMPLETE)), Keep, [MessageComplete], StopAfter, true)
  }

  function StepMessageDone(cfg: Settings, p: Parser): Act {
    Complete(cfg, p.(state := NewMessage(p)), p.upgrade)
  }

  /** A response without a body length: these statuses have no body. */
  predicate NoBodyStatus(status: nat) { 100 <= status <= 199 || status == 204 || status == 304 }

  function StepHeadersDone(cfg: Settings, p: Parser): Act {
    var fresh' := p.(state := NewMessage(p));
    var hasBody := p.flags.chunked || p.length > 0;
    if p.upgrade && (p.line.verb == M_CONNECT || p.flags.skipBody || !hasBody) then Complete(cfg, fresh', true)
    else if p.flags.skipBody then Complete(cfg, fresh', false)
    else if p.flags.chunked then To(p, S_CHUNK_SIZE_START).(reset := true)
    else if p.length == 0 then Complete(cfg, fresh', false)
    else if p.length > 0 then To(p, S_BODY_IDENTITY).(reset := true)
    else if p.line.kind == Request || NoBodyStatus(p.line.status) then Complete(cfg, fresh', false)
    else To(p, S_BODY_IDENTITY_EOF).(reset := true)
  }

  function Prefixed(note: Event, a: Act): Act { a.(notes := [note] + a.notes) }

  function StepHeadersAlmostDone(cfg: Settings, p: Parser, b: Byte): Act {
    if b != LF then Fail(p, HPE_STRICT)
    else if p.flags.trailing then
      var p := p.(state := S_MESSAGE_DONE);
      if cfg.onChunkComplete == Proceed then Prefixed(ChunkComplete, StepMessageDone(cfg, p))
      else Act(p.(errno := StopErrno(cfg.onChunkComplete, HPE_CB_CHUNK_COMPLETE)),
               Keep, [ChunkComplete], StopBefore, false)
    else
      var p := p.(state := S_HEADERS_DONE, upgrade := p.flags.upgrade || p.line.verb == M_CONNECT);
      match cfg.onHeadersComplete
      case Proceed => Prefixed(HeadersComplete, StepHeadersDone(cfg, p))
      case SkipBody => Prefixed(HeadersComplete, StepHeadersDone(cfg, p.(flags := p.flags.(skipBody := true))))
      case Refuse => Act(p.(errno := HPE_CB_HEADERS_COMPLETE), Keep, [HeadersComplete], StopBefore, false)
      case Pause => Act(p.(errno := HPE_PAUSED), Keep, [HeadersComplete], StopBefore, false)
  }

  // ---------------------------------------------------------------- headers

  const CONTENT_LENGTH := "content-length"
  const TRANSFER_ENCODING := "transfer-encoding"
  const UPGRADE := "upgrade"
  const CHUNKED := "chunked"

  /** One more byte `c` of a name that has matched `name[..index]` so far. */
  function Match(hs: HeaderState, name: string, i: nat, c: Byte, full: HeaderState): HeaderState {
    if i >= |name| || c != name[i] as int then H_GENERAL
    else if i == |name| - 1 then full
    else hs
  }

  function FirstHeaderState(c: Byte): HeaderState {
    if c == LOWER_C then H_MATCHING_CONTENT_LENGTH
    else if c == LOWER_T then H_MATCHING_TRANSFER_ENCODING
    else if c == LOWER_U then H_MATCHING_UPGRADE
    else H_GENERAL
  }

  function StepFieldStart(cfg: Settings, p: Parser, b: Byte): Act {
    if b == CR then To(p, S_HEADERS_ALMOST_DONE)
    else if b == LF then StepHeadersAlmostDone(cfg, p.(state := S_HEADERS_ALMOST_DONE), b)
    else if !IsToken(b) then Fail(p, HPE_INVALID_HEADER_TOKEN)
    else To(p.(index := 0, hs := FirstHeaderState(Token(b))), S_HEADER_FIELD).(op := Start(Field))
  }

  /** A token byte of a field name. Reaching any other header state here is an assertion
      failure of the source; `ParserInvariant` shows that it does not happen. */
  function FieldByte(p: Parser, b: Byte): Parser {
    var c := Token(b);
    if p.hs == H_MATCHING_CONTENT_LENGTH then
      p.(index := p.index + 1, hs := Match(p.hs, CONTENT_LENGTH, p.index + 1, c, H_CONTENT_LENGTH))
    else if p.hs == H_MATCHING_TRANSFER_ENCODING then
      p.(index := p.index + 1, hs := Match(p.hs, TRANSFER_ENCODING, p.index + 1, c, H_TRANSFER_ENCODING))
    else if p.hs == H_MATCHING_UPGRADE then
      p.(index := p.index + 1, hs := Match(p.hs, UPGRADE, p.index + 1, c, H_UPGRADE))
    else if H_CONTENT_LENGTH <= p.hs <= H_UPGRADE && b != SP then p.(hs := H_GENERAL)
    else p
  }

  function StepField(p: Parser, b: Byte): Act {
    if IsToken(b) then Stay(FieldByte(p, b))
    else if b == COLON then To(p, S_HEADER_VALUE_START).(op := Flush(Field, S_HEADER_VALUE_START))
    else Fail(p, HPE_INVALID_HEADER_TOKEN)
  }

  function StepValueStart(p: Parser, b: Byte): Act {
    if b == SP || b == TAB then Stay(p)
    else
      var p := p.(state := S_HEADER_VALUE, index := 0);
      if (b == CR || b == LF) && p.hs == H_CONTENT_LENGTH then Fail(p, HPE_INVALID_CONTENT_LENGTH)
      else if (b == CR || b == LF) && p.hs == H_TRANSFER_ENCODING then Fail(p, HPE_INVALID_TRANSFER_ENCODING)
      else if (b == CR || b == LF) && p.hs == H_UPGRADE then Fail(p, HPE_INVALID_UPGRADE)
      else if b == CR then To(p.(hs := H_GENERAL), S_HEADER_ALMOST_DONE).(op := MarkFlush(Value, S_HEADER_ALMOST_DONE))
      else if b == LF then To(p, S_HEADER_FIELD_START).(op := MarkFlush(Value, S_HEADER_FIELD_START))
      else if p.hs == H_UPGRADE then Stay(p.(flags := p.flags.(upgrade := true), hs := H_GENERAL)).(op := Start(Value))
      else if p.hs == H_TRANSFER_ENCODING then
        var hs := if Lower(b) == LOWER_C then H_MATCHING_TRANSFER_ENCODING_CHUNKED else H_GENERAL;
        Stay(p.(hs := hs)).(op := Start(Value))
      else if p.hs == H_CONTENT_LENGTH then
        if IsDigit(b) then Stay(p.(length := Digit(b))).(op := Start(Value)) else Fail(p, HPE_INVALID_CONTENT_LENGTH)
      else Stay(p.(hs := if b == QT then H_GENERAL_AND_QUOTE else H_GENERAL)).(op := Start(Value))
  }

  function StepValueLength(p: Parser, b: Byte): Act {
    if b == SP then Stay(p)
    else if !IsDigit(b) then Fail(p, HPE_INVALID_CONTENT_LENGTH)
    else if p.length > (INT64_MAX - 10) / 10 then Fail(p, HPE_HUGE_CONTENT_LENGTH)
    else Stay(p.(length := p.length * 10 + Digit(b)))
  }

  function StepValue(p: Parser, b: Byte): Act {
    if p.hs != H_GENERAL_AND_QUOTE_AND_ESCAPE && b == CR then
      To(p, S_HEADER_ALMOST_DONE).(op := Flush(Value, S_HEADER_ALMOST_DONE))
    else if p.hs != H_GENERAL_AND_QUOTE_AND_ESCAPE && b == LF then
      StepAlmostDone(p.(state := S_HEADER_ALMOST_DONE), b).(op := Flush(Value, S_HEADER_ALMOST_DONE))
    else if p.hs != H_GENERAL_AND_QUOTE_AND_ESCAPE && !IsHeaderChar(b) then Fail(p, HPE_INVALID_HEADER_TOKEN)
    else if p.hs == H_GENERAL then Stay(p.(hs := if b == QT then H_GENERAL_AND_QUOTE else H_GENERAL))
    else if p.hs == H_GENERAL_AND_QUOTE then
      if b == QT then Stay(p.(hs := H_GENERAL))
      else if b == BACKSLASH then Stay(p.(hs := H_GENERAL_AND_QUOTE_AND_ESCAPE))
      else Stay(p)
    else if p.hs == H_GENERAL_AND_QUOTE_AND_ESCAPE then Stay(p.(hs := H_GENERAL_AND_QUOTE))
    else if p.hs == H_TRANSFER_ENCODING then Fail(p, HPE_INVALID_HEADER_TOKEN)
    else if p.hs == H_CONTENT_LENGTH then StepValueLength(p, b)
    else if p.hs == H_MATCHING_TRANSFER_ENCODING_CHUNKED then
      Stay(p.(index := p.index + 1, hs := Match(p.hs, CHUNKED, p.index + 1, Lower(b), H_TRANSFER_ENCODING_CHUNKED)))
    else if p.hs == H_TRANSFER_ENCODING_CHUNKED then Stay(p.(hs := if b != SP then H_GENERAL else p.hs))
    else Stay(p.(hs := H_GENERAL))
  }

  /** The byte after the CR (or the LF itself) that ended a header value. Any byte but LF makes
      the parser go on in s_header_value, after a synthetic space. */
  function StepAlmostDone(p: Parser, b: Byte): Act {
    var p := p.(flags := p.flags.(chunked := p.flags.chunked || p.hs == H_TRANSFER_ENCODING_CHUNKED));
    if b == LF then To(p, S_HEADER_VALUE_LWS)
    else To(p, S_HEADER_VALUE).(notes := [Data(Value, [SP], S_HEADER_VALUE)])
  }

  function StepLws(cfg: Settings, p: Parser, b: Byte): Act {
    if b == SP || b == TAB then To(p, S_HEADER_VALUE_START).(notes := [Data(Value, [SP], S_HEADER_VALUE_START)])
    else StepFieldStart(cfg, p.(state := S_HEADER_FIELD_START), b)
  }

  predicate InHeaders(s: State) {
    S_HEADER_FIELD_START <= s <= S_HEADER_ALMOST_DONE || s == S_HEADERS_ALMOST_DONE || s == S_HEADERS_DONE
  }

  function StepHeaders(cfg: Settings, p: Parser, b: Byte): Act {
    if p.state == S_HEADER_FIELD_START then StepFieldStart(cfg, p, b)
    else if p.state == S_HEADER_FIELD then StepField(p, b)
    else if p.state == S_HEADER_VALUE_START then StepValueStart(p, b)
    else if p.state == S_HEADER_VALUE then StepValue(p, b)
    else if p.state == S_HEADER_VALUE_LWS then StepLws(cfg, p, b)
    else if p.state == S_HEADER_ALMOST_DONE then StepAlmostDone(p, b)
    else if p.state == S_HEADERS_ALMOST_DONE then StepHeadersAlmostDone(cfg, p, b)
    else StepHeadersDone(cfg, p)
  }

  // ---------------------------------------------------------------- body

  predicate InBody(s: State) {
    S_CHUNK_SIZE_START <= s <= S_CHUNK_SIZE_ALMOST_DONE || S_CHUNK_DATA <= s <= S_MESSAGE_DONE
  }

  function StepChunkSize(p: Parser, b: Byte): Act {
    var d := Unhex(b);
    if b == CR then To(p, S_CHUNK_SIZE_ALMOST_DONE)
    else if d == -1 then
      if b == SEMI || b == SP then To(p, S_CHUNK_PARAMETERS) else Fail(p, HPE_INVALID_CHUNK_SIZE)
    else if p.length > (INT64_MAX - d) / 16 then Fail(p, HPE_HUGE_CHUNK_SIZE)
    else Stay(p.(length := p.length * 16 + d))
  }

  function StepChunkSizeAlmostDone(cfg: Settings, p: Parser): Act {
    var p := if p.length == 0 then p.(flags := p.flags.(trailing := true), state := S_HEADER_FIELD_START)
             else p.(state := S_CHUNK_DATA);
    var note := [ChunkHeader(p.length)];
    if cfg.onChunkHeader == Proceed then Act(p, Keep, note, Next, false)
    else Act(p.(errno := StopErrno(cfg.onChunkHeader, HPE_CB_CHUNK_HEADER)), Keep, note, StopAfter, false)
  }

  function StepChunkDataDone(cfg: Settings, p: Parser): Act {
    var p := p.(state := S_CHUNK_SIZE_START);
    if cfg.onChunkComplete == Proceed then Act(p, Keep, [ChunkComplete], Next, true)
    else Act(p.(errno := StopErrno(cfg.onChunkComplete, HPE_CB_CHUNK_COMPLETE)), Keep, [ChunkComplete], StopAfter, true)
  }

  function StepChunkData(p: Parser): Act {
    var p := p.(length := p.length - 1);
    (if p.length == 0 then To(p, S_CHUNK_DATA_ALMOST_DONE) else Stay(p)).(op := Start(Body))
  }

  function StepBodyIdentity(cfg: Settings, p: Parser): Act {
    var p := p.(length := p.length - 1);
    if p.length == 0 then StepMessageDone(cfg, p.(state := S_MESSAGE_DONE)).(op := Take(Body))
    else Stay(p).(op := Start(Body))
  }

  function StepBody(cfg: Settings, p: Parser, b: Byte): Act {
    if p.state == S_CHUNK_SIZE_START then
      if Unhex(b) == -1 then Fail(p, HPE_INVALID_CHUNK_SIZE) else To(p.(length := Unhex(b)), S_CHUNK_SIZE)
    else if p.state == S_CHUNK_SIZE then StepChunkSize(p, b)
    else if p.state == S_CHUNK_PARAMETERS then if b == CR then To(p, S_CHUNK_SIZE_ALMOST_DONE) else Stay(p)
    else if p.state == S_CHUNK_SIZE_ALMOST_DONE then StepChunkSizeAlmostDone(cfg, p)
    else if p.state == S_CHUNK_DATA then StepChunkData(p)
    else if p.state == S_CHUNK_DATA_ALMOST_DONE then To(p, S_CHUNK_DATA_DONE).(op := Flush(Body, S_CHUNK_DATA_DONE))
    else if p.state == S_CHUNK_DATA_DONE then StepChunkDataDone(cfg, p)
    else if p.state == S_BODY_IDENTITY then StepBodyIdentity(cfg, p)
    else if p.state == S_BODY_IDENTITY_EOF then Stay(p).(op := Start(Body))
    else StepMessageDone(cfg, p)
  }

  // ---------------------------------------------------------------- all together

  /** The states the `switch` has a case for. */
  predicate Handled(s: State) {
    InStart(s) || s == S_REQ_METHOD || InLine(s) || InHeaders(s) || InBody(s)
  }

  function Step(cfg: Settings, p: Parser, b: Byte): Act {
    if InStart(p.state) then StepStart(cfg, p, b)
    else if p.state == S_REQ_METHOD then StepMethod(p, b)
    else if InLine(p.state) then StepLine(p, b)
    else if InHeaders(p.state) then StepHeaders(cfg, p, b)
    else if InBody(p.state) then StepBody(cfg, p, b)
    else Fail(p, HPE_INVALID_INTERNAL_STATE)
  }
}
