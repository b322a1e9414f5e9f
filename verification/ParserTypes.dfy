/** The `http_parser` struct, its enumerations and the callbacks it makes. */
module ParserTypes {
  import opened Ascii

  const INT64_MAX: int := 0x7fff_ffff_ffff_ffff
  const UINT32_SIZE: nat := 0x1_0000_0000
  const MAX_HEADER_SIZE: nat := 80 * 1024

  /** `enum state`, by its numbers: the source compares states with `<=`, and `HttpRequest`
      tests them against literal numbers. */
  type State = int

  const S_DEAD: State := 1
  const S_PRE_START_REQ_OR_RES: State := 2
  const S_START_REQ_OR_RES: State := 3
  const S_RES_OR_RESP_H: State := 4
  const S_PRE_START_RES: State := 5
  const S_START_RES: State := 6
  const S_RES_H: State := 7
  const S_RES_HT: State := 8
  const S_RES_HTT: State := 9
  const S_RES_HTTP: State := 10
  const S_RES_FIRST_HTTP_MAJOR: State := 11
  const S_RES_HTTP_MAJOR: State := 12
  const S_RES_FIRST_HTTP_MINOR: State := 13
  const S_RES_HTTP_MINOR: State := 14
  const S_RES_FIRST_STATUS_CODE: State := 15
  const S_RES_STATUS_CODE: State := 16
  const S_RES_STATUS_START: State := 17
  const S_RES_STATUS: State := 18
  const S_RES_LINE_ALMOST_DONE: State := 19
  const S_PRE_START_REQ: State := 20
  const S_START_REQ: State := 21
  const S_REQ_METHOD: State := 22
  const S_REQ_SPACES_BEFORE_URL: State := 23
  const S_REQ_SCHEMA: State := 24
  const S_REQ_SCHEMA_SLASH: State := 25
  const S_REQ_SCHEMA_SLASH_SLASH: State := 26
  const S_REQ_SERVER_START: State := 27
  const S_REQ_SERVER: State := 28
  const S_REQ_SERVER_WITH_AT: State := 29
  const S_REQ_HOST_START: State := 30
  const S_REQ_HOST: State := 31
  const S_REQ_HOST_IPV6: State := 32
  const S_REQ_HOST_DONE: State := 33
  const S_REQ_PORT: State := 34
  const S_REQ_PATH: State := 35
  const S_REQ_QUERY_STRING_START: State := 36
  const S_REQ_QUERY_STRING: State := 37
  const S_REQ_FRAGMENT_START: State := 38
  const S_REQ_FRAGMENT: State := 39
  const S_REQ_HTTP_START: State := 40
  const S_REQ_HTTP_H: State := 41
  const S_REQ_HTTP_HT: State := 42
  const S_REQ_HTTP_HTT: State := 43
  const S_REQ_HTTP_HTTP: State := 44
  const S_REQ_FIRST_HTTP_MAJOR: State := 45
  const S_REQ_HTTP_MAJOR: State := 46
  const S_REQ_FIRST_HTTP_MINOR: State := 47
  const S_REQ_HTTP_MINOR: State := 48
  const S_REQ_LINE_ALMOST_DONE: State := 49
  const S_HEADER_FIELD_START: State := 50
  const S_HEADER_FIELD: State := 51
  const S_HEADER_VALUE_START: State := 52
  const S_HEADER_VALUE: State := 53
  const S_HEADER_VALUE_LWS: State := 54
  const S_HEADER_ALMOST_DONE: State := 55
  const S_CHUNK_SIZE_START: State := 56
  const S_CHUNK_SIZE: State := 57
  const S_CHUNK_PARAMETERS: State := 58
  const S_CHUNK_SIZE_ALMOST_DONE: State := 59
  const S_HEADERS_ALMOST_DONE: State := 60
  const S_HEADERS_DONE: State := 61
  const S_CHUNK_DATA: State := 62
  const S_CHUNK_DATA_ALMOST_DONE: State := 63
  const S_CHUNK_DATA_DONE: State := 64
  const S_BODY_IDENTITY: State := 65
  const S_BODY_IDENTITY_EOF: State := 66
  const S_MESSAGE_DONE: State := 67

  /** `enum header_states`. */
  type HeaderState = int

  const H_GENERAL: HeaderState := 0
  const H_GENERAL_AND_QUOTE: HeaderState := 1
  const H_GENERAL_AND_QUOTE_AND_ESCAPE: HeaderState := 2
  const H_MATCHING_CONTENT_LENGTH: HeaderState := 3
  const H_MATCHING_TRANSFER_ENCODING: HeaderState := 4
  const H_MATCHING_UPGRADE: HeaderState := 5
  const H_CONTENT_LENGTH: HeaderState := 6
  const H_TRANSFER_ENCODING: HeaderState := 7
  const H_UPGRADE: HeaderState := 8
  const H_MATCHING_TRANSFER_ENCODING_CHUNKED: HeaderState := 9
  const H_TRANSFER_ENCODING_CHUNKED: HeaderState := 10

  /** `enum http_errno`. */
  type Errno = int

  const HPE_OK: Errno := 0
  const HPE_CB_MESSAGE_BEGIN: Errno := 1
  const HPE_CB_HEADERS_COMPLETE: Errno := 8
  const HPE_CB_MESSAGE_COMPLETE: Errno := 10
  const HPE_CB_CHUNK_HEADER: Errno := 12
  const HPE_CB_CHUNK_COMPLETE: Errno := 13
  const HPE_INVALID_EOF_STATE: Errno := 14
  const HPE_HEADER_OVERFLOW: Errno := 15
  const HPE_INVALID_VERSION: Errno := 17
  const HPE_INVALID_STATUS: Errno := 18
  const HPE_INVALID_METHOD: Errno := 19
  const HPE_INVALID_URL: Errno := 20
  const HPE_INVALID_HOST: Errno := 21
  const HPE_INVALID_PORT: Errno := 22
  const HPE_INVALID_PATH: Errno := 23
  const HPE_INVALID_QUERY_STRING: Errno := 24
  const HPE_INVALID_FRAGMENT: Errno := 25
  const HPE_LF_EXPECTED: Errno := 26
  const HPE_INVALID_HEADER_TOKEN: Errno := 27
  const HPE_INVALID_CONTENT_LENGTH: Errno := 28
  const HPE_HUGE_CONTENT_LENGTH: Errno := 29
  const HPE_INVALID_CHUNK_SIZE: Errno := 30
  const HPE_HUGE_CHUNK_SIZE: Errno := 31
  const HPE_INVALID_TRANSFER_ENCODING: Errno := 32
  const HPE_INVALID_UPGRADE: Errno := 33
  const HPE_INVALID_CONSTANT: Errno := 34
  const HPE_INVALID_INTERNAL_STATE: Errno := 35
  const HPE_STRICT: Errno := 36
  const HPE_PAUSED: Errno := 37
  const HPE_UNKNOWN: Errno := 38

  datatype ParserType = Request | Response | Both

  /** Indices into `method_strings`. */
  const M_DELETE := 0
  const M_GET := 1
  const M_HEAD := 2
  const M_POST := 3
  const M_PUT := 4
  const M_CONNECT := 5
  const M_OPTIONS := 6
  const M_TRACE := 7
  const M_COPY := 8
  const M_LOCK := 9
  const M_MKCOL := 10
  const M_MOVE := 11
  const M_PROPFIND := 12
  const M_PROPPATCH := 13
  const M_UNLOCK := 14
  const M_REPORT := 15
  const M_MKACTIVITY := 16
  const M_CHECKOUT := 17
  const M_MERGE := 18
  const M_MSEARCH := 19
  const M_NOTIFY := 20
  const M_SUBSCRIBE := 21
  const M_UNSUBSCRIBE := 22
  const M_PATCH := 23
  const METHOD_COUNT := 24

  /** The F_* bits of `flags`. */
  datatype Flags = Flags(chunked: bool, trailing: bool, upgrade: bool, skipBody: bool)

  /** What the request or status line says; `verb` is the struct's `method`. */
  datatype Line = Line(kind: ParserType, major: nat, minor: nat, status: nat, verb: nat)

  /** The fields of `http_parser` except `nread`, which depends on how the input is cut into
      calls and is therefore kept beside it. */
  datatype Parser = Parser(
    state: State, hs: HeaderState, index: nat, length: int, errno: Errno, upgrade: bool, flags: Flags, line: Line)

  /** The callbacks that carry text. */
  datatype Kind = Url | Field | Value | Reason | Body

  /** One callback. A text callback also shows the parser state it is made in, because
      `HttpRequest` decides by it; for body text that state is not recorded (see `Piece`). */
  datatype Event =
    | Data(kind: Kind, text: Bytes, at: State)
    | MessageBegin
    | HeadersComplete
    | ChunkHeader(size: int)
    | ChunkComplete
    | MessageComplete

  function Piece(k: Kind, text: Bytes, at: State): Event {
    Data(k, text, if k == Body then S_BODY_IDENTITY else at)
  }

  /** What a notification callback does: return 0, return non-zero, or pause the parser.
      `SkipBody` is the reply 1 of on_headers_complete. */
  datatype Reply = Proceed | Refuse | Pause | SkipBody

  /** The reply of each notification callback; the text callbacks return 0. */
  datatype Settings = Settings(
    onMessageBegin: Reply, onHeadersComplete: Reply, onMessageComplete: Reply,
    onChunkHeader: Reply, onChunkComplete: Reply)

  /** `PARSING_HEADER`. */
  predicate ParsingHeader(s: State) { s <= S_HEADERS_DONE }

  /** `start_state`. */
  function NewMessage(p: Parser): State {
    if p.line.kind == Request then S_PRE_START_REQ else S_PRE_START_RES
  }

  /** `http_parser_init`, on a struct whose other fields are arbitrary. */
  function Init(junk: Parser, t: ParserType): Parser {
    junk.(line := junk.line.(kind := t, verb := 0),
          state := if t == Request then S_PRE_START_REQ
                   else if t == Response then S_PRE_START_RES else S_PRE_START_REQ_OR_RES,
          upgrade := false, flags := Flags(false, false, false, false), errno := HPE_OK)
  }
}
