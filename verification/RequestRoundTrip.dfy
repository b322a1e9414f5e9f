/** A request written out as HTTP/1.1 text is read back by `HttpRequest`, however it arrives. */
module RequestRoundTrip {
  import opened Ascii
  import opened HttpGrammar
  import opened ParserTypes
  import opened ParserStep
  import opened ParserInvariant
  import opened ParserEvents
  import opened ParserCuts
  import opened ParserLimit
  import opened ParserFraming
  import opened ParserBody
  import opened ParserLines
  import opened ParserChunks
  import opened HttpRequests
  import opened StartLines
  import UrlParser
  import TargetForms
  import UrlTarget

  // ---------------------------------------------------------------- the body

  /** How the body is sent: not at all, by its length, or in chunks. */
  datatype Form = Bare | Sized(body: Bytes) | Coded(cs: seq<Chunk>, last: Last)

  /** A request line, as far as it matters for the body. */
  function AnyLine(connect: bool): Line { Line(Request, 1, 1, 0, if connect then M_CONNECT else M_GET) }

  /** The body is sent as the method and the fields declare it (section 3.3.3 of RFC 7230): not at all for
      CONNECT, in chunks if a Transfer-Encoding is "chunked", else by the last Content-Length, else not at all. */
  predicate Framed(connect: bool, fields: seq<HeaderLine>, f: Form) {
    match FramingOf(AnyLine(connect), false, LinesOf(fields))
    case NoBody => f.Bare?
    case InChunks => f.Coded? && AllChunks(f.cs) && IsLast(f.last)
    case OfLength(n) => f.Sized? && |f.body| == n
    case UntilClose => false
  }

  function Trailers(f: Form): seq<HeaderLine> { if f.Coded? then f.last.trailers else [] }

  /** What is sent after the head. */
  function Sent(f: Form): Bytes {
    match f
    case Bare => []
    case Sized(body) => body
    case Coded(cs, last) => BodyInChunks(cs, last)
  }

  function DataOf(cs: seq<Chunk>): Bytes { if cs == [] then [] else DataOf(cs[..|cs| - 1]) + cs[|cs| - 1].data }

  function BodyOf(f: Form): Bytes {
    match f
    case Bare => []
    case Sized(body) => body
    case Coded(cs, _) => DataOf(cs)
  }

  /** The callbacks after on_headers_complete. */
  function FormOut(out: seq<Event>, f: Form): seq<Event> {
    match f
    case Bare => Push(out, MessageComplete)
    case Sized(body) => Push(WithBody(out, body), MessageComplete)
    case Coded(cs, last) => BodyOut(out, cs, last)
  }

  /** The callbacks other than on_message_complete return 0. */
  predicate Goes(cfg: Settings) { cfg.onMessageBegin == Proceed && cfg.onHeadersComplete == Proceed && Calm(cfg) }

  /** The connection is to leave HTTP behind this message. */
  predicate Upgrades(p: Parser) { p.flags.upgrade || p.line.verb == M_CONNECT }

  /** A request that `e` is in the head of is complete, `n` bytes on. */
  predicate Complete(cfg: Settings, e: Stream, d: Stream, n: nat) {
    d.pos == e.pos + n && Completed(cfg, e.(p := e.p.(upgrade := Upgrades(e.p))), d)
  }

  /** A parser at the end of the head, with a body declared as `f` says. */
  predicate Declares(p: Parser, f: Form) {
    && p.line.kind == Request && p.errno == HPE_OK && !p.flags.trailing && !p.flags.skipBody
    && match f
       case Bare => p.line.verb == M_CONNECT || (!p.flags.chunked && p.length <= 0)
       case Sized(body) => p.line.verb != M_CONNECT && !p.flags.chunked && p.length == |body| > 0
       case Coded(cs, last) => p.line.verb != M_CONNECT && p.flags.chunked && AllChunks(cs) && IsLast(last)
  }

  lemma HeadEnds(cfg: Settings, e: Stream, f: Form)
    requires Goes(cfg) && Neat(e) && EmptyLine(e.p.state) && Declares(e.p, f)
    ensures var d := Read(cfg, e, LF);
      if f.Coded? then
        At(e, d, 1, e.p.(state := S_CHUNK_SIZE_START, upgrade := Upgrades(e.p)), Push(e.out, HeadersComplete))
      else if f.Sized? then
        At(e, d, 1, e.p.(state := S_BODY_IDENTITY, upgrade := Upgrades(e.p)), Push(e.out, HeadersComplete))
      else Complete(cfg, e, d, 1) && d.out == Push(Push(e.out, HeadersComplete), MessageComplete)
    ensures Step(cfg, e.p, LF).reset && Step(cfg, e.p, LF).ctl != StopBefore
  {
    hide Push, PushAll, AllChunks, IsLast, Step;
    EmptyLineStep(cfg, e.p);
    PushNothing(e.out);
    PushAllOne(e.out, HeadersComplete);
    PushAllAppend(e.out, [HeadersComplete], [MessageComplete]);
    PushAllOne(Push(e.out, HeadersComplete), MessageComplete);
    assert [HeadersComplete] + [] == [HeadersComplete];
    assert [HeadersComplete] + [MessageComplete] == [HeadersComplete, MessageComplete];
  }

  lemma BodyRead(cfg: Settings, e: Stream, s: Bytes)
    requires Neat(e) && e.p.state == S_BODY_IDENTITY && |s| == e.p.length && s != []
    ensures var d := ReadAll(cfg, e, s);
      Completed(cfg, e, d) && d.pos == e.pos + |s| && d.out == Push(WithBody(e.out, s), MessageComplete)
  {
    hide Push, ReadAll;
    BodyCompletes(cfg, e, s);
    PushAllOne(WithBody(e.out, s), MessageComplete);
  }

  /** The LF that ends the head, and the body. */
  lemma TailRead(cfg: Settings, e: Stream, f: Form)
    requires Goes(cfg) && Neat(e) && EmptyLine(e.p.state) && Declares(e.p, f)
    ensures var d := ReadAll(cfg, e, [LF] + Sent(f));
      Complete(cfg, e, d, 1 + |Sent(f)|) && d.out == FormOut(Push(e.out, HeadersComplete), f)
  {
    hide Read, Push, ReadAll, BodyInChunks, BodyOut, AllChunks, IsLast;
    HeadEnds(cfg, e, f);
    ReadOne(cfg, e, LF);
    var d := ReadAll(cfg, e, [LF]);
    ReadAllAppend(cfg, e, [LF], Sent(f));
    if f.Coded? {
      ChunkedRead(cfg, d, f.cs, f.last);
    } else if f.Sized? {
      BodyRead(cfg, d, f.body);
    } else {
      assert [LF] + Sent(f) == [LF];
    }
  }

  // ---------------------------------------------------------------- the whole request

  /** A request: its first line, its fields, whether the empty line is a LF only, and how its body is sent. */
  datatype Req = Req(line: StartLine, fields: seq<HeaderLine>, lf: bool, form: Form)

  ghost predicate IsRequest(q: Req) {
    IsStartLine(q.line) && AllFields(q.fields) && Framed(IsConnect(q.line.verb), q.fields, q.form)
  }

  /** The head up to its last byte, an LF. */
  function HeadButLf(q: Req): Bytes { StartText(q.line) + LinesText(q.fields) + MaybeCr(q.lf) }

  function RequestText(q: Req): Bytes { HeadButLf(q) + ([LF] + Sent(q.form)) }

  /** The callbacks of a request, behind those made before it. */
  function HeadOut(out: seq<Event>, q: Req): seq<Event> {
    WithFields(Push(Push(out, MessageBegin), Data(Url, q.line.target, S_REQ_HTTP_START)), q.fields)
  }

  function RequestOut(out: seq<Event>, q: Req): seq<Event> { FormOut(Push(HeadOut(out, q), HeadersComplete), q.form) }

  /** The connection is to leave HTTP behind this request. */
  predicate IsUpgrade(q: Req) { IsConnect(q.line.verb) || HasUpgrade(LinesOf(q.fields)) }

  /** The fields read, the parser goes on as they declare. */
  lemma FieldsDeclare(p: Parser, fields: seq<HeaderLine>, f: Form)
    requires NoHeaders(p) && Framed(p.line.verb == M_CONNECT, fields, f)
    ensures Declares(AfterLines(p, fields), f) && AfterLines(p, fields).line == p.line
    ensures AfterLines(p, fields).flags.upgrade == HasUpgrade(LinesOf(fields))
  {
    hide HasChunked, HasUpgrade, LastLength, LinesOf, AfterLines, AllChunks, IsLast;
    LinesConclude(p, fields);
    LinesKeep(p, fields);
  }

  lemma HeadRead(cfg: Settings, e: Stream, q: Req)
    requires Goes(cfg) && AtRequest(e) && Live(e.p) && IsRequest(q)
    ensures var d := ReadAll(cfg, e, HeadButLf(q));
      At(e, d, |HeadButLf(q)|, d.p, HeadOut(e.out, q)) && d.p.line.kind == Request
      && EmptyLine(d.p.state) && Declares(d.p, q.form) && LineRight(d.p.line, q.line)
      && (Upgrades(d.p) <==> IsUpgrade(q))
  {
    hide Read, Push, ReadAll, IsStartLine, AllFields, Framed, LinesText, WithFields, Inv, StartText, MaybeCr, Decimal,
         HasUpgrade, LinesOf;
    var line := StartText(q.line);
    RequestLineRead(cfg, e, q.line);
    var a := ReadAll(cfg, e, line);
    LinesRead(cfg, a, q.fields);
    ReadAllAppend(cfg, e, line, LinesText(q.fields));
    var b := ReadAll(cfg, a, LinesText(q.fields));
    FieldsDeclare(a.p, q.fields, q.form);
    EmptyLineRead(cfg, b, q.lf);
    ReadAllAppend(cfg, e, line + LinesText(q.fields), MaybeCr(q.lf));
  }

  /** A request is read with exactly its callbacks, and complete with its last byte; the parser then runs on unless
      on_message_complete does not return 0, or the request asks to upgrade the connection. */
  lemma RequestRead(cfg: Settings, e: Stream, q: Req)
    requires Goes(cfg) && AtRequest(e) && Live(e.p) && IsRequest(q)
    ensures var d := ReadAll(cfg, e, RequestText(q));
      && d.pos == e.pos + |RequestText(q)| && d.out == RequestOut(e.out, q) && d.clean && !d.gap
      && LineRight(d.p.line, q.line) && d.p.state == S_PRE_START_REQ
      && d.live == (cfg.onMessageComplete == Proceed && !IsUpgrade(q))
      && d.p.errno == (match cfg.onMessageComplete
                       case Proceed => HPE_OK
                       case Pause => HPE_PAUSED
                       case _ => HPE_CB_MESSAGE_COMPLETE)
  {
    hide ReadAll, HeadButLf, HeadOut, Push, IsRequest, FormOut, Inv, LineRight, IsUpgrade, Goes, EmptyLine;
    var head := HeadButLf(q);
    HeadRead(cfg, e, q);
    var d := ReadAll(cfg, e, head);
    TailRead(cfg, d, q.form);
    ReadAllAppend(cfg, e, head, [LF] + Sent(q.form));
  }

  // ---------------------------------------------------------------- several requests

  function RequestsText(qs: seq<Req>): Bytes {
    if qs == [] then [] else RequestsText(qs[..|qs| - 1]) + RequestText(qs[|qs| - 1])
  }

  function RequestsOut(out: seq<Event>, qs: seq<Req>): seq<Event> {
    if qs == [] then out else RequestOut(RequestsOut(out, qs[..|qs| - 1]), qs[|qs| - 1])
  }

  ghost predicate AllRequests(qs: seq<Req>) { forall i :: 0 <= i < |qs| ==> IsRequest(qs[i]) && !IsUpgrade(qs[i]) }

  /** Requests that follow each other on a connection are read one after the other, each with its callbacks. */
  lemma {:induction false} RequestsRead(cfg: Settings, e: Stream, qs: seq<Req>)
    requires Goes(cfg) && cfg.onMessageComplete == Proceed && AtRequest(e) && Live(e.p) && AllRequests(qs)
    ensures var d := ReadAll(cfg, e, RequestsText(qs));
      AtRequest(d) && Live(d.p) && d.pos == e.pos + |RequestsText(qs)| && d.out == RequestsOut(e.out, qs)
  {
    hide ReadAll, IsRequest, IsUpgrade, RequestText, RequestOut, Inv, Goes, LineRight;
    if qs == [] {
      ReadNothing(cfg, e);
    } else {
      var f, q := qs[..|qs| - 1], qs[|qs| - 1];
      RequestsRead(cfg, e, f);
      var d := ReadAll(cfg, e, RequestsText(f));
      RequestRead(cfg, d, q);
      ReadAllAppend(cfg, e, RequestsText(f), RequestText(q));
      ReadAllLive(cfg, d, RequestText(q));
      LineOfRequest(ReadAll(cfg, d, RequestText(q)).p.line, q.line);
    }
  }

  lemma LineOfRequest(line: Line, q: StartLine)
    requires LineRight(line, q)
    ensures line.kind == Request
  {
  }

  // ---------------------------------------------------------------- a lone CR

  /** A request up to a field `x`, without the end of its line. */
  function UpTo(q: Req, x: HeaderLine): Bytes {
    StartText(q.line) + LinesText(q.fields) + (x.name + [COLON] + x.gap) + x.value
  }

  lemma UpToRead(e: Stream, q: Req, x: HeaderLine)
    requires AtRequest(e) && Live(e.p) && IsRequest(q)
    requires IsField(x) && KindOf(x.name) == H_GENERAL && !Named(x.name, CONTENT_LENGTH) && x.value != []
    ensures var d := ReadAll(CALLBACKS, e, UpTo(q, x));
      Neat(d) && d.p.state == S_HEADER_VALUE && (d.p.hs == H_GENERAL || d.p.hs == H_GENERAL_AND_QUOTE)
  {
    hide Read, Push, ReadAll, IsStartLine, AllFields, Framed, LinesText, WithFields, Inv, StartText, Named, IsValue,
         IsName, LineRight, Only;
    var line, name := StartText(q.line), x.name + [COLON] + x.gap;
    RequestLineRead(CALLBACKS, e, q.line);
    var a := ReadAll(CALLBACKS, e, line);
    LinesRead(CALLBACKS, a, q.fields);
    ReadAllAppend(CALLBACKS, e, line, LinesText(q.fields));
    var b := ReadAll(CALLBACKS, a, LinesText(q.fields));
    NameLineRead(CALLBACKS, b, x.name, x.gap);
    ReadAllAppend(CALLBACKS, e, line + LinesText(q.fields), name);
    TextRead(CALLBACKS, ReadAll(CALLBACKS, b, name), x.name, x.value);
    ReadAllAppend(CALLBACKS, e, line + LinesText(q.fields) + name, x.value);
    NoCoding(KindOf(x.name), x.value);
  }

  /** After any beginning of a request that ends inside a plain value, a CR, any byte but LF, and any byte
      that may stand in a value: what is delivered depends on the cuts. */
  lemma LoneCrDependsOnCuts(p: Parser, q: Req, x: HeaderLine, b: Byte, c: Byte)
    requires Live(p) && p.state == S_PRE_START_REQ && p.line.kind == Request && IsRequest(q)
    requires IsField(x) && KindOf(x.name) == H_GENERAL && !Named(x.name, CONTENT_LENGTH) && x.value != []
    requires b != LF && IsHeaderChar(c) && |UpTo(q, x)| + 3 <= MAX_HEADER_SIZE
    ensures !CutsAgree(CALLBACKS, p, UpTo(q, x) + [CR, b, c])
  {
    hide ReadAll, Inv, IsRequest, UpTo, IsField, IsHeaderChar, CutsAgree, WithinLimit;
    var e, s := AtFirst(p), UpTo(q, x);
    UpToRead(e, q, x);
    LoneCrUnclean(CALLBACKS, ReadAll(CALLBACKS, e, s), b, c);
    ReadAllAppend(CALLBACKS, e, s, [CR, b, c]);
    SmallWithinLimit(CALLBACKS, p, s + [CR, b, c]);
    CutsAgreeExactlyWhenClean(CALLBACKS, p, s + [CR, b, c]);
  }

  // ---------------------------------------------------------------- what the request keeps

  /** What OnField and OnValue make of a field: its first line is stored under its name, unless that is an
      empty value whose line ends in LF only; the last line it is folded onto under the empty name. */
  function Entry(m: map<Bytes, Bytes>, x: HeaderLine): map<Bytes, Bytes> {
    var n := if Ended(x.value, x.lf) then m[x.name := x.value] else m;
    if x.folds == [] then n else n[[] := x.folds[|x.folds| - 1].text]
  }

  /** The fields as a map: of several with the same name the last one. */
  function Table(m: map<Bytes, Bytes>, xs: seq<HeaderLine>): map<Bytes, Bytes> {
    if xs == [] then m else Entry(Table(m, xs[..|xs| - 1]), xs[|xs| - 1])
  }

  /** All of a value, its lines joined by a space. */
  function WholeValue(value: Bytes, fs: seq<Fold>): Bytes {
    if fs == [] then value else WholeValue(value, fs[..|fs| - 1]) + [SP] + fs[|fs| - 1].text
  }

  /** A field is kept under its name with its whole value if and only if it is not folded and, if it is empty,
      its line has its CR. */
  lemma FieldKeptExactly(x: HeaderLine)
    requires IsName(x.name)
    ensures var m := Entry(map[], x);
            x.name in m && m[x.name] == WholeValue(x.value, x.folds) <==> x.folds == [] && Ended(x.value, x.lf)
  {
    if x.folds != [] { FoldsAdd(x.value, x.folds); }
  }

  lemma {:induction false} FoldsAdd(value: Bytes, fs: seq<Fold>)
    ensures |WholeValue(value, fs)| >= |value| + |fs|
  {
    if fs != [] { FoldsAdd(value, fs[..|fs| - 1]); }
  }

  lemma {:induction false} TableAppend(m: map<Bytes, Bytes>, xs: seq<HeaderLine>, ys: seq<HeaderLine>)
    ensures Table(m, xs + ys) == Table(Table(m, xs), ys)
    decreases |ys|
  {
    if ys == [] {
      assert xs + ys == xs;
    } else {
      assert (xs + ys)[..|xs + ys| - 1] == xs + ys[..|ys| - 1];
      TableAppend(m, xs, ys[..|ys| - 1]);
    }
  }

  predicate Between(r: Content) { r.preState != S_HEADER_FIELD && r.preState != S_HEADER_VALUE }

  /** The request `c` with these fields and this body, between two header fields. */
  predicate Becomes(c: Content, d: Content, fields: map<Bytes, Bytes>, body: Bytes) {
    Between(d) && d == c.(fields := fields, body := body, field := d.field, value := d.value, preState := d.preState)
  }

  /** Behind the end of a value the name is gone, and what is folded onto it goes under the empty name. */
  lemma {:induction false} FoldsHandled(r: Content, out: seq<Event>, fs: seq<Fold>)
    requires Between(HandleAll(r, out)) && (fs != [] ==> HandleAll(r, out).field == [])
    ensures var c, d := HandleAll(r, out), HandleAll(r, WithFolds(out, fs));
      Becomes(c, d, if fs == [] then c.fields else c.fields[[] := fs[|fs| - 1].text], c.body)
      && (fs != [] ==> d.field == [])
  {
    hide HandleAll, Push;
    if fs != [] {
      var g, f := fs[..|fs| - 1], fs[|fs| - 1];
      FoldsHandled(r, out, g);
      var o := WithFolds(out, g);
      HandlePush(r, o, Data(Value, [SP], S_HEADER_VALUE_START));
      HandlePush(r, Push(o, Data(Value, [SP], S_HEADER_VALUE_START)), Data(Value, f.text, S_HEADER_ALMOST_DONE));
    }
  }

  lemma FieldHandled(r: Content, out: seq<Event>, x: HeaderLine)
    requires Between(HandleAll(r, out)) && (x.folds != [] ==> Ended(x.value, x.lf))
    ensures var c, d := HandleAll(r, out), HandleAll(r, WithField(out, x));
      Becomes(c, d, Entry(c.fields, x), c.body)
  {
    hide HandleAll, Push, WithFolds;
    HandlePush(r, out, Data(Field, x.name, S_HEADER_VALUE_START));
    HandlePush(r, Push(out, Data(Field, x.name, S_HEADER_VALUE_START)),
               Data(Value, x.value, ValueEnd(x.value, x.lf)));
    FoldsHandled(r, WithFirst(out, x), x.folds);
  }

  /** Only the end of a value is folded. */
  predicate Foldable(xs: seq<HeaderLine>) {
    forall i :: 0 <= i < |xs| ==> xs[i].folds != [] ==> Ended(xs[i].value, xs[i].lf)
  }

  lemma FieldsFoldable(xs: seq<HeaderLine>)
    requires AllFields(xs)
    ensures Foldable(xs)
  {
  }

  lemma {:induction false} FieldsHandled(r: Content, out: seq<Event>, xs: seq<HeaderLine>)
    requires Between(HandleAll(r, out)) && Foldable(xs)
    ensures var c, d := HandleAll(r, out), HandleAll(r, WithFields(out, xs)); Becomes(c, d, Table(c.fields, xs), c.body)
  {
    hide HandleAll, WithField, Entry;
    if xs != [] {
      FieldsHandled(r, out, xs[..|xs| - 1]);
      FieldHandled(r, WithFields(out, xs[..|xs| - 1]), xs[|xs| - 1]);
    }
  }

  lemma ChunkHandled(r: Content, out: seq<Event>, k: Chunk)
    requires Between(HandleAll(r, out))
    ensures var c, d := HandleAll(r, out), HandleAll(r, ChunkOut(out, k)); Becomes(c, d, c.fields, c.body + k.data)
  {
    hide HandleAll, Push, UrlParser.ParseUrl;
    var header := Push(out, ChunkHeader(|k.data|));
    HandlePush(r, out, ChunkHeader(|k.data|));
    HandlePush(r, header, Piece(Body, k.data, S_BODY_IDENTITY));
    HandlePush(r, Push(header, Piece(Body, k.data, S_BODY_IDENTITY)), ChunkComplete);
  }

  lemma {:induction false} ChunksHandled(r: Content, out: seq<Event>, cs: seq<Chunk>)
    requires Between(HandleAll(r, out))
    ensures var c, d := HandleAll(r, out), HandleAll(r, ChunksOut(out, cs)); Becomes(c, d, c.fields,
            c.body + DataOf(cs))
  {
    hide HandleAll, ChunkOut;
    var c := HandleAll(r, out);
    if cs == [] {
      assert c.body + [] == c.body;
    } else {
      var f, k := cs[..|cs| - 1], cs[|cs| - 1];
      ChunksHandled(r, out, f);
      ChunkHandled(r, ChunksOut(out, f), k);
      assert c.body + DataOf(f) + k.data == c.body + (DataOf(f) + k.data);
    }
  }

  lemma CodedHandled(r: Content, out: seq<Event>, cs: seq<Chunk>, l: Last)
    requires Between(HandleAll(r, out)) && Foldable(l.trailers)
    ensures var c, d := HandleAll(r, out), HandleAll(r, BodyOut(out, cs, l));
      Becomes(c.(completed := true), d, Table(c.fields, l.trailers), c.body + DataOf(cs))
  {
    hide HandleAll, Push, WithFields, ChunksOut, Table, UrlParser.ParseUrl;
    var o := ChunksOut(out, cs);
    ChunksHandled(r, out, cs);
    HandlePush(r, o, ChunkHeader(0));
    FieldsHandled(r, Push(o, ChunkHeader(0)), l.trailers);
    HandlePush(r, LastOut(o, l), ChunkComplete);
    HandlePush(r, Push(LastOut(o, l), ChunkComplete), MessageComplete);
  }

  lemma FormHandled(r: Content, out: seq<Event>, f: Form)
    requires Between(HandleAll(r, out)) && Foldable(Trailers(f))
    ensures var c, d := HandleAll(r, out), HandleAll(r, FormOut(out, f));
      Becomes(c.(completed := true), d, Table(c.fields, Trailers(f)), c.body + BodyOf(f))
  {
    hide HandleAll, Push, UrlParser.ParseUrl, BodyOut, DataOf;
    var c := HandleAll(r, out);
    if f.Coded? {
      CodedHandled(r, out, f.cs, f.last);
    } else if f.Sized? && f.body != [] {
      HandlePush(r, out, Piece(Body, f.body, S_BODY_IDENTITY));
      HandlePush(r, WithBody(out, f.body), MessageComplete);
    } else {
      NoBodyText(out);
      HandlePush(r, out, MessageComplete);
      assert c.body + [] == c.body;
    }
  }

  /** What a new request `r` becomes: complete, with the target, the body and the fields of `q`. */
  predicate Holds(r: Content, c: Content, q: Req) {
    c.completed && c.url == q.line.target && c.body == BodyOf(q.form)
    && c.fields == Table(map[], q.fields + Trailers(q.form))
    && c.parts == UrlTarget.Kept(q.line.target, r.parts)
  }

  lemma RequestHandled(r: Content, q: Req)
    requires IsNew(r) && Foldable(q.fields) && Foldable(Trailers(q.form))
    ensures Holds(r, HandleAll(r, RequestOut([], q)), q)
  {
    hide HandleAll, Push, WithFields, FormOut, UrlParser.ParseUrl, UrlTarget.Kept, Table, BodyOf, Trailers;
    var t, xs := q.line.target, q.fields;
    var begun := Push([], MessageBegin);
    var first := Push(begun, Data(Url, t, S_REQ_HTTP_START));
    assert HandleAll(r, begun) == r by { BeginHandled(r); }
    HandlePush(r, begun, Data(Url, t, S_REQ_HTTP_START));
    assert [] + t == t && [] + BodyOf(q.form) == BodyOf(q.form);
    FieldsHandled(r, first, xs);
    HandlePush(r, HeadOut([], q), HeadersComplete);
    HeadersHandled(HandleAll(r, HeadOut([], q)));
    FormHandled(r, Push(HeadOut([], q), HeadersComplete), q.form);
    TableAppend(map[], xs, Trailers(q.form));
  }

  lemma HeadersHandled(c: Content)
    ensures Handle(c, HeadersComplete) == c.(parts := UrlTarget.Kept(c.url, c.parts))
  {
  }

  lemma BeginHandled(r: Content)
    ensures HandleAll(r, Push([], MessageBegin)) == r
  {
    HandlePush(r, [], MessageBegin);
  }

  // ---------------------------------------------------------------- the header limit

  /** The lines of the head, and of a body in chunks, are within the header limit. */
  predicate Fits(q: Req) {
    |HeadButLf(q)| <= 80 * 1024 && (q.form.Coded? ==> LinesFit(q.form.cs) && LastFits(q.form.last))
  }

  /** Behind a complete request nothing is read. */
  lemma DeadWithin(e: Stream, k: nat, s: Bytes)
    requires !e.live
    ensures WithinCount(CALLBACKS, e, k, s)
  {
    hide ReadAll, WithinCount, Since;
    forall n | 0 < n <= |s| ensures !InHeader(ReadAll(CALLBACKS, e, s[..n])) {
      ReadAllStopped(CALLBACKS, e, s[..n]);
    }
    OutsideWithin(CALLBACKS, e, k, s);
  }

  lemma BodyWithin(e: Stream, k: nat, s: Bytes)
    requires Neat(e) && e.p.state == S_BODY_IDENTITY && |s| == e.p.length && s != []
    ensures WithinCount(CALLBACKS, e, k, s)
  {
    hide ReadAll, WithinCount, Since;
    forall n | 0 < n <= |s| ensures !InHeader(ReadAll(CALLBACKS, e, s[..n])) {
      if n < |s| {
        BodyConserved(CALLBACKS, e, s[..n]);
      } else {
        assert s[..n] == s;
        BodyRead(CALLBACKS, e, s);
      }
    }
    OutsideWithin(CALLBACKS, e, k, s);
  }

  lemma TailWithin(e: Stream, k: nat, f: Form)
    requires Neat(e) && Live(e.p) && EmptyLine(e.p.state) && Declares(e.p, f)
    ensures WithinCount(CALLBACKS, e, k, [LF] + Sent(f))
       <==> k <= MAX_HEADER_SIZE && (f.Coded? ==> LinesFit(f.cs) && LastFits(f.last))
  {
    hide Read, Push, ReadAll, BodyInChunks, BodyOut, AllChunks, IsLast, WithinCount, Since,
         LinesFit, LastFits, Inv;
    HeadEnds(CALLBACKS, e, f);
    ReadNothing(CALLBACKS, e);
    ReadOneMore(CALLBACKS, e, [], LF);
    assert [] + [LF] == [LF];
    var d := ReadAll(CALLBACKS, e, [LF]);
    ResetWithin(CALLBACKS, e, k, LF);
    WithinCountAppend(CALLBACKS, e, k, [LF], Sent(f));
    if f.Coded? {
      ReadAllLive(CALLBACKS, e, [LF]);
      ChunkedWithin(CALLBACKS, d, f.cs, f.last);
    } else if f.Sized? {
      BodyWithin(d, 1, f.body);
    } else {
      DeadWithin(d, 1, Sent(f));
    }
  }

  lemma RequestWithin(e: Stream, q: Req, rest: Bytes)
    requires AtRequest(e) && Live(e.p) && IsRequest(q)
    ensures WithinCount(CALLBACKS, e, 0, RequestText(q) + rest) <==> Fits(q)
  {
    hide ReadAll, HeadButLf, HeadOut, Push, IsRequest, FormOut, Inv, WithinCount, Since, Tally, LinesFit, LastFits,
         LineRight;
    var head, tail := HeadButLf(q), [LF] + Sent(q.form);
    HeadRead(CALLBACKS, e, q);
    HeadTally(e.out, q);
    StretchWithin(CALLBACKS, e, 0, head);
    ReadAllLive(CALLBACKS, e, head);
    TailWithin(ReadAll(CALLBACKS, e, head), |head|, q.form);
    WithinCountAppend(CALLBACKS, e, 0, head, tail);
    RequestRead(CALLBACKS, e, q);
    WithinCountAppend(CALLBACKS, e, 0, head + tail, rest);
    DeadWithin(ReadAll(CALLBACKS, e, head + tail), Since(CALLBACKS, e, 0, head + tail), rest);
  }

  lemma HeadTally(out: seq<Event>, q: Req)
    ensures Tally(HeadOut(out, q), Break) == Tally(out, Break)
  {
    hide Push, WithFields, Tally;
    var begun := Push(out, MessageBegin);
    TallyPush(out, MessageBegin, Break);
    TallyPush(begun, Data(Url, q.line.target, S_REQ_HTTP_START), Break);
    FieldsTally(Push(begun, Data(Url, q.line.target, S_REQ_HTTP_START)), q.fields, Break);
  }

  /** A request runs into the header limit in no way it may be cut if and only if its head, up to the
      last byte, is within it, and the lines of its chunks and its trailers are. */
  lemma RequestLimitExactly(p: Parser, q: Req, rest: Bytes)
    requires Live(p) && p.state == S_PRE_START_REQ && p.line.kind == Request && IsRequest(q)
    ensures WithinLimit(CALLBACKS, p, RequestText(q) + rest) <==> Fits(q)
  {
    hide WithinLimit, WithinCount, Fits, RequestText, IsRequest, Inv;
    WithinLimitExactly(CALLBACKS, p, RequestText(q) + rest);
    RequestWithin(AtFirst(p), q, rest);
  }

  // ---------------------------------------------------------------- the theorem

  /** A new request on a connection with nothing to read. */
  predicate Idle(s: Session) {
    Live(s.p) && s.p.state == S_PRE_START_REQ && s.p.line.kind == Request && s.nread == 0 && IsNew(s.r) && s.buf == []
  }

  /** The request was read back, with its request line, and `rest` is left. */
  predicate ReadBack(s: Session, d: Session, q: Req, rest: Bytes) {
    Holds(s.r, d.r, q) && d.buf == rest && d.p.errno == HPE_PAUSED && LineRight(d.p.line, q.line)
  }

  /** Without the header limit in the way. */
  lemma ReadsBack(s: Session, q: Req, rest: Bytes, pieces: seq<Bytes>)
    requires Idle(s) && IsRequest(q) && IsCutOf(pieces, RequestText(q) + rest)
    requires ArriveAll(s, pieces).p.errno != HPE_HEADER_OVERFLOW
    ensures ReadBack(s, ArriveAll(s, pieces), q, rest)
  {
    hide Inv, IsRequest, RequestText, RequestOut, ReadAll, ArriveAll, FeedAll, HandleAll, Holds, IsNew, Concat,
         LineRight, Foldable;
    var e := AtFirst(s.p);
    var text := RequestText(q);
    RequestRead(CALLBACKS, e, q);
    ReadAllAppend(CALLBACKS, e, text, rest);
    ReadAllStopped(CALLBACKS, ReadAll(CALLBACKS, e, text), rest);
    assert !s.r.completed by { NewIsNotComplete(s.r); }
    ArriveAllMatches(s, pieces);
    FeedAllReads(CALLBACKS, s.p, s.nread, pieces);
    RequestFoldable(q);
    RequestHandled(s.r, q);
    assert (text + rest)[|text|..] == rest;
  }

  lemma RequestFoldable(q: Req)
    requires IsRequest(q)
    ensures Foldable(q.fields) && Foldable(Trailers(q.form))
  {
    hide IsStartLine, AllFields, FramingOf;
    FieldsFoldable(q.fields);
    if q.form.Coded? { FieldsFoldable(q.form.last.trailers); } else { FieldsFoldable([]); }
  }

  lemma NewIsNotComplete(r: Content)
    requires IsNew(r)
    ensures !r.completed
  {
  }

  /** A request text, however it is cut and whatever follows it, is read back: the request is complete
      with its method, target, version, fields and body, and what follows is left in the buffer. */
  lemma RequestReadsBack(s: Session, q: Req, rest: Bytes, pieces: seq<Bytes>)
    requires Idle(s) && IsRequest(q) && Fits(q) && IsCutOf(pieces, RequestText(q) + rest)
    ensures ReadBack(s, ArriveAll(s, pieces), q, rest)
  {
    hide Inv, IsRequest, RequestText, Fits, ArriveAll, FeedAll, ReadBack, IsNew, Concat, WithinCount, Matches;
    RequestWithin(AtFirst(s.p), q, rest);
    NoOverflow(CALLBACKS, s.p, pieces);
    ArriveAllParser(s, pieces);
    ReadsBack(s, q, rest, pieces);
  }

  lemma ArriveAllParser(s: Session, pieces: seq<Bytes>)
    requires Idle(s) && NoneEmpty(pieces)
    ensures ArriveAll(s, pieces).p == FeedAll(CALLBACKS, Fresh(s.p, 0), pieces).p
  {
    hide ArriveAll, FeedAll, Inv;
    ArriveAllMatches(s, pieces);
  }

  /** The limit depends on the cuts: all at once, a request with a head of any length is read back; in two
      pieces, cut before the last byte of a head beyond the limit, it is refused. */
  lemma LimitDependsOnCuts(s: Session, q: Req, rest: Bytes)
    requires Idle(s) && IsRequest(q) && 80 * 1024 < |HeadButLf(q)| < UINT32_SIZE
    ensures ReadBack(s, ArriveAll(s, [RequestText(q) + rest]), q, rest)
    ensures ArriveAll(s, [HeadButLf(q), [LF] + Sent(q.form) + rest]).p.errno == HPE_HEADER_OVERFLOW
  {
    hide Inv, IsRequest, ReadBack, IsNew, ReadAll, FeedAll, Feed, ArriveAll, HeadButLf, HeadOut, RequestOut, Since,
         Tally, LineRight;
    var e, f := AtFirst(s.p), Fresh(s.p, 0);
    var head, all := HeadButLf(q), RequestText(q) + rest;
    RequestRead(CALLBACKS, e, q);
    ReadAllAppend(CALLBACKS, e, RequestText(q), rest);
    ReadAllStopped(CALLBACKS, ReadAll(CALLBACKS, e, RequestText(q)), rest);
    FeedCount(CALLBACKS, f, e, 0, all);
    OnePiece(CALLBACKS, f, all);
    ArriveAllParser(s, [all]);
    ReadsBack(s, q, rest, [all]);
    var tail := [LF] + Sent(q.form) + rest;
    HeadRead(CALLBACKS, e, q);
    HeadTally(e.out, q);
    StretchWithin(CALLBACKS, e, 0, head);
    FeedCount(CALLBACKS, f, e, 0, head);
    TwoPieces(CALLBACKS, f, head, tail);
    OverflowStays(CALLBACKS, Feed(CALLBACKS, f, head), tail);
    ArriveAllParser(s, [head, tail]);
  }

  /** Such a request: one field that is long enough. */
  lemma LongRequest(n: nat) returns (q: Req)
    ensures IsRequest(q) && |HeadButLf(q)| == n + 22
  {
    var v: Bytes := seq(n, i => LOWER_C);
    var x := HeaderLine([LOWER_C], [SP], v, false, []);
    var line := StartLine([], [LETTER_G, LETTER_E, LETTER_T], 0, [SLASH], 0, [DIGIT0 + 1], [DIGIT0 + 1], false);
    q := Req(line, [x], false, Bare);
    PlainLine(line);
    PlainField(x);
    assert [x][..0] == [];
    assert LinesText([x]) == [] + LineText(x);
    assert Spaces(0) == [];
  }

  lemma PlainLine(q: StartLine)
    requires q == StartLine([], [LETTER_G, LETTER_E, LETTER_T], 0, [SLASH], 0, [DIGIT0 + 1], [DIGIT0 + 1], false)
    ensures IsStartLine(q) && !IsConnect(q.verb)
  {
    assert METHOD_NAMES[M_GET] == "GET" && Spells(q.verb, METHOD_NAMES[M_GET]);
    TargetForms.OriginForm(q.target);
    var one: Bytes := [DIGIT0 + 1];
    assert one[..0] == [];
    assert Decimal(one) == 1;
  }

  lemma PlainField(x: HeaderLine)
    requires x.name == [LOWER_C] && x.gap == [SP] && x.folds == []
    requires forall i :: 0 <= i < |x.value| ==> x.value[i] == LOWER_C
    ensures IsField(x) && Framed(false, [x], Bare)
  {
    hide HasChunked, HasUpgrade, LastLength;
    assert !Named(x.name, CONTENT_LENGTH) && !Named(x.name, TRANSFER_ENCODING) && !Named(x.name, UPGRADE);
    NoQuotes(x.value);
    assert [x][..0] == [];
    assert LinesOf([x]) == [] + [FieldLine(x.name, x.value, false)];
    OneMoreLine([], FieldLine(x.name, x.value, false));
    assert !HasChunked([]) && LastLength([]) == -1 by { NoLines(); }
  }

  lemma {:induction false} NoQuotes(v: Bytes)
    requires forall i :: 0 <= i < |v| ==> v[i] == LOWER_C
    ensures TextState(H_GENERAL, v) == H_GENERAL
  {
    if v != [] { NoQuotes(v[..|v| - 1]); }
  }
}
