/** Chunked bodies written out, with extensions and trailers, and read by the parser. */
module ParserChunks {
  import opened Ascii
  import opened ParserTypes
  import opened ParserStep
  import opened ParserInvariant
  import opened ParserEvents
  import opened ParserCuts
  import opened ParserLimit
  import opened ParserBody
  import opened ParserLines

  // ---------------------------------------------------------------- the text

  function HexChar(d: nat): Byte
    requires d < 16
  {
    if d < 10 then 48 + d else 87 + d
  }

  /** What "%x" prints. */
  function Hex(n: nat): Bytes {
    if n < 16 then [HexChar(n)] else Hex(n / 16) + [HexChar(n % 16)]
  }

  lemma {:induction false} HexReadsBack(n: nat)
    ensures HexValue(Hex(n)) == n && AllHex(Hex(n)) && Hex(n) != []
  {
    if n < 16 {
      assert Hex(n)[..0] == [] && HexValue([]) == 0;
    } else {
      HexReadsBack(n / 16);
      assert Hex(n)[..|Hex(n)| - 1] == Hex(n / 16);
    }
  }

  const CRLF: Bytes := [CR, LF]

  /** A chunk: its size in hex digits, its extension, its data. */
  datatype Chunk = Chunk(size: Bytes, ext: Bytes, data: Bytes)

  /** The digits of a size, in either case and with leading zeros or without. */
  predicate IsSize(size: Bytes, n: nat) { size != [] && AllHex(size) && HexValue(size) == n }

  /** An extension: nothing, or anything up to the line end that starts with ';' or a space. */
  predicate IsExt(x: Bytes) { x == [] || ((x[0] == SEMI || x[0] == SP) && CR !in x) }

  predicate IsChunk(c: Chunk) { IsSize(c.size, |c.data|) && IsExt(c.ext) && 0 < |c.data| <= INT64_MAX }

  predicate AllChunks(cs: seq<Chunk>) { forall i :: 0 <= i < |cs| ==> IsChunk(cs[i]) }

  function ChunkText(c: Chunk): Bytes { c.size + c.ext + [CR] + ([LF] + c.data + [CR]) + [LF] }

  function ChunksText(cs: seq<Chunk>): Bytes {
    if cs == [] then [] else ChunksText(cs[..|cs| - 1]) + ChunkText(cs[|cs| - 1])
  }

  /** The end of a chunked body: a size of zero, its extension, the trailers, and whether the empty line
      behind them is a LF only. */
  datatype Last = Last(size: Bytes, ext: Bytes, trailers: seq<HeaderLine>, lf: bool)

  predicate IsLast(l: Last) { IsSize(l.size, 0) && IsExt(l.ext) && AllFields(l.trailers) }

  function MaybeCr(lf: bool): Bytes { if lf then [] else [CR] }

  /** All of it but the final LF. */
  function LastButLf(l: Last): Bytes { l.size + l.ext + [CR] + [LF] + LinesText(l.trailers) + MaybeCr(l.lf) }

  function BodyInChunks(cs: seq<Chunk>, l: Last): Bytes { ChunksText(cs) + (LastButLf(l) + [LF]) }

  // ---------------------------------------------------------------- its callbacks

  function ChunkOut(out: seq<Event>, c: Chunk): seq<Event> {
    Push(Push(Push(out, ChunkHeader(|c.data|)), Piece(Body, c.data, S_BODY_IDENTITY)), ChunkComplete)
  }

  function ChunksOut(out: seq<Event>, cs: seq<Chunk>): seq<Event> {
    if cs == [] then out else ChunkOut(ChunksOut(out, cs[..|cs| - 1]), cs[|cs| - 1])
  }

  /** The last chunk and the trailers, before the message is complete. */
  function LastOut(out: seq<Event>, l: Last): seq<Event> { WithFields(Push(out, ChunkHeader(0)), l.trailers) }

  function BodyOut(out: seq<Event>, cs: seq<Chunk>, l: Last): seq<Event> {
    Push(Push(LastOut(ChunksOut(out, cs), l), ChunkComplete), MessageComplete)
  }

  // ---------------------------------------------------------------- a chunk

  predicate Calm(cfg: Settings) { cfg.onChunkHeader == Proceed && cfg.onChunkComplete == Proceed }

  /** `n` bytes on, in order, with these fields and callbacks. */
  predicate At(e: Stream, d: Stream, n: nat, p: Parser, out: seq<Event>) {
    Neat(d) && d.pos == e.pos + n && d.p == p && d.out == out
  }

  lemma {:induction false} SizeEndAll(ds: Bytes, i: nat)
    requires AllHex(ds) && i <= |ds|
    ensures SizeEnd(ds, i) == |ds|
    decreases |ds| - i
  {
    if i < |ds| { SizeEndAll(ds, i + 1); }
  }

  lemma SizeRead(cfg: Settings, e: Stream, size: Bytes, n: nat)
    requires Neat(e) && e.p.state == S_CHUNK_SIZE_START && IsSize(size, n) && n <= INT64_MAX
    ensures At(e, ReadAll(cfg, e, size), |size|, e.p.(state := S_CHUNK_SIZE, length := n), e.out)
  {
    hide ReadAll, HexValue;
    NoEnds(size);
    SizeEndAll(size, 0);
    ChunkSizeRead(cfg, e, size);
    assert size[..|size|] == size;
  }

  lemma ExtByte(cfg: Settings, e: Stream, b: Byte)
    requires Neat(e) && b != CR
    requires if e.p.state == S_CHUNK_SIZE then b == SEMI || b == SP else e.p.state == S_CHUNK_PARAMETERS
    ensures At(e, Read(cfg, e, b), 1, e.p.(state := S_CHUNK_PARAMETERS), e.out)
  {
    hide Push;
    PushNothing(e.out);
  }

  lemma {:induction false} ExtRead(cfg: Settings, e: Stream, x: Bytes)
    requires Neat(e) && e.p.state == S_CHUNK_SIZE && IsExt(x)
    ensures At(e, ReadAll(cfg, e, x), |x|, e.p.(state := if x == [] then S_CHUNK_SIZE else S_CHUNK_PARAMETERS), e.out)
  {
    hide Read;
    if x != [] {
      ExtRead(cfg, e, x[..|x| - 1]);
      ExtByte(cfg, ReadAll(cfg, e, x[..|x| - 1]), x[|x| - 1]);
    }
  }

  lemma SizeCr(cfg: Settings, e: Stream)
    requires Neat(e) && (e.p.state == S_CHUNK_SIZE || e.p.state == S_CHUNK_PARAMETERS)
    ensures At(e, Read(cfg, e, CR), 1, e.p.(state := S_CHUNK_SIZE_ALMOST_DONE), e.out)
  {
    hide Push;
    PushNothing(e.out);
  }

  /** The size line up to its LF. */
  lemma SizeLineRead(cfg: Settings, e: Stream, size: Bytes, ext: Bytes, n: nat)
    requires Neat(e) && e.p.state == S_CHUNK_SIZE_START && IsSize(size, n) && IsExt(ext) && n <= INT64_MAX
    ensures At(e, ReadAll(cfg, e, size + ext + [CR]), |size + ext| + 1,
               e.p.(state := S_CHUNK_SIZE_ALMOST_DONE, length := n), e.out)
  {
    hide ReadAll, Read, IsSize, IsExt;
    SizeRead(cfg, e, size, n);
    ExtRead(cfg, ReadAll(cfg, e, size), ext);
    ReadAllAppend(cfg, e, size, ext);
    SizeCr(cfg, ReadAll(cfg, e, size + ext));
    ReadOneMore(cfg, e, size + ext, CR);
  }

  lemma SizeLf(cfg: Settings, e: Stream)
    requires Calm(cfg) && Neat(e) && e.p.state == S_CHUNK_SIZE_ALMOST_DONE
    ensures At(e, Read(cfg, e, LF), 1,
               if e.p.length == 0 then e.p.(flags := e.p.flags.(trailing := true), state := S_HEADER_FIELD_START)
               else e.p.(state := S_CHUNK_DATA),
               Push(e.out, ChunkHeader(e.p.length)))
  {
    hide Push, PushAll;
    PushNothing(e.out);
    PushAllOne(e.out, ChunkHeader(e.p.length));
  }

  lemma DataByte(cfg: Settings, e: Stream, b: Byte)
    requires Neat(e) && e.p.state == S_CHUNK_DATA && e.p.length > 0
    ensures At(e, Read(cfg, e, b), 1,
               e.p.(length := e.p.length - 1,
                    state := if e.p.length == 1 then S_CHUNK_DATA_ALMOST_DONE else S_CHUNK_DATA),
               PushAll(e.out, [Piece(Body, [b], S_BODY_IDENTITY)]))
  {
    hide Push;
    PushNothing(PushAll(e.out, [Piece(Body, [b], S_BODY_IDENTITY)]));
  }

  /** The bytes of a chunk are delivered as they are. */
  lemma {:induction false} DataRead(cfg: Settings, e: Stream, s: Bytes)
    requires Neat(e) && e.p.state == S_CHUNK_DATA && |s| <= e.p.length && e.p.length > 0
    ensures At(e, ReadAll(cfg, e, s), |s|,
               e.p.(length := e.p.length - |s|,
                    state := if e.p.length == |s| then S_CHUNK_DATA_ALMOST_DONE else S_CHUNK_DATA),
               WithBody(e.out, s))
  {
    hide Step, Read, PushAll, WithBody;
    if s == [] {
      NoBodyText(e.out);
    } else {
      var t, b := s[..|s| - 1], s[|s| - 1];
      assert t + [b] == s;
      DataRead(cfg, e, t);
      DataByte(cfg, ReadAll(cfg, e, t), b);
      WithBodyMore(e.out, t, b);
    }
  }

  /** The CR after the data; it is not looked at. */
  lemma DataCr(cfg: Settings, e: Stream, b: Byte)
    requires Neat(e) && e.p.state == S_CHUNK_DATA_ALMOST_DONE
    ensures At(e, Read(cfg, e, b), 1, e.p.(state := S_CHUNK_DATA_DONE), e.out)
  {
    hide Push;
    PushNothing(e.out);
  }

  /** Nor is the LF. */
  lemma DataLf(cfg: Settings, e: Stream, b: Byte)
    requires Calm(cfg) && Neat(e) && e.p.state == S_CHUNK_DATA_DONE
    ensures At(e, Read(cfg, e, b), 1, e.p.(state := S_CHUNK_SIZE_START), Push(e.out, ChunkComplete))
    ensures Step(cfg, e.p, b).reset && Step(cfg, e.p, b).ctl == Next
  {
    hide Push, PushAll;
    PushNothing(e.out);
    PushAllOne(e.out, ChunkComplete);
  }

  /** The first `n` bytes of the data and what is around it. */
  lemma DataPartRead(cfg: Settings, e: Stream, data: Bytes, n: nat)
    requires Calm(cfg) && Neat(e) && e.p.state == S_CHUNK_SIZE_ALMOST_DONE && e.p.length == |data| > 0
    requires 0 < n <= |data| + 2
    ensures var d := ReadAll(cfg, e, ([LF] + data + [CR])[..n]);
            Neat(d) && !ParsingHeader(d.p.state)
            && (n == |data| + 2 ==>
                  At(e, d, n, e.p.(state := S_CHUNK_DATA_DONE, length := 0),
                     Push(Push(e.out, ChunkHeader(|data|)), Piece(Body, data, S_BODY_IDENTITY))))
  {
    hide ReadAll, Read, Push;
    var all := [LF] + data + [CR];
    SizeLf(cfg, e);
    ReadNothing(cfg, e);
    ReadOneMore(cfg, e, [], LF);
    assert [] + [LF] == [LF];
    var d := ReadAll(cfg, e, [LF]);
    if n <= |data| + 1 {
      assert all[..n] == [LF] + data[..n - 1];
      ReadAllAppend(cfg, e, [LF], data[..n - 1]);
      DataRead(cfg, d, data[..n - 1]);
    } else {
      assert all[..n] == [LF] + data + [CR];
      ReadAllAppend(cfg, e, [LF], data);
      DataRead(cfg, d, data);
      ReadOneMore(cfg, e, [LF] + data, CR);
      DataCr(cfg, ReadAll(cfg, e, [LF] + data), CR);
    }
  }

  /** One chunk is delivered as its header, its data and its end. */
  lemma ChunkRead(cfg: Settings, e: Stream, c: Chunk)
    requires Calm(cfg) && Neat(e) && e.p.state == S_CHUNK_SIZE_START && IsChunk(c)
    ensures At(e, ReadAll(cfg, e, ChunkText(c)), |ChunkText(c)|, e.p.(length := 0), ChunkOut(e.out, c))
  {
    hide ReadAll, Read, Push, IsSize, IsExt;
    var line, data := c.size + c.ext + [CR], [LF] + c.data + [CR];
    SizeLineRead(cfg, e, c.size, c.ext, |c.data|);
    var d := ReadAll(cfg, e, line);
    DataPartRead(cfg, d, c.data, |data|);
    assert data[..|data|] == data;
    ReadAllAppend(cfg, e, line, data);
    DataLf(cfg, ReadAll(cfg, e, line + data), LF);
    ReadOneMore(cfg, e, line + data, LF);
  }

  lemma {:induction false} ChunksRead(cfg: Settings, e: Stream, cs: seq<Chunk>)
    requires Calm(cfg) && Neat(e) && e.p.state == S_CHUNK_SIZE_START && AllChunks(cs)
    ensures At(e, ReadAll(cfg, e, ChunksText(cs)), |ChunksText(cs)|,
               if cs == [] then e.p else e.p.(length := 0), ChunksOut(e.out, cs))
  {
    hide Read, IsChunk, ChunkText, ChunkOut;
    if cs != [] {
      var f, c := cs[..|cs| - 1], cs[|cs| - 1];
      ChunksRead(cfg, e, f);
      ChunkRead(cfg, ReadAll(cfg, e, ChunksText(f)), c);
      ReadAllAppend(cfg, e, ChunksText(f), ChunkText(c));
    }
  }

  // ---------------------------------------------------------------- the end

  /** Before the LF of the empty line, with a CR or without. */
  predicate EmptyLine(s: State) { LineStart(s) || s == S_HEADERS_ALMOST_DONE }

  lemma EmptyLineRead(cfg: Settings, e: Stream, lf: bool)
    requires Neat(e) && LineStart(e.p.state)
    ensures var d := ReadAll(cfg, e, MaybeCr(lf));
            EmptyLine(d.p.state) && At(e, d, |MaybeCr(lf)|, e.p.(state := d.p.state), e.out)
  {
    hide Push;
    if !lf {
      ReadOne(cfg, e, CR);
      PushNothing(e.out);
    }
  }

  /** The last chunk and the trailers, up to the final LF. */
  lemma LastButLfRead(cfg: Settings, e: Stream, l: Last)
    requires Calm(cfg) && Neat(e) && e.p.state == S_CHUNK_SIZE_START && IsLast(l)
    ensures var d := ReadAll(cfg, e, LastButLf(l));
            At(e, d, |LastButLf(l)|, d.p, LastOut(e.out, l))
            && EmptyLine(d.p.state) && d.p.line == e.p.line && d.p.flags.trailing
            && d.p.errno == e.p.errno && d.p.upgrade == e.p.upgrade
  {
    hide ReadAll, Read, Push, IsSize, IsExt, AllFields, LinesText, WithFields, MaybeCr;
    var line := l.size + l.ext + [CR];
    SizeLineRead(cfg, e, l.size, l.ext, 0);
    ReadOneMore(cfg, e, line, LF);
    SizeLf(cfg, ReadAll(cfg, e, line));
    var f := ReadAll(cfg, e, line + [LF]);
    LinesRead(cfg, f, l.trailers);
    LinesKeep(f.p, l.trailers);
    ReadAllAppend(cfg, e, line + [LF], LinesText(l.trailers));
    ReadAllAppend(cfg, e, line + [LF] + LinesText(l.trailers), MaybeCr(l.lf));
    EmptyLineRead(cfg, ReadAll(cfg, e, line + [LF] + LinesText(l.trailers)), l.lf);
  }

  lemma FinalLf(cfg: Settings, e: Stream)
    requires Calm(cfg) && Neat(e) && EmptyLine(e.p.state) && e.p.flags.trailing
    ensures var d := Read(cfg, e, LF);
            && Completed(cfg, e, d) && d.pos == e.pos + 1
            && d.out == Push(Push(e.out, ChunkComplete), MessageComplete)
    ensures Step(cfg, e.p, LF).reset && Step(cfg, e.p, LF).ctl != StopBefore
  {
    hide Push, PushAll;
    assert [ChunkComplete] + [MessageComplete] == [ChunkComplete, MessageComplete];
    PushNothing(e.out);
    PushAllAppend(e.out, [ChunkComplete], [MessageComplete]);
    PushAllOne(e.out, ChunkComplete);
    PushAllOne(Push(e.out, ChunkComplete), MessageComplete);
  }

  lemma ChunkedRead(cfg: Settings, e: Stream, cs: seq<Chunk>, l: Last)
    requires Calm(cfg) && Neat(e) && e.p.state == S_CHUNK_SIZE_START && AllChunks(cs) && IsLast(l)
    ensures var d := ReadAll(cfg, e, BodyInChunks(cs, l));
            Completed(cfg, e, d) && d.pos == e.pos + |BodyInChunks(cs, l)| && d.out == BodyOut(e.out, cs, l)
    ensures var all := BodyInChunks(cs, l);
            all != [] && Without(e, ReadAll(cfg, e, all[..|all| - 1]), Completion)
  {
    hide ReadAll, Read, Push, AllChunks, IsLast, ChunksText, LastButLf, ChunksOut, LastOut, Tally;
    var s, t := ChunksText(cs), LastButLf(l);
    ChunksRead(cfg, e, cs);
    var d := ReadAll(cfg, e, s);
    LastButLfRead(cfg, d, l);
    ReadAllAppend(cfg, e, s, t);
    var f := ReadAll(cfg, e, s + t);
    FinalLf(cfg, f);
    ReadOneMore(cfg, e, s + t, LF);
    var all := BodyInChunks(cs, l);
    assert s + t + [LF] == all && all[..|all| - 1] == s + t;
    ChunksTally(e.out, cs);
    LastTally(ChunksOut(e.out, cs), l);
  }

  /** Chunked framing is read back: the callbacks are the chunks in order with their data, then the
      trailers; the message is complete with the last byte, and not before. */
  lemma ChunkedReadsBack(cfg: Settings, e: Stream, cs: seq<Chunk>, l: Last)
    requires Calm(cfg) && e.live && e.p.state == S_CHUNK_SIZE_START && AllChunks(cs) && IsLast(l)
    ensures var d := ReadAll(cfg, e, BodyInChunks(cs, l));
            && d.pos == e.pos + |BodyInChunks(cs, l)| && d.out == BodyOut(e.out, cs, l)
            && d.p.state == Anew(e.p.line.kind)
    ensures forall n :: 0 <= n < |BodyInChunks(cs, l)| ==>
              Without(e, ReadAll(cfg, e, BodyInChunks(cs, l)[..n]), Completion)
  {
    hide ReadAll, AllChunks, IsLast, BodyInChunks, BodyOut, Tally;
    var all := BodyInChunks(cs, l);
    var neat := e.(gap := false, clean := true);
    ChunkedRead(cfg, neat, cs, l);
    GapsDoNotMatter(cfg, neat, e, all);
    forall n | 0 <= n < |all| ensures Without(e, ReadAll(cfg, e, all[..n]), Completion) {
      assert all[..|all| - 1][..n] == all[..n];
      WithoutPart(cfg, neat, all[..|all| - 1], n, Completion);
      GapsDoNotMatter(cfg, neat, e, all[..n]);
    }
  }

  lemma {:induction false} ChunksTally(out: seq<Event>, cs: seq<Chunk>)
    ensures Tally(ChunksOut(out, cs), Completion) == Tally(out, Completion)
  {
    hide Push, Tally;
    if cs != [] {
      var f, c := cs[..|cs| - 1], cs[|cs| - 1];
      ChunksTally(out, f);
      var o := ChunksOut(out, f);
      TallyPush(o, ChunkHeader(|c.data|), Completion);
      TallyPush(Push(o, ChunkHeader(|c.data|)), Piece(Body, c.data, S_BODY_IDENTITY), Completion);
      TallyPush(Push(Push(o, ChunkHeader(|c.data|)), Piece(Body, c.data, S_BODY_IDENTITY)), ChunkComplete, Completion);
    }
  }

  lemma {:induction false} FoldsTally(out: seq<Event>, fs: seq<Fold>, k: Sort)
    ensures Tally(WithFolds(out, fs), k) == Tally(out, k)
  {
    hide Push, Tally;
    if fs != [] {
      var g, f := fs[..|fs| - 1], fs[|fs| - 1];
      FoldsTally(out, g, k);
      var o := WithFolds(out, g);
      TallyPush(o, Data(Value, [SP], S_HEADER_VALUE_START), k);
      TallyPush(Push(o, Data(Value, [SP], S_HEADER_VALUE_START)), Data(Value, f.text, S_HEADER_ALMOST_DONE), k);
    }
  }

  lemma {:induction false} FieldsTally(out: seq<Event>, xs: seq<HeaderLine>, k: Sort)
    ensures Tally(WithFields(out, xs), k) == Tally(out, k)
  {
    hide Push, Tally, WithFolds;
    if xs != [] {
      var f, x := xs[..|xs| - 1], xs[|xs| - 1];
      FieldsTally(out, f, k);
      var o := WithFields(out, f);
      TallyPush(o, Data(Field, x.name, S_HEADER_VALUE_START), k);
      TallyPush(Push(o, Data(Field, x.name, S_HEADER_VALUE_START)),
                Data(Value, x.value, ValueEnd(x.value, x.lf)), k);
      FoldsTally(WithFirst(o, x), x.folds, k);
    }
  }

  lemma LastTally(out: seq<Event>, l: Last)
    ensures Tally(LastOut(out, l), Completion) == Tally(out, Completion)
    ensures Tally(LastOut(out, l), Break) == Tally(out, Break)
  {
    hide Push, Tally, WithFields;
    TallyPush(out, ChunkHeader(0), Completion);
    TallyPush(out, ChunkHeader(0), Break);
    FieldsTally(Push(out, ChunkHeader(0)), l.trailers, Completion);
    FieldsTally(Push(out, ChunkHeader(0)), l.trailers, Break);
  }

  // ---------------------------------------------------------------- and the header limit

  /** The line of a chunk, counted from the LF before it, is within the limit. */
  predicate LineFits(c: Chunk) { 1 + |c.size + c.ext + [CR]| <= MAX_HEADER_SIZE }

  predicate LinesFit(cs: seq<Chunk>) { forall i :: 0 <= i < |cs| ==> LineFits(cs[i]) }

  predicate LastFits(l: Last) { 1 + |LastButLf(l)| <= MAX_HEADER_SIZE }

  lemma DataWithin(cfg: Settings, e: Stream, k: nat, data: Bytes)
    requires Calm(cfg) && Neat(e) && e.p.state == S_CHUNK_SIZE_ALMOST_DONE && e.p.length == |data| > 0
    requires k <= MAX_HEADER_SIZE
    ensures WithinCount(cfg, e, k, [LF] + data + [CR])
  {
    hide ReadAll, WithinCount;
    var s := [LF] + data + [CR];
    forall n | 0 < n <= |s| ensures !InHeader(ReadAll(cfg, e, s[..n])) {
      DataPartRead(cfg, e, data, n);
    }
    OutsideWithin(cfg, e, k, s);
  }

  /** One byte that resets the count. */
  lemma ResetWithin(cfg: Settings, e: Stream, k: nat, b: Byte)
    requires e.live && Step(cfg, e.p, b).reset && Step(cfg, e.p, b).ctl != StopBefore
    ensures Since(cfg, e, k, [b]) == 1
    ensures WithinCount(cfg, e, k, [b]) <==> (InHeader(e) ==> k <= MAX_HEADER_SIZE)
  {
    hide Step, PushAll;
    assert [b][..0] == [] && [b][..1] == [b];
    assert ReadAll(cfg, e, []) == e && Since(cfg, e, k, []) == k;
    assert Since(cfg, e, k, [b]) == 1;
    forall n | 0 <= n <= 1 && InHeader(ReadAll(cfg, e, [b][..n]))
      ensures n == 0 || Since(cfg, e, k, [b][..n]) <= MAX_HEADER_SIZE
    {
      if n == 1 { assert [b][..n] == [b]; }
    }
  }

  lemma ChunkWithin(cfg: Settings, e: Stream, c: Chunk)
    requires Calm(cfg) && Neat(e) && Live(e.p) && e.p.state == S_CHUNK_SIZE_START && IsChunk(c)
    ensures WithinCount(cfg, e, 1, ChunkText(c)) <==> LineFits(c)
    ensures Since(cfg, e, 1, ChunkText(c)) == 1
  {
    hide ReadAll, Read, Push, IsSize, IsExt, WithinCount, Since, Tally, Inv;
    var line, data := c.size + c.ext + [CR], [LF] + c.data + [CR];
    SizeLineRead(cfg, e, c.size, c.ext, |c.data|);
    var d := ReadAll(cfg, e, line);
    StretchWithin(cfg, e, 1, line);
    DataPartRead(cfg, d, c.data, |data|);
    assert data[..|data|] == data;
    ReadAllAppend(cfg, e, line, data);
    SinceAppend(cfg, e, 1, line, data);
    var f := ReadAll(cfg, e, line + data);
    DataLf(cfg, f, LF);
    SinceAppend(cfg, e, 1, line + data, [LF]);
    WithinCountAppend(cfg, e, 1, line, data);
    WithinCountAppend(cfg, e, 1, line + data, [LF]);
    ResetWithin(cfg, f, Since(cfg, e, 1, line + data), LF);
    if LineFits(c) {
      DataWithin(cfg, d, 1 + |line|, c.data);
    }
  }

  lemma {:induction false} ChunksWithin(cfg: Settings, e: Stream, cs: seq<Chunk>)
    requires Calm(cfg) && Neat(e) && Live(e.p) && e.p.state == S_CHUNK_SIZE_START && AllChunks(cs)
    ensures WithinCount(cfg, e, 1, ChunksText(cs)) <==> LinesFit(cs)
    ensures Since(cfg, e, 1, ChunksText(cs)) == 1
  {
    hide ReadAll, IsChunk, ChunkText, ChunksOut, WithinCount, LineFits, Inv, Since;
    if cs == [] {
      NothingWithin(cfg, e, 1);
    } else {
      var f, c := cs[..|cs| - 1], cs[|cs| - 1];
      ChunksWithin(cfg, e, f);
      ChunksRead(cfg, e, f);
      ReadAllLive(cfg, e, ChunksText(f));
      ChunkWithin(cfg, ReadAll(cfg, e, ChunksText(f)), c);
      WithinCountAppend(cfg, e, 1, ChunksText(f), ChunkText(c));
      SinceAppend(cfg, e, 1, ChunksText(f), ChunkText(c));
    }
  }

  lemma NothingWithin(cfg: Settings, e: Stream, k: nat)
    requires k <= MAX_HEADER_SIZE
    ensures WithinCount(cfg, e, k, []) && Since(cfg, e, k, []) == k
  {
    var none: Bytes := [];
    assert none[..0] == none;
  }

  /** A chunked body runs into the header limit in no way it may be cut if and only if each size line
      with its extension is within it, and so are the trailers; the data does not matter. */
  lemma ChunkedWithin(cfg: Settings, e: Stream, cs: seq<Chunk>, l: Last)
    requires Calm(cfg) && Neat(e) && Live(e.p) && e.p.state == S_CHUNK_SIZE_START && AllChunks(cs) && IsLast(l)
    ensures WithinCount(cfg, e, 1, BodyInChunks(cs, l)) <==> LinesFit(cs) && LastFits(l)
  {
    hide ReadAll, Read, Push, AllChunks, IsLast, ChunksText, LastButLf, ChunksOut, LastOut, Tally, WithinCount,
         Since, LinesFit, Inv;
    var s, t := ChunksText(cs), LastButLf(l);
    ChunksWithin(cfg, e, cs);
    ChunksRead(cfg, e, cs);
    var d := ReadAll(cfg, e, s);
    ReadAllLive(cfg, e, s);
    LastButLfRead(cfg, d, l);
    LastTally(d.out, l);
    StretchWithin(cfg, d, 1, t);
    var f := ReadAll(cfg, d, t);
    FinalLf(cfg, f);
    ResetWithin(cfg, f, 1 + |t|, LF);
    WithinCountAppend(cfg, e, 1, s, t + [LF]);
    WithinCountAppend(cfg, d, 1, t, [LF]);
  }
}
