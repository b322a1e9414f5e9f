/** `HttpResponse::SendReply`: the framing of the response body, read back by the parser. */
module Response {
  import opened Ascii
  import opened ParserTypes
  import opened ParserStep
  import opened ParserInvariant
  import opened ParserEvents
  import opened ParserCuts
  import opened ParserLimit
  import opened ParserBody
  import opened ParserChunks

  /** The chunk of size 0 that ends the body. */
  const LAST_CHUNK: Bytes := [DIGIT0, CR, LF, CR, LF]

  /** `int(size)` printed with "%x": the size modulo 2^32. */
  function SizeText(n: nat): Bytes { Hex(n % UINT32_SIZE) }

  /** The body of a chunked reply. */
  function ReplyText(body: Bytes): Bytes {
    (if body == [] then [] else SizeText(|body|) + CRLF + body + CRLF) + LAST_CHUNK
  }

  /** What SendReply sends after the head, one element for each `conn->Send`. */
  method SendBody(chunked: bool, body: Bytes) returns (sends: seq<Bytes>)
    ensures Concat(sends) == if chunked then ReplyText(body) else body
  {
    hide Concat, SizeText;
    sends := [];
    ghost var text: Bytes := [];
    SentNothing();
    if |body| > 0 {
      if chunked {
        SentMore(sends, SizeText(|body|) + CRLF);
        sends := sends + [SizeText(|body|) + CRLF];
        text := [] + (SizeText(|body|) + CRLF);
        assert text == SizeText(|body|) + CRLF;
      }
      SentMore(sends, body);
      sends := sends + [body];
      text := text + body;
      if chunked {
        SentMore(sends, CRLF);
        sends := sends + [CRLF];
        text := text + CRLF;
      }
    }
    assert Concat(sends) == text;
    if chunked {
      SentMore(sends, LAST_CHUNK);
      sends := sends + [LAST_CHUNK];
    }
  }

  lemma SentNothing()
    ensures Concat([]) == []
  {
  }

  lemma SentMore(sends: seq<Bytes>, s: Bytes)
    ensures Concat(sends + [s]) == Concat(sends) + s
  {
    assert (sends + [s])[..|sends|] == sends;
  }

  function BodyPart(e: Event): Bytes { if e.Data? && e.kind == Body then e.text else [] }

  /** The body text among callbacks. */
  function BodyText(es: seq<Event>): Bytes {
    if es == [] then [] else BodyText(es[..|es| - 1]) + BodyPart(es[|es| - 1])
  }

  lemma BodyTextPush(es: seq<Event>, e: Event)
    ensures BodyText(Push(es, e)) == BodyText(es) + BodyPart(e)
  {
    var fs := Push(es, e);
    if es != [] && Continues(es[|es| - 1], e) {
      var front, last := es[..|es| - 1], es[|es| - 1];
      assert fs[..|fs| - 1] == front;
      var x := BodyText(front);
      assert x + BodyPart(last) + BodyPart(e) == x + (BodyPart(last) + BodyPart(e));
      assert BodyPart(fs[|fs| - 1]) == BodyPart(last) + BodyPart(e);
    } else {
      assert fs[..|fs| - 1] == es;
    }
  }

  lemma ChunkBodyText(out: seq<Event>, c: Chunk)
    ensures BodyText(ChunkOut(out, c)) == BodyText(out) + c.data
  {
    hide Push, BodyText;
    var header := Push(out, ChunkHeader(|c.data|));
    var data := Push(header, Piece(Body, c.data, S_BODY_IDENTITY));
    BodyTextPush(out, ChunkHeader(|c.data|));
    BodyTextPush(header, Piece(Body, c.data, S_BODY_IDENTITY));
    BodyTextPush(data, ChunkComplete);
    assert BodyText(out) + [] == BodyText(out) && BodyText(data) + [] == BodyText(data);
  }

  const END := Last([DIGIT0], [], [], false)

  lemma EndBodyText(out: seq<Event>)
    ensures BodyText(Push(Push(LastOut(out, END), ChunkComplete), MessageComplete)) == BodyText(out)
  {
    hide Push, BodyText;
    var o := Push(out, ChunkHeader(0));
    assert LastOut(out, END) == o;
    BodyTextPush(out, ChunkHeader(0));
    BodyTextPush(o, ChunkComplete);
    BodyTextPush(Push(o, ChunkComplete), MessageComplete);
    assert BodyText(out) + [] == BodyText(out);
  }

  function ChunksOf(body: Bytes): seq<Chunk> { if body == [] then [] else [Chunk(Hex(|body|), [], body)] }

  lemma ChunksOfRight(body: Bytes, out: seq<Event>)
    requires |body| < UINT32_SIZE
    ensures AllChunks(ChunksOf(body)) && IsLast(END)
    ensures BodyInChunks(ChunksOf(body), END) == ReplyText(body)
    ensures BodyText(BodyOut(out, ChunksOf(body), END)) == BodyText(out) + body
  {
    hide BodyText, Hex, HexValue, Push, LastOut, ChunkOut;
    HexReadsBack(|body|);
    ZeroIsZero();
    var cs := ChunksOf(body);
    if body == [] {
      assert BodyText(out) + body == BodyText(out);
    } else {
      assert cs[..0] == [];
      assert ChunksText(cs[..0]) == [] && ChunksOut(out, cs[..0]) == out;
      ChunkBodyText(out, cs[0]);
    }
    EndBodyText(ChunksOut(out, cs));
    TextParts(body);
  }

  lemma ZeroIsZero()
    ensures IsLast(END)
  {
    var z: Bytes := [DIGIT0];
    assert z[..0] == [];
  }

  lemma TextParts(body: Bytes)
    requires |body| < UINT32_SIZE
    ensures BodyInChunks(ChunksOf(body), END) == ReplyText(body)
  {
    hide Hex;
    assert LastButLf(END) + [LF] == LAST_CHUNK;
    var cs := ChunksOf(body);
    if body != [] {
      var h := Hex(|body|);
      assert cs[..0] == [];
      assert ChunksText(cs) == [] + ChunkText(cs[0]);
      assert h + [] + [CR] + ([LF] + body + [CR]) + [LF] == h + CRLF + body + CRLF;
    }
  }

  /** The message is complete with the last byte of `s`, and not before. */
  ghost predicate CompletesWith(cfg: Settings, e: Stream, s: Bytes) {
    && ReadAll(cfg, e, s).pos == e.pos + |s|
    && Tally(ReadAll(cfg, e, s).out, Completion) == Tally(e.out, Completion) + 1
    && forall n :: 0 <= n < |s| ==> Without(e, ReadAll(cfg, e, s[..n]), Completion)
  }

  /** The text `sent` is read back as `body`: that is the body text delivered when the message is
      complete, which is with the last byte. */
  ghost predicate ReadsBack(cfg: Settings, e: Stream, body: Bytes, sent: Bytes) {
    && CompletesWith(cfg, e, sent)
    && BodyText(ReadAll(cfg, e, sent).out) == BodyText(e.out) + body
    && ReadAll(cfg, e, sent).p.state == Anew(e.p.line.kind)
  }

  lemma ShortReadsBack(cfg: Settings, e: Stream, body: Bytes)
    requires Calm(cfg) && e.live && e.p.state == S_CHUNK_SIZE_START && |body| < UINT32_SIZE
    ensures ReadsBack(cfg, e, body, ReplyText(body))
  {
    hide ReadAll, BodyText, Tally, BodyInChunks, BodyOut, AllChunks, IsLast, ChunksOf, ReplyText;
    ChunksOfRight(body, e.out);
    ChunkedReadsBack(cfg, e, ChunksOf(body), END);
    OneCompletion(e.out, ChunksOf(body));
  }

  lemma OneCompletion(out: seq<Event>, cs: seq<Chunk>)
    ensures Tally(BodyOut(out, cs, END), Completion) == Tally(out, Completion) + 1
  {
    hide Push, Tally, LastOut, ChunksOut;
    var o := LastOut(ChunksOut(out, cs), END);
    ChunksTally(out, cs);
    LastTally(ChunksOut(out, cs), END);
    TallyPush(o, ChunkComplete, Completion);
    TallyPush(Push(o, ChunkComplete), MessageComplete, Completion);
  }

  /** The size line is right exactly for bodies shorter than 2^32 bytes. */
  lemma SizeLineRight(body: Bytes)
    ensures HexValue(SizeText(|body|)) == |body| <==> |body| < UINT32_SIZE
  {
    HexReadsBack(|body| % UINT32_SIZE);
  }

  // ---------------------------------------------------------------- longer bodies

  /** In the trailers of a chunked body. */
  predicate InTrailers(p: Parser) { p.flags.trailing && InHeaders(p.state) && p.state != S_HEADERS_DONE }

  predicate InChunked(p: Parser) { InChunks(p.state) || InTrailers(p) }

  /** The least number of bytes, from a chunk size on, with which the parser comes to state `s` having
      delivered `n`: those, and what is around them. */
  function Least(s: State, n: nat): nat {
    if s == S_CHUNK_DATA || s == S_CHUNK_DATA_ALMOST_DONE then n + 3
    else if s == S_CHUNK_DATA_DONE then n + 4
    else
      n + (if n > 0 then 5 else 0)
      + if s == S_CHUNK_SIZE_START then 0
        else if s == S_CHUNK_SIZE || s == S_CHUNK_PARAMETERS then 1
        else if s == S_CHUNK_SIZE_ALMOST_DONE then 2
        else 3
  }

  /** Body bytes among the text of a step. */
  function Delivers(op: MarkOp): nat { if op == Start(Body) || op == Take(Body) then 1 else 0 }

  /** No callback among `es` carries body text. */
  predicate Bodyless(es: seq<Event>) { forall i :: 0 <= i < |es| ==> BodyPart(es[i]) == [] }

  /** A step that does not complete the message stays within the body, in the trailers if it was there,
      and uses up a byte of what it has to; only a step from the trailers completes the message. */
  predicate Costs(p: Parser, a: Act, n: nat) {
    && Bodyless(a.notes)
    && (InTrailers(p) ==> Delivers(a.op) == 0)
    && (MessageComplete in a.notes ==> InTrailers(p))
    && (a.ctl == Next && MessageComplete !in a.notes ==>
          && InChunked(a.p) && (InTrailers(p) ==> InTrailers(a.p))
          && Least(a.p.state, n + Delivers(a.op)) <= Least(p.state, n) + 1)
  }

  lemma ChunkCosts(cfg: Settings, p: Parser, b: Byte, n: nat)
    requires Calm(cfg) && InChunks(p.state)
    ensures Costs(p, Step(cfg, p, b), n)
  {
    hide StepHeaders, StepStart, StepLine;
  }

  lemma LineStartCosts(cfg: Settings, p: Parser, b: Byte, n: nat)
    requires Calm(cfg) && InTrailers(p)
    requires p.state == S_HEADER_FIELD_START || p.state == S_HEADER_VALUE_LWS || p.state == S_HEADERS_ALMOST_DONE
    ensures Costs(p, Step(cfg, p, b), n)
  {
    hide Token, IsToken, FirstHeaderState, StepBody, StepStart, StepLine;
  }

  lemma FieldCosts(cfg: Settings, p: Parser, b: Byte, n: nat)
    requires InTrailers(p)
    requires S_HEADER_FIELD <= p.state <= S_HEADER_VALUE || p.state == S_HEADER_ALMOST_DONE
    ensures Costs(p, Step(cfg, p, b), n)
  {
    hide Match, Token, IsToken, IsHeaderChar, Lower, StepValueLength, FieldByte, StepBody, StepStart, StepLine;
    ValueLengthKeeps(p, b);
    FieldByteKeeps(p, b);
  }

  lemma ValueLengthKeeps(p: Parser, b: Byte)
    ensures var a := StepValueLength(p, b);
            a.notes == [] && a.op == Keep && a.p.state == p.state && a.p.flags == p.flags
  {
  }

  lemma FieldByteKeeps(p: Parser, b: Byte)
    ensures FieldByte(p, b).state == p.state && FieldByte(p, b).flags == p.flags
  {
    hide Match, Token;
  }

  lemma {:induction false} BodylessText(out: seq<Event>, es: seq<Event>)
    requires Bodyless(es)
    ensures BodyText(PushAll(out, es)) == BodyText(out)
  {
    hide Push, BodyText, BodyPart;
    if es != [] {
      var f := es[|es| - 1];
      BodylessText(out, es[..|es| - 1]);
      BodyTextPush(PushAll(out, es[..|es| - 1]), f);
      assert BodyPart(f) == [];
    }
  }

  /** The body text after one more byte. */
  lemma TextGrows(out: seq<Event>, s: State, op: MarkOp, b: Byte, t: State)
    ensures |BodyText(PushAll(out, TextOf(s, op, b, t)))| == |BodyText(out)| + Delivers(op)
  {
    hide BodyText, Push;
    var es := TextOf(s, op, b, t);
    if Delivers(op) == 0 {
      BodylessText(out, es);
    } else {
      PushAllOne(out, es[0]);
      BodyTextPush(out, es[0]);
    }
  }

  lemma ByteCosts(cfg: Settings, p: Parser, b: Byte, n: nat)
    requires Calm(cfg) && InChunked(p)
    ensures Costs(p, Step(cfg, p, b), n)
  {
    hide Step, Costs;
    if InChunks(p.state) {
      ChunkCosts(cfg, p, b, n);
    } else if p.state == S_HEADER_FIELD_START || p.state == S_HEADER_VALUE_LWS || p.state == S_HEADERS_ALMOST_DONE {
      LineStartCosts(cfg, p, b, n);
    } else {
      FieldCosts(cfg, p, b, n);
    }
  }

  /** How much body text `d` has more than `e`. */
  function More(e: Stream, d: Stream): int { |BodyText(d.out)| - |BodyText(e.out)| }

  /** One more byte gives the text its step delivers. */
  lemma ReadMore(cfg: Settings, e: Stream, b: Byte)
    requires e.live && Step(cfg, e.p, b).ctl != StopBefore && Bodyless(Step(cfg, e.p, b).notes)
    ensures More(e, Read(cfg, e, b)) == Delivers(Step(cfg, e.p, b).op)
  {
    hide Step, BodyText, PushAll, TextOf;
    var a := Step(cfg, e.p, b);
    TextGrows(e.out, e.p.state, a.op, b, a.p.state);
    BodylessText(PushAll(e.out, TextOf(e.p.state, a.op, b, a.p.state)), a.notes);
  }

  lemma {:induction false} NoCompletion(es: seq<Event>)
    ensures MessageComplete in es <==> Tally(es, Completion) > 0
  {
    if es != [] { NoCompletion(es[..|es| - 1]); }
  }

  /** What has been read of the body, and at what cost. */
  predicate Paid(e: Stream, d: Stream, n: nat) {
    && InChunked(d.p) && More(e, d) >= 0 && Least(d.p.state, More(e, d)) <= Least(e.p.state, 0) + n
    && (InTrailers(e.p) ==> InTrailers(d.p) && More(e, d) == 0)
  }

  lemma {:induction false} AllPaid(cfg: Settings, e: Stream, s: Bytes)
    requires Calm(cfg) && e.live && InChunked(e.p) && Without(e, ReadAll(cfg, e, s), Completion)
    ensures Paid(e, ReadAll(cfg, e, s), |s|)
  {
    hide Read, Step, Tally, BodyText, InChunked, InTrailers, Least;
    if s != [] {
      var t, b := s[..|s| - 1], s[|s| - 1];
      WithoutPart(cfg, e, s, |t|, Completion);
      AllPaid(cfg, e, t);
      var d := ReadAll(cfg, e, t);
      ByteCosts(cfg, d.p, b, More(e, d));
      ReadTally(cfg, d, b, Completion);
      NoCompletion(Step(cfg, d.p, b).notes);
      StepRead(cfg, d, b);
      ReadMore(cfg, d, b);
    }
  }

  lemma StepRead(cfg: Settings, e: Stream, b: Byte)
    requires e.live && (Read(cfg, e, b).live || Read(cfg, e, b).pos == e.pos + 1)
    ensures var a := Step(cfg, e.p, b);
            a.ctl != StopBefore && Read(cfg, e, b).p == a.p && (Read(cfg, e, b).live ==> a.ctl == Next)
  {
    hide Step, PushAll, TextOf;
  }

  /** A message of which `s` is the rest has at least so much framing around its text. */
  lemma CompletionPaid(cfg: Settings, e: Stream, s: Bytes)
    requires Calm(cfg) && e.live && InChunked(e.p) && s != [] && CompletesWith(cfg, e, s)
    ensures var n := More(e, ReadAll(cfg, e, s));
            n >= 0 && (InTrailers(e.p) ==> n == 0) && Least(S_HEADER_FIELD_START, n) < Least(e.p.state, 0) + |s|
  {
    hide Read, Step, Tally, BodyText, InChunked;
    var t, b := s[..|s| - 1], s[|s| - 1];
    assert s[..|t|] == t;
    AllPaid(cfg, e, t);
    var d := ReadAll(cfg, e, t);
    LivePos(cfg, e, t);
    ByteCosts(cfg, d.p, b, More(e, d));
    ReadTally(cfg, d, b, Completion);
    NoCompletion(Step(cfg, d.p, b).notes);
    StepRead(cfg, d, b);
    ReadMore(cfg, d, b);
  }

  /** If the message is complete with the last byte of `s + t`, and not with `s`, then `t` completes it. */
  lemma RestCompletes(cfg: Settings, e: Stream, s: Bytes, t: Bytes)
    requires CompletesWith(cfg, e, s + t) && t != []
    ensures ReadAll(cfg, e, s).live && CompletesWith(cfg, ReadAll(cfg, e, s), t)
    ensures ReadAll(cfg, e, s + t) == ReadAll(cfg, ReadAll(cfg, e, s), t)
  {
    hide ReadAll, Tally;
    assert (s + t)[..|s|] == s;
    assert Without(e, ReadAll(cfg, e, (s + t)[..|s|]), Completion);
    ReadAllAppend(cfg, e, s, t);
    LivePos(cfg, e, s);
    forall n | 0 <= n < |t| ensures Without(ReadAll(cfg, e, s), ReadAll(cfg, ReadAll(cfg, e, s), t[..n]), Completion) {
      assert (s + t)[..|s| + n] == s + t[..n];
      ReadAllAppend(cfg, e, s, t[..n]);
      assert Without(e, ReadAll(cfg, e, (s + t)[..|s| + n]), Completion);
    }
  }

  /** The size line of a body too long, and the start of what follows it. */
  lemma WrongSizeRead(cfg: Settings, e: Stream, n: nat)
    requires Calm(cfg) && Neat(e) && e.p.state == S_CHUNK_SIZE_START && n < UINT32_SIZE
    ensures var d := ReadAll(cfg, e, Hex(n) + CRLF);
            Neat(d) && More(e, d) == 0
            && if n == 0 then InTrailers(d.p) else d.p.state == S_CHUNK_DATA && d.p.length == n
  {
    hide ReadAll, Read, BodyText, Push, Hex, HexValue;
    HexReadsBack(n);
    SizeLineRead(cfg, e, Hex(n), [], n);
    var line := Hex(n) + [] + [CR];
    ReadOneMore(cfg, e, line, LF);
    assert line + [LF] == Hex(n) + CRLF;
    SizeLf(cfg, ReadAll(cfg, e, line));
    BodyTextPush(e.out, ChunkHeader(n));
    assert BodyText(e.out) + [] == BodyText(e.out);
  }

  /** The chunk that is read instead, and the two bytes after it, whatever they are. */
  lemma WrongChunkRead(cfg: Settings, e: Stream, data: Bytes, b: Byte, c: Byte)
    requires Calm(cfg) && Neat(e) && e.p.state == S_CHUNK_DATA && e.p.length == |data| > 0
    ensures var d := ReadAll(cfg, e, data + [b] + [c]);
            d.live && d.p.state == S_CHUNK_SIZE_START && More(e, d) == |data|
  {
    hide ReadAll, Read, BodyText, Push;
    DataRead(cfg, e, data);
    ReadOneMore(cfg, e, data, b);
    DataCr(cfg, ReadAll(cfg, e, data), b);
    ReadOneMore(cfg, e, data + [b], c);
    DataLf(cfg, ReadAll(cfg, e, data + [b]), c);
    BodyTextPush(e.out, Piece(Body, data, S_BODY_IDENTITY));
    BodyTextPush(WithBody(e.out, data), ChunkComplete);
  }

  /** A body of 2^32 bytes or more whose size is 0 modulo 2^32: it is taken for trailers. */
  lemma ZeroSizeLost(cfg: Settings, e: Stream, body: Bytes)
    requires Calm(cfg) && Neat(e) && e.p.state == S_CHUNK_SIZE_START && body != [] && |body| % UINT32_SIZE == 0
    ensures !ReadsBack(cfg, e, body, ReplyText(body))
  {
    hide ReadAll, BodyText, Hex, CompletesWith;
    if ReadsBack(cfg, e, body, ReplyText(body)) {
      var line, rest := Hex(0) + CRLF, body + CRLF + LAST_CHUNK;
      assert ReplyText(body) == line + rest;
      WrongSizeRead(cfg, e, 0);
      RestCompletes(cfg, e, line, rest);
      CompletionPaid(cfg, ReadAll(cfg, e, line), rest);
    }
  }

  /** Any other body of 2^32 bytes or more: what follows its first bytes is too short for the rest. */
  lemma SizeLost(cfg: Settings, e: Stream, body: Bytes)
    requires Calm(cfg) && Neat(e) && e.p.state == S_CHUNK_SIZE_START
    requires |body| >= UINT32_SIZE && |body| % UINT32_SIZE != 0
    ensures !ReadsBack(cfg, e, body, ReplyText(body))
  {
    hide ReadAll, BodyText, Hex, CompletesWith;
    if ReadsBack(cfg, e, body, ReplyText(body)) {
      var n := |body| % UINT32_SIZE;
      assert |body| >= n + UINT32_SIZE;
      var line, first, rest := Hex(n) + CRLF, body[..n] + [body[n]] + [body[n + 1]], body[n + 2..] + CRLF + LAST_CHUNK;
      assert body == first + body[n + 2..];
      assert ReplyText(body) == line + (first + rest);
      WrongSizeRead(cfg, e, n);
      RestCompletes(cfg, e, line, first + rest);
      var d := ReadAll(cfg, e, line);
      WrongChunkRead(cfg, d, body[..n], body[n], body[n + 1]);
      RestCompletes(cfg, d, first, rest);
      CompletionPaid(cfg, ReadAll(cfg, d, first), rest);
    }
  }

  lemma NeatReadsBack(cfg: Settings, e: Stream, body: Bytes, sent: Bytes)
    requires ReadsBack(cfg, e, body, sent)
    ensures ReadsBack(cfg, e.(gap := false, clean := true), body, sent)
  {
    hide ReadAll, BodyText, Tally;
    var neat := e.(gap := false, clean := true);
    GapsDoNotMatter(cfg, e, neat, sent);
    forall n | 0 <= n < |sent| ensures Without(neat, ReadAll(cfg, neat, sent[..n]), Completion) {
      GapsDoNotMatter(cfg, e, neat, sent[..n]);
      assert Without(e, ReadAll(cfg, e, sent[..n]), Completion);
    }
  }

  /** Round trip: the chunked body of a reply is read back if and only if the size line, printed modulo
      2^32, can tell its length. */
  lemma ReplyReadsBack(cfg: Settings, e: Stream, body: Bytes)
    requires Calm(cfg) && e.live && e.p.state == S_CHUNK_SIZE_START
    ensures ReadsBack(cfg, e, body, ReplyText(body)) <==> |body| < 0x1_0000_0000
  {
    hide ReadsBack, ReplyText;
    if |body| < UINT32_SIZE {
      ShortReadsBack(cfg, e, body);
    } else if ReadsBack(cfg, e, body, ReplyText(body)) {
      var neat := e.(gap := false, clean := true);
      NeatReadsBack(cfg, e, body, ReplyText(body));
      if |body| % UINT32_SIZE == 0 {
        ZeroSizeLost(cfg, neat, body);
      } else {
        SizeLost(cfg, neat, body);
      }
    }
  }
}
