/** Header lines written out and read by the parser. */
module ParserLines {
  import opened Ascii
  import opened HttpGrammar
  import opened ParserTypes
  import opened ParserStep
  import opened ParserInvariant
  import opened ParserEvents
  import opened ParserCuts
  import opened ParserFraming
  import opened ParserBody

  // ---------------------------------------------------------------- the text

  /** A line that a value is folded onto: blanks, more text, and whether it ends in LF only. */
  datatype Fold = Fold(gap: Bytes, text: Bytes, lf: bool)

  /** A header field: the name, the blanks behind the colon, the value, whether its line ends in LF only,
      and the lines it is folded onto. */
  datatype HeaderLine = HeaderLine(name: Bytes, gap: Bytes, value: Bytes, lf: bool, folds: seq<Fold>)

  predicate IsName(name: Bytes) { name != [] && Only(name, TokenByte) }

  /** The next header state, within quotes, after a backslash within quotes, or neither. */
  function QuoteNext(hs: HeaderState, b: Byte): HeaderState {
    if hs == H_GENERAL_AND_QUOTE_AND_ESCAPE then H_GENERAL_AND_QUOTE
    else if hs == H_GENERAL_AND_QUOTE then
      if b == QT then H_GENERAL else if b == BACKSLASH then H_GENERAL_AND_QUOTE_AND_ESCAPE else hs
    else if b == QT then H_GENERAL_AND_QUOTE
    else H_GENERAL
  }

  /** The header state behind the colon, as far as it matters for the value. */
  function KindOf(name: Bytes): HeaderState {
    if Named(name, TRANSFER_ENCODING) then H_TRANSFER_ENCODING
    else if Named(name, UPGRADE) then H_UPGRADE
    else H_GENERAL
  }

  /** The header state inside any value but a Content-Length. While a Transfer-Encoding may still be
      "chunked", and in the first byte of an Upgrade, quotes are not looked for. */
  function TextState(kind: HeaderState, v: Bytes): HeaderState {
    if v == [] then kind
    else
      var f, b := v[..|v| - 1], v[|v| - 1];
      if kind == H_TRANSFER_ENCODING && MayBeChunked(v) then
        if |v| < |CHUNKED| then H_MATCHING_TRANSFER_ENCODING_CHUNKED else H_TRANSFER_ENCODING_CHUNKED
      else if f == [] then if kind == H_GENERAL then QuoteNext(H_GENERAL, b) else H_GENERAL
      else if kind == H_TRANSFER_ENCODING && MayBeChunked(f) then H_GENERAL
      else QuoteNext(TextState(kind, f), b)
  }

  /** The first byte of a value is not looked at more closely than that. */
  predicate FirstByte(b: Byte) { !Blank(b) && !LineEndByte(b) }

  /** A value without line ends and leading blanks. */
  predicate IsValue(v: Bytes) {
    v != [] ==> FirstByte(v[0]) && Only(v[1..], ValueByte)
  }

  /** A field whose value means nothing to the parser. */
  predicate IsPlain(name: Bytes) { KindOf(name) == H_GENERAL && !Named(name, CONTENT_LENGTH) }

  predicate IsFold(f: Fold) {
    f.gap != [] && Only(f.gap, Blank) && f.text != [] && IsValue(f.text)
    && TextState(H_GENERAL, f.text) != H_GENERAL_AND_QUOTE_AND_ESCAPE
  }

  predicate AllFolds(fs: seq<Fold>) { forall i :: 0 <= i < |fs| ==> IsFold(fs[i]) }

  /** Whether the end of a value is seen as one: behind an empty value that takes a CR. */
  predicate Ended(value: Bytes, lf: bool) { value != [] || !lf }

  /** A header field as the parser accepts it: a Content-Length is a number, a Transfer-Encoding and an
      Upgrade are not empty, and no value ends just after a backslash inside quotes: there the parser takes
      any byte as escaped, even a CR. Only a plain field is folded here. */
  predicate IsField(x: HeaderLine) {
    && IsName(x.name) && Only(x.gap, Blank) && IsValue(x.value) && AllFolds(x.folds)
    && (x.folds != [] ==> IsPlain(x.name) && Ended(x.value, x.lf))
    && if Named(x.name, CONTENT_LENGTH) then IsLengthText(x.value) && Decimal(x.value) <= MAX_CONTENT_LENGTH
       else
         && (x.value == [] ==> KindOf(x.name) == H_GENERAL)
         && TextState(KindOf(x.name), x.value) != H_GENERAL_AND_QUOTE_AND_ESCAPE
  }

  function LineEnd(lf: bool): Bytes { if lf then [LF] else [CR, LF] }

  function FoldText(f: Fold): Bytes { f.gap + f.text + LineEnd(f.lf) }

  function FoldsText(fs: seq<Fold>): Bytes {
    if fs == [] then [] else FoldsText(fs[..|fs| - 1]) + FoldText(fs[|fs| - 1])
  }

  /** The first line of a field. */
  function FirstText(x: HeaderLine): Bytes { x.name + [COLON] + x.gap + x.value + LineEnd(x.lf) }

  function LineText(x: HeaderLine): Bytes { FirstText(x) + FoldsText(x.folds) }

  function LinesText(xs: seq<HeaderLine>): Bytes {
    if xs == [] then [] else LinesText(xs[..|xs| - 1]) + LineText(xs[|xs| - 1])
  }

  // ---------------------------------------------------------------- reading it

  /** Fields that differ at most in state, header state and index. */
  predicate Alike(p: Parser, q: Parser) { q == p.(state := q.state, hs := q.hs, index := q.index) }

  predicate LineStart(s: State) { s == S_HEADER_FIELD_START || s == S_HEADER_VALUE_LWS }

  lemma NameByte(cfg: Settings, e: Stream, b: Byte)
    requires Neat(e) && TokenByte(b) && (LineStart(e.p.state) || e.p.state == S_HEADER_FIELD)
    ensures var d := Read(cfg, e, b);
      Neat(d) && d.pos == e.pos + 1 && Alike(e.p, d.p) && d.p.state == S_HEADER_FIELD
      && d.out == Push(e.out, Piece(Field, [b], S_HEADER_FIELD))
      && if e.p.state == S_HEADER_FIELD then d.p.hs == FieldByte(e.p, b).hs && d.p.index == FieldByte(e.p, b).index
         else d.p.hs == FirstHeaderState(Token(b)) && d.p.index == 0
  {
    hide Push, PushAll, Match, Token, TokenByte;
    TokensAgree(b);
    PushAllOne(e.out, Piece(Field, [b], S_HEADER_FIELD));
    PushNothing(Push(e.out, Piece(Field, [b], S_HEADER_FIELD)));
    TokenIsNot(b);
  }

  lemma TokenIsNot(b: Byte)
    requires IsToken(b)
    ensures b != CR && b != LF && b != SP && b != TAB && b != COLON
  {
  }

  lemma FieldByteHs(p: Parser, b: Byte)
    requires NameHs(p.hs)
    ensures NameHs(FieldByte(p, b).hs)
  {
  }

  lemma {:induction false} NameRead(cfg: Settings, e: Stream, name: Bytes)
    requires Neat(e) && LineStart(e.p.state) && IsName(name)
    ensures var d := ReadAll(cfg, e, name);
      Neat(d) && d.pos == e.pos + |name| && Alike(e.p, d.p) && d.p.state == S_HEADER_FIELD
      && d.out == Push(e.out, Piece(Field, name, S_HEADER_FIELD))
      && NameHs(d.p.hs) && NameReads(d.p.hs, d.p.index, name)
  {
    hide Read, Push, NameReads, FieldByte, FirstHeaderState, Token, TokenByte;
    var f, b := name[..|name| - 1], name[|name| - 1];
    assert name == f + [b];
    TokensAgree(b);
    if f == [] {
      assert ReadAll(cfg, e, f) == e;
      NameByte(cfg, e, b);
      NameFirst(b);
      FirstHs(Token(b));
    } else {
      NameRead(cfg, e, f);
      var d := ReadAll(cfg, e, f);
      NameByte(cfg, d, b);
      NameNext(d.p, f, b);
      FieldByteHs(d.p, b);
      PushTwice(e.out, Field, f, S_HEADER_FIELD, [b], S_HEADER_FIELD);
    }
  }

  lemma FirstHs(c: Byte)
    ensures NameHs(FirstHeaderState(c))
  {
  }

  lemma ColonRead(cfg: Settings, d: Stream)
    requires Neat(d) && d.p.state == S_HEADER_FIELD
    ensures var f := Read(cfg, d, COLON);
      Neat(f) && f.pos == d.pos + 1 && f.p == d.p.(state := S_HEADER_VALUE_START)
      && f.out == Push(d.out, Piece(Field, [], S_HEADER_VALUE_START))
  {
    hide Push, PushAll;
    PushAllOne(d.out, Piece(Field, [], S_HEADER_VALUE_START));
    PushNothing(Push(d.out, Piece(Field, [], S_HEADER_VALUE_START)));
  }

  lemma BlankRead(cfg: Settings, d: Stream, b: Byte)
    requires Neat(d) && d.p.state == S_HEADER_VALUE_START && Blank(b)
    ensures var f := Read(cfg, d, b); Neat(f) && f.pos == d.pos + 1 && f.p == d.p && f.out == d.out
  {
    hide Push;
    PushNothing(d.out);
  }

  lemma {:induction false} GapRead(cfg: Settings, d: Stream, gap: Bytes)
    requires Neat(d) && d.p.state == S_HEADER_VALUE_START && Only(gap, Blank)
    ensures var f := ReadAll(cfg, d, gap); Neat(f) && f.pos == d.pos + |gap| && f.p == d.p && f.out == d.out
  {
    hide Read;
    if gap != [] {
      GapRead(cfg, d, gap[..|gap| - 1]);
      BlankRead(cfg, ReadAll(cfg, d, gap[..|gap| - 1]), gap[|gap| - 1]);
    }
  }

  /** The name, its colon and the blanks. */
  lemma NameLineRead(cfg: Settings, e: Stream, name: Bytes, gap: Bytes)
    requires Neat(e) && LineStart(e.p.state) && IsName(name) && Only(gap, Blank)
    ensures var d := ReadAll(cfg, e, name + [COLON] + gap);
      Neat(d) && d.pos == e.pos + |name + [COLON] + gap| && Alike(e.p, d.p) && d.p.state == S_HEADER_VALUE_START
      && d.out == Push(e.out, Data(Field, name, S_HEADER_VALUE_START)) && NameKnown(d.p.hs, name)
  {
    hide Read, Push, NameReads, NameKnown, ReadAll, Only;
    NameRead(cfg, e, name);
    var d := ReadAll(cfg, e, name);
    ColonRead(cfg, d);
    ReadOneMore(cfg, e, name, COLON);
    GapRead(cfg, ReadAll(cfg, e, name + [COLON]), gap);
    ReadAllAppend(cfg, e, name + [COLON], gap);
    NameEnd(d.p.hs, d.p.index, name);
    PushTwice(e.out, Field, name, S_HEADER_FIELD, [], S_HEADER_VALUE_START);
    assert name + [] == name;
  }

  lemma FirstValueByte(cfg: Settings, e: Stream, b: Byte)
    requires Neat(e) && e.p.state == S_HEADER_VALUE_START && FirstByte(b)
    requires e.p.hs != H_CONTENT_LENGTH && e.p.hs != H_TRANSFER_ENCODING && e.p.hs != H_UPGRADE
    ensures var d := Read(cfg, e, b);
      && Neat(d) && d.pos == e.pos + 1 && Alike(e.p, d.p)
      && d.p.state == S_HEADER_VALUE && d.p.hs == QuoteNext(H_GENERAL, b)
      && d.out == Push(e.out, Piece(Value, [b], S_HEADER_VALUE))
  {
    hide Push, PushAll;
    PushAllOne(e.out, Piece(Value, [b], S_HEADER_VALUE));
    PushNothing(Push(e.out, Piece(Value, [b], S_HEADER_VALUE)));
  }

  predicate IsQuoteState(hs: HeaderState) { H_GENERAL <= hs <= H_GENERAL_AND_QUOTE_AND_ESCAPE }

  lemma ValueByteRead(cfg: Settings, e: Stream, b: Byte)
    requires Neat(e) && e.p.state == S_HEADER_VALUE && ValueByte(b) && IsQuoteState(e.p.hs)
    ensures var d := Read(cfg, e, b);
      Neat(d) && d.pos == e.pos + 1 && Alike(e.p, d.p) && d.p.state == S_HEADER_VALUE && d.p.hs == QuoteNext(e.p.hs, b)
      && d.out == Push(e.out, Piece(Value, [b], S_HEADER_VALUE))
  {
    hide Push, PushAll;
    PushAllOne(e.out, Piece(Value, [b], S_HEADER_VALUE));
    PushNothing(Push(e.out, Piece(Value, [b], S_HEADER_VALUE)));
  }

  /** A byte of a value that the parser takes makes a callback, whatever the field. */
  lemma TakenByte(cfg: Settings, e: Stream, b: Byte)
    requires Neat(e) && (e.p.state == S_HEADER_VALUE_START || e.p.state == S_HEADER_VALUE)
    requires Read(cfg, e, b).live && Read(cfg, e, b).p.state == S_HEADER_VALUE
    ensures var d := Read(cfg, e, b);
            Neat(d) && d.pos == e.pos + 1 && d.out == Push(e.out, Piece(Value, [b], S_HEADER_VALUE))
  {
    hide Push, PushAll, Match, StepValueLength;
    LengthOp(e.p, b);
    PushAllOne(e.out, Piece(Value, [b], S_HEADER_VALUE));
    PushNothing(Push(e.out, Piece(Value, [b], S_HEADER_VALUE)));
  }

  lemma LengthOp(p: Parser, b: Byte)
    ensures var a := StepValueLength(p, b); a.op == Keep && a.notes == [] && (a.ctl == Next || a.ctl == StopBefore)
  {
  }

  lemma {:induction false} LengthRead(cfg: Settings, e: Stream, ds: Bytes)
    requires Neat(e) && e.p.state == S_HEADER_VALUE_START && e.p.hs == H_CONTENT_LENGTH
    requires IsLengthText(ds) && Decimal(ds) <= MAX_CONTENT_LENGTH
    ensures var d := ReadAll(cfg, e, ds);
            Neat(d) && d.pos == e.pos + |ds| && d.p == e.p.(state := S_HEADER_VALUE, index := 0, length := Decimal(ds))
            && d.out == Push(e.out, Piece(Value, ds, S_HEADER_VALUE))
  {
    hide Read, Push;
    var f, b := ds[..|ds| - 1], ds[|ds| - 1];
    assert ds == f + [b] && ds[..|ds|] == ds;
    LengthTextEnd(ds, 0);
    ContentLengthRead(cfg, e, ds);
    DecimalMore(f, b);
    if f == [] {
      assert ReadAll(cfg, e, f) == e;
      TakenByte(cfg, e, b);
    } else {
      LengthRead(cfg, e, f);
      TakenByte(cfg, ReadAll(cfg, e, f), b);
      PushTwice(e.out, Value, f, S_HEADER_VALUE, [b], S_HEADER_VALUE);
    }
  }

  /** A byte of a Transfer-Encoding that may still be "chunked". */
  lemma CodingByte(cfg: Settings, e: Stream, b: Byte)
    requires Neat(e)
    requires if e.p.state == S_HEADER_VALUE_START then e.p.hs == H_TRANSFER_ENCODING && FirstByte(b)
             else e.p.state == S_HEADER_VALUE && ValueByte(b)
                  && (e.p.hs == H_MATCHING_TRANSFER_ENCODING_CHUNKED || e.p.hs == H_TRANSFER_ENCODING_CHUNKED)
    ensures var d := Read(cfg, e, b);
            Neat(d) && Alike(e.p, d.p) && d.p.state == S_HEADER_VALUE && ValueHs(d.p.hs)
            && d.p == (if e.p.state == S_HEADER_VALUE then StepValue(e.p, b) else StepValueStart(e.p, b)).p
  {
    hide PushAll;
  }

  /** The states and the index inside a value. */
  predicate InText(q: Parser, name: Bytes, v: Bytes) {
    q.hs == TextState(KindOf(name), v) && ValueHs(q.hs)
    && (Named(name, TRANSFER_ENCODING) ==> ValueReads(q.hs, q.index, name, v, false))
  }

  /** The fields behind the first byte of a value. */
  function Upgraded(p: Parser, name: Bytes): Parser {
    p.(flags := p.flags.(upgrade := p.flags.upgrade || Named(name, UPGRADE)))
  }

  lemma FirstCoding(p: Parser, name: Bytes, b: Byte)
    requires p.state == S_HEADER_VALUE_START && NameKnown(p.hs, name) && Named(name, TRANSFER_ENCODING)
    requires FirstByte(b)
    ensures InText(StepValueStart(p, b).p, name, [b])
  {
    hide Begins, Lower, MayBeChunked;
    ValueFirst(p, name, b);
    assert [b][..0] == [];
    assert MayBeChunked([]) by { MayBeNothing(); }
  }

  lemma NextCoding(p: Parser, name: Bytes, v: Bytes, b: Byte)
    requires p.state == S_HEADER_VALUE && InText(p, name, v) && Named(name, TRANSFER_ENCODING)
    requires v != [] && MayBeChunked(v) && ValueByte(b)
    ensures InText(StepValue(p, b).p, name, v + [b])
  {
    hide Begins, Lower, MayBeChunked;
    ValueNext(p, name, v, false, b);
    assert (v + [b])[..|v|] == v;
  }

  lemma NoCoding(kind: HeaderState, v: Bytes)
    requires v != [] && (kind == H_GENERAL || kind == H_UPGRADE || (kind == H_TRANSFER_ENCODING && !MayBeChunked(v)))
    ensures IsQuoteState(TextState(kind, v))
  {
    hide MayBeChunked;
    var f := v[..|v| - 1];
    if f != [] && !(kind == H_TRANSFER_ENCODING && MayBeChunked(f)) { NoCoding(kind, f); }
  }

  lemma NotChunkedYet(v: Bytes, b: Byte)
    requires !MayBeChunked(v)
    ensures !MayBeChunked(v + [b])
  {
    MayBeMore(v, b);
  }

  lemma UpgradeByte(cfg: Settings, e: Stream, b: Byte)
    requires Neat(e) && e.p.state == S_HEADER_VALUE_START && e.p.hs == H_UPGRADE
    requires FirstByte(b)
    ensures var d := Read(cfg, e, b);
      Neat(d) && d.p.state == S_HEADER_VALUE && d.p.hs == H_GENERAL
      && Alike(e.p.(flags := e.p.flags.(upgrade := true)), d.p)
  {
    hide PushAll;
  }

  lemma FirstTextRead(cfg: Settings, e: Stream, name: Bytes, b: Byte)
    requires Neat(e) && e.p.state == S_HEADER_VALUE_START && NameKnown(e.p.hs, name) && !Named(name, CONTENT_LENGTH)
    requires FirstByte(b)
    ensures var d := Read(cfg, e, b);
      && Neat(d) && d.pos == e.pos + 1 && Alike(Upgraded(e.p, name), d.p)
      && d.p.state == S_HEADER_VALUE && InText(d.p, name, [b])
      && d.out == Push(e.out, Piece(Value, [b], S_HEADER_VALUE))
  {
    hide Read, Push, Begins, StepValueStart, MayBeChunked, FirstByte;
    NameExclusive(name);
    if Named(name, TRANSFER_ENCODING) {
      CodingByte(cfg, e, b);
      FirstCoding(e.p, name, b);
    } else if Named(name, UPGRADE) {
      UpgradeByte(cfg, e, b);
    } else {
      FirstValueByte(cfg, e, b);
    }
    TakenByte(cfg, e, b);
  }

  lemma NextText(cfg: Settings, e: Stream, name: Bytes, v: Bytes, b: Byte)
    requires Neat(e) && e.p.state == S_HEADER_VALUE && InText(e.p, name, v) && v != [] && ValueByte(b)
    ensures var d := Read(cfg, e, b);
      Neat(d) && d.pos == e.pos + 1 && Alike(e.p, d.p) && d.p.state == S_HEADER_VALUE && InText(d.p, name, v + [b])
      && d.out == Push(e.out, Piece(Value, [b], S_HEADER_VALUE))
  {
    hide Read, Push, Begins, StepValue, MayBeChunked, ValueByte;
    NameExclusive(name);
    assert (v + [b])[..|v|] == v;
    if Named(name, TRANSFER_ENCODING) && MayBeChunked(v) {
      CodingByte(cfg, e, b);
      NextCoding(e.p, name, v, b);
    } else {
      NoCoding(KindOf(name), v);
      ValueByteRead(cfg, e, b);
      if Named(name, TRANSFER_ENCODING) { NotChunkedYet(v, b); }
    }
    TakenByte(cfg, e, b);
  }

  /** Any value but a Content-Length. */
  lemma {:induction false} TextRead(cfg: Settings, e: Stream, name: Bytes, v: Bytes)
    requires Neat(e) && e.p.state == S_HEADER_VALUE_START && NameKnown(e.p.hs, name) && !Named(name, CONTENT_LENGTH)
    requires v != [] && IsValue(v)
    ensures var d := ReadAll(cfg, e, v);
      && Neat(d) && d.pos == e.pos + |v| && Alike(Upgraded(e.p, name), d.p)
      && d.p.state == S_HEADER_VALUE && InText(d.p, name, v)
      && d.out == Push(e.out, Piece(Value, v, S_HEADER_VALUE))
  {
    hide Read, Push, ValueByte, FirstByte, InText, NameKnown, Named;
    var f, b := v[..|v| - 1], v[|v| - 1];
    assert v == f + [b];
    assert f != [] ==> v[1..] == f[1..] + [b] && v[1..][|f| - 1] == b;
    if f == [] {
      assert ReadAll(cfg, e, f) == e;
      FirstTextRead(cfg, e, name, b);
    } else {
      TextRead(cfg, e, name, f);
      NextText(cfg, ReadAll(cfg, e, f), name, f, b);
      PushTwice(e.out, Value, f, S_HEADER_VALUE, [b], S_HEADER_VALUE);
    }
  }

  /** The bytes of names and values, exactly: a name goes on with the bytes of a token, and a value, outside an
      escape, with the bytes of a value. */
  lemma NameByteExactly(cfg: Settings, p: Parser, b: Byte)
    requires LineStart(p.state) || p.state == S_HEADER_FIELD
    ensures var a := Step(cfg, p, b); a.ctl == Next && a.p.state == S_HEADER_FIELD <==> TokenByte(b)
  {
    hide TokenByte, Match, Token, StepHeadersAlmostDone, FirstHeaderState;
    TokensAgree(b);
    if TokenByte(b) { TokenIsNot(b); }
    EmptyLineGoes(cfg, p.(state := S_HEADERS_ALMOST_DONE), b);
  }

  lemma EmptyLineGoes(cfg: Settings, p: Parser, b: Byte)
    requires p.state == S_HEADERS_ALMOST_DONE
    ensures StepHeadersAlmostDone(cfg, p, b).p.state != S_HEADER_FIELD
  {
  }

  lemma ValueByteExactly(cfg: Settings, p: Parser, b: Byte)
    requires p.state == S_HEADER_VALUE && (p.hs == H_GENERAL || p.hs == H_GENERAL_AND_QUOTE)
    ensures var a := Step(cfg, p, b); a.ctl == Next && a.p.state == S_HEADER_VALUE <==> ValueByte(b)
  {
    hide ValueByte;
    TokensAgree(b);
  }

  /** The end of the line, with a CR or without. */
  lemma LineEndRead(cfg: Settings, e: Stream, lf: bool)
    requires Neat(e) && e.p.state == S_HEADER_VALUE && e.p.hs != H_GENERAL_AND_QUOTE_AND_ESCAPE
    ensures var d := ReadAll(cfg, e, LineEnd(lf));
      Neat(d) && d.pos == e.pos + |LineEnd(lf)|
      && d.p == e.p.(state := S_HEADER_VALUE_LWS,
                     flags := e.p.flags.(chunked := e.p.flags.chunked || e.p.hs == H_TRANSFER_ENCODING_CHUNKED))
      && d.out == Push(e.out, Piece(Value, [], S_HEADER_ALMOST_DONE))
  {
    hide Push, PushAll;
    var g := Piece(Value, [], S_HEADER_ALMOST_DONE);
    PushAllOne(e.out, g);
    PushNothing(Push(e.out, g));
    if lf {
      ReadOne(cfg, e, LF);
    } else {
      var c := Read(cfg, e, CR);
      assert Neat(c) && c.pos == e.pos + 1 && c.p == e.p.(state := S_HEADER_ALMOST_DONE) && c.out == Push(e.out, g);
      ReadTwo(cfg, e, CR, LF);
    }
  }

  lemma ReadOne(cfg: Settings, e: Stream, b: Byte)
    ensures ReadAll(cfg, e, [b]) == Read(cfg, e, b)
  {
    hide Read;
    assert [b][..0] == [];
    assert ReadAll(cfg, e, []) == e;
  }

  lemma ReadTwo(cfg: Settings, e: Stream, a: Byte, b: Byte)
    ensures ReadAll(cfg, e, [a, b]) == Read(cfg, Read(cfg, e, a), b)
  {
    hide Read;
    assert [a, b][..1] == [a] && [a][..0] == [];
    assert ReadAll(cfg, e, []) == e;
  }

  /** The parser state in which the end of a value is called back: after an empty value it depends on the CR. */
  function ValueEnd(value: Bytes, lf: bool): State {
    if Ended(value, lf) then S_HEADER_ALMOST_DONE else S_HEADER_FIELD_START
  }

  /** The end of the line of an empty value. */
  lemma EmptyValueRead(cfg: Settings, e: Stream, lf: bool)
    requires Neat(e) && e.p.state == S_HEADER_VALUE_START
    requires e.p.hs != H_CONTENT_LENGTH && e.p.hs != H_TRANSFER_ENCODING && e.p.hs != H_UPGRADE
    ensures var d := ReadAll(cfg, e, LineEnd(lf));
      Neat(d) && d.pos == e.pos + |LineEnd(lf)| && Alike(e.p, d.p) && LineStart(d.p.state)
      && (!lf ==> d.p.state == S_HEADER_VALUE_LWS && d.p.hs == H_GENERAL)
      && d.out == Push(e.out, Piece(Value, [], ValueEnd([], lf)))
  {
    hide Push, PushAll;
    var g := Piece(Value, [], ValueEnd([], lf));
    PushAllOne(e.out, g);
    PushNothing(Push(e.out, g));
    if lf {
      ReadOne(cfg, e, LF);
    } else {
      var c := Read(cfg, e, CR);
      assert Neat(c) && c.pos == e.pos + 1 && c.p == e.p.(state := S_HEADER_ALMOST_DONE, index := 0, hs := H_GENERAL)
             && c.out == Push(e.out, g);
      ReadTwo(cfg, e, CR, LF);
    }
  }

  /** A Content-Length, a Transfer-Encoding or an Upgrade without a value is refused. */
  lemma EmptyRefused(cfg: Settings, e: Stream, name: Bytes, gap: Bytes, b: Byte)
    requires Neat(e) && LineStart(e.p.state) && IsName(name) && Only(gap, Blank) && LineEndByte(b)
    requires Named(name, CONTENT_LENGTH) || Named(name, TRANSFER_ENCODING) || Named(name, UPGRADE)
    ensures var d := ReadAll(cfg, e, name + [COLON] + gap + [b]);
      !d.live && d.p.errno == if Named(name, CONTENT_LENGTH) then HPE_INVALID_CONTENT_LENGTH
                              else if Named(name, TRANSFER_ENCODING) then HPE_INVALID_TRANSFER_ENCODING
                              else HPE_INVALID_UPGRADE
  {
    hide ReadAll, Begins, IsName, Only;
    NameLineRead(cfg, e, name, gap);
    NameExclusive(name);
    ReadOneMore(cfg, e, name + [COLON] + gap, b);
    EmptyStops(cfg, ReadAll(cfg, e, name + [COLON] + gap), b);
  }

  lemma EmptyStops(cfg: Settings, e: Stream, b: Byte)
    requires e.live && e.p.state == S_HEADER_VALUE_START && LineEndByte(b)
    requires e.p.hs == H_CONTENT_LENGTH || e.p.hs == H_TRANSFER_ENCODING || e.p.hs == H_UPGRADE
    ensures var d := Read(cfg, e, b);
      !d.live && d.p.errno == if e.p.hs == H_CONTENT_LENGTH then HPE_INVALID_CONTENT_LENGTH
                              else if e.p.hs == H_TRANSFER_ENCODING then HPE_INVALID_TRANSFER_ENCODING
                              else HPE_INVALID_UPGRADE
  {
    hide PushAll;
  }

  lemma CrEndsValue(cfg: Settings, e: Stream)
    requires Neat(e) && e.p.state == S_HEADER_VALUE && e.p.hs != H_GENERAL_AND_QUOTE_AND_ESCAPE
    ensures var d := Read(cfg, e, CR); Neat(d) && d.p == e.p.(state := S_HEADER_ALMOST_DONE)
  {
    hide PushAll;
  }

  lemma LoneCr(cfg: Settings, e: Stream, b: Byte)
    requires Neat(e) && e.p.state == S_HEADER_ALMOST_DONE && b != LF
    ensures var d := Read(cfg, e, b); d.live && d.p.state == S_HEADER_VALUE && d.p.hs == e.p.hs && d.gap
  {
    hide PushAll;
  }

  lemma InGap(cfg: Settings, e: Stream, b: Byte)
    requires e.live && e.p.state == S_HEADER_VALUE && IsQuoteState(e.p.hs) && e.gap && IsHeaderChar(b)
    ensures !Read(cfg, e, b).clean
  {
    hide PushAll;
  }

  /** A CR in a value, any byte but LF, and any byte that may stand in a value: the stream is not clean. */
  lemma LoneCrUnclean(cfg: Settings, e: Stream, b: Byte, c: Byte)
    requires Neat(e) && e.p.state == S_HEADER_VALUE && (e.p.hs == H_GENERAL || e.p.hs == H_GENERAL_AND_QUOTE)
    requires b != LF && IsHeaderChar(c)
    ensures !ReadAll(cfg, e, [CR, b, c]).clean
  {
    hide Read, ReadAll, IsHeaderChar;
    CrEndsValue(cfg, e);
    LoneCr(cfg, Read(cfg, e, CR), b);
    InGap(cfg, Read(cfg, Read(cfg, e, CR), b), c);
    ReadTwo(cfg, e, CR, b);
    ReadOneMore(cfg, e, [CR, b], c);
    assert [CR, b] + [c] == [CR, b, c];
  }

  /** What a header line does to the parser, beside the states: it sets the content length, or a flag. */
  function AfterLine(p: Parser, x: HeaderLine): Parser {
    p.(length := if Named(x.name, CONTENT_LENGTH) then Decimal(x.value) else p.length,
       flags := p.flags.(chunked := p.flags.chunked || (Named(x.name, TRANSFER_ENCODING) && IsChunked(x.value)),
                         upgrade := p.flags.upgrade || Named(x.name, UPGRADE)))
  }

  function AfterLines(p: Parser, xs: seq<HeaderLine>): Parser {
    if xs == [] then p else AfterLine(AfterLines(p, xs[..|xs| - 1]), xs[|xs| - 1])
  }

  lemma {:induction false} LinesKeep(p: Parser, xs: seq<HeaderLine>)
    ensures var q := AfterLines(p, xs);
      && q.line == p.line && q.errno == p.errno && q.upgrade == p.upgrade
      && q.flags.trailing == p.flags.trailing && q.flags.skipBody == p.flags.skipBody
  {
    hide Named, IsChunked, Decimal;
    if xs != [] { LinesKeep(p, xs[..|xs| - 1]); }
  }

  /** The value of a line that is not empty. */
  lemma LineValueRead(cfg: Settings, c: Stream, x: HeaderLine)
    requires Neat(c) && c.p.state == S_HEADER_VALUE_START && NameKnown(c.p.hs, x.name) && x.value != [] && IsField(x)
    ensures var d := ReadAll(cfg, c, x.value);
      Neat(d) && d.pos == c.pos + |x.value| && d.p.state == S_HEADER_VALUE
      && d.out == Push(c.out, Piece(Value, x.value, S_HEADER_VALUE)) && d.p.hs != H_GENERAL_AND_QUOTE_AND_ESCAPE
      && Alike(AfterLine(c.p, x), d.p.(flags := d.p.flags.(chunked := AfterLine(c.p, x).flags.chunked)))
      && d.p.flags.chunked == c.p.flags.chunked
      && (d.p.hs == H_TRANSFER_ENCODING_CHUNKED <==> Named(x.name, TRANSFER_ENCODING) && IsChunked(x.value))
      && (IsPlain(x.name) ==> IsQuoteState(d.p.hs))
  {
    hide Push, ReadAll, Decimal, Begins, IsName, NameReads, MayBeChunked, ValueByte, IsLengthText;
    NameExclusive(x.name);
    if Named(x.name, CONTENT_LENGTH) {
      LengthRead(cfg, c, x.value);
    } else {
      TextRead(cfg, c, x.name, x.value);
      if !Named(x.name, TRANSFER_ENCODING) { NoCoding(KindOf(x.name), x.value); }
    }
  }

  /** The first line of a field: its two callbacks, and nothing else changed but the content length or a flag. */
  lemma FirstLineRead(cfg: Settings, e: Stream, x: HeaderLine)
    requires Neat(e) && LineStart(e.p.state) && IsField(x)
    ensures var d := ReadAll(cfg, e, FirstText(x));
      Neat(d) && d.pos == e.pos + |FirstText(x)| && LineStart(d.p.state)
      && Alike(AfterLine(e.p, x), d.p) && d.out == WithFirst(e.out, x)
      && (IsPlain(x.name) && Ended(x.value, x.lf) ==> d.p.state == S_HEADER_VALUE_LWS && IsQuoteState(d.p.hs))
  {
    hide Read, Push, ReadAll, TextState, Decimal, Begins, IsName, NameReads, MayBeChunked, ValueByte, IsLengthText,
         LineEnd, IsFold;
    var s := x.name + [COLON] + x.gap;
    NameLineRead(cfg, e, x.name, x.gap);
    var c := ReadAll(cfg, e, s);
    ReadAllAppend(cfg, e, s, x.value);
    ReadAllAppend(cfg, e, s + x.value, LineEnd(x.lf));
    if x.value == [] {
      assert s + x.value == s;
      NoLength(x);
      EmptyValueRead(cfg, c, x.lf);
    } else {
      LineValueRead(cfg, c, x);
      LineEndRead(cfg, ReadAll(cfg, c, x.value), x.lf);
      PushTwice(c.out, Value, x.value, S_HEADER_VALUE, [], S_HEADER_ALMOST_DONE);
      assert x.value + [] == x.value;
    }
  }

  /** The blank that folds a line is called back as a space. */
  lemma FoldStarts(cfg: Settings, e: Stream, b: Byte)
    requires Neat(e) && e.p.state == S_HEADER_VALUE_LWS && Blank(b)
    ensures var d := Read(cfg, e, b);
      Neat(d) && d.pos == e.pos + 1 && d.p == e.p.(state := S_HEADER_VALUE_START)
      && d.out == Push(e.out, Data(Value, [SP], S_HEADER_VALUE_START))
  {
    hide Push, PushAll;
    PushNothing(e.out);
    PushAllOne(e.out, Data(Value, [SP], S_HEADER_VALUE_START));
  }

  /** A line that a plain value is folded onto: a space and its text are called back. */
  lemma FoldRead(cfg: Settings, e: Stream, name: Bytes, f: Fold)
    requires Neat(e) && e.p.state == S_HEADER_VALUE_LWS && IsQuoteState(e.p.hs) && IsPlain(name) && IsFold(f)
    ensures var d := ReadAll(cfg, e, FoldText(f));
      Neat(d) && d.pos == e.pos + |FoldText(f)| && d.p.state == S_HEADER_VALUE_LWS && IsQuoteState(d.p.hs)
      && Alike(e.p, d.p) && d.out == WithFold(e.out, f)
  {
    hide Read, Push, ReadAll, LineEnd, ValueByte, Begins, MayBeChunked, Blank;
    var b, gap := f.gap[0], f.gap[1..];
    FoldStarts(cfg, e, b);
    ReadOne(cfg, e, b);
    var a := ReadAll(cfg, e, [b]);
    GapRead(cfg, a, gap);
    assert f.gap == [b] + gap;
    ReadAllAppend(cfg, e, [b], gap);
    var c := ReadAll(cfg, e, f.gap);
    TextRead(cfg, c, name, f.text);
    ReadAllAppend(cfg, e, f.gap, f.text);
    NoCoding(H_GENERAL, f.text);
    LineEndRead(cfg, ReadAll(cfg, c, f.text), f.lf);
    ReadAllAppend(cfg, e, f.gap + f.text, LineEnd(f.lf));
    PushTwice(c.out, Value, f.text, S_HEADER_VALUE, [], S_HEADER_ALMOST_DONE);
    assert f.text + [] == f.text;
  }

  lemma {:induction false} FoldsRead(cfg: Settings, e: Stream, name: Bytes, fs: seq<Fold>)
    requires Neat(e) && e.p.state == S_HEADER_VALUE_LWS && IsQuoteState(e.p.hs) && IsPlain(name) && AllFolds(fs)
    ensures var d := ReadAll(cfg, e, FoldsText(fs));
      Neat(d) && d.pos == e.pos + |FoldsText(fs)| && d.p.state == S_HEADER_VALUE_LWS && IsQuoteState(d.p.hs)
      && Alike(e.p, d.p) && d.out == WithFolds(e.out, fs)
  {
    hide Read, IsFold, FoldText, WithFold, IsPlain;
    if fs != [] {
      var g, f := fs[..|fs| - 1], fs[|fs| - 1];
      FoldsRead(cfg, e, name, g);
      FoldRead(cfg, ReadAll(cfg, e, FoldsText(g)), name, f);
      ReadAllAppend(cfg, e, FoldsText(g), FoldText(f));
    }
  }

  /** A header field: the callbacks of its lines, and nothing else changed but the content length or a flag. */
  lemma LineRead(cfg: Settings, e: Stream, x: HeaderLine)
    requires Neat(e) && LineStart(e.p.state) && IsField(x)
    ensures var d := ReadAll(cfg, e, LineText(x));
      Neat(d) && d.pos == e.pos + |LineText(x)| && LineStart(d.p.state)
      && Alike(AfterLine(e.p, x), d.p) && d.out == WithField(e.out, x)
  {
    hide ReadAll, FirstText, WithFirst, IsName, IsValue, IsPlain, AllFolds, Named, IsChunked, Decimal;
    FirstLineRead(cfg, e, x);
    ReadAllAppend(cfg, e, FirstText(x), FoldsText(x.folds));
    if x.folds == [] {
      assert FirstText(x) + FoldsText(x.folds) == FirstText(x);
    } else {
      FoldsRead(cfg, ReadAll(cfg, e, FirstText(x)), x.name, x.folds);
    }
  }

  lemma NoLength(x: HeaderLine)
    requires x.value == [] && IsField(x)
    ensures !Named(x.name, CONTENT_LENGTH) && !Named(x.name, TRANSFER_ENCODING) && !Named(x.name, UPGRADE)
  {
  }

  function WithFold(out: seq<Event>, f: Fold): seq<Event> {
    Push(Push(out, Data(Value, [SP], S_HEADER_VALUE_START)), Data(Value, f.text, S_HEADER_ALMOST_DONE))
  }

  function WithFolds(out: seq<Event>, fs: seq<Fold>): seq<Event> {
    if fs == [] then out else WithFold(WithFolds(out, fs[..|fs| - 1]), fs[|fs| - 1])
  }

  function WithField(out: seq<Event>, x: HeaderLine): seq<Event> { WithFolds(WithFirst(out, x), x.folds) }

  function WithFirst(out: seq<Event>, x: HeaderLine): seq<Event> {
    Push(Push(out, Data(Field, x.name, S_HEADER_VALUE_START)), Data(Value, x.value, ValueEnd(x.value, x.lf)))
  }

  function WithFields(out: seq<Event>, xs: seq<HeaderLine>): seq<Event> {
    if xs == [] then out else WithField(WithFields(out, xs[..|xs| - 1]), xs[|xs| - 1])
  }

  predicate AllFields(xs: seq<HeaderLine>) { forall i :: 0 <= i < |xs| ==> IsField(xs[i]) }

  lemma {:induction false} LinesRead(cfg: Settings, e: Stream, xs: seq<HeaderLine>)
    requires Neat(e) && LineStart(e.p.state) && AllFields(xs)
    ensures var d := ReadAll(cfg, e, LinesText(xs));
      Neat(d) && d.pos == e.pos + |LinesText(xs)| && LineStart(d.p.state) && Alike(AfterLines(e.p, xs), d.p)
      && d.out == WithFields(e.out, xs)
  {
    hide Read, WithField, LineText, IsField, Named, IsChunked, Decimal;
    if xs != [] {
      var f, x := xs[..|xs| - 1], xs[|xs| - 1];
      LinesRead(cfg, e, f);
      LineRead(cfg, ReadAll(cfg, e, LinesText(f)), x);
      ReadAllAppend(cfg, e, LinesText(f), LineText(x));
    }
  }

  /** The lines as a receiver of the callbacks has them. */
  function LinesOf(xs: seq<HeaderLine>): seq<FieldLine> {
    if xs == [] then [] else LinesOf(xs[..|xs| - 1]) + [FieldLine(xs[|xs| - 1].name, xs[|xs| - 1].value, false)]
  }

  /** What the parser has concluded from the lines is what they say. */
  lemma {:induction false} LinesConclude(p: Parser, xs: seq<HeaderLine>)
    requires !p.flags.chunked && !p.flags.upgrade && !p.flags.skipBody && p.length == -1
    ensures Counts(AfterLines(p, xs), LinesOf(xs), LastLength(LinesOf(xs)))
  {
    hide Named, IsChunked, Decimal, HasChunked, HasUpgrade;
    if xs == [] {
      assert !HasChunked([]) && !HasUpgrade([]) by { NoLines(); }
    } else {
      var f, x := xs[..|xs| - 1], xs[|xs| - 1];
      LinesConclude(p, f);
      OneMoreLine(LinesOf(f), FieldLine(x.name, x.value, false));
    }
  }

  lemma NoLines()
    ensures !HasChunked([]) && !HasUpgrade([]) && LastLength([]) == -1
  {
  }
}
