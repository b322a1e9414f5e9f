/** The framing decision: how the body of a message is delimited agrees with a declarative
    reading of the header fields the callbacks have delivered (section 3.3.3 of RFC 7230). */
module ParserFraming {
  import opened Ascii
  import opened ParserTypes
  import opened ParserStep
  import opened ParserInvariant
  import opened ParserEvents
  import opened ParserCuts

  // ---------------------------------------------------------------- reading the callbacks

  /** A line of a header field: the first line of its value, or one it is folded onto. */
  datatype FieldLine = FieldLine(name: Bytes, value: Bytes, folded: bool)

  /** What a receiver of the callbacks has put together: the complete lines, the name and the value
      under way, `Open` while the next piece continues them, whether the value goes on from a line before,
      which shows in a callback made in s_header_value_start, and the text of the line last completed. */
  datatype Headers = Headers(
    lines: seq<FieldLine>, name: Bytes, value: Bytes, nameOpen: bool, valueOpen: bool, folded: bool, base: Bytes)

  const NO_HEADERS := Headers([], [], [], false, false, false, [])

  /** The text of a line: a value that starts with the space of a lone CR resumes the line before it. */
  function Joined(base: Bytes, value: Bytes): Bytes {
    if value != [] && value[0] == SP then base + value[1..] else value
  }

  function Note(h: Headers, e: Event): Headers {
    match e
    case MessageBegin => NO_HEADERS
    case Data(k, x, at) =>
      if k == Field then
        h.(name := if h.nameOpen then h.name + x else x, nameOpen := at == S_HEADER_FIELD, folded := false, base := [])
      else if k == Value then
        var v := if h.valueOpen then h.value + x else x;
        var line := Joined(h.base, v);
        h.(value := v, valueOpen := at == S_HEADER_VALUE, folded := h.folded || at == S_HEADER_VALUE_START,
           base := if at == S_HEADER_ALMOST_DONE then line else h.base,
           lines := if at == S_HEADER_ALMOST_DONE then h.lines + [FieldLine(h.name, line, h.folded)] else h.lines)
      else h
    case _ => h
  }

  function NoteAll(h: Headers, es: seq<Event>): Headers {
    if es == [] then h else Note(NoteAll(h, es[..|es| - 1]), es[|es| - 1])
  }

  lemma NoteTwice(h: Headers, e: Event, f: Event)
    requires Continues(e, f)
    ensures Note(Note(h, e), f) == Note(h, Data(f.kind, e.text + f.text, f.at))
  {
    assert h.name + e.text + f.text == h.name + (e.text + f.text);
    assert h.value + e.text + f.text == h.value + (e.text + f.text);
  }

  /** Merging pieces does not change what is put together. */
  lemma NotePush(h: Headers, es: seq<Event>, f: Event)
    ensures NoteAll(h, Push(es, f)) == Note(NoteAll(h, es), f)
  {
    hide Note;
    if es != [] && Continues(es[|es| - 1], f) {
      var front, last := es[..|es| - 1], es[|es| - 1];
      var g := Data(f.kind, last.text + f.text, f.at);
      assert Push(es, f) == front + [g];
      assert (front + [g])[..|front|] == front;
      NoteTwice(NoteAll(h, front), last, f);
    } else {
      assert (es + [f])[..|es|] == es;
    }
  }

  lemma {:induction false} NotePushAll(h: Headers, es: seq<Event>, fs: seq<Event>)
    ensures NoteAll(h, PushAll(es, fs)) == NoteAll(NoteAll(h, es), fs)
    decreases |fs|
  {
    if fs != [] {
      NotePushAll(h, es, fs[..|fs| - 1]);
      NotePush(h, PushAll(es, fs[..|fs| - 1]), fs[|fs| - 1]);
    }
  }

  // ---------------------------------------------------------------- the declarative reading

  function ToLower(b: Byte): Byte { if IsUpper(b) then b + 32 else b }

  /** `s` is the beginning of `w`, letter case ignored. */
  predicate Begins(s: Bytes, w: string) {
    |s| <= |w| && forall i :: 0 <= i < |s| ==> ToLower(s[i]) == w[i] as int
  }

  predicate Named(s: Bytes, w: string) { |s| == |w| && Begins(s, w) }

  /** "chunked", letter case ignored, and then only spaces, as far as `v` goes. */
  predicate MayBeChunked(v: Bytes) {
    forall i :: 0 <= i < |v| ==> if i < |CHUNKED| then ToLower(v[i]) == CHUNKED[i] as int else v[i] == SP
  }

  predicate IsChunked(v: Bytes) { |v| >= |CHUNKED| && MayBeChunked(v) }

  /** The number a Content-Length value stands for, spaces dropped. */
  function Decimal(v: Bytes): nat {
    if v == [] then 0
    else if IsDigit(v[|v| - 1]) then Decimal(v[..|v| - 1]) * 10 + Digit(v[|v| - 1])
    else Decimal(v[..|v| - 1])
  }

  predicate ChunkedLine(x: FieldLine) { !x.folded && Named(x.name, TRANSFER_ENCODING) && IsChunked(x.value) }

  /** Some Transfer-Encoding field has a first line "chunked". */
  predicate HasChunked(lines: seq<FieldLine>) { exists i :: 0 <= i < |lines| && ChunkedLine(lines[i]) }

  /** Some Upgrade field is present. */
  predicate HasUpgrade(lines: seq<FieldLine>) { exists i :: 0 <= i < |lines| && Named(lines[i].name, UPGRADE) }

  /** The value of the last line of a Content-Length field, or -1. */
  function LastLength(lines: seq<FieldLine>): int {
    if lines == [] then -1
    else
      var x := lines[|lines| - 1];
      if Named(x.name, CONTENT_LENGTH) then Decimal(x.value) else LastLength(lines[..|lines| - 1])
  }

  lemma OneMoreLine(lines: seq<FieldLine>, x: FieldLine)
    ensures HasChunked(lines + [x]) == (HasChunked(lines) || ChunkedLine(x))
    ensures HasUpgrade(lines + [x]) == (HasUpgrade(lines) || Named(x.name, UPGRADE))
    ensures LastLength(lines + [x]) == if Named(x.name, CONTENT_LENGTH) then Decimal(x.value) else LastLength(lines)
  {
    hide Named, ChunkedLine, Decimal;
    var more := lines + [x];
    assert more[..|more| - 1] == lines;
    assert more[|lines|] == x;
    forall i | 0 <= i < |lines| ensures more[i] == lines[i] {}
    if HasChunked(lines) {
      var i :| 0 <= i < |lines| && ChunkedLine(lines[i]);
      assert ChunkedLine(more[i]);
    }
    if HasUpgrade(lines) {
      var i :| 0 <= i < |lines| && Named(lines[i].name, UPGRADE);
      assert Named(more[i].name, UPGRADE);
    }
  }

  // ---------------------------------------------------------------- the parser's reading is the same

  /** The header state inside a name. */
  predicate NameReads(hs: HeaderState, index: nat, name: Bytes) {
    && name != []
    && (hs == H_MATCHING_CONTENT_LENGTH ==>
          Begins(name, CONTENT_LENGTH) && |name| < |CONTENT_LENGTH| && index == |name| - 1)
    && (hs == H_MATCHING_TRANSFER_ENCODING ==>
          Begins(name, TRANSFER_ENCODING) && |name| < |TRANSFER_ENCODING| && index == |name| - 1)
    && (hs == H_MATCHING_UPGRADE ==> Begins(name, UPGRADE) && |name| < |UPGRADE| && index == |name| - 1)
    && (hs == H_CONTENT_LENGTH ==> Named(name, CONTENT_LENGTH))
    && (hs == H_TRANSFER_ENCODING ==> Named(name, TRANSFER_ENCODING))
    && (hs == H_UPGRADE ==> Named(name, UPGRADE))
    && (hs == H_GENERAL ==> !Begins(name, CONTENT_LENGTH) && !Begins(name, TRANSFER_ENCODING) && !Begins(name, UPGRADE))
  }

  /** The header state after the colon. */
  predicate NameKnown(hs: HeaderState, name: Bytes) {
    && (hs == H_CONTENT_LENGTH <==> Named(name, CONTENT_LENGTH))
    && (hs == H_TRANSFER_ENCODING <==> Named(name, TRANSFER_ENCODING))
    && (hs == H_UPGRADE <==> Named(name, UPGRADE))
  }

  /** The header state behind a line of a value, and before one it is folded onto: the parser still knows
      a Content-Length, and no longer a Transfer-Encoding or an Upgrade. */
  predicate LineKnown(hs: HeaderState, name: Bytes) {
    && (hs == H_CONTENT_LENGTH <==> Named(name, CONTENT_LENGTH))
    && hs != H_TRANSFER_ENCODING && hs != H_UPGRADE
  }

  /** The header state inside a line of a value. */
  predicate ValueReads(hs: HeaderState, index: nat, name: Bytes, value: Bytes, folded: bool) {
    && (hs == H_CONTENT_LENGTH <==> Named(name, CONTENT_LENGTH))
    && (if Named(name, TRANSFER_ENCODING) && !folded then
          if hs == H_MATCHING_TRANSFER_ENCODING_CHUNKED
          then MayBeChunked(value) && |value| < |CHUNKED| && index == |value| - 1
          else if hs == H_TRANSFER_ENCODING_CHUNKED then IsChunked(value)
          else !MayBeChunked(value)
        else hs != H_MATCHING_TRANSFER_ENCODING_CHUNKED && hs != H_TRANSFER_ENCODING_CHUNKED)
  }

  /** The flags agree with the lines, and the length with `length`. */
  predicate Counts(p: Parser, lines: seq<FieldLine>, length: int) {
    && p.flags.chunked == HasChunked(lines) && p.flags.upgrade == HasUpgrade(lines)
    && !p.flags.skipBody && p.length == length
  }

  /** An Upgrade field under way on a folded line has been counted. */
  predicate UpgradeSeen(h: Headers) { Named(h.name, UPGRADE) ==> HasUpgrade(h.lines) }

  predicate Before(s: State) { s == S_RES_OR_RESP_H || s == S_REQ_METHOD || InLine(s) }

  /** States in which nothing is claimed: before a message and in its body. */
  predicate Unclaimed(s: State) {
    s == S_PRE_START_REQ_OR_RES || s == S_PRE_START_RES || s == S_PRE_START_REQ || InBody(s)
  }

  predicate Starting(s: State) { s == S_START_REQ_OR_RES || s == S_START_RES || s == S_START_REQ }

  /** From the start of a message to the end of its headers, what the parser has concluded is what
      the lines delivered so far say. Trailers after a chunked body are excluded. */
  predicate Reads(p: Parser, h: Headers) {
    if Unclaimed(p.state) || p.flags.trailing then !Starting(p.state) && !Before(p.state)
    else if Starting(p.state) then h == NO_HEADERS
    else if Before(p.state) then h == NO_HEADERS && Counts(p, [], -1)
    else if p.state == S_HEADER_FIELD then
      && Counts(p, h.lines, LastLength(h.lines)) && !h.valueOpen && h.nameOpen && !h.folded
      && NameReads(p.hs, p.index, h.name)
    else if p.state == S_HEADER_VALUE_START then
      && Counts(p, h.lines, LastLength(h.lines)) && !h.valueOpen && !h.nameOpen
      && if h.folded then LineKnown(p.hs, h.name) && UpgradeSeen(h) else NameKnown(p.hs, h.name)
    else if p.state == S_HEADER_VALUE then
      && h.valueOpen && !h.nameOpen && h.value != []
      && ValueReads(p.hs, p.index, h.name, Joined(h.base, h.value), h.folded)
      && (h.folded ==> UpgradeSeen(h))
      && p.flags.chunked == HasChunked(h.lines) && !p.flags.skipBody
      && p.flags.upgrade == (HasUpgrade(h.lines) || Named(h.name, UPGRADE))
      && p.length == if Named(h.name, CONTENT_LENGTH) then Decimal(Joined(h.base, h.value)) else LastLength(h.lines)
    else if p.state == S_HEADER_ALMOST_DONE then
      && !h.valueOpen && !h.nameOpen && !p.flags.skipBody && LineKnown(p.hs, h.name) && UpgradeSeen(h)
      && (p.flags.chunked || p.hs == H_TRANSFER_ENCODING_CHUNKED) == HasChunked(h.lines)
      && p.flags.upgrade == HasUpgrade(h.lines)
      && p.length == LastLength(h.lines) && ValueReads(p.hs, p.index, h.name, h.base, h.folded)
      && (Named(h.name, CONTENT_LENGTH) ==> p.length == Decimal(h.base))
    else
      && Counts(p, h.lines, LastLength(h.lines)) && !h.valueOpen && !h.nameOpen
      && (p.state == S_HEADER_VALUE_LWS ==> LineKnown(p.hs, h.name) && UpgradeSeen(h))
  }

  function Noted(h: Headers, s: State, a: Act, b: Byte): Headers {
    NoteAll(NoteAll(h, TextOf(s, a.op, b, a.p.state)), a.notes)
  }

  lemma NoteOne(h: Headers, e: Event)
    ensures NoteAll(h, [e]) == Note(h, e) && NoteAll(h, []) == h
  {
    assert [e][..0] == [];
    assert NoteAll(h, []) == h;
  }

  lemma Lowered(b: Byte)
    ensures IsToken(b) ==> Token(b) == ToLower(b) && b != SP
  {
  }

  lemma LoweredLetter(b: Byte, c: Byte)
    requires IsLower(c)
    ensures Lower(b) == c <==> ToLower(b) == c
  {
  }

  lemma BeginsMore(s: Bytes, b: Byte, w: string)
    ensures Begins(s + [b], w) <==> Begins(s, w) && |s| < |w| && ToLower(b) == w[|s|] as int
  {
    var t := s + [b];
    assert t[|s|] == b;
    if Begins(t, w) {
      forall i | 0 <= i < |s| ensures ToLower(s[i]) == w[i] as int { assert t[i] == s[i]; }
    }
  }

  lemma MayBeMore(v: Bytes, b: Byte)
    ensures MayBeChunked(v + [b])
       <==> MayBeChunked(v) && if |v| < |CHUNKED| then ToLower(b) == CHUNKED[|v|] as int else b == SP
  {
    var t := v + [b];
    assert t[|v|] == b;
    if MayBeChunked(t) {
      forall i | 0 <= i < |v|
        ensures if i < |CHUNKED| then ToLower(v[i]) == CHUNKED[i] as int else v[i] == SP
      {
        assert t[i] == v[i];
      }
    }
  }

  lemma DecimalMore(v: Bytes, b: Byte)
    ensures Decimal(v + [b]) == if IsDigit(b) then Decimal(v) * 10 + Digit(b) else Decimal(v)
  {
    assert (v + [b])[..|v|] == v;
  }

  /** Different names begin differently. */
  lemma BeginsOne(name: Bytes)
    requires name != []
    ensures Begins(name, CONTENT_LENGTH) ==> ToLower(name[0]) == LOWER_C
    ensures Begins(name, TRANSFER_ENCODING) ==> ToLower(name[0]) == LOWER_T
    ensures Begins(name, UPGRADE) ==> ToLower(name[0]) == LOWER_U
  {
  }

  lemma NameFirst(b: Byte)
    requires IsToken(b)
    ensures NameReads(FirstHeaderState(Token(b)), 0, [b])
  {
    Lowered(b);
    BeginsOne([b]);
    var name := [b];
    assert CONTENT_LENGTH[0] as int == LOWER_C && TRANSFER_ENCODING[0] as int == LOWER_T;
    assert UPGRADE[0] as int == LOWER_U;
  }

  lemma NameNext(p: Parser, name: Bytes, b: Byte)
    requires IsToken(b) && NameHs(p.hs) && NameReads(p.hs, p.index, name)
    ensures NameReads(FieldByte(p, b).hs, FieldByte(p, b).index, name + [b])
  {
    hide Begins, ToLower, Token;
    Lowered(b);
    BeginsOne(name);
    BeginsMore(name, b, CONTENT_LENGTH);
    BeginsMore(name, b, TRANSFER_ENCODING);
    BeginsMore(name, b, UPGRADE);
  }

  lemma NameEnd(hs: HeaderState, index: nat, name: Bytes)
    requires NameHs(hs) && NameReads(hs, index, name)
    ensures NameKnown(hs, name)
  {
    hide Begins;
    BeginsOne(name);
  }

  lemma ValueFirst(p: Parser, name: Bytes, b: Byte)
    requires p.state == S_HEADER_VALUE_START && NameKnown(p.hs, name)
    requires b != CR && b != LF && b != SP && b != TAB
    ensures var a := StepValueStart(p, b);
            a.ctl == Next ==>
              && ValueReads(a.p.hs, a.p.index, name, [b], false)
              && a.p.flags == p.flags.(upgrade := p.flags.upgrade || Named(name, UPGRADE))
              && a.p.length == if Named(name, CONTENT_LENGTH) then Decimal([b]) else p.length
  {
    hide Begins, MayBeChunked;
    LoweredLetter(b, LOWER_C);
    MayBeMore([], b);
    assert [] + [b] == [b];
    assert MayBeChunked([]) by { MayBeNothing(); }
    assert CHUNKED[0] as int == LOWER_C;
    DecimalMore([], b);
    if name != [] { BeginsOne(name); }
  }

  /** The first byte of a line that a value is folded onto. */
  lemma FoldedFirst(p: Parser, name: Bytes, b: Byte)
    requires p.state == S_HEADER_VALUE_START && LineKnown(p.hs, name)
    requires b != CR && b != LF && b != SP && b != TAB
    ensures var a := StepValueStart(p, b);
            a.ctl == Next ==>
              && ValueReads(a.p.hs, a.p.index, name, [b], true)
              && a.p.flags == p.flags
              && a.p.length == if Named(name, CONTENT_LENGTH) then Decimal([b]) else p.length
  {
    hide Begins, MayBeChunked, Decimal, Named;
    DecimalMore([], b);
    assert [] + [b] == [b];
    assert Decimal([]) == 0 by { DecimalNothing(); }
  }

  lemma DecimalNothing()
    ensures Decimal([]) == 0
  {
  }

  lemma MayBeNothing()
    ensures MayBeChunked([])
  {
  }

  lemma ValueNext(p: Parser, name: Bytes, value: Bytes, folded: bool, b: Byte)
    requires p.state == S_HEADER_VALUE && ValueHs(p.hs) && ValueReads(p.hs, p.index, name, value, folded)
    ensures var a := StepValue(p, b);
            a.ctl == Next && a.op == Keep ==>
              && a.p.state == S_HEADER_VALUE
              && ValueReads(a.p.hs, a.p.index, name, value + [b], folded)
              && a.p.flags == p.flags
              && a.p.length == if Named(name, CONTENT_LENGTH) && IsDigit(b) then p.length * 10 + Digit(b) else p.length
  {
    hide Begins, MayBeChunked, Lower, ToLower;
    MayBeMore(value, b);
    if |value| < |CHUNKED| {
      ChunkedLetters(|value|);
      LoweredLetter(b, CHUNKED[|value|] as int);
    }
    NameExclusive(name);
  }

  lemma ChunkedLetters(i: nat)
    requires i < |CHUNKED|
    ensures IsLower(CHUNKED[i] as int)
  {
  }

  lemma NameExclusive(name: Bytes)
    ensures Named(name, CONTENT_LENGTH) ==> !Named(name, TRANSFER_ENCODING) && !Named(name, UPGRADE)
    ensures Named(name, TRANSFER_ENCODING) ==> !Named(name, UPGRADE)
  {
  }

  lemma ReadsFieldStart(cfg: Settings, p: Parser, h: Headers, b: Byte)
    requires p.state == S_HEADER_FIELD_START && Reads(p, h) && StepFieldStart(cfg, p, b).ctl == Next
    ensures Reads(StepFieldStart(cfg, p, b).p, Noted(h, S_HEADER_FIELD_START, StepFieldStart(cfg, p, b), b))
  {
    hide NameReads, NoteAll, HasChunked, HasUpgrade, LastLength;
    var a := StepFieldStart(cfg, p, b);
    NoteOne(h, Piece(Field, [b], S_HEADER_FIELD));
    NoteOne(NoteAll(h, TextOf(S_HEADER_FIELD_START, a.op, b, a.p.state)), MessageBegin);
    if b == CR {
    } else if b == LF {
      EndUnclaimed(cfg, p.(state := S_HEADERS_ALMOST_DONE), b);
    } else {
      NameFirst(b);
    }
  }

  /** After the empty line the parser is in the body or in front of the next message. */
  lemma EndUnclaimed(cfg: Settings, p: Parser, b: Byte)
    ensures StepHeadersAlmostDone(cfg, p, b).ctl == Next ==> Unclaimed(StepHeadersAlmostDone(cfg, p, b).p.state)
    ensures StepHeadersDone(cfg, p).ctl == Next ==> Unclaimed(StepHeadersDone(cfg, p).p.state)
  {
  }

  lemma ReadsField(p: Parser, h: Headers, b: Byte)
    requires p.state == S_HEADER_FIELD && NameHs(p.hs) && Reads(p, h) && StepField(p, b).ctl == Next
    ensures Reads(StepField(p, b).p, Noted(h, S_HEADER_FIELD, StepField(p, b), b))
  {
    hide NameReads, NameKnown, NoteAll, HasChunked, HasUpgrade, LastLength;
    var a := StepField(p, b);
    NoteOne(h, Piece(Field, [b], S_HEADER_FIELD));
    NoteOne(h, Piece(Field, [], S_HEADER_VALUE_START));
    NoteOne(NoteAll(h, TextOf(S_HEADER_FIELD, a.op, b, a.p.state)), MessageBegin);
    if !p.flags.trailing {
      if IsToken(b) {
        NameNext(p, h.name, b);
      } else {
        NameEnd(p.hs, p.index, h.name);
        assert h.name + [] == h.name;
      }
    }
  }

  lemma ReadsValueStart(p: Parser, h: Headers, b: Byte)
    requires p.state == S_HEADER_VALUE_START && Reads(p, h) && StepValueStart(p, b).ctl == Next
    ensures Reads(StepValueStart(p, b).p, Noted(h, S_HEADER_VALUE_START, StepValueStart(p, b), b))
  {
    hide StepValueStart, Reads, Noted;
    if b == SP || b == TAB || p.flags.trailing {
      ReadsNoValue(p, h, b);
    } else if b == CR || b == LF {
      ReadsEmptyValue(p, h, b);
    } else {
      ReadsFirstByte(p, h, b);
    }
  }

  lemma ReadsNoValue(p: Parser, h: Headers, b: Byte)
    requires p.state == S_HEADER_VALUE_START && Reads(p, h) && StepValueStart(p, b).ctl == Next
    requires b == SP || b == TAB || p.flags.trailing
    ensures Reads(StepValueStart(p, b).p, Noted(h, S_HEADER_VALUE_START, StepValueStart(p, b), b))
  {
    hide NoteAll, HasChunked, HasUpgrade, LastLength, Begins, Decimal;
    if b == SP || b == TAB { NothingNoted(h, S_HEADER_VALUE_START, StepValueStart(p, b), b); }
  }

  lemma ReadsEmptyValue(p: Parser, h: Headers, b: Byte)
    requires p.state == S_HEADER_VALUE_START && Reads(p, h) && StepValueStart(p, b).ctl == Next
    requires (b == CR || b == LF) && !p.flags.trailing
    ensures Reads(StepValueStart(p, b).p, Noted(h, S_HEADER_VALUE_START, StepValueStart(p, b), b))
  {
    hide NoteAll, HasChunked, HasUpgrade, LastLength, Begins, Decimal;
    var a := StepValueStart(p, b);
    NoteOne(h, Piece(Value, [], a.p.state));
    NoteOne(NoteAll(h, TextOf(S_HEADER_VALUE_START, a.op, b, a.p.state)), MessageBegin);
    OneMoreLine(h.lines, FieldLine(h.name, [], h.folded));
    NothingChunked(h.name, h.folded);
  }

  lemma ReadsFirstByte(p: Parser, h: Headers, b: Byte)
    requires p.state == S_HEADER_VALUE_START && Reads(p, h) && StepValueStart(p, b).ctl == Next
    requires b != SP && b != TAB && b != CR && b != LF && !p.flags.trailing
    ensures Reads(StepValueStart(p, b).p, Noted(h, S_HEADER_VALUE_START, StepValueStart(p, b), b))
  {
    hide ValueReads, NoteAll, HasChunked, HasUpgrade, LastLength, Begins, Decimal;
    var a := StepValueStart(p, b);
    NoteOne(h, Piece(Value, [b], S_HEADER_VALUE));
    NoteOne(NoteAll(h, TextOf(S_HEADER_VALUE_START, a.op, b, a.p.state)), MessageBegin);
    if h.folded { FoldedFirst(p, h.name, b); } else { ValueFirst(p, h.name, b); }
  }

  lemma NothingChunked(name: Bytes, folded: bool)
    ensures !ChunkedLine(FieldLine(name, [], folded))
  {
  }

  lemma ReadsValue(p: Parser, h: Headers, b: Byte)
    requires p.state == S_HEADER_VALUE && ValueHs(p.hs) && Reads(p, h) && StepValue(p, b).ctl == Next
    ensures Reads(StepValue(p, b).p, Noted(h, S_HEADER_VALUE, StepValue(p, b), b))
  {
    hide Noted, Reads;
    if p.flags.trailing {
      ReadsTrailer(p, Noted(h, S_HEADER_VALUE, StepValue(p, b), b), b);
    } else if p.hs != H_GENERAL_AND_QUOTE_AND_ESCAPE && (b == CR || b == LF) {
      ReadsValueEnd(p, h, b);
    } else {
      ReadsValueByte(p, h, b);
    }
  }

  lemma ReadsTrailer(p: Parser, h: Headers, b: Byte)
    requires p.state == S_HEADER_VALUE && p.flags.trailing && StepValue(p, b).ctl == Next
    ensures Reads(StepValue(p, b).p, h)
  {
  }

  lemma ReadsValueEnd(p: Parser, h: Headers, b: Byte)
    requires p.state == S_HEADER_VALUE && ValueHs(p.hs) && Reads(p, h) && !p.flags.trailing
    requires p.hs != H_GENERAL_AND_QUOTE_AND_ESCAPE && (b == CR || b == LF)
    ensures Reads(StepValue(p, b).p, Noted(h, S_HEADER_VALUE, StepValue(p, b), b))
  {
    hide NoteAll, HasChunked, HasUpgrade, LastLength, Begins, MayBeChunked, Decimal;
    var a := StepValue(p, b);
    NoteOne(h, Piece(Value, [], S_HEADER_ALMOST_DONE));
    NoteOne(NoteAll(h, TextOf(S_HEADER_VALUE, a.op, b, a.p.state)), MessageBegin);
    assert h.value + [] == h.value;
    OneMoreLine(h.lines, FieldLine(h.name, Joined(h.base, h.value), h.folded));
  }

  lemma ReadsValueByte(p: Parser, h: Headers, b: Byte)
    requires p.state == S_HEADER_VALUE && ValueHs(p.hs) && Reads(p, h) && !p.flags.trailing
    requires p.hs == H_GENERAL_AND_QUOTE_AND_ESCAPE || (b != CR && b != LF)
    requires StepValue(p, b).ctl == Next
    ensures Reads(StepValue(p, b).p, Noted(h, S_HEADER_VALUE, StepValue(p, b), b))
  {
    hide NoteAll, HasChunked, HasUpgrade, LastLength, Begins, MayBeChunked, Decimal, ValueReads, StepValue;
    var a := StepValue(p, b);
    ValueKeeps(p, b);
    NoteOne(h, Piece(Value, [b], S_HEADER_VALUE));
    NoteOne(NoteAll(h, TextOf(S_HEADER_VALUE, a.op, b, a.p.state)), MessageBegin);
    JoinedMore(h.base, h.value, b);
    ValueNext(p, h.name, Joined(h.base, h.value), h.folded, b);
    DecimalMore(Joined(h.base, h.value), b);
  }

  lemma JoinedMore(base: Bytes, value: Bytes, b: Byte)
    requires value != []
    ensures Joined(base, value + [b]) == Joined(base, value) + [b]
  {
    assert (value + [b])[1..] == value[1..] + [b];
  }

  lemma ValueKeeps(p: Parser, b: Byte)
    requires p.hs == H_GENERAL_AND_QUOTE_AND_ESCAPE || (b != CR && b != LF)
    ensures var a := StepValue(p, b); a.ctl == Next ==> a.op == Keep && a.notes == []
  {
  }

  lemma ReadsLineEnd(cfg: Settings, p: Parser, h: Headers, b: Byte)
    requires Reads(p, h)
    requires p.state == S_HEADER_ALMOST_DONE || p.state == S_HEADER_VALUE_LWS
             || p.state == S_HEADERS_ALMOST_DONE || p.state == S_HEADERS_DONE
    requires StepHeaders(cfg, p, b).ctl == Next
    ensures Reads(StepHeaders(cfg, p, b).p, Noted(h, p.state, StepHeaders(cfg, p, b), b))
  {
    hide NoteAll, HasChunked, HasUpgrade, LastLength, StepFieldStart, StepHeadersAlmostDone, StepHeadersDone, TextOf;
    var a := StepHeaders(cfg, p, b);
    if p.state == S_HEADER_ALMOST_DONE && b == LF {
      NothingNoted(h, p.state, a, b);
    } else if p.state == S_HEADER_ALMOST_DONE {
      if !p.flags.trailing { ResumeNoted(h, a, b); }
    } else if p.state == S_HEADER_VALUE_LWS && (b == SP || b == TAB) {
      if !p.flags.trailing { FoldNoted(h, a, b); }
    } else if p.state == S_HEADER_VALUE_LWS {
      ReadsFieldStart(cfg, p.(state := S_HEADER_FIELD_START), h, b);
      SameText(a.op, b, a.p.state);
    } else {
      EndUnclaimed(cfg, p, b);
    }
  }

  lemma ResumeNoted(h: Headers, a: Act, b: Byte)
    requires a.op == Keep && a.notes == [Data(Value, [SP], S_HEADER_VALUE)] && !h.valueOpen
    ensures Noted(h, S_HEADER_ALMOST_DONE, a, b) == h.(value := [SP], valueOpen := true)
    ensures Joined(h.base, [SP]) == h.base
  {
    hide NoteAll;
    NoteOne(h, Data(Value, [SP], S_HEADER_VALUE));
    assert TextOf(S_HEADER_ALMOST_DONE, Keep, b, a.p.state) == [];
    assert h.base + [SP][1..] == h.base;
  }

  lemma FoldNoted(h: Headers, a: Act, b: Byte)
    requires a.op == Keep && a.notes == [Data(Value, [SP], S_HEADER_VALUE_START)] && !h.valueOpen
    ensures Noted(h, S_HEADER_VALUE_LWS, a, b) == h.(value := [SP], folded := true)
  {
    hide NoteAll;
    NoteOne(h, Data(Value, [SP], S_HEADER_VALUE_START));
  }

  lemma SameText(op: MarkOp, b: Byte, t: State)
    ensures TextOf(S_HEADER_VALUE_LWS, op, b, t) == TextOf(S_HEADER_FIELD_START, op, b, t)
  {
  }

  lemma NothingNoted(h: Headers, s: State, a: Act, b: Byte)
    requires a.op == Keep && a.notes == [] && ZoneOf(s) == Plain
    ensures Noted(h, s, a, b) == h
  {
  }

  /** Text of the request or status line is none of the headers. */
  lemma LineTextNoted(h: Headers, s: State, op: MarkOp, b: Byte, t: State)
    requires InLine(s) && OpFits(s, op, t) && (InLine(t) || t == S_HEADER_FIELD_START)
    ensures NoteAll(h, TextOf(s, op, b, t)) == h
  {
    hide NoteAll;
    NoteOne(h, Piece(Url, [b], t));
    NoteOne(h, Piece(Reason, [b], t));
    match op {
      case Flush(k, at) => NoteOne(h, Piece(k, [], at));
      case MarkFlush(k, at) => NoteOne(h, Piece(k, [], at));
      case _ =>
    }
  }

  lemma PerformReads(p: Parser, m: Move, h: Headers, b: Byte)
    requires InLine(p.state) && MoveFits(p.state, m) && Reads(p, h) && Perform(p, m, b).ctl == Next
    ensures Reads(Perform(p, m, b).p, Noted(h, p.state, Perform(p, m, b), b))
  {
    hide TextOf, NoteAll, ZoneFits;
    var a := Perform(p, m, b);
    NoteOne(h, MessageBegin);
    assert a.notes == [];
    PerformOp(p, m, b);
    LineTextNoted(h, p.state, a.op, b, a.p.state);
  }

  lemma PerformOp(p: Parser, m: Move, b: Byte)
    requires InLine(p.state) && MoveFits(p.state, m) && Perform(p, m, b).ctl == Next
    ensures var a := Perform(p, m, b);
            && OpFits(p.state, a.op, a.p.state) && (InLine(a.p.state) || a.p.state == S_HEADER_FIELD_START)
            && a.p.flags == p.flags && a.p.length == p.length
  {
  }

  lemma ReadsLine(p: Parser, h: Headers, b: Byte)
    requires InLine(p.state) && Reads(p, h) && StepLine(p, b).ctl == Next
    ensures Reads(StepLine(p, b).p, Noted(h, p.state, StepLine(p, b), b))
  {
    hide Perform, LineMove, Reads, MoveFits;
    LineMoveFits(p.state, p.line.verb == M_CONNECT, b);
    PerformReads(p, LineMove(p.state, p.line.verb == M_CONNECT, b), h, b);
  }

  lemma ReadsMethod(p: Parser, h: Headers, b: Byte)
    requires p.state == S_REQ_METHOD && Reads(p, h) && StepMethod(p, b).ctl == Next
    ensures Reads(StepMethod(p, b).p, Noted(h, p.state, StepMethod(p, b), b))
  {
    hide MethodChar, SwitchMethod, NoteAll;
    NothingNoted(h, p.state, StepMethod(p, b), b);
  }

  /** The first byte of a message clears the flags and the length. */
  predicate StartsClean(a: Act) {
    a.ctl == Next ==>
      && a.op == Keep && Before(a.p.state) && !a.p.flags.trailing && Counts(a.p, [], -1)
  }

  lemma StartClears(cfg: Settings, p: Parser, b: Byte)
    ensures StartsClean(StepStartReq(p, b)) && StartsClean(StepStartRes(p, b)) && StartsClean(StepStartBoth(p, b))
    ensures StepStartReq(p, b).notes == [] && StepStartRes(p, b).notes == [] && StepStartBoth(p, b).notes == []
  {
    hide FirstMethod, LastLength;
  }

  lemma ReadsPreStart(cfg: Settings, p: Parser, h: Headers, b: Byte, started: Parser, next: Act)
    requires InStart(p.state) && Unclaimed(p.state) && Reads(p, h) && StepPreStart(cfg, p, b, started, next).ctl == Next
    requires StartsClean(next)
    ensures var a := StepPreStart(cfg, p, b, started, next); Reads(a.p, Noted(h, p.state, a, b))
  {
    hide NoteAll, HasChunked, HasUpgrade, LastLength;
    var a := StepPreStart(cfg, p, b, started, next);
    NoteOne(h, MessageBegin);
    assert TextOf(p.state, Keep, b, a.p.state) == [];
  }

  lemma ReadsStarting(p: Parser, h: Headers, b: Byte, next: Act)
    requires Starting(p.state) && Reads(p, h) && next.ctl == Next && StartsClean(next) && next.notes == []
    ensures Reads(next.p, Noted(h, p.state, next, b))
  {
    hide NoteAll, HasChunked, HasUpgrade, LastLength;
    NoteOne(h, MessageBegin);
    assert TextOf(p.state, Keep, b, next.p.state) == [];
  }

  lemma ReadsEither(p: Parser, h: Headers, b: Byte)
    requires p.state == S_RES_OR_RESP_H && Reads(p, h) && StepResOrRespH(p, b).ctl == Next
    ensures Reads(StepResOrRespH(p, b).p, Noted(h, p.state, StepResOrRespH(p, b), b))
  {
    hide NoteAll, HasChunked, HasUpgrade, LastLength;
    NoteOne(h, MessageBegin);
  }

  lemma ReadsStart(cfg: Settings, p: Parser, h: Headers, b: Byte)
    requires InStart(p.state) && Reads(p, h) && StepStart(cfg, p, b).ctl == Next
    ensures Reads(StepStart(cfg, p, b).p, Noted(h, p.state, StepStart(cfg, p, b), b))
  {
    hide StepStartReq, StepStartRes, StepStartBoth, StepResOrRespH, StepPreStart, StartsClean, Reads, Noted;
    var req, res, both := p.(state := S_START_REQ), p.(state := S_START_RES), p.(state := S_START_REQ_OR_RES);
    StartClears(cfg, req, b);
    StartClears(cfg, res, b);
    StartClears(cfg, both, b);
    StartClears(cfg, p, b);
    if p.state == S_PRE_START_REQ_OR_RES {
      ReadsPreStart(cfg, p, h, b, both, StepStartBoth(both, b));
    } else if p.state == S_PRE_START_RES {
      ReadsPreStart(cfg, p, h, b, res, StepStartRes(res, b));
    } else if p.state == S_PRE_START_REQ {
      ReadsPreStart(cfg, p, h, b, req, StepStartReq(req, b));
    } else if p.state == S_RES_OR_RESP_H {
      ReadsEither(p, h, b);
    } else {
      ReadsStarting(p, h, b, StepStart(cfg, p, b));
    }
  }

  lemma ReadsBody(cfg: Settings, p: Parser, h: Headers, b: Byte)
    requires InBody(p.state) && StepBody(cfg, p, b).ctl == Next
    ensures Reads(StepBody(cfg, p, b).p, h)
  {
    var a := StepBody(cfg, p, b);
    assert a.p.state == S_HEADER_FIELD_START ==> a.p.flags.trailing;
    assert Unclaimed(a.p.state) || a.p.state == S_HEADER_FIELD_START;
  }

  // ---------------------------------------------------------------- whole streams

  lemma StepReads(cfg: Settings, p: Parser, h: Headers, b: Byte)
    requires Live(p) && Reads(p, h) && Step(cfg, p, b).ctl == Next
    ensures Reads(Step(cfg, p, b).p, Noted(h, p.state, Step(cfg, p, b), b))
  {
    hide StepStart, StepMethod, StepLine, StepFieldStart, StepField, StepValueStart, StepValue, StepLws, StepAlmostDone,
         StepHeadersAlmostDone, StepHeadersDone, StepBody, Reads, Noted, InLine;
    if InStart(p.state) { ReadsStart(cfg, p, h, b); }
    else if p.state == S_REQ_METHOD { ReadsMethod(p, h, b); }
    else if InLine(p.state) { ReadsLine(p, h, b); }
    else if p.state == S_HEADER_FIELD_START { ReadsFieldStart(cfg, p, h, b); }
    else if p.state == S_HEADER_FIELD { ReadsField(p, h, b); }
    else if p.state == S_HEADER_VALUE_START { ReadsValueStart(p, h, b); }
    else if p.state == S_HEADER_VALUE { ReadsValue(p, h, b); }
    else if InHeaders(p.state) { ReadsLineEnd(cfg, p, h, b); }
    else { ReadsBody(cfg, p, Noted(h, p.state, Step(cfg, p, b), b), b); }
  }

  /** What a receiver has put together from the callbacks of a stream. */
  function Received(e: Stream): Headers { NoteAll(NO_HEADERS, e.out) }

  lemma {:induction false} WholeReads(cfg: Settings, p: Parser, s: Bytes)
    requires Live(p) && !InBody(p.state) && Unclaimed(p.state)
    ensures var e := Whole(cfg, p, s); e.live ==> Live(e.p) && Reads(e.p, Received(e))
  {
    hide Step, Inv, Reads, NoteAll, PushAll, TextOf;
    if s == [] {
      ReadsAtStart(p, Received(Whole(cfg, p, s)));
    } else {
      var t, b := s[..|s| - 1], s[|s| - 1];
      WholeReads(cfg, p, t);
      var e := Whole(cfg, p, t);
      assert Whole(cfg, p, s) == Read(cfg, e, b);
      if e.live {
        StepFits(cfg, e.p, b);
        var a := Step(cfg, e.p, b);
        if a.ctl == Next {
          StepReads(cfg, e.p, Received(e), b);
          NotePushAll(NO_HEADERS, e.out, TextOf(e.p.state, a.op, b, a.p.state));
          NotePushAll(NO_HEADERS, PushAll(e.out, TextOf(e.p.state, a.op, b, a.p.state)), a.notes);
        }
      }
    }
  }

  lemma ReadsAtStart(p: Parser, h: Headers)
    requires !InBody(p.state) && Unclaimed(p.state)
    ensures Reads(p, h)
  {
  }

  /** How the body of a message is delimited (section 3.3.3 of RFC 7230). */
  datatype Framing = NoBody | InChunks | OfLength(n: int) | UntilClose

  function FramingOf(line: Line, skip: bool, lines: seq<FieldLine>): Framing {
    if skip || line.verb == M_CONNECT then NoBody
    else if HasChunked(lines) then InChunks
    else if LastLength(lines) > 0 then OfLength(LastLength(lines))
    else if LastLength(lines) == 0 || HasUpgrade(lines) || line.kind == Request then NoBody
    else if line.status / 100 == 1 || line.status == 204 || line.status == 304 then NoBody
    else UntilClose
  }

  /** The step goes on as the framing demands. */
  predicate Follows(a: Act, f: Framing) {
    match f
    case NoBody =>
      MessageComplete in a.notes && a.p.state == if a.p.line.kind == Request then S_PRE_START_REQ else S_PRE_START_RES
    case InChunks => MessageComplete !in a.notes && a.p.state == S_CHUNK_SIZE_START && a.ctl == Next
    case OfLength(n) => MessageComplete !in a.notes && a.p.state == S_BODY_IDENTITY && a.p.length == n && a.ctl == Next
    case UntilClose => MessageComplete !in a.notes && a.p.state == S_BODY_IDENTITY_EOF && a.ctl == Next
  }

  /** on_headers_complete is called on the LF of the empty line, outside trailers. */
  lemma HeadersCompleteAt(cfg: Settings, p: Parser, b: Byte)
    requires HeadersComplete in Step(cfg, p, b).notes
    ensures p.state == S_HEADER_FIELD_START || p.state == S_HEADER_VALUE_LWS || p.state == S_HEADERS_ALMOST_DONE
    ensures b == LF && !p.flags.trailing
    ensures Step(cfg, p, b) == StepHeadersAlmostDone(cfg, p.(state := S_HEADERS_ALMOST_DONE), b)
  {
    hide StepStart, StepMethod, StepLine, StepHeaders, StepBody;
    if InStart(p.state) || p.state == S_REQ_METHOD || InLine(p.state) {
      NotInLine(cfg, p, b);
    } else if InHeaders(p.state) {
      EmptyLineAt(cfg, p, b);
    } else {
      NotInBody(cfg, p, b);
    }
  }

  lemma NotInLine(cfg: Settings, p: Parser, b: Byte)
    ensures HeadersComplete !in StepStart(cfg, p, b).notes
    ensures HeadersComplete !in StepMethod(p, b).notes && HeadersComplete !in StepLine(p, b).notes
  {
    hide LineMove, MethodChar, SwitchMethod, FirstMethod;
  }

  lemma NotInBody(cfg: Settings, p: Parser, b: Byte)
    ensures HeadersComplete !in StepBody(cfg, p, b).notes
  {
  }

  lemma EmptyLineAt(cfg: Settings, p: Parser, b: Byte)
    requires InHeaders(p.state) && HeadersComplete in StepHeaders(cfg, p, b).notes
    ensures p.state == S_HEADER_FIELD_START || p.state == S_HEADER_VALUE_LWS || p.state == S_HEADERS_ALMOST_DONE
    ensures b == LF && !p.flags.trailing
    ensures StepHeaders(cfg, p, b) == StepHeadersAlmostDone(cfg, p.(state := S_HEADERS_ALMOST_DONE), b)
  {
  }

  lemma DecisionFollows(cfg: Settings, p: Parser, lines: seq<FieldLine>)
    requires Counts(p, lines, LastLength(lines)) && !p.flags.trailing
    requires cfg.onHeadersComplete == Proceed || cfg.onHeadersComplete == SkipBody
    ensures Follows(StepHeadersAlmostDone(cfg, p, LF), FramingOf(p.line, cfg.onHeadersComplete == SkipBody, lines))
  {
    hide HasChunked, HasUpgrade, LastLength;
    var f := FramingOf(p.line, cfg.onHeadersComplete == SkipBody, lines);
    if f.NoBody? {
    } else if f.InChunks? {
    } else {
    }
  }

  /** When the headers of a message are complete, the parser goes on to read the body that the
      delivered header lines declare: chunked if a Transfer-Encoding is "chunked", otherwise the
      length of the last Content-Length, otherwise none or all up to the close. A line that a lone CR
      does not end is read with what follows it. */
  lemma FramingDecision(cfg: Settings, p: Parser, s: Bytes, b: Byte)
    requires Live(p) && !InBody(p.state) && Unclaimed(p.state)
    requires Whole(cfg, p, s).live
    requires HeadersComplete in Step(cfg, Whole(cfg, p, s).p, b).notes
    requires cfg.onHeadersComplete == Proceed || cfg.onHeadersComplete == SkipBody
    ensures var e := Whole(cfg, p, s);
            Follows(Step(cfg, e.p, b), FramingOf(e.p.line, cfg.onHeadersComplete == SkipBody, Received(e).lines))
  {
    hide Step, StepHeadersAlmostDone, Follows, NoteAll, ReadAll;
    WholeReads(cfg, p, s);
    var e := Whole(cfg, p, s);
    HeadersCompleteAt(cfg, e.p, b);
    DecisionFollows(cfg, e.p.(state := S_HEADERS_ALMOST_DONE), Received(e).lines);
  }
}
