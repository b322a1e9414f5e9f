/** Bodies: the two length formats, and conservation of body text. */
module ParserBody {
  import opened Ascii
  import opened ParserTypes
  import opened ParserStep
  import opened ParserEvents
  import opened ParserCuts
  import opened ParserFraming

  // ---------------------------------------------------------------- Content-Length

  /** The largest Content-Length the overflow test lets through. */
  const MAX_CONTENT_LENGTH: int := 9223372036854775799

  /** How far `ds` is a digit followed by digits and spaces. */
  function LengthEnd(ds: Bytes, i: nat): nat
    decreases |ds| - i
  {
    if i < |ds| && (IsDigit(ds[i]) || (i > 0 && ds[i] == SP)) then LengthEnd(ds, i + 1) else i
  }

  lemma {:induction false} LengthEndMore(ds: Bytes, b: Byte, i: nat)
    requires i <= |ds|
    ensures i <= LengthEnd(ds, i) <= |ds|
    ensures var k := LengthEnd(ds, i);
            LengthEnd(ds + [b], i) ==
            if k < |ds| then k else if IsDigit(b) || (|ds| > 0 && b == SP) then |ds| + 1 else |ds|
    decreases |ds| - i
  {
    if i < |ds| && (IsDigit(ds[i]) || (i > 0 && ds[i] == SP)) { LengthEndMore(ds, b, i + 1); }
  }

  lemma LengthStart(cfg: Settings, e: Stream, b: Byte)
    requires e.live && e.p.state == S_HEADER_VALUE_START && e.p.hs == H_CONTENT_LENGTH
    requires b != SP && b != TAB && b != CR && b != LF
    ensures var f := Read(cfg, e, b);
            if IsDigit(b) then f.live && f.p == e.p.(state := S_HEADER_VALUE, index := 0, length := Digit(b))
            else !f.live && f.p.errno == HPE_INVALID_CONTENT_LENGTH
  {
    hide PushAll;
  }

  lemma LengthNext(cfg: Settings, e: Stream, b: Byte)
    requires e.live && e.p.state == S_HEADER_VALUE && e.p.hs == H_CONTENT_LENGTH && e.p.length >= 0
    requires b != CR && b != LF
    ensures var f := Read(cfg, e, b);
            if b == SP then f.live && f.p == e.p
            else if !IsHeaderChar(b) then !f.live && f.p.errno == HPE_INVALID_HEADER_TOKEN
            else if !IsDigit(b) then !f.live && f.p.errno == HPE_INVALID_CONTENT_LENGTH
            else if e.p.length * 10 + Digit(b) <= MAX_CONTENT_LENGTH
            then f.live && f.p == e.p.(length := e.p.length * 10 + Digit(b))
            else !f.live && f.p.errno == HPE_HUGE_CONTENT_LENGTH
  {
    hide PushAll;
  }

  /** What a Content-Length of bytes `ds` leads to, where `k` is how far it is well formed. */
  predicate LengthVerdict(e: Stream, f: Stream, ds: Bytes, k: nat)
    requires k <= |ds|
  {
    if Decimal(ds[..k]) > MAX_CONTENT_LENGTH then !f.live && f.p.errno == HPE_HUGE_CONTENT_LENGTH
    else if k == |ds| then f.live && f.p == e.p.(state := S_HEADER_VALUE, index := 0, length := Decimal(ds))
    else
      !f.live
      && f.p.errno == if k > 0 && !IsHeaderChar(ds[k]) then HPE_INVALID_HEADER_TOKEN else HPE_INVALID_CONTENT_LENGTH
  }

  /** Any bytes of a Content-Length up to the line end: they are accepted exactly if they are a digit
      followed by digits and spaces and stand for at most MAX_CONTENT_LENGTH, and are then read as that
      number. Otherwise the parser stops, for a number too large or at the first byte that does not fit. */
  lemma {:induction false} ContentLengthRead(cfg: Settings, e: Stream, ds: Bytes)
    requires e.live && e.p.state == S_HEADER_VALUE_START && e.p.hs == H_CONTENT_LENGTH
    requires ds != [] && ds[0] != SP && ds[0] != TAB && CR !in ds && LF !in ds
    ensures LengthEnd(ds, 0) <= |ds| && LengthVerdict(e, ReadAll(cfg, e, ds), ds, LengthEnd(ds, 0))
  {
    hide Read, ReadAll, Decimal, LengthEnd, LengthVerdict;
    var t, b := ds[..|ds| - 1], ds[|ds| - 1];
    assert ds == t + [b];
    LengthEndMore(t, b, 0);
    ReadOneMore(cfg, e, t, b);
    if t == [] {
      ReadNothing(cfg, e);
      assert ds == [b];
      FirstLengthByte(cfg, e, b);
    } else {
      ContentLengthRead(cfg, e, t);
      NextLengthByte(cfg, e, ReadAll(cfg, e, t), t, b);
    }
  }

  lemma FirstLengthByte(cfg: Settings, e: Stream, b: Byte)
    requires e.live && e.p.state == S_HEADER_VALUE_START && e.p.hs == H_CONTENT_LENGTH
    requires b != SP && b != TAB && b != CR && b != LF
    ensures LengthEnd([b], 0) <= 1 && LengthVerdict(e, Read(cfg, e, b), [b], LengthEnd([b], 0))
  {
    hide Read;
    LengthStart(cfg, e, b);
    DecimalMore([], b);
    var one: Bytes := [b];
    assert [] + [b] == one && one[..1] == one && one[..0] == [];
    assert LengthEnd(one, 1) == 1;
  }

  lemma NextLengthByte(cfg: Settings, e: Stream, f: Stream, t: Bytes, b: Byte)
    requires e.p.hs == H_CONTENT_LENGTH && t != [] && b != CR && b != LF
    requires LengthEnd(t, 0) <= |t| && LengthVerdict(e, f, t, LengthEnd(t, 0))
    ensures LengthEnd(t + [b], 0) <= |t| + 1
    ensures LengthVerdict(e, Read(cfg, f, b), t + [b], LengthEnd(t + [b], 0))
  {
    hide Read, Decimal, LengthEnd;
    var k, ds := LengthEnd(t, 0), t + [b];
    LengthEndMore(t, b, 0);
    DecimalMore(t, b);
    assert t[..|t|] == t && ds[..|ds|] == ds && ds[..|t|] == t && ds[..k] == t[..k];
    if f.live {
      LengthNext(cfg, f, b);
    } else {
      StoppedRead(cfg, f, b);
    }
  }

  /** A digit followed by digits and spaces. */
  predicate IsLengthText(ds: Bytes) {
    ds != [] && IsDigit(ds[0]) && forall i :: 0 <= i < |ds| ==> IsDigit(ds[i]) || ds[i] == SP
  }

  lemma {:induction false} LengthTextEnd(ds: Bytes, i: nat)
    requires IsLengthText(ds) && i <= |ds|
    ensures LengthEnd(ds, i) == |ds|
    decreases |ds| - i
  {
    if i < |ds| { LengthTextEnd(ds, i + 1); }
  }

  lemma StoppedRead(cfg: Settings, e: Stream, b: Byte)
    requires !e.live
    ensures Read(cfg, e, b) == e
  {
  }

  // ---------------------------------------------------------------- chunk sizes

  function HexDigit(b: Byte): nat {
    if IsDigit(b) then b - 48 else if 65 <= b <= 70 then b - 55 else if 97 <= b <= 102 then b - 87 else 0
  }

  function HexValue(ds: Bytes): nat {
    if ds == [] then 0 else HexValue(ds[..|ds| - 1]) * 16 + HexDigit(ds[|ds| - 1])
  }

  predicate AllHex(ds: Bytes) { forall i :: 0 <= i < |ds| ==> IsHex(ds[i]) }

  /** A byte that is taken for a digit: the upper half of the table is 0, as for the digit 0. */
  predicate IsSizeByte(b: Byte) { IsHex(b) || b >= 128 }

  /** How far `ds` is taken for digits. */
  function SizeEnd(ds: Bytes, i: nat): nat
    decreases |ds| - i
  {
    if i < |ds| && IsSizeByte(ds[i]) then SizeEnd(ds, i + 1) else i
  }

  lemma {:induction false} SizeEndMore(ds: Bytes, b: Byte, i: nat)
    requires i <= |ds|
    ensures i <= SizeEnd(ds, i) <= |ds|
    ensures var k := SizeEnd(ds, i);
            SizeEnd(ds + [b], i) == if k < |ds| then k else if IsSizeByte(b) then |ds| + 1 else |ds|
    decreases |ds| - i
  {
    if i < |ds| && IsSizeByte(ds[i]) { SizeEndMore(ds, b, i + 1); }
  }

  /** The parser after `n` more bytes that made no callback. */
  predicate Silent(e: Stream, f: Stream, n: nat) {
    f.live && f.out == e.out && f.pos == e.pos + n && (Neat(e) ==> Neat(f))
  }

  lemma SizeStart(cfg: Settings, e: Stream, b: Byte)
    requires e.live && e.p.state == S_CHUNK_SIZE_START
    ensures var f := Read(cfg, e, b);
            if IsSizeByte(b) then Silent(e, f, 1) && f.p == e.p.(state := S_CHUNK_SIZE, length := HexDigit(b))
            else !f.live && f.p.errno == HPE_INVALID_CHUNK_SIZE
  {
    hide Push;
  }

  lemma SizeNext(cfg: Settings, e: Stream, b: Byte)
    requires e.live && e.p.state == S_CHUNK_SIZE && b != CR && b != SEMI && b != SP && e.p.length >= 0
    ensures var f := Read(cfg, e, b);
            if !IsSizeByte(b) then !f.live && f.p.errno == HPE_INVALID_CHUNK_SIZE
            else if e.p.length * 16 + HexDigit(b) <= INT64_MAX
            then Silent(e, f, 1) && f.p == e.p.(length := e.p.length * 16 + HexDigit(b))
            else !f.live && f.p.errno == HPE_HUGE_CHUNK_SIZE
  {
    hide Push;
  }

  /** What a chunk size of bytes `ds` leads to, where `k` is how far they are taken for digits. */
  predicate SizeVerdict(e: Stream, f: Stream, ds: Bytes, k: nat)
    requires k <= |ds|
  {
    if HexValue(ds[..k]) > 0x7fff_ffff_ffff_ffff then !f.live && f.p.errno == HPE_HUGE_CHUNK_SIZE
    else if k == |ds| then Silent(e, f, |ds|) && f.p == e.p.(state := S_CHUNK_SIZE, length := HexValue(ds))
    else !f.live && f.p.errno == HPE_INVALID_CHUNK_SIZE
  }

  /** Any bytes of a chunk size, up to what may end it: they are accepted exactly if each is a hex
      digit or has its high bit set and the number they stand for fits an int64, and are then read as
      that number, which is a hex numeral exactly if no byte has its high bit set. Otherwise the parser
      stops, for a number too large or at the first byte that is not taken for a digit. */
  lemma {:induction false} ChunkSizeRead(cfg: Settings, e: Stream, ds: Bytes)
    requires e.live && e.p.state == S_CHUNK_SIZE_START && ds != [] && CR !in ds && SEMI !in ds && SP !in ds
    ensures SizeEnd(ds, 0) <= |ds| && SizeVerdict(e, ReadAll(cfg, e, ds), ds, SizeEnd(ds, 0))
    ensures ReadAll(cfg, e, ds).live ==> (AllHex(ds) <==> forall i :: 0 <= i < |ds| ==> ds[i] < 128)
  {
    hide Read, HexValue, SizeEnd, SizeVerdict;
    var t, b := ds[..|ds| - 1], ds[|ds| - 1];
    assert ds == t + [b];
    SizeEndMore(t, b, 0);
    if t == [] {
      assert ReadAll(cfg, e, t) == e && ds == [b];
      FirstSizeByte(cfg, e, b);
    } else {
      ChunkSizeRead(cfg, e, t);
      NextSizeByte(cfg, e, ReadAll(cfg, e, t), t, b);
    }
    if ReadAll(cfg, e, ds).live {
      VerdictLive(e, ReadAll(cfg, e, ds), ds, SizeEnd(ds, 0));
      SizeEndBytes(ds, 0);
    }
  }

  lemma VerdictLive(e: Stream, f: Stream, ds: Bytes, k: nat)
    requires k <= |ds| && SizeVerdict(e, f, ds, k) && f.live
    ensures k == |ds|
  {
  }

  lemma FirstSizeByte(cfg: Settings, e: Stream, b: Byte)
    requires e.live && e.p.state == S_CHUNK_SIZE_START
    ensures SizeEnd([b], 0) <= 1 && SizeVerdict(e, Read(cfg, e, b), [b], SizeEnd([b], 0))
  {
    hide Read;
    SizeStart(cfg, e, b);
    HexMore([], b);
    var one: Bytes := [b];
    assert [] + [b] == one && one[..1] == one && one[..0] == [];
    assert SizeEnd(one, 1) == 1;
  }

  lemma NextSizeByte(cfg: Settings, e: Stream, f: Stream, t: Bytes, b: Byte)
    requires e.live && t != [] && b != CR && b != SEMI && b != SP
    requires SizeEnd(t, 0) <= |t| && SizeVerdict(e, f, t, SizeEnd(t, 0))
    ensures SizeEnd(t + [b], 0) <= |t| + 1 && SizeVerdict(e, Read(cfg, f, b), t + [b], SizeEnd(t + [b], 0))
  {
    hide Read, HexValue, SizeEnd, HexDigit, IsSizeByte;
    var k, ds := SizeEnd(t, 0), t + [b];
    var v := HexValue(t);
    SizeEndMore(t, b, 0);
    HexMore(t, b);
    assert t[..|t|] == t && ds[..|ds|] == ds && ds[..|t|] == t && ds[..k] == t[..k];
    if f.live {
      SizeNext(cfg, f, b);
      assert f.p.length == v;
    } else {
      StoppedRead(cfg, f, b);
      if k == |t| {
        assert v > INT64_MAX && HexValue(ds) >= v;
      }
    }
  }

  lemma HexMore(ds: Bytes, b: Byte)
    ensures HexValue(ds + [b]) == HexValue(ds) * 16 + HexDigit(b) && HexValue([]) == 0 && HexDigit(b) < 16
  {
    assert (ds + [b])[..|ds|] == ds;
  }

  lemma {:induction false} SizeEndBytes(ds: Bytes, i: nat)
    requires i <= |ds| && SizeEnd(ds, i) == |ds|
    ensures forall j :: i <= j < |ds| ==> IsSizeByte(ds[j])
    decreases |ds| - i
  {
    if i < |ds| { SizeEndBytes(ds, i + 1); }
  }

  /** The bytes with '0' for those whose high bit is set. */
  function Zeroed(ds: Bytes): Bytes {
    if ds == [] then [] else Zeroed(ds[..|ds| - 1]) + [if ds[|ds| - 1] >= 128 then DIGIT0 else ds[|ds| - 1]]
  }

  /** A byte with its high bit set counts as the digit 0, anywhere in a chunk size. */
  lemma {:induction false} HighByteIsZeroDigit(cfg: Settings, e: Stream, ds: Bytes)
    requires e.live && e.p.state == S_CHUNK_SIZE_START && forall i :: 0 <= i < |ds| ==> IsSizeByte(ds[i])
    ensures ReadAll(cfg, e, ds) == ReadAll(cfg, e, Zeroed(ds)) && AllHex(Zeroed(ds)) && |Zeroed(ds)| == |ds|
  {
    hide Step, PushAll;
    if ds != [] {
      var t, b := ds[..|ds| - 1], ds[|ds| - 1];
      HighByteIsZeroDigit(cfg, e, t);
      var z := Zeroed(ds);
      assert z[..|z| - 1] == Zeroed(t);
      var d := ReadAll(cfg, e, t);
      if t == [] {
        assert d == e;
      } else {
        NoEnds(t);
        ChunkSizeRead(cfg, e, t);
      }
      if d.live && b >= 128 { HighStep(cfg, d, b); }
    }
  }

  lemma NoEnds(ds: Bytes)
    requires forall i :: 0 <= i < |ds| ==> IsSizeByte(ds[i])
    ensures CR !in ds && SEMI !in ds && SP !in ds
  {
  }

  lemma HighStep(cfg: Settings, e: Stream, b: Byte)
    requires b >= 128 && (e.p.state == S_CHUNK_SIZE_START || e.p.state == S_CHUNK_SIZE)
    ensures Read(cfg, e, b) == Read(cfg, e, DIGIT0)
  {
    hide PushAll;
  }

  // ---------------------------------------------------------------- a body of known length

  /** A message is followed by another of its kind. */
  function Anew(kind: ParserType): State { if kind == Request then S_PRE_START_REQ else S_PRE_START_RES }

  /** A message that `e` was in is complete in `d`: the parser is at a new message of the same kind; it runs on
      unless its callback does not return 0 or the connection is to be upgraded. */
  predicate Completed(cfg: Settings, e: Stream, d: Stream) {
    && d.p.state == Anew(e.p.line.kind) && d.p.line == e.p.line
    && d.live == (cfg.onMessageComplete == Proceed && !e.p.upgrade)
    && d.p.errno == (match cfg.onMessageComplete
                     case Proceed => e.p.errno
                     case Pause => HPE_PAUSED
                     case _ => HPE_CB_MESSAGE_COMPLETE)
    && (Neat(e) ==> d.clean && !d.gap)
  }

  /** Body text delivered at the end of a stream of callbacks. */
  function WithBody(out: seq<Event>, s: Bytes): seq<Event> {
    if s == [] then out else Push(out, Piece(Body, s, S_BODY_IDENTITY))
  }

  lemma WithBodyMore(out: seq<Event>, s: Bytes, b: Byte)
    ensures PushAll(WithBody(out, s), [Piece(Body, [b], S_BODY_IDENTITY)]) == WithBody(out, s + [b])
  {
    hide Push;
    PushAllOne(WithBody(out, s), Piece(Body, [b], S_BODY_IDENTITY));
    if s == [] {
      assert [] + [b] == [b];
    } else {
      PushTwice(out, Body, s, S_BODY_IDENTITY, [b], S_BODY_IDENTITY);
    }
  }

  lemma BodyByte(cfg: Settings, e: Stream, b: Byte)
    requires e.live && e.p.state == S_BODY_IDENTITY && e.p.length > 0
    ensures var f := Read(cfg, e, b);
            var text := PushAll(e.out, [Piece(Body, [b], S_BODY_IDENTITY)]);
            f.pos == e.pos + 1
            && if e.p.length > 1
               then f.live && f.p == e.p.(length := e.p.length - 1) && f.out == text && (Neat(e) ==> Neat(f))
               else Completed(cfg, e, f) && f.out == PushAll(text, [MessageComplete])
  {
    hide Push;
    PushNothing(PushAll(e.out, [Piece(Body, [b], S_BODY_IDENTITY)]));
  }

  /** Conservation of an identity body: of a body of which `n` bytes are missing, every shorter
      piece is delivered as it is and leaves `n` less its length missing. */
  lemma {:induction false} BodyConserved(cfg: Settings, e: Stream, s: Bytes)
    requires e.live && e.p.state == S_BODY_IDENTITY && |s| < e.p.length
    ensures var f := ReadAll(cfg, e, s);
            f.live && f.p == e.p.(length := e.p.length - |s|) && f.out == WithBody(e.out, s) && f.pos == e.pos + |s|
            && (Neat(e) ==> Neat(f))
  {
    hide Step, Read, PushAll, WithBody;
    if s == [] {
      assert WithBody(e.out, s) == e.out by { NoBodyText(e.out); }
    } else {
      var t, b := s[..|s| - 1], s[|s| - 1];
      assert t + [b] == s;
      BodyConserved(cfg, e, t);
      BodyByte(cfg, ReadAll(cfg, e, t), b);
      WithBodyMore(e.out, t, b);
    }
  }

  lemma NoBodyText(out: seq<Event>)
    ensures WithBody(out, []) == out
  {
  }

  /** The message is complete with the last byte of its body, and not before. */
  lemma BodyCompletes(cfg: Settings, e: Stream, s: Bytes)
    requires e.live && e.p.state == S_BODY_IDENTITY && |s| == e.p.length && s != []
    ensures var f := ReadAll(cfg, e, s);
            && Completed(cfg, e, f) && f.pos == e.pos + |s|
            && f.out == PushAll(WithBody(e.out, s), [MessageComplete])
    ensures forall n :: 0 <= n < |s| ==> Underway(ReadAll(cfg, e, s[..n]))
  {
    hide Step, Read, PushAll, WithBody, ReadAll;
    var t, b := s[..|s| - 1], s[|s| - 1];
    assert t + [b] == s;
    BodyConserved(cfg, e, t);
    ReadOneMore(cfg, e, t, b);
    BodyByte(cfg, ReadAll(cfg, e, t), b);
    WithBodyMore(e.out, t, b);
    forall n | 0 <= n < |s| ensures Underway(ReadAll(cfg, e, s[..n])) {
      BodyConserved(cfg, e, s[..n]);
    }
  }

  /** The message has begun and is not complete. */
  predicate Underway(e: Stream) { e.live && !InStart(e.p.state) }
}
