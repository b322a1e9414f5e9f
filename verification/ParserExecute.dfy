/** `http_parser_execute` in the form of the source: one loop over the buffer with five mark
    variables, fast-forward inside header names and values, and bulk skipping of body text. Its
    contract is the byte-at-a-time `Call` of module ParserRun. */
module ParserExecute {
  import opened Ascii
  import opened ParserTypes
  import opened ParserStep
  import opened ParserInvariant
  import opened ParserRun

  // ---------------------------------------------------------------- what the fast paths skip

  /** The bytes that MOVE_FAST moves over. */
  predicate PlainByte(b: Byte) { b != CR && b != LF && b != QT && b != BACKSLASH && IsHeaderChar(b) }

  function Grown(m: Mark, s: Bytes): Mark { if m.Mark? then Mark(m.k, m.text + s) else m }

  function Skipped(r: Run, s: Bytes): Run {
    r.(mark := Grown(r.mark, s), pos := r.pos + |s|, since := r.since + |s|)
  }

  lemma SkipOne(r: Run, s: Bytes, b: Byte)
    requires r.live
    ensures Apply(Skipped(r, s), Stay(r.p), b) == Skipped(r, s + [b])
  {
    if r.mark.Mark? { assert r.mark.text + s + [b] == r.mark.text + (s + [b]); }
    assert r.out + [] + [] == r.out;
  }

  lemma TokenStep(cfg: Settings, p: Parser, b: Byte)
    requires p.state == S_HEADER_FIELD && p.hs == H_GENERAL && IsToken(b)
    ensures Step(cfg, p, b) == Stay(p)
  {
  }

  lemma PlainStep(cfg: Settings, p: Parser, b: Byte)
    requires p.state == S_HEADER_VALUE && (p.hs == H_GENERAL || p.hs == H_GENERAL_AND_QUOTE) && PlainByte(b)
    ensures Step(cfg, p, b) == Stay(p)
  {
  }

  lemma BodyStep(cfg: Settings, p: Parser, b: Byte)
    requires p.state == S_BODY_IDENTITY && p.length > 1
    ensures Step(cfg, p, b) == Act(p.(length := p.length - 1), Start(Body), [], Next, false)
  {
  }

  lemma ChunkStep(cfg: Settings, p: Parser, b: Byte)
    requires p.state == S_CHUNK_DATA && p.length > 0
    ensures Step(cfg, p, b) == Act(AfterChunkBytes(p, 1), Start(Body), [], Next, false)
  {
  }

  /** Tokens of an ordinary header name change nothing but the mark. */
  lemma {:induction false} TokensSkipped(cfg: Settings, r: Run, s: Bytes)
    requires r.live && r.p.state == S_HEADER_FIELD && r.p.hs == H_GENERAL
    requires forall i :: 0 <= i < |s| ==> IsToken(s[i])
    ensures RunOver(cfg, r, s) == Skipped(r, s)
  {
    hide Step, Apply;
    if s == [] {
      assert r.mark.Mark? ==> r.mark.text + s == r.mark.text;
    } else {
      var t := s[..|s| - 1];
      TokensSkipped(cfg, r, t);
      TokenStep(cfg, r.p, s[|s| - 1]);
      SkipOne(r, t, s[|s| - 1]);
      assert t + [s[|s| - 1]] == s;
    }
  }

  /** Plain bytes of a header value change nothing but the mark, in or out of quotes. */
  lemma {:induction false} PlainSkipped(cfg: Settings, r: Run, s: Bytes)
    requires r.live && r.p.state == S_HEADER_VALUE && (r.p.hs == H_GENERAL || r.p.hs == H_GENERAL_AND_QUOTE)
    requires forall i :: 0 <= i < |s| ==> PlainByte(s[i])
    ensures RunOver(cfg, r, s) == Skipped(r, s)
  {
    hide Step, Apply;
    if s == [] {
      assert r.mark.Mark? ==> r.mark.text + s == r.mark.text;
    } else {
      var t := s[..|s| - 1];
      PlainSkipped(cfg, r, t);
      PlainStep(cfg, r.p, s[|s| - 1]);
      SkipOne(r, t, s[|s| - 1]);
      assert t + [s[|s| - 1]] == s;
    }
  }

  /** Body text of which `n` bytes are taken: the mark is set and grows. */
  function Taken(r: Run, s: Bytes, p: Parser): Run {
    r.(p := p, mark := if s == [] then r.mark else Mark(Body, MarkedText(r.mark, Body) + s),
       pos := r.pos + |s|, since := r.since + |s|)
  }

  lemma TakeOne(r: Run, s: Bytes, b: Byte, p: Parser, q: Parser)
    requires r.live && (r.mark.Mark? ==> r.mark.k == Body)
    ensures Apply(Taken(r, s, p), Act(q, Start(Body), [], Next, false), b) == Taken(r, s + [b], q)
  {
    var text := MarkedText(r.mark, Body);
    assert text + s + [b] == text + (s + [b]);
    assert text + [] == text;
    assert r.out + [] + [] == r.out;
  }

  lemma {:induction false} BodyTaken(cfg: Settings, r: Run, s: Bytes)
    requires r.live && r.p.state == S_BODY_IDENTITY && |s| < r.p.length
    requires r.mark.Mark? ==> r.mark.k == Body
    ensures RunOver(cfg, r, s) == Taken(r, s, r.p.(length := r.p.length - |s|))
  {
    hide Step, Apply;
    if s != [] {
      var t := s[..|s| - 1];
      BodyTaken(cfg, r, t);
      var p := r.p.(length := r.p.length - |t|);
      var q := r.p.(length := r.p.length - |s|);
      BodyStep(cfg, p, s[|s| - 1]);
      TakeOne(r, t, s[|s| - 1], p, q);
      assert t + [s[|s| - 1]] == s;
    }
  }

  function AfterChunkBytes(p: Parser, n: nat): Parser {
    p.(length := p.length - n, state := if p.length == n then S_CHUNK_DATA_ALMOST_DONE else p.state)
  }

  lemma {:induction false} ChunkTaken(cfg: Settings, r: Run, s: Bytes)
    requires r.live && r.p.state == S_CHUNK_DATA && |s| <= r.p.length && r.p.length > 0
    requires r.mark.Mark? ==> r.mark.k == Body
    ensures RunOver(cfg, r, s) == Taken(r, s, AfterChunkBytes(r.p, |s|))
  {
    hide Step, Apply;
    if s != [] {
      var t := s[..|s| - 1];
      ChunkTaken(cfg, r, t);
      var p, q := AfterChunkBytes(r.p, |t|), AfterChunkBytes(r.p, |s|);
      ChunkStep(cfg, p, s[|s| - 1]);
      TakeOne(r, t, s[|s| - 1], p, q);
      assert t + [s[|s| - 1]] == s;
    }
  }

  lemma EofStep(cfg: Settings, p: Parser, b: Byte)
    requires p.state == S_BODY_IDENTITY_EOF
    ensures Step(cfg, p, b) == Act(p, Start(Body), [], Next, false)
  {
  }

  lemma {:induction false} EofTaken(cfg: Settings, r: Run, s: Bytes)
    requires r.live && r.p.state == S_BODY_IDENTITY_EOF
    requires r.mark.Mark? ==> r.mark.k == Body
    ensures RunOver(cfg, r, s) == Taken(r, s, r.p)
  {
    hide Step, Apply;
    if s != [] {
      var t := s[..|s| - 1];
      EofTaken(cfg, r, t);
      EofStep(cfg, r.p, s[|s| - 1]);
      TakeOne(r, t, s[|s| - 1], r.p, r.p);
      assert t + [s[|s| - 1]] == s;
    }
  }

  // ---------------------------------------------------------------- the local variables

  /** The five mark pointers, as positions in the buffer; -1 where the source has a null pointer. */
  datatype Marks = Marks(field: int, value: int, url: int, reason: int, body: int)

  function Get(m: Marks, k: Kind): int {
    match k
    case Field => m.field
    case Value => m.value
    case Url => m.url
    case Reason => m.reason
    case Body => m.body
  }

  function Set(m: Marks, k: Kind, i: int): Marks {
    match k
    case Field => m.(field := i)
    case Value => m.(value := i)
    case Url => m.(url := i)
    case Reason => m.(reason := i)
    case Body => m.(body := i)
  }

  /** The mark for `k` is set exactly if it is the live one, and then delimits its text. */
  predicate MarkIs(i: int, k: Kind, m: Mark, data: Bytes, p: nat)
    requires p <= |data|
  {
    if m.Mark? && m.k == k then 0 <= i <= p && data[i..p] == m.text else i == -1
  }

  /** At most one mark is set. */
  predicate MarksAre(marks: Marks, m: Mark, data: Bytes, p: nat)
    requires p <= |data|
  {
    && MarkIs(marks.field, Field, m, data, p)
    && MarkIs(marks.value, Value, m, data, p)
    && MarkIs(marks.url, Url, m, data, p)
    && MarkIs(marks.reason, Reason, m, data, p)
    && MarkIs(marks.body, Body, m, data, p)
  }

  lemma GetMark(marks: Marks, m: Mark, data: Bytes, p: nat, k: Kind)
    requires p <= |data| && MarksAre(marks, m, data, p)
    ensures MarkIs(Get(marks, k), k, m, data, p)
  {
  }

  /** A live mark grows with the position. */
  lemma MarksGrow(marks: Marks, m: Mark, data: Bytes, p: nat, q: nat)
    requires p <= q <= |data| && MarksAre(marks, m, data, p)
    ensures MarksAre(marks, Grown(m, data[p..q]), data, q)
  {
    if m.Mark? {
      var i := Get(marks, m.k);
      Slices(data, i, p, q);
    }
  }

  lemma Slices(data: Bytes, i: nat, p: nat, q: nat)
    requires i <= p <= q <= |data|
    ensures data[i..q] == data[i..p] + data[p..q]
  {
  }

  /** What the macros MARK, CALLBACK_DATA and the body callback do to the marks. */
  function Marked(marks: Marks, op: MarkOp, p: nat): Marks {
    match op
    case Keep => marks
    case Start(k) => if Get(marks, k) < 0 then Set(marks, k, p) else marks
    case Flush(k, at) => Set(marks, k, -1)
    case MarkFlush(k, at) => Set(marks, k, -1)
    case Take(k) => Set(marks, k, -1)
  }

  lemma MarkedIs(marks: Marks, m: Mark, data: Bytes, p: nat, op: MarkOp, z: Zone, y: Zone)
    requires p < |data| && MarksAre(marks, m, data, p)
    requires MarkFits(z, m) && ZoneFits(z, op, y)
    ensures MarksAre(Marked(marks, op, p), NextMark(m, op, data[p]), data, p + 1)
  {
    assert data[p..p + 1] == [data[p]];
    MarksGrow(marks, m, data, p, p + 1);
    if op.Start? && !m.Mark? {
      assert [] + [data[p]] == [data[p]];
    }
  }

  datatype Locals = Locals(p: nat, marks: Marks, start: nat, calls: seq<Event>)

  /** Only token bytes get into a header name. */
  lemma NameByte(cfg: Settings, p: Parser, b: Byte)
    requires Live(p)
    ensures var a := Step(cfg, p, b); a.ctl == Next && a.p.state == S_HEADER_FIELD ==> IsToken(b)
  {
    hide Inv, Step;
    StepFits(cfg, p, b);
    if p.state == S_HEADER_FIELD || p.state == S_HEADER_FIELD_START || p.state == S_HEADER_VALUE_LWS {
      LiveInRange(p);
      NameByteHere(cfg, p, b);
    }
  }

  lemma NameByteHere(cfg: Settings, p: Parser, b: Byte)
    requires p.state == S_HEADER_FIELD || p.state == S_HEADER_FIELD_START || p.state == S_HEADER_VALUE_LWS
    requires p.errno == HPE_OK && InRange(p)
    ensures var a := Step(cfg, p, b); a.ctl == Next && a.p.state == S_HEADER_FIELD ==> IsToken(b)
  {
    hide StepHeadersAlmostDone;
    HeadersAlmostDoneFits(cfg, p.(state := S_HEADERS_ALMOST_DONE), b);
  }

  /** The marked part of a header name consists of tokens, so it does not end in a space. */
  predicate NameOk(r: Run) {
    r.p.state == S_HEADER_FIELD ==> forall c <- MarkedText(r.mark, Field) :: IsToken(c)
  }

  lemma NameOkStep(cfg: Settings, r: Run, b: Byte)
    requires r.live && RunFits(r) && NameOk(r)
    ensures Advance(cfg, r, b).live ==> NameOk(Advance(cfg, r, b))
  {
    hide Step, Inv, IsToken;
    StepFits(cfg, r.p, b);
    NameByte(cfg, r.p, b);
  }

  lemma OrdinaryStep(cfg: Settings, r: Run, b: Byte)
    requires r.live && r.p.state == S_HEADER_VALUE && r.p.hs == H_GENERAL && b != CR && b != LF && IsHeaderChar(b)
    ensures Advance(cfg, r, b) == Skipped(r, [b]).(p := r.p.(hs := if b == QT then H_GENERAL_AND_QUOTE else H_GENERAL))
  {
    assert r.out + [] + [] == r.out;
  }

  lemma OneByte(cfg: Settings, r: Run, b: Byte)
    ensures RunOver(cfg, r, [b]) == Advance(cfg, r, b)
  {
    hide Advance;
    assert [b][..0] == [];
    assert RunOver(cfg, r, []) == r;
  }

  lemma GrownTwice(m: Mark, s: Bytes, t: Bytes)
    ensures Grown(Grown(m, s), t) == Grown(m, s + t)
  {
    if m.Mark? { assert m.text + s + t == m.text + (s + t); }
  }

  /** MARK(body), and then the position moves on. */
  lemma TakenMarks(marks: Marks, m: Mark, data: Bytes, p: nat, q: nat)
    requires p < q <= |data| && MarksAre(marks, m, data, p) && (m.Mark? ==> m.k == Body)
    ensures MarksAre(if marks.body < 0 then marks.(body := p)
            else marks, Mark(Body, MarkedText(m, Body) + data[p..q]), data, q)
  {
    MarksGrow(marks, m, data, p, q);
    assert [] + data[p..q] == data[p..q];
  }

  /** The body callback clears the mark. */
  lemma CloseBody(marks: Marks, text: Bytes, data: Bytes, q: nat)
    requires q <= |data| && MarksAre(marks, Mark(Body, text), data, q)
    ensures 0 <= marks.body <= q && data[marks.body..q] == text
    ensures MarksAre(marks.(body := -1), NoMark, data, q)
  {
  }

  /** The run over the rest of a body of known length. */
  lemma LastBodyByte(cfg: Settings, r: Run, s: Bytes)
    requires r.live && r.p.state == S_BODY_IDENTITY && |s| == r.p.length && |s| > 0
    requires r.mark.Mark? ==> r.mark.k == Body
    ensures var a := StepMessageDone(cfg, r.p.(length := 0, state := S_MESSAGE_DONE));
            RunOver(cfg, r, s)
            == Run(a.p, NoMark, r.out + [Piece(Body, MarkedText(r.mark, Body) + s, S_MESSAGE_DONE)] + a.notes,
                r.pos + |s|, a.ctl == Next, 0, 1)
            && a.p.state != S_HEADER_FIELD && a.ctl != StopBefore
  {
    hide Step, StepMessageDone, Advance;
    var t, b := s[..|s| - 1], s[|s| - 1];
    BodyTaken(cfg, r, t);
    var text := MarkedText(r.mark, Body);
    assert text + [] == text;
    assert MarkedText(RunOver(cfg, r, t).mark, Body) == text + t;
    assert text + t + [b] == text + s;
    assert RunOver(cfg, r, s) == Advance(cfg, RunOver(cfg, r, t), b);
    LastAdvance(cfg, RunOver(cfg, r, t), b);
  }

  lemma LastAdvance(cfg: Settings, r: Run, b: Byte)
    requires r.live && r.p.state == S_BODY_IDENTITY && r.p.length == 1
    ensures var a := StepMessageDone(cfg, r.p.(length := 0, state := S_MESSAGE_DONE));
            Advance(cfg, r, b)
            == Run(a.p, NoMark, r.out + [Piece(Body, MarkedText(r.mark, Body) + [b], S_MESSAGE_DONE)] + a.notes,
                r.pos + 1, a.ctl == Next, 0, 1)
            && a.p.state != S_HEADER_FIELD && a.ctl != StopBefore
  {
    hide Step, StepMessageDone;
    LastBodyStep(cfg, r.p, b);
  }

  lemma LastBodyStep(cfg: Settings, p: Parser, b: Byte)
    requires p.state == S_BODY_IDENTITY && p.length == 1
    ensures Step(cfg, p, b) == StepMessageDone(cfg, p.(length := 0, state := S_MESSAGE_DONE)).(op := Take(Body))
    ensures Step(cfg, p, b).ctl != StopBefore && Step(cfg, p, b).reset
    ensures Step(cfg, p, b).p.state != S_HEADER_FIELD
  {
  }

  /** The asserts of the body states, and that no other mark is set there. */
  lemma InBodyText(r: Run)
    requires r.live && RunFits(r)
    requires r.p.state == S_CHUNK_DATA || r.p.state == S_BODY_IDENTITY || r.p.state == S_BODY_IDENTITY_EOF
    ensures r.mark.Mark? ==> r.mark.k == Body
    ensures r.p.state != S_BODY_IDENTITY_EOF ==> r.p.length > 0
    ensures r.p.state == S_CHUNK_DATA ==> r.p.flags.chunked
  {
  }

  lemma RunNothing(cfg: Settings, r: Run)
    ensures RunOver(cfg, r, []) == r
  {
  }

  /** A run that has stopped stays where it is. */
  lemma StaysLeft(cfg: Settings, r: Run, data: Bytes, p: nat, q: nat)
    requires p <= q <= |data| && !RunOver(cfg, r, data[p..q]).live
    ensures RunOver(cfg, r, data[p..]) == RunOver(cfg, r, data[p..q])
  {
    hide RunOver;
    assert data[p..] == data[p..q] + data[q..];
    RunOverAppend(cfg, r, data[p..q], data[q..]);
    RunOverStopped(cfg, RunOver(cfg, r, data[p..q]), data[q..]);
  }

  class HttpParser {
    var fields: Parser
    var nread: nat

    /** `http_parser_init`. */
    constructor (t: ParserType, junk: Parser)
      ensures fields == Init(junk, t) && nread == 0 && Live(fields)
    {
      fields, nread := Init(junk, t), 0;
      InitLive(junk, t);
    }

    /** `http_parser_pause`; in another error state it does nothing. */
    method SetPaused(paused: bool)
      modifies this
      ensures nread == old(nread)
      ensures fields == if old(fields.errno) == HPE_OK || old(fields.errno) == HPE_PAUSED
                        then old(fields).(errno := if paused then HPE_PAUSED else HPE_OK) else old(fields)
      ensures old(Inv(fields)) ==> Inv(fields)
    {
      if fields.errno == HPE_OK || fields.errno == HPE_PAUSED {
        fields := fields.(errno := if paused then HPE_PAUSED else HPE_OK);
      }
    }

    /** The loop variables and the struct are where the run `r` over the bytes so far is. */
    ghost predicate Tracks(data: Bytes, r: Run, l: Locals)
      reads this
    {
      && r.live && RunFits(r)
      && r.p == fields && r.nread == nread && r.pos == l.p && r.out == l.calls
      && l.start <= l.p <= |data| && r.since == l.p - l.start
      && MarksAre(l.marks, r.mark, data, l.p)
      && NameOk(r)
    }

    /** The loop has been left where the run `r` has stopped. */
    ghost predicate Left(r: Run, l: Locals)
      reads this
    {
      !r.live && r.p == fields && r.nread == nread && r.pos == l.p && r.out == l.calls
    }

    /** One byte, in the states that have no fast path. */
    method TakeByte(cfg: Settings, data: Bytes, l: Locals, ghost r: Run) returns (l': Locals, stop: bool)
      requires Tracks(data, r, l) && l.p < |data|
      modifies this
      ensures if stop then Left(Advance(cfg, r, data[l.p]), l')
              else l'.p == l.p + 1 && Tracks(data, Advance(cfg, r, data[l.p]), l')
    {
      hide Step, Inv, ZoneOf, ZoneFits, MarkFits, MarksAre, NextMark, NameOk;
      var ch := data[l.p];
      StepFits(cfg, fields, ch);
      AdvanceFits(cfg, r, ch);
      NameOkStep(cfg, r, ch);
      var a := Step(cfg, fields, ch);
      fields := a.p;
      if a.ctl == StopBefore {
        return l.(calls := l.calls + a.notes), true;
      }
      var calls := TextCalls(data, l, r.mark, a.op);
      if a.ctl == Next {
        MarkedIs(l.marks, r.mark, data, l.p, a.op, ZoneOf(r.p.state), ZoneOf(a.p.state));
      }
      l' := Locals(l.p + 1, Marked(l.marks, a.op, l.p), if a.reset then l.p else l.start, calls + a.notes);
      if a.reset { nread := 0; }
      stop := a.ctl == StopAfter;
    }

    /** MOVE_THE_HEAD: from a token of an ordinary header name over at most 8 (or 3) more. */
    method SkipName(cfg: Settings, data: Bytes, l: Locals, ghost r: Run) returns (l': Locals)
      requires Tracks(data, r, l) && l.p < |data|
      requires fields.state == S_HEADER_FIELD && fields.hs == H_GENERAL && IsToken(data[l.p])
      ensures l.p < l'.p <= |data| && Tracks(data, RunOver(cfg, r, data[l.p..l'.p]), l')
    {
      hide Step, Inv, MarksAre, MarkFits, ZoneOf, IsToken;
      var moves := if |data| - l.p >= 9 then 8 else if |data| - l.p >= 4 then 3 else 0;
      var p, n := l.p, 0;
      while n < moves && IsToken(data[p])
        invariant 0 <= n <= moves && p == l.p + n && p < |data|
        invariant forall i :: l.p <= i < p ==> IsToken(data[i])
      {
        p, n := p + 1, n + 1;
      }
      l' := l.(p := if IsToken(data[p]) then p + 1 else p);
      ghost var s := data[l.p..l'.p];
      TokensSkipped(cfg, r, s);
      MarksGrow(l.marks, r.mark, data, l.p, l'.p);
      RunOverFits(cfg, r, s);
    }

    /** MOVE_FAST: at most `moves` plain bytes. */
    method PlainUpTo(data: Bytes, from: nat, moves: nat) returns (p: nat)
      requires from + moves <= |data|
      ensures from <= p <= from + moves && forall i :: from <= i < p ==> PlainByte(data[i])
    {
      var n := 0;
      p := from;
      while n < moves && PlainByte(data[p])
        invariant 0 <= n <= moves && p == from + n
        invariant forall i :: from <= i < p ==> PlainByte(data[i])
      {
        p, n := p + 1, n + 1;
      }
    }

    /** An ordinary byte of a header value outside quotes, or the quote that opens them, and then at
        most 11 (or 4) plain bytes. */
    method SkipValue(cfg: Settings, data: Bytes, l: Locals, ghost r: Run) returns (l': Locals)
      requires Tracks(data, r, l) && l.p < |data|
      requires fields.state == S_HEADER_VALUE && fields.hs == H_GENERAL
      requires data[l.p] != CR && data[l.p] != LF && IsHeaderChar(data[l.p])
      modifies this
      ensures l.p < l'.p <= |data| && Tracks(data, RunOver(cfg, r, data[l.p..l'.p]), l')
    {
      hide Step, Inv, MarksAre, MarkFits, ZoneOf, PlainByte, IsHeaderChar, RunOver;
      ghost var first := Advance(cfg, r, data[l.p]);
      OrdinaryStep(cfg, r, data[l.p]);
      AdvanceFits(cfg, r, data[l.p]);
      if data[l.p] == QT {
        fields := fields.(hs := H_GENERAL_AND_QUOTE);
      }
      var moves := if |data| - l.p >= 12 then 11 else if |data| - l.p >= 5 then 4 else 0;
      var p := PlainUpTo(data, l.p + 1, moves);
      l' := l.(p := p);
      PlainSkipped(cfg, first, data[l.p + 1..p]);
      SplitRun(cfg, r, data, l.p, p);
      MarksGrow(l.marks, r.mark, data, l.p, p);
      GrownTwice(r.mark, [data[l.p]], data[l.p + 1..p]);
      RunOverFits(cfg, first, data[l.p + 1..p]);
    }

    static lemma SplitRun(cfg: Settings, r: Run, data: Bytes, from: nat, to: nat)
      requires from < to <= |data|
      ensures RunOver(cfg, r, data[from..to]) == RunOver(cfg, Advance(cfg, r, data[from]), data[from + 1..to])
      ensures data[from..to] == [data[from]] + data[from + 1..to]
    {
      hide Advance, RunOver;
      assert data[from..to] == [data[from]] + data[from + 1..to];
      RunOverAppend(cfg, r, [data[from]], data[from + 1..to]);
      OneByte(cfg, r, data[from]);
    }

    /** s_chunk_data and s_body_identity_eof: all the body text there is. */
    method TakeText(cfg: Settings, data: Bytes, l: Locals, ghost r: Run) returns (l': Locals)
      requires Tracks(data, r, l) && l.p < |data|
      requires fields.state == S_CHUNK_DATA || fields.state == S_BODY_IDENTITY_EOF
      modifies this
      ensures l.p < l'.p <= |data| && Tracks(data, RunOver(cfg, r, data[l.p..l'.p]), l')
    {
      hide Step, MarksAre, Inv, ZoneOf, MarkFits, RunOver;
      InBodyText(r);
      var marks := if l.marks.body < 0 then l.marks.(body := l.p) else l.marks;
      var toRead := |data| - l.p;
      if fields.state == S_CHUNK_DATA {
        assert fields.flags.chunked && fields.length > 0;
        if fields.length < toRead { toRead := fields.length; }
        fields := fields.(length := fields.length - toRead);
        if fields.length == 0 {
          fields := fields.(state := S_CHUNK_DATA_ALMOST_DONE);
        }
      }
      l' := l.(p := l.p + toRead, marks := marks);
      ghost var s := data[l.p..l'.p];
      RunOverFits(cfg, r, s);
      TakenMarks(l.marks, r.mark, data, l.p, l'.p);
      if r.p.state == S_CHUNK_DATA { ChunkTaken(cfg, r, s); } else { EofTaken(cfg, r, s); }
    }

    /** s_body_identity: as much of the body as there is, and the end of the message with its last
        byte. */
    method TakeBody(cfg: Settings, data: Bytes, l: Locals, ghost r: Run) returns (l': Locals, stop: bool)
      requires Tracks(data, r, l) && l.p < |data| && fields.state == S_BODY_IDENTITY
      modifies this
      ensures l.p < l'.p <= |data|
      ensures if stop then Left(RunOver(cfg, r, data[l.p..l'.p]), l')
              else Tracks(data, RunOver(cfg, r, data[l.p..l'.p]), l')
    {
      hide Step, MarksAre, StepMessageDone, Inv, ZoneOf, MarkFits, RunOver;
      InBodyText(r);
      assert fields.length > 0;
      var toRead := if fields.length < |data| - l.p then fields.length else |data| - l.p;
      var marks := if l.marks.body < 0 then l.marks.(body := l.p) else l.marks;
      var p := l.p + toRead - 1;
      fields := fields.(length := fields.length - toRead);
      ghost var s := data[l.p..p + 1];
      RunOverFits(cfg, r, s);
      TakenMarks(l.marks, r.mark, data, l.p, p + 1);
      if fields.length == 0 {
        LastBodyByte(cfg, r, s);
        CloseBody(marks, MarkedText(r.mark, Body) + s, data, p + 1);
        fields := fields.(state := S_MESSAGE_DONE);
        var calls := l.calls + [Piece(Body, data[marks.body..p + 1], S_MESSAGE_DONE)];
        var a := StepMessageDone(cfg, fields);
        fields, nread := a.p, 0;
        l' := Locals(p + 1, marks.(body := -1), p, calls + a.notes);
        stop := a.ctl == StopAfter;
      } else {
        BodyTaken(cfg, r, s);
        l', stop := l.(p := p + 1, marks := marks), false;
      }
    }

    /** One pass of the loop. */
    method TakeSome(cfg: Settings, data: Bytes, l: Locals, ghost r: Run) returns (l': Locals, stop: bool)
      requires Tracks(data, r, l) && l.p < |data|
      modifies this
      ensures if stop then Left(RunOver(cfg, r, data[l.p..]), l')
              else l.p < l'.p <= |data| && Tracks(data, RunOver(cfg, r, data[l.p..l'.p]), l')
    {
      hide Step, Advance, Inv, RunFits, MarksAre, RunOver, IsToken, IsHeaderChar;
      var ch := data[l.p];
      stop := false;
      if fields.state == S_HEADER_FIELD && fields.hs == H_GENERAL && IsToken(ch) {
        l' := SkipName(cfg, data, l, r);
      } else if fields.state == S_HEADER_VALUE && fields.hs == H_GENERAL && ch != CR && ch != LF && IsHeaderChar(ch) {
        l' := SkipValue(cfg, data, l, r);
      } else if fields.state == S_CHUNK_DATA || fields.state == S_BODY_IDENTITY_EOF {
        l' := TakeText(cfg, data, l, r);
      } else if fields.state == S_BODY_IDENTITY {
        l', stop := TakeBody(cfg, data, l, r);
        if stop {
          StaysLeft(cfg, r, data, l.p, l'.p);
        }
      } else {
        l', stop := TakeAny(cfg, data, l, r);
      }
    }

    /** Any other byte. */
    method TakeAny(cfg: Settings, data: Bytes, l: Locals, ghost r: Run) returns (l': Locals, stop: bool)
      requires Tracks(data, r, l) && l.p < |data|
      modifies this
      ensures if stop then Left(RunOver(cfg, r, data[l.p..]), l')
              else l.p < l'.p <= |data| && Tracks(data, RunOver(cfg, r, data[l.p..l'.p]), l')
    {
      hide Step, Advance, Inv, RunFits, MarksAre, RunOver, IsToken, IsHeaderChar;
      var ch := data[l.p];
      GetMark(l.marks, r.mark, data, l.p, Field);
      if fields.state == S_HEADER_FIELD && ch == COLON && l.p - l.marks.field > 1 && data[l.p - 1] == SP {
        // the source would answer with HPE_INVALID_HEADER_TOKEN here
        NameEndsInToken(r, data, l);
        assert false;
      }
      l', stop := TakeByte(cfg, data, l, r);
      OneByte(cfg, r, ch);
      assert data[l.p..l.p + 1] == [ch];
      if stop {
        StaysLeft(cfg, r, data, l.p, l.p + 1);
      }
    }

    /** http_parser_execute: the struct, the callbacks and the return value of the simple form. */
    method Execute(cfg: Settings, data: Bytes) returns (consumed: nat, calls: seq<Event>)
      requires Inv(fields)
      modifies this
      ensures var o := Call(cfg, old(fields), old(nread), data);
              fields == o.p && nread == o.nread && calls == o.calls && consumed == o.consumed
      ensures Inv(fields)
    {
      hide Step, Advance, Inv, RunFits, MarksAre, RunOver;
      CallKeepsInv(cfg, fields, nread, data);
      if fields.errno != HPE_OK {
        return 0, [];
      }
      if |data| == 0 {
        if fields.state == S_BODY_IDENTITY_EOF {
          if cfg.onMessageComplete != Proceed {
            fields := fields.(errno := StopErrno(cfg.onMessageComplete, HPE_CB_MESSAGE_COMPLETE));
          }
          return 0, [MessageComplete];
        } else if fields.state == S_PRE_START_REQ_OR_RES || fields.state == S_PRE_START_RES
            || fields.state == S_PRE_START_REQ {
          return 0, [];
        } else {
          fields := fields.(errno := HPE_INVALID_EOF_STATE);
          return 1, [];
        }
      }
      ghost var r0 := Begin(fields, nread);
      var l := FirstLocals(data);
      var stop := false;
      ghost var r := r0;
      assert data[..0] == [];
      RunNothing(cfg, r0);
      while l.p < |data|
        invariant l.p <= |data|
        invariant r == RunOver(cfg, r0, data[..l.p]) && Tracks(data, r, l)
      {
        ghost var p := l.p;
        l, stop := TakeSome(cfg, data, l, r);
        if stop {
          RunOverAppend(cfg, r0, data[..p], data[p..]);
          assert data[..p] + data[p..] == data;
          return l.p, l.calls;
        }
        RunOverAppend(cfg, r0, data[..p], data[p..l.p]);
        assert data[..p] + data[p..l.p] == data[..l.p];
        r := RunOver(cfg, r, data[p..l.p]);
      }
      assert data[..l.p] == data;
      calls := Wind(data, l, r);
      consumed := |data|;
    }

    /** Sets the marks for a call that starts inside a text. */
    method FirstLocals(data: Bytes) returns (l: Locals)
      requires Live(fields)
      ensures Tracks(data, Begin(fields, nread), l) && l.p == 0
    {
      BeginFits(fields, nread);
      var s := fields.state;
      l := Locals(0,
                  Marks(if s == S_HEADER_FIELD then 0 else -1,
                        if s == S_HEADER_VALUE then 0 else -1,
                        if InUrl(s) then 0 else -1,
                        if s == S_RES_STATUS then 0 else -1,
                        -1),
                  0, []);
    }

    /** After the last byte: the header limit, and then the callbacks for the marks left over,
        which are at most one. */
    method Wind(data: Bytes, l: Locals, ghost r: Run) returns (calls: seq<Event>)
      requires Tracks(data, r, l) && l.p == |data|
      modifies this
      ensures var o := Finish(r); fields == o.p && nread == o.nread && calls == o.calls && o.consumed == |data|
    {
      hide Inv, RunFits;
      calls := l.calls;
      if ParsingHeader(fields.state) {
        nread := (nread + (l.p - l.start)) % UINT32_SIZE;
        if nread > MAX_HEADER_SIZE {
          fields := fields.(errno := HPE_HEADER_OVERFLOW);
          return;
        }
      }
      var m := l.marks;
      assert calls + [] == calls;
      assert (if m.field >= 0 then 1 else 0) + (if m.value >= 0 then 1 else 0) + (if m.url >= 0 then 1 else 0)
             + (if m.reason >= 0 then 1 else 0) + (if m.body >= 0 then 1 else 0) <= 1;
      if m.field >= 0 { calls := calls + [Piece(Field, data[m.field..l.p], fields.state)]; }
      if m.value >= 0 { calls := calls + [Piece(Value, data[m.value..l.p], fields.state)]; }
      if m.url >= 0 { calls := calls + [Piece(Url, data[m.url..l.p], fields.state)]; }
      if m.reason >= 0 { calls := calls + [Piece(Reason, data[m.reason..l.p], fields.state)]; }
      if m.body >= 0 { calls := calls + [Piece(Body, data[m.body..l.p], fields.state)]; }
    }

    lemma NameEndsInToken(r: Run, data: Bytes, l: Locals)
      requires Tracks(data, r, l) && fields.state == S_HEADER_FIELD && l.p - l.marks.field > 1
      ensures data[l.p - 1] != SP
    {
      var i := l.marks.field;
      assert r.mark.Mark? && r.mark.k == Field;
      assert data[i..l.p][l.p - 1 - i] == data[l.p - 1];
      assert data[l.p - 1] in MarkedText(r.mark, Field);
      assert !IsToken(SP);
    }
  }

  /** The text callback of one byte: CALLBACK_DATA for the marked text. */
  method TextCalls(data: Bytes, l: Locals, ghost m: Mark, op: MarkOp) returns (calls: seq<Event>)
    requires l.p < |data| && MarksAre(l.marks, m, data, l.p)
    ensures calls == l.calls + Flushed(m, op, data[l.p])
  {
    calls := l.calls;
    assert l.calls + [] == l.calls && data[l.p..l.p] == [];
    match op {
      case Flush(k, at) =>
        GetMark(l.marks, m, data, l.p, k);
        var i := Get(l.marks, k);
        if i >= 0 {
          calls := calls + [Piece(k, data[i..l.p], at)];
        }
      case MarkFlush(k, at) =>
        GetMark(l.marks, m, data, l.p, k);
        var i := if Get(l.marks, k) >= 0 then Get(l.marks, k) else l.p;
        calls := calls + [Piece(k, data[i..l.p], at)];
      case Take(k) =>
        GetMark(l.marks, m, data, l.p, k);
        var i := if Get(l.marks, k) >= 0 then Get(l.marks, k) else l.p;
        assert data[i..l.p + 1] == data[i..l.p] + [data[l.p]];
        calls := calls + [Piece(k, data[i..l.p + 1], S_MESSAGE_DONE)];
      case _ =>
    }
  }
}
