/** The first line of a message: the request line, in all its forms, and the status line. */
module StartLines {
  import opened Ascii
  import opened HttpGrammar
  import opened ParserTypes
  import opened ParserStep
  import opened ParserInvariant
  import opened ParserEvents
  import opened ParserCuts
  import opened ParserLimit
  import opened ParserFraming
  import opened ParserLines
  import opened ParserChunks
  import ParserMethod
  import TargetForms
  import UrlTarget

  // ---------------------------------------------------------------- a byte of the line

  /** States of the line in which no text is marked. */
  predicate Unmarked(s: State) { InLine(s) && !InUrl(s) && s != S_RES_STATUS }

  lemma MoveRead(cfg: Settings, e: Stream, b: Byte)
    requires Neat(e) && Unmarked(e.p.state)
    ensures var d, m := Read(cfg, e, b), LineMove(e.p.state, e.p.line.verb == M_CONNECT, b);
            && (m.Go? && m.op == Keep ==> At(e, d, 1, e.p.(state := m.s), e.out))
            && (m.First? ==> At(e, d, 1, SetNumber(e.p, m.r, Digit(b)).(state := m.s), e.out))
            && (m.More? ==> var n := GetNumber(e.p, m.r) * 10 + Digit(b);
                            if n > 999 then !d.live else At(e, d, 1, SetNumber(e.p, m.r, n), e.out))
  {
    hide LineMove, Push, Digit;
    PushNothing(e.out);
  }

  /** The states that read a number: before its first digit, and within it. */
  predicate Reads(r: Number, first: State, next: State) {
    && Unmarked(first) && Unmarked(next)
    && forall b: Byte, c :: IsDigit(b) ==> LineMove(first, c, b) == First(r, next) && LineMove(next, c, b) == More(r)
  }

  lemma NumberStates()
    ensures Reads(Major, S_REQ_FIRST_HTTP_MAJOR, S_REQ_HTTP_MAJOR)
    ensures Reads(Minor, S_REQ_FIRST_HTTP_MINOR, S_REQ_HTTP_MINOR)
    ensures Reads(Major, S_RES_FIRST_HTTP_MAJOR, S_RES_HTTP_MAJOR)
    ensures Reads(Minor, S_RES_FIRST_HTTP_MINOR, S_RES_HTTP_MINOR)
    ensures Reads(Status, S_RES_FIRST_STATUS_CODE, S_RES_STATUS_CODE)
  {
  }

  /** A number is read as what it says, up to 999; a larger one is refused. */
  lemma {:induction false} NumberRead(cfg: Settings, e: Stream, r: Number, first: State, next: State, ds: Bytes)
    requires Neat(e) && e.p.state == first != next && Reads(r, first, next) && ds != [] && Only(ds, DecDigit)
    ensures var d := ReadAll(cfg, e, ds);
            if Decimal(ds) <= 999 then At(e, d, |ds|, SetNumber(e.p, r, Decimal(ds)).(state := next), e.out)
            else !d.live
  {
    hide Read, Reads, DecDigit, Decimal, ReadAll;
    var f, b := ds[..|ds| - 1], ds[|ds| - 1];
    assert ds == f + [b];
    ClassesAgree(b);
    DecimalMore(f, b);
    ReadOneMore(cfg, e, f, b);
    if f == [] {
      ReadNothing(cfg, e);
      NoDecimal();
      DigitRead(cfg, e, r, first, next, b);
    } else {
      NumberRead(cfg, e, r, first, next, f);
      var d := ReadAll(cfg, e, f);
      if d.live { DigitRead(cfg, d, r, first, next, b); } else { StoppedStays(cfg, d, b); }
    }
  }

  lemma NoDecimal()
    ensures Decimal([]) == 0
  {
  }

  /** One digit of a number. */
  lemma DigitRead(cfg: Settings, e: Stream, r: Number, first: State, next: State, b: Byte)
    requires Neat(e) && Reads(r, first, next) && first != next && IsDigit(b)
    requires e.p.state == first || e.p.state == next
    ensures var d := Read(cfg, e, b);
            var n := if e.p.state == first then Digit(b) else GetNumber(e.p, r) * 10 + Digit(b);
            if n <= 999 then At(e, d, 1, SetNumber(e.p, r, n).(state := next), e.out) else !d.live
  {
    hide Read, LineMove, Digit;
    DigitSmall(b);
    MoveRead(cfg, e, b);
  }

  lemma DigitSmall(b: Byte)
    ensures Digit(b) < 10
  {
  }

  lemma StoppedStays(cfg: Settings, e: Stream, b: Byte)
    requires !e.live
    ensures Read(cfg, e, b) == e
  {
  }

  // ---------------------------------------------------------------- the version

  /** "HTTP/" in the non-strict build: a 'H' and any four bytes. */
  predicate IsProtocol(w: Bytes) { |w| == 5 && w[0] == LETTER_H }

  /** A version number: digits that stand for at most 999. */
  predicate IsNumber(ds: Bytes) { ds != [] && Only(ds, DecDigit) && Decimal(ds) <= 999 }

  /** A byte that leads on without a callback. */
  lemma GoRead(cfg: Settings, e: Stream, t: Bytes, d: Stream, b: Byte, n: State)
    requires d == ReadAll(cfg, e, t) && Neat(d) && Unmarked(d.p.state)
    requires LineMove(d.p.state, d.p.line.verb == M_CONNECT, b) == Go(n, Keep)
    ensures At(d, ReadAll(cfg, e, t + [b]), 1, d.p.(state := n), d.out)
  {
    hide ReadAll, Read, LineMove;
    ReadOneMore(cfg, e, t, b);
    MoveRead(cfg, d, b);
  }

  lemma ProtocolRead(cfg: Settings, e: Stream, w: Bytes)
    requires Neat(e) && e.p.state == S_REQ_HTTP_START && IsProtocol(w)
    ensures At(e, ReadAll(cfg, e, w), |w|, e.p.(state := S_REQ_FIRST_HTTP_MAJOR), e.out)
  {
    hide ReadAll, Unmarked;
    ReadNothing(cfg, e);
    VersionStates();
    GoRead(cfg, e, [], e, w[0], S_REQ_HTTP_H);
    assert [] + [w[0]] == w[..1];
    GoRead(cfg, e, w[..1], ReadAll(cfg, e, w[..1]), w[1], S_REQ_HTTP_HT);
    assert w[..1] + [w[1]] == w[..2];
    GoRead(cfg, e, w[..2], ReadAll(cfg, e, w[..2]), w[2], S_REQ_HTTP_HTT);
    assert w[..2] + [w[2]] == w[..3];
    GoRead(cfg, e, w[..3], ReadAll(cfg, e, w[..3]), w[3], S_REQ_HTTP_HTTP);
    assert w[..3] + [w[3]] == w[..4];
    GoRead(cfg, e, w[..4], ReadAll(cfg, e, w[..4]), w[4], S_REQ_FIRST_HTTP_MAJOR);
    assert w[..4] + [w[4]] == w;
  }

  lemma VersionStates()
    ensures forall s :: InVersion(s) ==> Unmarked(s)
  {
  }

  /** The version and the end of the line, which may lack its CR. */
  lemma VersionRead(cfg: Settings, e: Stream, w: Bytes, i: Bytes, j: Bytes, lf: bool)
    requires Neat(e) && e.p.state == S_REQ_HTTP_START && IsProtocol(w) && IsNumber(i) && IsNumber(j)
    ensures var t := w + i + [DOT] + j + LineEnd(lf);
            At(e, ReadAll(cfg, e, t), |t|,
               e.p.(state := S_HEADER_FIELD_START, line := e.p.line.(major := Decimal(i), minor := Decimal(j))), e.out)
  {
    hide ReadAll, Unmarked, LineMove, Decimal, IsProtocol, Reads;
    NumberStates();
    VersionStates();
    ProtocolRead(cfg, e, w);
    var a := ReadAll(cfg, e, w);
    NumberRead(cfg, a, Major, S_REQ_FIRST_HTTP_MAJOR, S_REQ_HTTP_MAJOR, i);
    ReadAllAppend(cfg, e, w, i);
    VersionMoves();
    GoRead(cfg, e, w + i, ReadAll(cfg, e, w + i), DOT, S_REQ_FIRST_HTTP_MINOR);
    var c := ReadAll(cfg, e, w + i + [DOT]);
    NumberRead(cfg, c, Minor, S_REQ_FIRST_HTTP_MINOR, S_REQ_HTTP_MINOR, j);
    ReadAllAppend(cfg, e, w + i + [DOT], j);
    var t := w + i + [DOT] + j;
    VersionEnd(cfg, e, t, lf);
  }

  lemma VersionEnd(cfg: Settings, e: Stream, t: Bytes, lf: bool)
    requires Neat(ReadAll(cfg, e, t)) && ReadAll(cfg, e, t).p.state == S_REQ_HTTP_MINOR
    ensures var d := ReadAll(cfg, e, t);
            At(d, ReadAll(cfg, e, t + LineEnd(lf)), |LineEnd(lf)|, d.p.(state := S_HEADER_FIELD_START), d.out)
  {
    hide ReadAll, LineMove;
    VersionMoves();
    if lf {
      GoRead(cfg, e, t, ReadAll(cfg, e, t), LF, S_HEADER_FIELD_START);
    } else {
      GoRead(cfg, e, t, ReadAll(cfg, e, t), CR, S_REQ_LINE_ALMOST_DONE);
      GoRead(cfg, e, t + [CR], ReadAll(cfg, e, t + [CR]), LF, S_HEADER_FIELD_START);
      assert t + [CR] + [LF] == t + LineEnd(lf);
    }
  }

  lemma VersionMoves()
    ensures forall c :: LineMove(S_REQ_HTTP_MAJOR, c, DOT) == Go(S_REQ_FIRST_HTTP_MINOR, Keep)
    ensures forall c :: LineMove(S_REQ_HTTP_MINOR, c, CR) == Go(S_REQ_LINE_ALMOST_DONE, Keep)
    ensures forall c :: LineMove(S_REQ_HTTP_MINOR, c, LF) == Go(S_HEADER_FIELD_START, Keep)
    ensures forall c :: LineMove(S_REQ_LINE_ALMOST_DONE, c, LF) == Go(S_HEADER_FIELD_START, Keep)
    ensures forall c :: LineMove(S_REQ_SPACES_BEFORE_URL, c, SP) == Go(S_REQ_SPACES_BEFORE_URL, Keep)
    ensures forall c :: LineMove(S_REQ_HTTP_START, c, SP) == Go(S_REQ_HTTP_START, Keep)
  {
  }

  // ---------------------------------------------------------------- the request line

  /** A parser in the request line, which has seen no header: what the line does not change. */
  predicate NoHeaders(p: Parser) {
    p.line.kind == Request && p.length == -1 && p.flags == Flags(false, false, false, false) && p.errno == HPE_OK
  }

  lemma FirstMethodByte(cfg: Settings, e: Stream, b: Byte)
    requires Neat(e) && e.p.state == S_PRE_START_REQ && e.p.line.kind == Request && e.p.errno == HPE_OK
    requires cfg.onMessageBegin == Proceed && IsAlpha(b)
    requires Whole(cfg, e.p.(state := S_START_REQ), [b]).live
    ensures var d := Read(cfg, e, b);
      Neat(d) && d.pos == e.pos + 1 && d.out == Push(e.out, MessageBegin) && NoHeaders(d.p)
      && d.p == Whole(cfg, e.p.(state := S_START_REQ), [b]).p
  {
    hide FirstMethod, Push, PushAll;
    assert [b][..0] == [];
    PushNothing(e.out);
    PushAllOne(e.out, MessageBegin);
    assert Whole(cfg, e.p.(state := S_START_REQ), []) == Stream(e.p.(state := S_START_REQ), [], 0, true, false, true);
  }

  lemma MethodByte(cfg: Settings, e: Stream, b: Byte)
    requires Neat(e) && e.p.state == S_REQ_METHOD && NoHeaders(e.p) && Step(cfg, e.p, b).ctl == Next
    ensures var d := Read(cfg, e, b);
      Neat(d) && d.pos == e.pos + 1 && d.out == e.out && NoHeaders(d.p) && d.p == Step(cfg, e.p, b).p
  {
    hide MethodChar, SwitchMethod, Push;
    PushNothing(e.out);
  }

  /** Inside the method the parser does what it does when it starts in s_start_req. */
  lemma {:induction false} MethodRead(cfg: Settings, e: Stream, w: Bytes)
    requires Neat(e) && e.p.state == S_PRE_START_REQ && e.p.line.kind == Request && e.p.errno == HPE_OK
    requires cfg.onMessageBegin == Proceed && ParserMethod.Inside(cfg, e.p.(state := S_START_REQ), w)
    ensures var d := ReadAll(cfg, e, w);
      Neat(d) && d.pos == e.pos + |w| && d.out == Push(e.out, MessageBegin) && NoHeaders(d.p)
      && d.p == Whole(cfg, e.p.(state := S_START_REQ), w).p
  {
    hide Step, Push;
    var p := e.p.(state := S_START_REQ);
    var f, b := w[..|w| - 1], w[|w| - 1];
    assert w == f + [b];
    ReadOneMore(cfg, Stream(p, [], 0, true, false, true), f, b);
    if f == [] {
      assert w == [b] && ReadAll(cfg, e, f) == e;
      assert IsAlpha(b) by { FirstIsLetter(cfg, p, b); }
      FirstMethodByte(cfg, e, b);
    } else {
      MethodRead(cfg, e, f);
      MethodByte(cfg, ReadAll(cfg, e, f), b);
    }
  }

  lemma FirstIsLetter(cfg: Settings, p: Parser, b: Byte)
    requires p.state == S_START_REQ && Whole(cfg, p, [b]).live
    ensures IsAlpha(b)
  {
    hide PushAll;
    assert [b][..0] == [];
    assert Whole(cfg, p, []) == Stream(p, [], 0, true, false, true);
  }

  lemma SpaceAfterMethod(cfg: Settings, e: Stream, w: Bytes)
    requires Neat(e) && e.p.state == S_PRE_START_REQ && e.p.line.kind == Request && e.p.errno == HPE_OK
    requires cfg.onMessageBegin == Proceed && ParserMethod.GoesOnToTarget(cfg, e.p.(state := S_START_REQ), w)
    ensures var d := ReadAll(cfg, e, w + [SP]);
      Neat(d) && d.pos == e.pos + |w| + 1 && d.out == Push(e.out, MessageBegin) && NoHeaders(d.p)
      && d.p == Whole(cfg, e.p.(state := S_START_REQ), w + [SP]).p && d.p.state == S_REQ_SPACES_BEFORE_URL
  {
    hide Step, Push;
    MethodRead(cfg, e, w);
    ReadOneMore(cfg, e, w, SP);
    var p := e.p.(state := S_START_REQ);
    ReadOneMore(cfg, Stream(p, [], 0, true, false, true), w, SP);
    assert ParserMethod.Inside(cfg, p, w);
    MethodByte(cfg, ReadAll(cfg, e, w), SP);
  }

  /** Any number of spaces. */
  function Spaces(n: nat): Bytes { seq(n, i => SP) }

  /** More spaces than one between the parts of the line are skipped. */
  lemma {:induction false} SpacesRead(cfg: Settings, e: Stream, n: nat)
    requires Neat(e) && (e.p.state == S_REQ_SPACES_BEFORE_URL || e.p.state == S_REQ_HTTP_START)
    ensures At(e, ReadAll(cfg, e, Spaces(n)), n, e.p, e.out)
  {
    hide LineMove, ReadAll;
    if n == 0 {
      ReadNothing(cfg, e);
      assert Spaces(0) == [];
    } else {
      SpacesRead(cfg, e, n - 1);
      VersionMoves();
      GoRead(cfg, e, Spaces(n - 1), ReadAll(cfg, e, Spaces(n - 1)), SP, e.p.state);
      assert Spaces(n - 1) + [SP] == Spaces(n);
    }
  }

  /** Empty lines before a message are skipped. */
  lemma {:induction false} EmptyLinesRead(cfg: Settings, e: Stream, s: Bytes)
    requires Neat(e) && Only(s, LineEndByte)
    requires e.p.state == S_PRE_START_REQ || e.p.state == S_PRE_START_RES || e.p.state == S_PRE_START_REQ_OR_RES
    ensures At(e, ReadAll(cfg, e, s), |s|, e.p, e.out)
  {
    hide Read;
    if s != [] {
      EmptyLinesRead(cfg, e, s[..|s| - 1]);
      EmptyLineByte(cfg, ReadAll(cfg, e, s[..|s| - 1]), s[|s| - 1]);
    }
  }

  lemma EmptyLineByte(cfg: Settings, e: Stream, b: Byte)
    requires Neat(e) && LineEndByte(b)
    requires e.p.state == S_PRE_START_REQ || e.p.state == S_PRE_START_RES || e.p.state == S_PRE_START_REQ_OR_RES
    ensures At(e, Read(cfg, e, b), 1, e.p, e.out)
  {
    hide Push, StepStartReq, StepStartRes, StepStartBoth;
    PushNothing(e.out);
  }

  /** A method, by its name. */
  ghost predicate IsMethod(w: Bytes) { exists m :: 0 <= m < |METHOD_NAMES| && Spells(w, METHOD_NAMES[m]) }

  predicate IsConnect(w: Bytes) { Spells(w, "CONNECT") }

  const PROTOCOL: Bytes := [LETTER_H, LETTER_T, LETTER_T, LETTER_P, SLASH]

  /** A request line: empty lines, the method, spaces, the target, spaces, the version, and how the line ends. */
  datatype StartLine = StartLine(
    lead: Bytes, verb: Bytes, before: nat, target: Bytes, between: nat, major: Bytes, minor: Bytes, lf: bool)

  ghost predicate IsStartLine(q: StartLine) {
    && Only(q.lead, LineEndByte) && IsMethod(q.verb) && IsRequestTarget(IsConnect(q.verb), q.target)
    && IsNumber(q.major) && IsNumber(q.minor)
  }

  function StartText(q: StartLine): Bytes {
    q.lead + (q.verb + [SP]) + Spaces(q.before) + (q.target + [SP]) + Spaces(q.between)
    + (PROTOCOL + q.major + [DOT] + q.minor + LineEnd(q.lf))
  }

  /** The request line as it was written. */
  predicate LineRight(line: Line, q: StartLine) {
    line.kind == Request && line.verb < |METHOD_NAMES| && Spells(q.verb, METHOD_NAMES[line.verb])
    && line.major == Decimal(q.major) && line.minor == Decimal(q.minor)
  }

  /** A parser at a new request. */
  predicate AtRequest(e: Stream) {
    Neat(e) && e.p.state == S_PRE_START_REQ && e.p.line.kind == Request && e.p.errno == HPE_OK
  }

  /** The method, from a new request on. */
  lemma VerbRead(cfg: Settings, e: Stream, w: Bytes)
    requires AtRequest(e) && Live(e.p) && cfg.onMessageBegin == Proceed && IsMethod(w)
    ensures var d := ReadAll(cfg, e, w + [SP]);
            && Neat(d) && d.pos == e.pos + |w + [SP]| && d.out == Push(e.out, MessageBegin) && NoHeaders(d.p)
            && d.p.state == S_REQ_SPACES_BEFORE_URL
            && d.p.line.verb < |METHOD_NAMES| && Spells(w, METHOD_NAMES[d.p.line.verb])
            && (d.p.line.verb == M_CONNECT <==> IsConnect(w))
  {
    hide ReadAll, MethodString, Inv, METHOD_NAMES;
    var p := e.p.(state := S_START_REQ);
    ParserMethod.MethodRecognised(cfg, p, w);
    SpaceAfterMethod(cfg, e, w);
    ReadAllLive(cfg, e, w + [SP]);
    var v := ReadAll(cfg, e, w + [SP]).p;
    LiveVerb(v);
    ParserMethod.MethodsNamed(v.line.verb);
    OneConnect(v.line.verb);
  }

  lemma LiveVerb(p: Parser)
    requires Live(p)
    ensures p.line.verb < METHOD_COUNT
  {
  }

  /** No other method has as many letters as CONNECT and starts with a 'C'. */
  lemma OneConnect(m: nat)
    requires m < METHOD_COUNT
    ensures m == M_CONNECT ==> MethodString(m) == "CONNECT"
    ensures m != M_CONNECT ==> |MethodString(m)| != 7 || MethodString(m)[0] != 'C'
  {
  }

  /** The target and the space behind it. */
  lemma TargetRead(cfg: Settings, e: Stream, t: Bytes)
    requires Neat(e) && e.p.state == S_REQ_SPACES_BEFORE_URL && IsRequestTarget(e.p.line.verb == M_CONNECT, t)
    ensures At(e, ReadAll(cfg, e, t + [SP]), |t + [SP]|, e.p.(state := S_REQ_HTTP_START),
               Push(e.out, Data(Url, t, S_REQ_HTTP_START)))
  {
    hide ReadAll, Push, IsRequestTarget;
    TargetForms.TargetExactly(cfg, e, t);
  }

  /** A request line is read: one callback for the target, and the method and version as written. */
  lemma RequestLineRead(cfg: Settings, e: Stream, q: StartLine)
    requires AtRequest(e) && Live(e.p) && cfg.onMessageBegin == Proceed && IsStartLine(q)
    ensures var d := ReadAll(cfg, e, StartText(q));
            && At(e, d, |StartText(q)|, d.p, Push(Push(e.out, MessageBegin), Data(Url, q.target, S_REQ_HTTP_START)))
            && NoHeaders(d.p) && d.p.state == S_HEADER_FIELD_START && LineRight(d.p.line, q)
            && (d.p.line.verb == M_CONNECT <==> IsConnect(q.verb))
  {
    hide ReadAll, Push, Inv, IsMethod, IsConnect, IsRequestTarget, Spaces, Only, Decimal, METHOD_NAMES;
    var w, t := q.verb + [SP], q.target + [SP];
    EmptyLinesRead(cfg, e, q.lead);
    var a := ReadAll(cfg, e, q.lead);
    VerbRead(cfg, a, q.verb);
    ReadAllAppend(cfg, e, q.lead, w);
    var b := ReadAll(cfg, a, w);
    SpacesRead(cfg, b, q.before);
    SpacesLength(q.before);
    ReadAllAppend(cfg, e, q.lead + w, Spaces(q.before));
    var c := ReadAll(cfg, b, Spaces(q.before));
    TargetRead(cfg, c, q.target);
    ReadAllAppend(cfg, e, q.lead + w + Spaces(q.before), t);
    RestOfLineRead(cfg, ReadAll(cfg, c, t), q);
    var rest := Spaces(q.between) + (PROTOCOL + q.major + [DOT] + q.minor + LineEnd(q.lf));
    ReadAllAppend(cfg, e, q.lead + w + Spaces(q.before) + t, rest);
    assert StartText(q) == q.lead + w + Spaces(q.before) + t + rest;
  }

  lemma RestOfLineRead(cfg: Settings, e: Stream, q: StartLine)
    requires Neat(e) && e.p.state == S_REQ_HTTP_START && IsNumber(q.major) && IsNumber(q.minor)
    ensures var rest := Spaces(q.between) + (PROTOCOL + q.major + [DOT] + q.minor + LineEnd(q.lf));
            At(e, ReadAll(cfg, e, rest), |rest|,
               e.p.(state := S_HEADER_FIELD_START,
                    line := e.p.line.(major := Decimal(q.major), minor := Decimal(q.minor))), e.out)
  {
    hide ReadAll, Spaces, Decimal, IsNumber;
    SpacesRead(cfg, e, q.between);
    var d := ReadAll(cfg, e, Spaces(q.between));
    VersionRead(cfg, d, PROTOCOL, q.major, q.minor, q.lf);
    ReadAllAppend(cfg, e, Spaces(q.between), PROTOCOL + q.major + [DOT] + q.minor + LineEnd(q.lf));
    SpacesLength(q.between);
  }

  lemma SpacesLength(n: nat)
    ensures |Spaces(n)| == n
  {
  }

  /** A line without a version: a target that has a path or query and then ends the line is that of an
      HTTP/0.9 request. */
  lemma ShortLineRead(cfg: Settings, e: Stream, x: Target, lf: bool)
    requires Neat(e) && e.p.state == S_REQ_SPACES_BEFORE_URL && IsForm(e.p.line.verb == M_CONNECT, x) && x.tail != []
    ensures var t := TargetText(x);
            var d := ReadAll(cfg, e, t + LineEnd(lf));
            At(e, d, |t + LineEnd(lf)|,
               e.p.(state := S_HEADER_FIELD_START, line := e.p.line.(major := 0, minor := 9)),
               Push(e.out, Data(Url, t, if lf then S_HEADER_FIELD_START else S_REQ_LINE_ALMOST_DONE)))
  {
    hide ReadAll, Push, IsForm, TargetText;
    var t := TargetText(x);
    var s := TargetForms.FormAlong(cfg, e, x);
    var d := ReadAll(cfg, e, t);
    if lf {
      EndOfTarget09(cfg, e, t, s, LF, S_HEADER_FIELD_START);
    } else {
      EndOfTarget09(cfg, e, t, s, CR, S_REQ_LINE_ALMOST_DONE);
      VersionMoves();
      GoRead(cfg, e, t + [CR], ReadAll(cfg, e, t + [CR]), LF, S_HEADER_FIELD_START);
      assert t + [CR] + [LF] == t + LineEnd(lf);
    }
  }

  lemma EndOfTarget09(cfg: Settings, e: Stream, t: Bytes, s: State, b: Byte, n: State)
    requires TargetForms.Along(cfg, e, t, s) && UrlTarget.InTarget(s) && Neat(e)
    requires (b == CR && n == S_REQ_LINE_ALMOST_DONE) || (b == LF && n == S_HEADER_FIELD_START)
    ensures At(e, ReadAll(cfg, e, t + [b]), |t| + 1, e.p.(state := n, line := e.p.line.(major := 0, minor := 9)),
               Push(e.out, Data(Url, t, n)))
  {
    hide ReadAll, Push, PushAll, TargetForms.Taken;
    ReadOneMore(cfg, e, t, b);
    var d := ReadAll(cfg, e, t);
    PushAllOne(d.out, Piece(Url, [], n));
    PushNothing(Push(d.out, Piece(Url, [], n)));
    PushTwice(e.out, Url, t, s, [], n);
    assert t + [] == t;
  }

  // ---------------------------------------------------------------- the status line

  /** A status line: empty lines, the version, spaces, the status, the reason, if there is a space before it,
      and how the line ends: in LF, or in CR and any byte, which the non-strict build does not look at. */
  datatype StatusLine = StatusLine(
    lead: Bytes, protocol: Bytes, major: Bytes, minor: Bytes, before: nat, status: Bytes, spoken: bool, reason: Bytes,
    lf: bool, after: Byte)

  predicate IsStatusLine(q: StatusLine) {
    && Only(q.lead, LineEndByte) && IsProtocol(q.protocol)
    && IsNumber(q.major) && IsNumber(q.minor) && IsNumber(q.status)
    && CR !in q.reason && LF !in q.reason && (q.reason != [] ==> q.spoken)
  }

  function StatusLineEnd(q: StatusLine): Bytes { if q.lf then [LF] else [CR, q.after] }

  function ReasonText(q: StatusLine): Bytes { if q.spoken then [SP] + q.reason else [] }

  function StatusText(q: StatusLine): Bytes {
    q.lead + (q.protocol + q.major + [DOT] + q.minor + [SP]) + Spaces(q.before) + q.status + ReasonText(q)
    + StatusLineEnd(q)
  }

  /** The state in which the end of the line is called back. */
  function LineEndState(lf: bool): State { if lf then S_HEADER_FIELD_START else S_RES_LINE_ALMOST_DONE }

  function StatusOut(out: seq<Event>, q: StatusLine): seq<Event> {
    var begun := Push(out, MessageBegin);
    if q.spoken then Push(begun, Data(Reason, q.reason, LineEndState(q.lf))) else begun
  }

  lemma StatusMoves()
    ensures forall c :: LineMove(S_RES_HTTP_MAJOR, c, DOT) == Go(S_RES_FIRST_HTTP_MINOR, Keep)
    ensures forall c :: LineMove(S_RES_HTTP_MINOR, c, SP) == Go(S_RES_FIRST_STATUS_CODE, Keep)
    ensures forall c :: LineMove(S_RES_FIRST_STATUS_CODE, c, SP) == Go(S_RES_FIRST_STATUS_CODE, Keep)
    ensures forall c :: LineMove(S_RES_STATUS_CODE, c, SP) == Go(S_RES_STATUS, Keep)
    ensures forall c :: LineMove(S_RES_STATUS_CODE, c, CR) == Go(S_RES_LINE_ALMOST_DONE, Keep)
    ensures forall c :: LineMove(S_RES_STATUS_CODE, c, LF) == Go(S_HEADER_FIELD_START, Keep)
    ensures forall c, b :: LineMove(S_RES_LINE_ALMOST_DONE, c, b) == Go(S_HEADER_FIELD_START, Keep)
    ensures forall s :: S_RES_H <= s < S_RES_STATUS_START ==> Unmarked(s)
    ensures Unmarked(S_RES_LINE_ALMOST_DONE)
  {
  }

  /** The first byte of a response. */
  lemma ResponseBegins(cfg: Settings, e: Stream)
    requires Neat(e) && e.p.state == S_PRE_START_RES && cfg.onMessageBegin == Proceed
    ensures At(e, Read(cfg, e, LETTER_H), 1,
               e.p.(state := S_RES_H, flags := Flags(false, false, false, false), length := -1),
               Push(e.out, MessageBegin))
  {
    hide Push, PushAll;
    PushNothing(e.out);
    PushAllOne(e.out, MessageBegin);
  }

  /** The protocol of a response: 'H' and any four bytes. */
  lemma ResponseProtocol(cfg: Settings, e: Stream, w: Bytes)
    requires Neat(e) && e.p.state == S_PRE_START_RES && cfg.onMessageBegin == Proceed && IsProtocol(w)
    ensures At(e, ReadAll(cfg, e, w), |w|,
               e.p.(state := S_RES_FIRST_HTTP_MAJOR, flags := Flags(false, false, false, false), length := -1),
               Push(e.out, MessageBegin))
  {
    hide ReadAll, Read, Unmarked, Push;
    ResponseBegins(cfg, e);
    StatusMoves();
    assert [w[0]] == w[..1];
    ReadOne(cfg, e, w[0]);
    GoRead(cfg, e, w[..1], ReadAll(cfg, e, w[..1]), w[1], S_RES_HT);
    assert w[..1] + [w[1]] == w[..2];
    GoRead(cfg, e, w[..2], ReadAll(cfg, e, w[..2]), w[2], S_RES_HTT);
    assert w[..2] + [w[2]] == w[..3];
    GoRead(cfg, e, w[..3], ReadAll(cfg, e, w[..3]), w[3], S_RES_HTTP);
    assert w[..3] + [w[3]] == w[..4];
    GoRead(cfg, e, w[..4], ReadAll(cfg, e, w[..4]), w[4], S_RES_FIRST_HTTP_MAJOR);
    assert w[..4] + [w[4]] == w;
  }

  /** The version of a response, up to the space behind it. */
  lemma ResponseVersion(cfg: Settings, e: Stream, w: Bytes, i: Bytes, j: Bytes)
    requires Neat(e) && e.p.state == S_PRE_START_RES && cfg.onMessageBegin == Proceed
    requires IsProtocol(w) && IsNumber(i) && IsNumber(j)
    ensures var t := w + i + [DOT] + j + [SP];
            At(e, ReadAll(cfg, e, t), |t|,
               e.p.(state := S_RES_FIRST_STATUS_CODE, flags := Flags(false, false, false, false), length := -1,
                    line := e.p.line.(major := Decimal(i), minor := Decimal(j))),
               Push(e.out, MessageBegin))
  {
    hide ReadAll, Unmarked, LineMove, Decimal, Reads, Push;
    NumberStates();
    StatusMoves();
    ResponseProtocol(cfg, e, w);
    var a := ReadAll(cfg, e, w);
    NumberRead(cfg, a, Major, S_RES_FIRST_HTTP_MAJOR, S_RES_HTTP_MAJOR, i);
    ReadAllAppend(cfg, e, w, i);
    GoRead(cfg, e, w + i, ReadAll(cfg, e, w + i), DOT, S_RES_FIRST_HTTP_MINOR);
    var c := ReadAll(cfg, e, w + i + [DOT]);
    NumberRead(cfg, c, Minor, S_RES_FIRST_HTTP_MINOR, S_RES_HTTP_MINOR, j);
    ReadAllAppend(cfg, e, w + i + [DOT], j);
    GoRead(cfg, e, w + i + [DOT] + j, ReadAll(cfg, e, w + i + [DOT] + j), SP, S_RES_FIRST_STATUS_CODE);
  }

  lemma {:induction false} StatusSpaces(cfg: Settings, e: Stream, n: nat)
    requires Neat(e) && e.p.state == S_RES_FIRST_STATUS_CODE
    ensures At(e, ReadAll(cfg, e, Spaces(n)), |Spaces(n)|, e.p, e.out)
  {
    hide LineMove, ReadAll;
    if n == 0 {
      ReadNothing(cfg, e);
      assert Spaces(0) == [];
    } else {
      StatusSpaces(cfg, e, n - 1);
      StatusMoves();
      GoRead(cfg, e, Spaces(n - 1), ReadAll(cfg, e, Spaces(n - 1)), SP, e.p.state);
      assert Spaces(n - 1) + [SP] == Spaces(n);
    }
  }

  lemma ReasonByte(cfg: Settings, e: Stream, b: Byte)
    requires Neat(e) && e.p.state == S_RES_STATUS && b != CR && b != LF
    ensures At(e, Read(cfg, e, b), 1, e.p, Push(e.out, Piece(Reason, [b], S_RES_STATUS)))
  {
    hide Push, PushAll;
    PushAllOne(e.out, Piece(Reason, [b], S_RES_STATUS));
    PushNothing(Push(e.out, Piece(Reason, [b], S_RES_STATUS)));
  }

  /** The text of a reason, if there is any. */
  function WithReason(out: seq<Event>, s: Bytes): seq<Event> {
    if s == [] then out else Push(out, Piece(Reason, s, S_RES_STATUS))
  }

  lemma {:induction false} ReasonRead(cfg: Settings, e: Stream, s: Bytes)
    requires Neat(e) && e.p.state == S_RES_STATUS && CR !in s && LF !in s
    ensures At(e, ReadAll(cfg, e, s), |s|, e.p, WithReason(e.out, s))
  {
    hide Read, Push;
    if s != [] {
      var f, b := s[..|s| - 1], s[|s| - 1];
      ReasonRead(cfg, e, f);
      ReasonByte(cfg, ReadAll(cfg, e, f), b);
      assert s == f + [b];
      if f != [] { PushTwice(e.out, Reason, f, S_RES_STATUS, [b], S_RES_STATUS); }
    }
  }

  lemma ReasonEnd(cfg: Settings, e: Stream, b: Byte, n: State)
    requires Neat(e) && e.p.state == S_RES_STATUS
    requires (b == CR && n == S_RES_LINE_ALMOST_DONE) || (b == LF && n == S_HEADER_FIELD_START)
    ensures At(e, Read(cfg, e, b), 1, e.p.(state := n), Push(e.out, Piece(Reason, [], n)))
  {
    hide Push, PushAll;
    PushAllOne(e.out, Piece(Reason, [], n));
    PushNothing(Push(e.out, Piece(Reason, [], n)));
  }

  /** The reason, if there is one, and the end of the line. */
  lemma StatusEnd(cfg: Settings, e: Stream, q: StatusLine)
    requires Neat(e) && e.p.state == S_RES_STATUS_CODE && IsStatusLine(q)
    ensures var t := ReasonText(q) + StatusLineEnd(q);
            At(e, ReadAll(cfg, e, t), |t|, e.p.(state := S_HEADER_FIELD_START),
               if q.spoken then Push(e.out, Data(Reason, q.reason, LineEndState(q.lf))) else e.out)
  {
    hide ReadAll, Read, Unmarked, LineMove, Push, IsStatusLine;
    StatusMoves();
    ReadNothing(cfg, e);
    var n := LineEndState(q.lf);
    var b := if q.lf then LF else CR;
    var t := ReasonText(q);
    if q.spoken {
      GoRead(cfg, e, [], e, SP, S_RES_STATUS);
      assert [] + [SP] == [SP];
      var a := ReadAll(cfg, e, [SP]);
      assert CR !in q.reason && LF !in q.reason by { ReasonPlain(q); }
      ReasonRead(cfg, a, q.reason);
      ReadAllAppend(cfg, e, [SP], q.reason);
      var d := ReadAll(cfg, e, t);
      ReasonEnd(cfg, d, b, n);
      ReadOneMore(cfg, e, t, b);
      if q.reason != [] { PushTwice(e.out, Reason, q.reason, S_RES_STATUS, [], n); }
      assert q.reason + [] == q.reason;
    } else {
      assert q.reason == [] && t == [] by { ReasonPlain(q); }
      GoRead(cfg, e, t, e, b, n);
    }
    if q.lf {
      assert t + [b] == t + StatusLineEnd(q);
    } else {
      GoRead(cfg, e, t + [b], ReadAll(cfg, e, t + [b]), q.after, S_HEADER_FIELD_START);
      assert t + [b] + [q.after] == t + StatusLineEnd(q);
    }
  }

  lemma ReasonPlain(q: StatusLine)
    requires IsStatusLine(q)
    ensures CR !in q.reason && LF !in q.reason && (q.reason != [] ==> q.spoken)
  {
  }

  /** A status line is read: one callback for the reason, if the status is followed by a space, and the version
      and status as written. */
  lemma StatusLineRead(cfg: Settings, e: Stream, q: StatusLine)
    requires Neat(e) && e.p.state == S_PRE_START_RES && cfg.onMessageBegin == Proceed && IsStatusLine(q)
    ensures At(e, ReadAll(cfg, e, StatusText(q)), |StatusText(q)|,
               e.p.(state := S_HEADER_FIELD_START, flags := Flags(false, false, false, false), length := -1,
                    line := e.p.line.(major := Decimal(q.major), minor := Decimal(q.minor),
                                      status := Decimal(q.status))),
               StatusOut(e.out, q))
  {
    hide ReadAll, Push, Spaces, Only, Decimal, IsProtocol, Reads, ReasonText, StatusLineEnd;
    var v := q.protocol + q.major + [DOT] + q.minor + [SP];
    EmptyLinesRead(cfg, e, q.lead);
    var a := ReadAll(cfg, e, q.lead);
    ResponseVersion(cfg, a, q.protocol, q.major, q.minor);
    ReadAllAppend(cfg, e, q.lead, v);
    var b := ReadAll(cfg, a, v);
    StatusSpaces(cfg, b, q.before);
    ReadAllAppend(cfg, e, q.lead + v, Spaces(q.before));
    var c := ReadAll(cfg, b, Spaces(q.before));
    NumberStates();
    NumberRead(cfg, c, Status, S_RES_FIRST_STATUS_CODE, S_RES_STATUS_CODE, q.status);
    ReadAllAppend(cfg, e, q.lead + v + Spaces(q.before), q.status);
    StatusEnd(cfg, ReadAll(cfg, c, q.status), q);
    var t := ReasonText(q) + StatusLineEnd(q);
    ReadAllAppend(cfg, e, q.lead + v + Spaces(q.before) + q.status, t);
    assert StatusText(q) == q.lead + v + Spaces(q.before) + q.status + t;
  }

  /** The head of a response is read: the callbacks of its lines, and then the parser goes on to the body that
      the status and the fields declare. */
  lemma ResponseHeadRead(cfg: Settings, e: Stream, q: StatusLine, xs: seq<HeaderLine>, lf: bool)
    requires Neat(e) && e.p.state == S_PRE_START_RES && e.p.line.kind == Response && IsStatusLine(q) && AllFields(xs)
    requires cfg.onMessageBegin == Proceed && (cfg.onHeadersComplete == Proceed || cfg.onHeadersComplete == SkipBody)
    ensures var t := StatusText(q) + LinesText(xs) + MaybeCr(lf);
            var d := ReadAll(cfg, e, t);
            && Neat(d) && d.pos == e.pos + |t| && d.out == WithFields(StatusOut(e.out, q), xs)
            && d.p.line == e.p.line.(major := Decimal(q.major), minor := Decimal(q.minor), status := Decimal(q.status))
            && HeadersComplete in Step(cfg, d.p, LF).notes
            && Follows(Step(cfg, d.p, LF), FramingOf(d.p.line, cfg.onHeadersComplete == SkipBody, LinesOf(xs)))
  {
    hide ReadAll, StatusText, IsStatusLine, AllFields, LinesText, MaybeCr, StatusOut, WithFields, Decimal, Step,
         Follows, FramingOf, LinesOf, AfterLines, StepHeadersAlmostDone;
    StatusLineRead(cfg, e, q);
    var a := ReadAll(cfg, e, StatusText(q));
    LinesRead(cfg, a, xs);
    ReadAllAppend(cfg, e, StatusText(q), LinesText(xs));
    var b := ReadAll(cfg, a, LinesText(xs));
    EmptyLineRead(cfg, b, lf);
    ReadAllAppend(cfg, e, StatusText(q) + LinesText(xs), MaybeCr(lf));
    var d := ReadAll(cfg, b, MaybeCr(lf));
    LinesConclude(a.p, xs);
    LinesKeep(a.p, xs);
    EmptyLineStep(cfg, d.p);
    HeadCompletes(cfg, d.p.(state := S_HEADERS_ALMOST_DONE));
    DecisionFollows(cfg, d.p.(state := S_HEADERS_ALMOST_DONE), LinesOf(xs));
  }

  lemma HeadCompletes(cfg: Settings, p: Parser)
    requires !p.flags.trailing
    ensures HeadersComplete in StepHeadersAlmostDone(cfg, p, LF).notes
  {
    hide StepHeadersDone;
  }

  lemma EmptyLineStep(cfg: Settings, p: Parser)
    requires EmptyLine(p.state)
    ensures Step(cfg, p, LF) == StepHeadersAlmostDone(cfg, p.(state := S_HEADERS_ALMOST_DONE), LF)
    ensures ZoneOf(p.state) == Plain
  {
    hide StepHeadersAlmostDone;
  }

  // ---------------------------------------------------------------- and what is refused

  /** The error that tells in which part of the line a byte did not fit. */
  function ErrorIn(s: State, connect: bool): Errno {
    if s == S_RES_FIRST_STATUS_CODE || s == S_RES_STATUS_CODE then HPE_INVALID_STATUS
    else if S_RES_FIRST_HTTP_MAJOR <= s <= S_RES_HTTP_MINOR || S_REQ_FIRST_HTTP_MAJOR <= s <= S_REQ_HTTP_MINOR
    then HPE_INVALID_VERSION
    else if s == S_REQ_SPACES_BEFORE_URL then if connect then HPE_INVALID_HOST else HPE_INVALID_URL
    else if s == S_REQ_SCHEMA then HPE_INVALID_URL
    else if S_REQ_HOST_START <= s <= S_REQ_HOST_DONE then HPE_INVALID_HOST
    else if s == S_REQ_PORT then HPE_INVALID_PORT
    else if s == S_REQ_PATH then HPE_INVALID_PATH
    else if s == S_REQ_QUERY_STRING_START || s == S_REQ_QUERY_STRING then HPE_INVALID_QUERY_STRING
    else if s == S_REQ_FRAGMENT_START || s == S_REQ_FRAGMENT then HPE_INVALID_FRAGMENT
    else if s == S_REQ_HTTP_START then HPE_INVALID_CONSTANT
    else HPE_LF_EXPECTED
  }

  /** Within the first line the parser stops only with that error, and without a callback. */
  lemma LineStops(cfg: Settings, p: Parser, b: Byte)
    requires InLine(p.state) && Step(cfg, p, b).ctl != Next
    ensures var a := Step(cfg, p, b);
            a.ctl == StopBefore && a.notes == [] && a.p.errno == ErrorIn(p.state, p.line.verb == M_CONNECT)
  {
  }

  // ---------------------------------------------------------------- either

  /** The stream as if the parser was for messages of this kind. */
  function As(e: Stream, kind: ParserType): Stream {
    e.(p := e.p.(state := if kind == Request then S_PRE_START_REQ else S_PRE_START_RES,
                 line := e.p.line.(kind := kind)))
  }

  /** A parser for both kinds of messages decides by the first two bytes: with "HT" it reads a response, with any
      other beginning a request, as a parser for only those does; only "HE" can begin a request with 'H'. */
  lemma EitherBegins(cfg: Settings, e: Stream, a: Byte, b: Byte)
    requires e.live && e.p.state == S_PRE_START_REQ_OR_RES && cfg.onMessageBegin == Proceed && !LineEndByte(a)
    ensures a != LETTER_H ==> Read(cfg, e, a) == Read(cfg, As(e, Request), a)
    ensures a == LETTER_H && b == LETTER_T ==> ReadAll(cfg, e, [a, b]) == ReadAll(cfg, As(e, Response), [a, b])
    ensures a == LETTER_H && b == LETTER_E ==> ReadAll(cfg, e, [a, b]) == ReadAll(cfg, As(e, Request), [a, b])
    ensures a == LETTER_H && b != LETTER_T && b != LETTER_E ==> !ReadAll(cfg, e, [a, b]).live
  {
    hide PushAll, Step, ReadAll;
    if a == LETTER_H { EitherH(cfg, e, b); } else { Other(cfg, e.p, a); }
  }

  lemma EitherH(cfg: Settings, e: Stream, b: Byte)
    requires e.live && e.p.state == S_PRE_START_REQ_OR_RES && cfg.onMessageBegin == Proceed
    ensures b == LETTER_T ==> ReadAll(cfg, e, [LETTER_H, b]) == ReadAll(cfg, As(e, Response), [LETTER_H, b])
    ensures b == LETTER_E ==> ReadAll(cfg, e, [LETTER_H, b]) == ReadAll(cfg, As(e, Request), [LETTER_H, b])
    ensures b != LETTER_T && b != LETTER_E ==> !ReadAll(cfg, e, [LETTER_H, b]).live
  {
    hide PushAll, FirstMethod, ReadAll, MethodChar, SwitchMethod;
    ReadTwo(cfg, e, LETTER_H, b);
    ReadTwo(cfg, As(e, Request), LETTER_H, b);
    ReadTwo(cfg, As(e, Response), LETTER_H, b);
    LetterH();
  }

  lemma LetterH()
    ensures FirstMethod(LETTER_H) == M_HEAD && MethodChar(M_HEAD, 1) == LETTER_E && IsAlpha(LETTER_H)
  {
  }

  lemma Other(cfg: Settings, p: Parser, a: Byte)
    requires p.state == S_PRE_START_REQ_OR_RES && cfg.onMessageBegin == Proceed && !LineEndByte(a) && a != LETTER_H
    ensures Step(cfg, p, a) == Step(cfg, p.(state := S_PRE_START_REQ, line := p.line.(kind := Request)), a)
  {
    hide FirstMethod;
  }
}
