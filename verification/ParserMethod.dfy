/** The method recogniser: the matcher walks down one of the 24 method names and switches to
    another one where they part. */
module ParserMethod {
  import opened Ascii
  import opened HttpGrammar
  import opened ParserTypes
  import opened ParserStep
  import opened ParserInvariant
  import opened ParserEvents
  import opened ParserCuts

  /** The bytes spell the first `n` characters of method name `m`. */
  predicate SpellsMethod(s: Bytes, m: nat, n: nat) {
    |s| == n <= |MethodString(m)| && forall i :: 0 <= i < n ==> s[i] == MethodChar(m, i)
  }

  /** A switch goes to a name that begins with the same bytes and has the new one next. */
  lemma SwitchSound(m: nat, i: nat, b: Byte)
    requires SwitchMethod(m, i, b).Try?
    ensures var n := SwitchMethod(m, i, b).m;
            && i < |MethodString(n)| && MethodChar(n, i) == b
            && forall j :: 0 <= j < i ==> MethodChar(n, j) == MethodChar(m, j)
  {
    var n := SwitchMethod(m, i, b).m;
    assert i == 1 || i == 2 || i == 4;
  }

  lemma FirstSound(b: Byte)
    requires FirstMethod(b) >= 0
    ensures FirstMethod(b) < METHOD_COUNT && MethodChar(FirstMethod(b), 0) == b && |MethodString(FirstMethod(b))| > 0
  {
  }

  /** The method the matcher is at after `i` bytes of name `m`. */
  function Guess(m: nat, i: nat): nat {
    if i == 1 && m == M_CHECKOUT then M_CONNECT
    else if i <= 2 && m == M_COPY then M_CONNECT
    else if i == 1 && (m == M_MOVE || m == M_MERGE || m == M_MSEARCH) then M_MKCOL
    else if i <= 2 && m == M_MKACTIVITY then M_MKCOL
    else if i == 1 && (m == M_PROPFIND || m == M_PUT || m == M_PATCH || m == M_PROPPATCH) then M_POST
    else if i <= 4 && m == M_PROPPATCH then M_PROPFIND
    else if i <= 2 && m == M_UNSUBSCRIBE then M_UNLOCK
    else m
  }

  lemma GuessFirst(m: nat)
    requires m < METHOD_COUNT
    ensures 0 < MethodChar(m, 0) < 256 && FirstMethod(MethodChar(m, 0)) == Guess(m, 1) && IsAlpha(MethodChar(m, 0))
  {
  }

  lemma GuessNext(m: nat, i: nat)
    requires m < METHOD_COUNT && 1 <= i < |MethodString(m)|
    ensures var g, b := Guess(m, i), MethodChar(m, i);
            0 < b < 256 && b != SP
            && if MethodChar(g, i) == b then Guess(m, i + 1) == g
               else MethodChar(g, i) != 0 && SwitchMethod(g, i, b) == Try(Guess(m, i + 1))
  {
    hide MethodString, SwitchMethod;
    MethodBytes(m, i);
    if Guess(m, i) != m {
      OtherGuess(m, i);
    }
  }

  lemma MethodBytes(m: nat, i: nat)
    requires i < |MethodString(m)|
    ensures 0 < MethodString(m)[i] as int < 256 && MethodString(m)[i] as int != SP
  {
    hide MethodString;
    if m < M_MOVE { LowMethodBytes(m, i); } else { HighMethodBytes(m, i); }
  }

  lemma LowMethodBytes(m: nat, i: nat)
    requires m < M_MOVE && i < |MethodString(m)|
    ensures 0 < MethodString(m)[i] as int < 256 && MethodString(m)[i] as int != SP
  {
  }

  lemma HighMethodBytes(m: nat, i: nat)
    requires m >= M_MOVE && i < |MethodString(m)|
    ensures 0 < MethodString(m)[i] as int < 256 && MethodString(m)[i] as int != SP
  {
  }

  lemma OtherGuess(m: nat, i: nat)
    requires m < METHOD_COUNT && 1 <= i < |MethodString(m)| && Guess(m, i) != m
    ensures var g, b := Guess(m, i), MethodChar(m, i);
            b < 256
            && if MethodChar(g, i) == b then Guess(m, i + 1) == g
               else MethodChar(g, i) != 0 && SwitchMethod(g, i, b) == Try(Guess(m, i + 1))
  {
  }

  /** The parser is inside the method after each byte of `w`. */
  predicate Inside(cfg: Settings, p: Parser, w: Bytes) {
    && w != []
    && (|w| > 1 ==> Inside(cfg, p, w[..|w| - 1]))
    && Whole(cfg, p, w).live && Whole(cfg, p, w).p.state == S_REQ_METHOD
  }

  /** The first byte of a request. */
  lemma FirstByte(cfg: Settings, p: Parser, b: Byte)
    requires p.state == S_START_REQ
    ensures var e := Whole(cfg, p, [b]);
            if IsAlpha(b) && FirstMethod(b) >= 0
            then e.live && e.p.state == S_REQ_METHOD && e.p.line.verb == FirstMethod(b) && e.p.index == 1
            else !e.live
  {
    hide PushAll;
    var e := Stream(p, [], 0, true, false, true);
    ReadOneMore(cfg, e, [], b);
    assert [] + [b] == [b];
    assert ReadAll(cfg, e, []) == e;
  }

  lemma NextByte(cfg: Settings, p: Parser, w: Bytes, b: Byte)
    requires Whole(cfg, p, w).live && Whole(cfg, p, w).p.state == S_REQ_METHOD
    ensures var e, f := Whole(cfg, p, w), Whole(cfg, p, w + [b]);
            var a := StepMethod(e.p, b);
            f.p == a.p && f.live == (a.ctl == Next)
  {
    hide PushAll, StepMethod, TextOf;
    ReadOneMore(cfg, Stream(p, [], 0, true, false, true), w, b);
  }

  /** While inside the method, the bytes seen are the beginning of the matcher's current name. */
  lemma {:induction false} MatcherInvariant(cfg: Settings, p: Parser, w: Bytes)
    requires p.state == S_START_REQ && Inside(cfg, p, w)
    ensures var q := Whole(cfg, p, w).p; SpellsMethod(w, q.line.verb, q.index) && q.line.verb < METHOD_COUNT
  {
    hide Whole, MethodChar, SwitchMethod, MethodString;
    var t, b := w[..|w| - 1], w[|w| - 1];
    assert w == t + [b];
    if |w| == 1 {
      assert w == [b];
      FirstByte(cfg, p, b);
      FirstSound(b);
    } else {
      MatcherInvariant(cfg, p, t);
      NextByte(cfg, p, t, b);
      var q := Whole(cfg, p, t).p;
      if b == MethodChar(q.line.verb, q.index) {
        InsideName(q.line.verb, q.index, b);
      } else {
        SwitchSound(q.line.verb, q.index, b);
        SwitchMethodFits(q.line.verb, q.index, b);
      }
    }
  }

  lemma InsideName(m: nat, i: nat, b: Byte)
    requires b == MethodChar(m, i) && b != NUL
    ensures i < |MethodString(m)|
  {
    hide MethodString;
  }

  /** Every method name is walked down to its end. */
  lemma {:induction false} NameIsMatched(cfg: Settings, p: Parser, w: Bytes, m: nat)
    requires p.state == S_START_REQ && m < METHOD_COUNT && SpellsMethod(w, m, |w|) && w != []
    ensures Inside(cfg, p, w) && Whole(cfg, p, w).p.line.verb == Guess(m, |w|) && Whole(cfg, p, w).p.index == |w|
  {
    hide Whole, MethodChar, SwitchMethod, MethodString, Guess;
    var t, b := w[..|w| - 1], w[|w| - 1];
    assert w == t + [b];
    if |w| == 1 {
      assert w == [b];
      FirstByte(cfg, p, b);
      GuessFirst(m);
      FirstSound(b);
    } else {
      NameIsMatched(cfg, p, t, m);
      NextByte(cfg, p, t, b);
      GuessNext(m, |t|);
    }
  }

  lemma GuessLast(m: nat)
    requires m < METHOD_COUNT
    ensures Guess(m, |MethodString(m)|) == m && |MethodString(m)| > 0 && MethodChar(m, |MethodString(m)|) == 0
  {
  }

  predicate GoesOnToTarget(cfg: Settings, p: Parser, w: Bytes) {
    Inside(cfg, p, w) && Whole(cfg, p, w + [SP]).live && Whole(cfg, p, w + [SP]).p.state == S_REQ_SPACES_BEFORE_URL
  }

  /** `method_strings` are the names of the methods. */
  lemma MethodsNamed(m: nat)
    requires m < METHOD_COUNT
    ensures |METHOD_NAMES| == METHOD_COUNT && MethodString(m) == METHOD_NAMES[m]
  {
  }

  /** The method is accepted exactly if it is one of the 24 names followed by a space, and then
      `method` is the index of that name. */
  lemma MethodRecognised(cfg: Settings, p: Parser, w: Bytes)
    requires p.state == S_START_REQ
    ensures GoesOnToTarget(cfg, p, w) <==> exists m :: 0 <= m < |METHOD_NAMES| && Spells(w, METHOD_NAMES[m])
    ensures var v := Whole(cfg, p, w + [SP]).p.line.verb;
            GoesOnToTarget(cfg, p, w) && v < |METHOD_NAMES| ==> Spells(w, METHOD_NAMES[v])
  {
    hide Whole, MethodString, GoesOnToTarget, METHOD_NAMES;
    MethodMatched(cfg, p, w);
    MethodsNamed(0);
    forall m | 0 <= m < METHOD_COUNT ensures MethodString(m) == METHOD_NAMES[m] { MethodsNamed(m); }
  }

  lemma MethodMatched(cfg: Settings, p: Parser, w: Bytes)
    requires p.state == S_START_REQ
    ensures GoesOnToTarget(cfg, p, w) <==> exists m :: 0 <= m < METHOD_COUNT && Spells(w, MethodString(m))
    ensures GoesOnToTarget(cfg, p, w) ==> Spells(w, MethodString(Whole(cfg, p, w + [SP]).p.line.verb))
  {
    hide Whole, MethodString, Guess, SwitchMethod;
    if GoesOnToTarget(cfg, p, w) {
      MatcherInvariant(cfg, p, w);
      NextByte(cfg, p, w, SP);
      var q := Whole(cfg, p, w).p;
      assert MethodChar(q.line.verb, q.index) == 0;
      NameEnds(q.line.verb, q.index);
      assert Spells(w, MethodString(q.line.verb));
    }
    if exists m :: 0 <= m < METHOD_COUNT && Spells(w, MethodString(m)) {
      var m :| 0 <= m < METHOD_COUNT && Spells(w, MethodString(m));
      GuessLast(m);
      NameIsMatched(cfg, p, w, m);
      NextByte(cfg, p, w, SP);
    }
  }

  lemma NameEnds(m: nat, i: nat)
    requires MethodChar(m, i) == 0 && i <= |MethodString(m)|
    ensures i == |MethodString(m)|
  {
    var w := MethodString(m);
    if i < |w| {
      MethodBytes(m, i);
    }
  }
}
