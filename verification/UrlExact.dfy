/** Which texts `http_parser_parse_url` accepts, and what it finds in them. */
module UrlExact {
  import opened Ascii
  import opened ParserTypes
  import opened HttpGrammar
  import opened UrlParser
  import ParserFraming
  import UrlPartition
  import UrlTarget

  // ---------------------------------------------------------------- the first pass

  /** A byte more. */
  lemma ScanOneMore(connect: bool, u: Parts, t: Bytes, b: Byte)
    ensures ScanAll(connect, u, t + [b]) == ScanByte(ScanAll(connect, u, t), |t|, b)
  {
    hide ScanByte;
    assert (t + [b])[..|t|] == t;
  }

  lemma NoWrap(n: nat)
    requires n < UINT16_SIZE
    ensures Wrap(n) == n
  {
  }

  /** The struct with part `f` found at `off`, `len` bytes long. */
  function With(u: Parts, f: Field, off: nat, len: nat): Parts
    requires 0 <= f < UF_MAX
  {
    u.(data := u.data[f := Span(off, len)], found := u.found + {f})
  }

  lemma MarkFirst(u: Parts, last: Field, f: Field, i: nat)
    requires 0 <= f < UF_MAX && f != last && i < UINT16_SIZE
    ensures Mark(u, last, f, i) == With(u, f, i, 1)
  {
    NoWrap(i);
  }

  lemma MarkNext(u: Parts, f: Field, off: nat, len: nat, i: nat)
    requires 0 <= f < UF_MAX && len + 1 < UINT16_SIZE
    ensures Mark(With(u, f, off, len), f, f, i) == With(u, f, off, len + 1)
  {
    NoWrap(len + 1);
  }

  /** `r` behind `t`: its bytes are part `f`, and lead to state `s`. */
  predicate Scans(c: Scan, d: Scan, f: Field, off: nat, len: nat, s: State)
    requires 0 <= f < UF_MAX
  {
    d.s == s && d.last == f && d.u == With(c.u, f, off, len)
  }

  /** A run of bytes of one part, in one state. */
  lemma {:induction false} ScanRun(connect: bool, u: Parts, t: Bytes, r: Bytes, s: State)
    requires |t + r| < UINT16_SIZE && r != []
    requires ScanAll(connect, u, t).last != FieldOf(s) < UF_MAX && UrlChar(ScanAll(connect, u, t).s, r[0]) == s
    requires forall i :: 0 < i < |r| ==> UrlChar(s, r[i]) == s
    ensures Scans(ScanAll(connect, u, t), ScanAll(connect, u, t + r), FieldOf(s), |t|, |r|, s)
    ensures s != S_REQ_SERVER_WITH_AT ==> ScanAll(connect, u, t + r).at == ScanAll(connect, u, t).at
    decreases |r|
  {
    hide UrlChar, Mark, With, Wrap, ScanAll;
    var f, b := r[..|r| - 1], r[|r| - 1];
    assert t + r == t + f + [b];
    ScanOneMore(connect, u, t + f, b);
    var c := ScanAll(connect, u, t);
    if f == [] {
      assert t + f == t;
      MarkFirst(c.u, c.last, FieldOf(s), |t|);
    } else {
      ScanRun(connect, u, t, f, s);
      MarkNext(c.u, FieldOf(s), |t|, |f|, |t + f|);
    }
  }

  lemma SchemeScan(u: Parts, s: Bytes)
    requires s != [] && Only(s, Letter) && |s| + 3 < UINT16_SIZE
    ensures var c := ScanAll(false, u, s + [COLON, SLASH, SLASH]);
            c == Scan(S_REQ_SERVER_START, UF_SCHEMA, false, With(ScanFrom(false, u).u, UF_SCHEMA, 0, |s|))
  {
    hide With, ScanAll;
    assert ScanAll(false, u, []) == ScanFrom(false, u) by { ScanNothing(false, u); }
    assert [] + s == s;
    LetterMoves(s[0]);
    forall i | 0 < i < |s| ensures UrlChar(S_REQ_SCHEMA, s[i]) == S_REQ_SCHEMA { LetterMoves(s[i]); }
    ScanRun(false, u, [], s, S_REQ_SCHEMA);
    ScanOneMore(false, u, s, COLON);
    ScanOneMore(false, u, s + [COLON], SLASH);
    ScanOneMore(false, u, s + [COLON] + [SLASH], SLASH);
    assert s + [COLON] + [SLASH] + [SLASH] == s + [COLON, SLASH, SLASH];
  }

  lemma ScanNothing(connect: bool, u: Parts)
    ensures ScanAll(connect, u, []) == ScanFrom(connect, u)
  {
  }

  lemma LetterMoves(b: Byte)
    requires Letter(b)
    ensures UrlChar(S_REQ_SPACES_BEFORE_URL, b) == S_REQ_SCHEMA && UrlChar(S_REQ_SCHEMA, b) == S_REQ_SCHEMA
  {
  }

  // ---------------------------------------------------------------- the authority in the first pass

  predicate ServerByte(b: Byte) { UserByte(b) || b == LBRACKET || b == RBRACKET || b == AT }

  /** What the first pass takes for an authority: no two '@' next to each other. */
  predicate IsServer(a: Bytes) {
    a != [] && Only(a, ServerByte) && forall i :: 0 < i < |a| ==> !(a[i - 1] == AT && a[i] == AT)
  }

  function ServerState(a: Bytes): State
    requires a != []
  {
    if a[|a| - 1] == AT then S_REQ_SERVER_WITH_AT else S_REQ_SERVER
  }

  lemma ServerMoves(s: State, b: Byte)
    requires s == S_REQ_SERVER_START || s == S_REQ_SERVER || s == S_REQ_SERVER_WITH_AT
    ensures var n := UrlChar(s, b);
            if ServerByte(b) && !(s == S_REQ_SERVER_WITH_AT && b == AT) then n == ServerState([b])
            else if b == SLASH then n == S_REQ_PATH
            else if b == QMARK then n == S_REQ_QUERY_STRING_START
            else n == S_DEAD
  {
    hide UserByte;
    UserBytesAgree(b);
  }

  lemma ServerMore(a: Bytes, b: Byte)
    requires a == [] || IsServer(a)
    ensures IsServer(a + [b]) <==> ServerByte(b) && !(a != [] && a[|a| - 1] == AT && b == AT)
  {
    hide ServerByte;
    var r := a + [b];
    assert r[|a|] == b && forall i :: 0 <= i < |a| ==> r[i] == a[i];
  }

  lemma ServerSome(a: Bytes)
    requires IsServer(a)
    ensures a != []
  {
  }

  lemma ServerLess(a: Bytes)
    requires IsServer(a) && |a| > 1
    ensures IsServer(a[..|a| - 1])
  {
    hide ServerByte;
  }

  lemma {:induction false} ServerScan(connect: bool, u: Parts, t: Bytes, a: Bytes)
    requires |t + a| < UINT16_SIZE && a != [] && IsServer(a)
    requires var c := ScanAll(connect, u, t); c.s == S_REQ_SERVER_START && c.last != UF_HOST
    ensures var c, d := ScanAll(connect, u, t), ScanAll(connect, u, t + a);
            Scans(c, d, UF_HOST, |t|, |a|, ServerState(a)) && d.at == (c.at || AT in a)
    decreases |a|
  {
    hide UrlChar, Mark, With, Wrap, ServerByte, IsServer, ScanAll;
    var f, b := a[..|a| - 1], a[|a| - 1];
    assert t + a == t + f + [b] && a == f + [b];
    ScanOneMore(connect, u, t + f, b);
    var c := ScanAll(connect, u, t);
    assert f != [] ==> IsServer(f) by { if f != [] { ServerLess(a); } }
    ServerMore(f, b);
    if f == [] {
      assert t + f == t;
      ServerMoves(c.s, b);
      MarkFirst(c.u, c.last, UF_HOST, |t|);
    } else {
      ServerScan(connect, u, t, f);
      ServerMoves(ServerState(f), b);
      MarkNext(c.u, UF_HOST, |t|, |f|, |t + f|);
    }
  }

  // ---------------------------------------------------------------- path, query and fragment

  /** The struct with the path, query and fragment of `r` found at `off`. */
  function WithPath(u: Parts, r: Bytes, off: nat): Parts {
    var n := UrlTarget.PathEnd(r);
    if n > 0 then With(u, UF_PATH, off, n) else u
  }

  function WithQuery(u: Parts, r: Bytes, off: nat): Parts {
    var n, m := UrlTarget.PathEnd(r), UrlTarget.QueryEnd(r);
    if n + 1 < m then With(u, UF_QUERY, off + n + 1, m - n - 1) else u
  }

  function WithFragment(u: Parts, r: Bytes, off: nat): Parts {
    var j := UrlTarget.FragmentStart(r);
    if j < |r| then With(u, UF_FRAGMENT, off + j, |r| - j) else u
  }

  function WithTail(u: Parts, r: Bytes, off: nat): Parts {
    WithFragment(WithQuery(WithPath(u, r, off), r, off), r, off)
  }

  function TailLast(r: Bytes, last: Field): Field {
    if UrlTarget.FragmentStart(r) < |r| then UF_FRAGMENT
    else if UrlTarget.PathEnd(r) + 1 < UrlTarget.QueryEnd(r) then UF_QUERY
    else if UrlTarget.PathEnd(r) > 0 then UF_PATH
    else last
  }

  predicate NotTail(f: Field) { f != UF_PATH && f != UF_QUERY && f != UF_FRAGMENT }

  /** One more byte of the tail. */
  lemma TailMark(u: Parts, last: Field, f: Bytes, b: Byte, off: nat)
    requires NotTail(last) && off + |f| + 1 < UINT16_SIZE
    ensures var s := UrlTarget.StateAt(f + [b]);
            && TailLast(f + [b], last) == (if FieldOf(s) == UF_MAX then TailLast(f, last) else FieldOf(s))
            && WithTail(u, f + [b], off)
               == if FieldOf(s) == UF_MAX then WithTail(u, f, off)
                  else Mark(WithTail(u, f, off), TailLast(f, last), FieldOf(s), off + |f|)
  {
    hide UrlTarget.Until, UrlTarget.PastHashes, UrlTarget.PathEnd, UrlTarget.QueryEnd, UrlTarget.FragmentStart,
         Mark, With;
    var r := f + [b];
    UrlTarget.Bounds(f);
    UrlTarget.Bounds(r);
    UrlTarget.PathEndAppend(f, b);
    UrlTarget.QueryEndAppend(f, b);
    UrlTarget.FragmentStartAppend(f, b);
    var v := WithTail(u, f, off);
    var n, m, j := UrlTarget.PathEnd(f), UrlTarget.QueryEnd(f), UrlTarget.FragmentStart(f);
    var s := UrlTarget.StateAt(r);
    if s == S_REQ_PATH {
      if |f| == 0 { MarkFirst(v, last, UF_PATH, off); } else { MarkNext(u, UF_PATH, off, |f|, off + |f|); }
    } else if s == S_REQ_QUERY_STRING {
      if n + 1 < m { MarkNext(WithPath(u, f, off), UF_QUERY, off + n + 1, m - n - 1, off + |f|); }
      else { MarkFirst(v, TailLast(f, last), UF_QUERY, off + |f|); }
    } else if s == S_REQ_FRAGMENT {
      if j < |f| { MarkNext(WithQuery(WithPath(u, f, off), f, off), UF_FRAGMENT, off + j, |f| - j, off + |f|); }
      else { MarkFirst(v, TailLast(f, last), UF_FRAGMENT, off + |f|); }
    }
  }

  lemma OnlyInit(r: Bytes, c: Byte -> bool)
    requires |r| > 1 && Only(r[1..], c)
    ensures Only(r[..|r| - 1][1..], c) && c(r[|r| - 1])
  {
    var f, t := r[..|r| - 1], r[1..];
    assert t[|t| - 1] == r[|r| - 1];
    forall i | 0 <= i < |f[1..]| ensures c(f[1..][i]) { assert f[1..][i] == t[i]; }
  }

  lemma {:induction false} TailScan(connect: bool, u: Parts, t: Bytes, r: Bytes)
    requires |t + r| < UINT16_SIZE && r != [] && Only(r[1..], TargetByte)
    requires var c := ScanAll(connect, u, t); NotTail(c.last) && UrlChar(c.s, r[0]) == UrlTarget.StateAt([r[0]])
    ensures var c := ScanAll(connect, u, t);
            ScanAll(connect, u, t + r)
            == Scan(UrlTarget.StateAt(r), TailLast(r, c.last), c.at, WithTail(c.u, r, |t|))
    decreases |r|
  {
    hide UrlChar, Mark, WithTail, TailLast, UrlTarget.StateAt, TargetByte, Only, ScanAll;
    var f, b := r[..|r| - 1], r[|r| - 1];
    assert t + r == t + f + [b] && r == f + [b];
    ScanOneMore(connect, u, t + f, b);
    var c := ScanAll(connect, u, t);
    TailMark(c.u, c.last, f, b, |t|);
    TailStates(r);
    if f == [] {
      assert t + f == t && r == [b];
      NoTail(c.u, |t|, c.last);
    } else {
      OnlyInit(r, TargetByte);
      TailScan(connect, u, t, f);
      UrlTarget.NextState(f, b);
    }
  }

  lemma TailStates(r: Bytes)
    ensures UrlTarget.InTarget(UrlTarget.StateAt(r))
  {
  }

  lemma NoTail(u: Parts, off: nat, last: Field)
    ensures WithTail(u, [], off) == u && TailLast([], last) == last
  {
  }

  // ---------------------------------------------------------------- every text it gets through

  /** A URL as the first pass cuts it. */
  datatype Cut = Cut(scheme: Bytes, mid: Bytes, server: Bytes, tail: Bytes)

  const UNCUT := Cut([], [], [], [])

  function CutText(x: Cut): Bytes { x.scheme + x.mid + x.server + x.tail }

  const AFTER_SCHEME: Bytes := [COLON, SLASH, SLASH]

  predicate IsPrefix(connect: bool, x: Cut) {
    if connect then x.scheme == [] && x.mid == []
    else x.scheme != [] && Only(x.scheme, Letter) && x.mid == AFTER_SCHEME
  }

  /** The cut of a text that leads to state `s`. */
  predicate IsCut(connect: bool, s: State, x: Cut) {
    if s == S_REQ_SPACES_BEFORE_URL then !connect && x == UNCUT
    else if s == S_REQ_SERVER_START then IsPrefix(connect, x) && x.server == [] && x.tail == []
    else if S_REQ_SCHEMA <= s <= S_REQ_SCHEMA_SLASH_SLASH then
      && !connect && x.scheme != [] && Only(x.scheme, Letter) && x.mid == AFTER_SCHEME[..s - S_REQ_SCHEMA]
      && x.server == [] && x.tail == []
    else if s == S_REQ_SERVER || s == S_REQ_SERVER_WITH_AT then
      IsPrefix(connect, x) && IsServer(x.server) && s == ServerState(x.server) && x.tail == []
    else
      && x.tail != [] && s == UrlTarget.StateAt(x.tail)
      && if !connect && x.scheme == [] then x.mid == [] && x.server == [] && IsTail(x.tail, "/*")
         else IsPrefix(connect, x) && (x.server == [] || IsServer(x.server)) && IsTail(x.tail, "/?")
  }

  function MoreCut(x: Cut, s: State, b: Byte): Cut {
    if s == S_REQ_SCHEMA then x.(scheme := x.scheme + [b])
    else if S_REQ_SCHEMA_SLASH <= s <= S_REQ_SCHEMA_SLASH_SLASH || s == S_REQ_SERVER_START then x.(mid := x.mid + [b])
    else if s == S_REQ_SERVER || s == S_REQ_SERVER_WITH_AT then x.(server := x.server + [b])
    else x.(tail := x.tail + [b])
  }

  lemma CutScheme(connect: bool, s: State, x: Cut, b: Byte)
    requires IsCut(connect, s, x) && (s == S_REQ_SPACES_BEFORE_URL || S_REQ_SCHEMA <= s <= S_REQ_SCHEMA_SLASH_SLASH)
    requires UrlChar(s, b) != S_DEAD
    ensures IsCut(connect, UrlChar(s, b), MoreCut(x, UrlChar(s, b), b))
  {
    assert AFTER_SCHEME[..0] == [] && AFTER_SCHEME[..1] == [COLON] && AFTER_SCHEME[..2] == [COLON, SLASH];
    if s == S_REQ_SPACES_BEFORE_URL && !IsAlpha(b) {
      FirstOfTail(b);
      assert [] + [b] == [b] && OneOf(SLASH, "/*") && OneOf(STAR, "/*") by { assert "/*" == ['/', '*']; }
    }
  }

  lemma FirstOfTail(b: Byte)
    requires b == SLASH || b == STAR || b == QMARK
    ensures UrlTarget.StateAt([b]) == if b == QMARK then S_REQ_QUERY_STRING_START else S_REQ_PATH
  {
    assert UrlTarget.Until([b], 1, true) == 1 && UrlTarget.Until([b], 1, false) == 1;
  }

  lemma OnlyNone(c: Byte -> bool)
    ensures Only([], c)
  {
  }

  lemma CutServer(connect: bool, s: State, x: Cut, b: Byte)
    requires IsCut(connect, s, x) && S_REQ_SERVER_START <= s <= S_REQ_SERVER_WITH_AT
    requires UrlChar(s, b) != S_DEAD
    ensures IsCut(connect, UrlChar(s, b), MoreCut(x, UrlChar(s, b), b))
  {
    hide UrlChar, ServerByte, UrlTarget.StateAt, IsServer, Only, IsTail;
    ServerMoves(s, b);
    if b == SLASH || b == QMARK {
      NotServer(b);
      TailOfOne(b);
      assert x.tail + [b] == [b];
    } else {
      ServerMore(x.server, b);
    }
  }

  lemma TailOfOne(b: Byte)
    requires b == SLASH || b == QMARK
    ensures IsTail([b], "/?")
    ensures UrlTarget.StateAt([b]) == if b == QMARK then S_REQ_QUERY_STRING_START else S_REQ_PATH
  {
    FirstOfTail(b);
    assert "/?" == ['/', '?'];
    assert [b][1..] == [];
  }

  lemma CutTail(connect: bool, s: State, x: Cut, b: Byte)
    requires IsCut(connect, s, x) && UrlTarget.InTarget(s)
    requires UrlChar(s, b) != S_DEAD
    ensures IsCut(connect, UrlChar(s, b), MoreCut(x, UrlChar(s, b), b))
  {
    hide UrlChar, UrlTarget.StateAt, TargetByte, OneOf, IsServer;
    UrlTarget.NextState(x.tail, b);
    TailStates(x.tail + [b]);
    assert (x.tail + [b])[1..] == x.tail[1..] + [b];
  }

  lemma CutStep(connect: bool, s: State, x: Cut, b: Byte)
    requires IsCut(connect, s, x) && UrlChar(s, b) != S_DEAD
    ensures IsCut(connect, UrlChar(s, b), MoreCut(x, UrlChar(s, b), b))
    ensures CutText(MoreCut(x, UrlChar(s, b), b)) == CutText(x) + [b]
  {
    hide IsCut, UrlChar, MoreCut;
    CutStates(connect, s, x);
    if UrlTarget.InTarget(s) {
      CutTail(connect, s, x, b);
    } else if S_REQ_SERVER_START <= s <= S_REQ_SERVER_WITH_AT {
      CutServer(connect, s, x, b);
    } else {
      CutScheme(connect, s, x, b);
    }
    MoreCutText(connect, s, x, b);
  }

  lemma CutStates(connect: bool, s: State, x: Cut)
    requires IsCut(connect, s, x)
    ensures s == S_REQ_SPACES_BEFORE_URL || S_REQ_SCHEMA <= s <= S_REQ_SERVER_WITH_AT || UrlTarget.InTarget(s)
    ensures s < S_REQ_PATH ==> x.tail == []
    ensures s < S_REQ_SERVER ==> x.server == []
    ensures s <= S_REQ_SCHEMA ==> x.mid == []
  {
    hide UrlTarget.StateAt;
    if x.tail != [] { TailStates(x.tail); }
  }

  lemma MoreCutText(connect: bool, s: State, x: Cut, b: Byte)
    requires IsCut(connect, s, x) && UrlChar(s, b) != S_DEAD
    ensures CutText(MoreCut(x, UrlChar(s, b), b)) == CutText(x) + [b]
  {
    hide IsCut, IsUrlChar, IsUserinfoChar;
    CutStates(connect, s, x);
  }

  /** What the first pass has found in such a text. */
  predicate FoundIn(u: Parts, c: Scan, x: Cut) {
    && (c.last == UF_MAX || c.last in c.u.found)
    && (UF_SCHEMA in c.u.found <==> x.scheme != []) && (UF_HOST in c.u.found <==> x.server != [])
    && UF_PORT !in c.u.found && UF_USERINFO !in c.u.found
    && (x.server == [] ==> c.u.data[UF_HOST] == u.data[UF_HOST])
  }

  lemma FoundStep(u: Parts, c: Scan, x: Cut, i: nat, b: Byte)
    requires FoundIn(u, c, x)
    ensures FoundIn(u, ScanByte(c, i, b), MoreCut(x, UrlChar(c.s, b), b))
  {
    hide UrlChar;
  }

  /** A text that the first pass gets through, in pieces. */
  lemma {:induction false} ScanCut(connect: bool, u: Parts, t: Bytes) returns (x: Cut)
    requires ScanAll(connect, u, t).s != S_DEAD
    ensures IsCut(connect, ScanAll(connect, u, t).s, x) && CutText(x) == t && FoundIn(u, ScanAll(connect, u, t), x)
  {
    hide IsCut, UrlChar, Mark, MoreCut, FoundIn, FieldOf;
    x := UNCUT;
    if t == [] {
      Uncut(connect, u);
    } else {
      var f, b := t[..|t| - 1], t[|t| - 1];
      UrlTarget.DeadStays(b);
      x := ScanCut(connect, u, f);
      CutStep(connect, ScanAll(connect, u, f).s, x, b);
      FoundStep(u, ScanAll(connect, u, f), x, |f|, b);
      x := MoreCut(x, ScanAll(connect, u, t).s, b);
      assert t == f + [b];
    }
  }

  lemma Uncut(connect: bool, u: Parts)
    ensures IsCut(connect, if connect then S_REQ_SERVER_START else S_REQ_SPACES_BEFORE_URL, UNCUT)
    ensures FoundIn(u, ScanFrom(connect, u), UNCUT)
  {
  }

  // ---------------------------------------------------------------- the second pass

  /** The part that a byte of the authority which leads to state `s` belongs to. */
  function HostFieldOf(s: HostState): Field {
    if s == HS_USERINFO then UF_USERINFO
    else if s == HS_HOST || s == HS_HOST_V6 then UF_HOST
    else if s == HS_PORT then UF_PORT
    else UF_MAX
  }

  /** A run of bytes of one part, in one state. */
  lemma {:induction false} HostRun(buf: Bytes, u: Parts, at: bool, i: nat, j: nat, s: HostState)
    requires u.data[UF_HOST].off <= i < j <= |buf| && j < UINT16_SIZE && HostFieldOf(s) != UF_MAX
    requires var h := HostAll(buf, u, at, i);
             && h.s != s && HostChar(h.s, buf[i]) == s
             && (HostFieldOf(s) == UF_HOST ==> UF_HOST in h.u.found && h.u.data[UF_HOST].len == 0)
    requires forall k :: i < k < j ==> HostChar(s, buf[k]) == s
    ensures HostAll(buf, u, at, j) == HostScan(s, With(HostAll(buf, u, at, i).u, HostFieldOf(s), i, j - i))
    decreases j
  {
    hide HostChar;
    var f := HostFieldOf(s);
    var v := HostAll(buf, u, at, i).u;
    NoWrap(i);
    NoWrap(j - i);
    assert UF_HOST in v.found ==> v.found + {UF_HOST} == v.found;
    if j > i + 1 {
      HostRun(buf, u, at, i, j - 1, s);
    }
  }

  /** A byte that belongs to no part. */
  lemma HostDelimiter(buf: Bytes, u: Parts, at: bool, i: nat, s: HostState)
    requires u.data[UF_HOST].off <= i < |buf| && HostChar(HostAll(buf, u, at, i).s, buf[i]) == s && s != HS_DEAD
    requires HostFieldOf(s) == UF_MAX
    ensures HostAll(buf, u, at, i + 1) == HostScan(s, HostAll(buf, u, at, i).u)
  {
    hide HostChar;
  }

  lemma UserMoves(b: Byte)
    ensures UserByte(b) ==> HostChar(HS_USERINFO_START, b) == HS_USERINFO && HostChar(HS_USERINFO, b) == HS_USERINFO
    ensures HostChar(HS_USERINFO_START, b) == HostChar(HS_USERINFO, b)
    ensures HostChar(HS_USERINFO, b) == if b == AT then HS_HOST_START else if UserByte(b) then HS_USERINFO else HS_DEAD
  {
    hide UserByte;
    UserBytesAgree(b);
  }

  lemma HostMoves(b: Byte)
    ensures HostChar(HS_HOST_START, b)
         == if b == LBRACKET then HS_HOST_V6_START else if RegNameByte(b) then HS_HOST else HS_DEAD
    ensures HostChar(HS_HOST, b) == if RegNameByte(b) then HS_HOST else if b == COLON then HS_PORT_START else HS_DEAD
    ensures HostChar(HS_HOST_V6_START, b) == if UrlAddressByte(b) then HS_HOST_V6 else HS_DEAD
    ensures HostChar(HS_HOST_V6, b)
         == if b == RBRACKET then HS_HOST_V6_END else if UrlAddressByte(b) then HS_HOST_V6 else HS_DEAD
    ensures HostChar(HS_HOST_V6_END, b) == if b == COLON then HS_PORT_START else HS_DEAD
    ensures HostChar(HS_PORT_START, b) == HostChar(HS_PORT, b) == if DecDigit(b) then HS_PORT else HS_DEAD
  {
    hide RegNameByte, HexDigit, DecDigit;
    ClassesAgree(b);
  }

  /** `r` stands in `buf` at `i`. */
  predicate Stands(buf: Bytes, i: nat, r: Bytes) { i + |r| <= |buf| && buf[i..i + |r|] == r }

  lemma StandsAt(buf: Bytes, i: nat, r: Bytes, k: nat)
    requires Stands(buf, i, r) && k < |r|
    ensures buf[i + k] == r[k]
  {
    assert buf[i..i + |r|][k] == buf[i + k];
  }

  /** The user and the '@' behind it. */
  lemma UserScan(buf: Bytes, u: Parts, x: UrlPieces)
    requires IsAuthority(x) && x.at && Stands(buf, u.data[UF_HOST].off, x.user + [AT])
    requires u.data[UF_HOST].off + |x.user| + 1 < UINT16_SIZE
    ensures var i := u.data[UF_HOST].off;
            HostAll(buf, u, true, i + |x.user| + 1)
            == HostScan(HS_HOST_START,
                        if x.user == [] then HostFrom(u, true).u
                        else With(HostFrom(u, true).u, UF_USERINFO, i, |x.user|))
  {
    hide HostChar, UserByte, With;
    var i, r := u.data[UF_HOST].off, x.user + [AT];
    forall k | 0 <= k < |r| ensures buf[i + k] == r[k] { StandsAt(buf, i, r, k); }
    assert buf[i + |x.user|] == AT;
    UserMoves(AT);
    if x.user != [] {
      forall k | i <= k < i + |x.user| ensures HostChar(HS_USERINFO, buf[k]) == HS_USERINFO {
        assert buf[k] == r[k - i] == x.user[k - i];
        UserMoves(buf[k]);
      }
      UserMoves(buf[i]);
      HostRun(buf, u, true, i, i + |x.user|, HS_USERINFO);
    }
    HostDelimiter(buf, u, true, i + |x.user|, HS_HOST_START);
  }

  /** The host, in brackets or not. */
  lemma HostScanned(buf: Bytes, u: Parts, x: UrlPieces, i: nat)
    requires IsAuthority(x) && u.data[UF_HOST].off <= i && i + |HostText(x)| < UINT16_SIZE
    requires Stands(buf, i, HostText(x))
    requires var h := HostAll(buf, u, x.at, i);
             h.s == HS_HOST_START && UF_HOST in h.u.found && h.u.data[UF_HOST].len == 0
    ensures HostAll(buf, u, x.at, i + |HostText(x)|)
         == HostScan(if x.bracketed then HS_HOST_V6_END else HS_HOST,
                     With(HostAll(buf, u, x.at, i).u, UF_HOST, if x.bracketed then i + 1 else i, |x.host|))
  {
    hide HostChar, With, RegNameByte, UrlAddressByte, HostAll;
    var r := HostText(x);
    forall k | 0 <= k < |r| ensures buf[i + k] == r[k] { StandsAt(buf, i, r, k); }
    var from := if x.bracketed then i + 1 else i;
    var s := if x.bracketed then HS_HOST_V6 else HS_HOST;
    HostMoves(buf[i]);
    if x.bracketed {
      HostDelimiter(buf, u, x.at, i, HS_HOST_V6_START);
    }
    forall k | from <= k < from + |x.host|
      ensures HostChar(s, buf[k]) == s && buf[k] != LBRACKET
      ensures if x.bracketed then UrlAddressByte(buf[k]) else RegNameByte(buf[k])
    {
      assert buf[k] == r[k - i] == x.host[k - from];
      BracketIsNot(buf[k]);
      HostMoves(buf[k]);
    }
    HostMoves(buf[from]);
    HostRun(buf, u, x.at, from, from + |x.host|, s);
    if x.bracketed {
      assert buf[from + |x.host|] == r[|x.host| + 1] == RBRACKET;
      HostMoves(RBRACKET);
      HostDelimiter(buf, u, x.at, from + |x.host|, HS_HOST_V6_END);
    }
  }

  lemma BracketIsNot(b: Byte)
    ensures UrlAddressByte(b) || RegNameByte(b) ==> b != RBRACKET && b != LBRACKET && b != AT
    ensures RegNameByte(b) || UserByte(b) ==> b != SLASH && b != AT && (RegNameByte(b) ==> b != COLON)
  {
    hide UserByte, RegNameByte, HexDigit;
    ClassesAgree(b);
    UserBytesAgree(b);
  }

  /** The colon and the port. */
  lemma PortScan(buf: Bytes, u: Parts, x: UrlPieces, i: nat)
    requires IsAuthority(x) && u.data[UF_HOST].off <= i && i + |PortText(x)| < UINT16_SIZE
    requires Stands(buf, i, PortText(x))
    requires var h := HostAll(buf, u, x.at, i); h.s == HS_HOST || h.s == HS_HOST_V6_END
    ensures var h, d := HostAll(buf, u, x.at, i), HostAll(buf, u, x.at, i + |PortText(x)|);
            d == if x.port == [] then h else HostScan(HS_PORT, With(h.u, UF_PORT, i + 1, |x.port|))
  {
    hide HostChar, With, HostAll, DecDigit;
    var r := PortText(x);
    forall k | 0 <= k < |r| ensures buf[i + k] == r[k] { StandsAt(buf, i, r, k); }
    if x.port != [] {
      assert buf[i] == COLON;
      HostMoves(COLON);
      BracketIsNot(COLON);
      HostDelimiter(buf, u, x.at, i, HS_PORT_START);
      forall k | i < k < i + |r| ensures HostChar(HS_PORT, buf[k]) == HS_PORT {
        assert buf[k] == r[k - i] == x.port[k - i - 1];
        HostMoves(buf[k]);
      }
      HostMoves(buf[i + 1]);
      HostRun(buf, u, x.at, i + 1, i + |r|, HS_PORT);
    }
  }

  /** The struct with the user, host and port of an authority at `i` found. */
  function WithUser(u: Parts, x: UrlPieces, i: nat): Parts {
    if x.user == [] then u else With(u, UF_USERINFO, i, |x.user|)
  }

  function WithHost(u: Parts, x: UrlPieces, i: nat): Parts {
    With(u, UF_HOST, i + |UserText(x)| + (if x.bracketed then 1 else 0), |x.host|)
  }

  function WithPort(u: Parts, x: UrlPieces, i: nat): Parts {
    if x.port == [] then u else With(u, UF_PORT, i + |UserText(x)| + |HostText(x)| + 1, |x.port|)
  }

  function WithAuthority(u: Parts, x: UrlPieces, i: nat): Parts { WithPort(WithHost(WithUser(u, x, i), x, i), x, i) }

  lemma StandsPart(buf: Bytes, i: nat, r: Bytes, s: Bytes)
    requires Stands(buf, i, r + s)
    ensures Stands(buf, i, r) && Stands(buf, i + |r|, s)
  {
    assert buf[i..i + |r|] == (r + s)[..|r|] == r;
    assert buf[i + |r|..i + |r + s|] == (r + s)[|r|..] == s;
  }

  /** The second pass over an authority finds its user, host and port. */
  lemma AuthorityScan(buf: Bytes, u: Parts, x: UrlPieces)
    requires IsAuthority(x) && UF_HOST in u.found && Stands(buf, u.data[UF_HOST].off, AuthorityText(x))
    requires u.data[UF_HOST].off + |AuthorityText(x)| < UINT16_SIZE
    ensures var i := u.data[UF_HOST].off;
            var h := HostAll(buf, u, x.at, i + |AuthorityText(x)|);
            HostEnds(h.s) && h.u == WithAuthority(u, x, i)
  {
    hide HostChar, IsAuthority, Stands, HostAll, HostText, PortText;
    var i := u.data[UF_HOST].off;
    var j, k := i + |UserText(x)|, i + |UserText(x) + HostText(x)|;
    StandsPart(buf, i, UserText(x) + HostText(x), PortText(x));
    StandsPart(buf, i, UserText(x), HostText(x));
    UserPassed(buf, u, x);
    HostScanned(buf, u, x, j);
    PortScan(buf, u, x, k);
    var v := HostFrom(u, x.at).u;
    assert WithHost(WithUser(v, x, i), x, i).data == WithHost(WithUser(u, x, i), x, i).data;
  }

  lemma UserPassed(buf: Bytes, u: Parts, x: UrlPieces)
    requires IsAuthority(x) && UF_HOST in u.found && Stands(buf, u.data[UF_HOST].off, UserText(x))
    requires u.data[UF_HOST].off + |UserText(x)| < UINT16_SIZE
    ensures var i := u.data[UF_HOST].off;
            HostAll(buf, u, x.at, i + |UserText(x)|) == HostScan(HS_HOST_START, WithUser(HostFrom(u, x.at).u, x, i))
  {
    hide HostChar;
    if x.at { UserScan(buf, u, x); }
  }

  // ---------------------------------------------------------------- every authority it gets through

  /** The states of the second pass over `a`. */
  function HostFold(a: Bytes, at: bool): HostState {
    if a == [] then if at then HS_USERINFO_START else HS_HOST_START
    else HostChar(HostFold(a[..|a| - 1], at), a[|a| - 1])
  }

  lemma SliceEnd(buf: Bytes, i: nat, j: nat)
    requires i < j <= |buf|
    ensures buf[i..j][..|buf[i..j]| - 1] == buf[i..j - 1] && buf[i..j][|buf[i..j]| - 1] == buf[j - 1]
  {
    assert buf[i..j] == buf[i..j - 1] + [buf[j - 1]];
  }

  lemma {:induction false} HostFolds(buf: Bytes, u: Parts, at: bool, j: nat)
    requires u.data[UF_HOST].off <= j <= |buf|
    ensures HostAll(buf, u, at, j).s == HostFold(buf[u.data[UF_HOST].off..j], at)
    decreases j
  {
    hide HostChar, HostMark;
    var i := u.data[UF_HOST].off;
    if i < j {
      HostFolds(buf, u, at, j - 1);
      SliceEnd(buf, i, j);
    }
  }

  /** An authority as the second pass cuts it: the user with its '@', the host with its brackets, and the
      port with its colon. */
  datatype HostCut = HostCut(user: Bytes, host: Bytes, port: Bytes)

  predicate UserDone(at: bool, user: Bytes) {
    if at then user != [] && user[|user| - 1] == AT && Only(user[..|user| - 1], UserByte) else user == []
  }

  predicate Bracketed(h: Bytes) {
    |h| > 2 && h[0] == LBRACKET && h[|h| - 1] == RBRACKET && Only(h[1..|h| - 1], UrlAddressByte)
  }

  predicate HostDone(h: Bytes) { (h != [] && Only(h, RegNameByte)) || Bracketed(h) }

  predicate IsHostCut(at: bool, s: HostState, y: HostCut) {
    if s == HS_USERINFO_START then at && y == HostCut([], [], [])
    else if s == HS_USERINFO then at && y.user != [] && Only(y.user, UserByte) && y.host == [] && y.port == []
    else
      && UserDone(at, y.user)
      && if s == HS_HOST_START then y.host == [] && y.port == []
         else if s == HS_HOST then y.host != [] && Only(y.host, RegNameByte) && y.port == []
         else if s == HS_HOST_V6_START then y.host == [LBRACKET] && y.port == []
         else if s == HS_HOST_V6 then
           |y.host| > 1 && y.host[0] == LBRACKET && Only(y.host[1..], UrlAddressByte) && y.port == []
         else if s == HS_HOST_V6_END then Bracketed(y.host) && y.port == []
         else if s == HS_PORT_START then HostDone(y.host) && y.port == [COLON]
         else s == HS_PORT && HostDone(y.host) && |y.port| > 1 && y.port[0] == COLON && Only(y.port[1..], DecDigit)
  }

  function MoreHost(y: HostCut, s: HostState, b: Byte): HostCut {
    if s == HS_USERINFO || s == HS_HOST_START then y.(user := y.user + [b])
    else if s == HS_PORT_START || s == HS_PORT then y.(port := y.port + [b])
    else y.(host := y.host + [b])
  }

  function HostCutText(y: HostCut): Bytes { y.user + y.host + y.port }

  lemma HostCutUser(at: bool, s: HostState, y: HostCut, b: Byte)
    requires IsHostCut(at, s, y) && (s == HS_USERINFO_START || s == HS_USERINFO) && HostChar(s, b) != HS_DEAD
    ensures IsHostCut(at, HostChar(s, b), MoreHost(y, HostChar(s, b), b))
  {
    hide HostChar, UserByte;
    UserMoves(b);
    assert (y.user + [b])[..|y.user|] == y.user;
  }

  lemma HostCutHost(at: bool, s: HostState, y: HostCut, b: Byte)
    requires IsHostCut(at, s, y) && HS_HOST_START <= s <= HS_HOST_V6 && HostChar(s, b) != HS_DEAD
    requires HostChar(s, b) != HS_PORT_START
    ensures IsHostCut(at, HostChar(s, b), MoreHost(y, HostChar(s, b), b))
  {
    hide HostChar, UserDone, RegNameByte, UrlAddressByte, DecDigit;
    HostMoves(b);
    var h := y.host + [b];
    assert y.host != [] ==> h[1..] == y.host[1..] + [b] && h[1..|h| - 1] == y.host[1..];
  }

  lemma HostCutPort(at: bool, s: HostState, y: HostCut, b: Byte)
    requires IsHostCut(at, s, y) && (s == HS_HOST || HS_HOST_V6_END <= s <= HS_PORT) && HostChar(s, b) != HS_DEAD
    requires s == HS_HOST ==> HostChar(s, b) == HS_PORT_START
    ensures IsHostCut(at, HostChar(s, b), MoreHost(y, HostChar(s, b), b))
  {
    hide HostChar, UserDone, RegNameByte, Bracketed, DecDigit;
    HostMoves(b);
    var p := y.port + [b];
    assert y.port != [] ==> p[1..] == y.port[1..] + [b];
  }

  lemma MoreHostText(at: bool, s: HostState, y: HostCut, b: Byte)
    requires IsHostCut(at, s, y) && HostChar(s, b) != HS_DEAD
    ensures HostCutText(MoreHost(y, HostChar(s, b), b)) == HostCutText(y) + [b]
  {
    hide UserDone, HostDone, Only;
  }

  lemma {:induction false} AuthorityCut(a: Bytes, at: bool) returns (y: HostCut)
    requires HostFold(a, at) != HS_DEAD
    ensures IsHostCut(at, HostFold(a, at), y) && HostCutText(y) == a
  {
    hide IsHostCut, HostChar, MoreHost;
    y := HostCut([], [], []);
    if a == [] {
      NoHostCut(at);
    } else {
      var f, b := a[..|a| - 1], a[|a| - 1];
      UrlPartition.HostDeadStays(b);
      y := AuthorityCut(f, at);
      var s := HostFold(f, at);
      HostCutStates(at, s, y);
      if s == HS_USERINFO_START || s == HS_USERINFO {
        HostCutUser(at, s, y, b);
      } else if s < HS_HOST_V6_END && HostChar(s, b) != HS_PORT_START {
        HostCutHost(at, s, y, b);
      } else {
        if HostChar(s, b) == HS_PORT_START { OnlyHostPorts(s, b); }
        HostCutPort(at, s, y, b);
      }
      MoreHostText(at, s, y, b);
      y := MoreHost(y, HostChar(s, b), b);
      assert a == f + [b];
    }
  }

  lemma HostCutStates(at: bool, s: HostState, y: HostCut)
    requires IsHostCut(at, s, y)
    ensures HS_USERINFO_START <= s <= HS_PORT
  {
    hide UserDone, HostDone, Only;
  }

  /** Of the states within a host only that of a name goes on to a port. */
  lemma OnlyHostPorts(s: HostState, b: Byte)
    requires HostChar(s, b) == HS_PORT_START
    ensures s == HS_HOST || s == HS_HOST_V6_END
  {
  }

  lemma NoHostCut(at: bool)
    ensures IsHostCut(at, if at then HS_USERINFO_START else HS_HOST_START, HostCut([], [], []))
  {
  }

  predicate PortDone(p: Bytes) { p == [] || (|p| > 1 && p[0] == COLON && Only(p[1..], DecDigit)) }

  lemma HostCutDone(at: bool, s: HostState, y: HostCut)
    requires IsHostCut(at, s, y) && HostEnds(s)
    ensures UserDone(at, y.user) && HostDone(y.host) && PortDone(y.port)
  {
    hide UserByte, RegNameByte, UrlAddressByte, DecDigit, UserDone;
  }

  /** Where the second pass may end, the pieces are an authority. */
  lemma AuthorityDone(a: Bytes, at: bool, y: HostCut) returns (x: UrlPieces)
    requires UserDone(at, y.user) && HostDone(y.host) && PortDone(y.port) && HostCutText(y) == a
    ensures IsAuthority(x) && x.at == at && x.scheme == [] && x.tail == [] && AuthorityText(x) == a
  {
    hide UserByte, RegNameByte, UrlAddressByte, DecDigit, Only;
    HostFirst(y.host);
    var v6 := y.host[0] == LBRACKET;
    var user, port := if at then y.user[..|y.user| - 1] else [], if y.port == [] then [] else y.port[1..];
    var host := if v6 then y.host[1..|y.host| - 1] else y.host;
    x := UrlPieces([], at, user, v6, host, port, []);
    assert UserText(x) == y.user && HostText(x) == y.host && PortText(x) == y.port;
    OnlyNone(UserByte);
    OnlyNone(DecDigit);
  }

  lemma HostFirst(h: Bytes)
    requires HostDone(h)
    ensures h != [] && (h[0] == LBRACKET <==> Bracketed(h)) && (Bracketed(h) || Only(h, RegNameByte))
  {
    hide RegNameByte, UrlAddressByte;
    BracketIsNot(h[0]);
  }

  // ---------------------------------------------------------------- both passes

  function Emptied(u: Parts): Parts { u.(port := 0, found := {}) }

  function WithScheme(u: Parts, scheme: Bytes): Parts {
    if scheme == [] then u else With(u, UF_SCHEMA, 0, |scheme|)
  }

  /** The first pass over a text with an authority. */
  lemma CutScan(connect: bool, u: Parts, x: Cut)
    requires IsPrefix(connect, x) && IsServer(x.server) && (x.tail == [] || IsTail(x.tail, "/?"))
    requires |CutText(x)| < UINT16_SIZE
    ensures var c, n := ScanAll(connect, u, CutText(x)), |x.scheme + x.mid|;
            && c.s != S_DEAD && c.at == (AT in x.server)
            && c.u == WithTail(With(WithScheme(Emptied(u), x.scheme), UF_HOST, n, |x.server|), x.tail, n + |x.server|)
  {
    hide ScanAll, With, IsServer, ServerByte, WithTail, TailLast, UrlTarget.StateAt, TargetByte;
    var t, a := x.scheme + x.mid, x.server;
    ScanNothing(connect, u);
    if connect { assert t == []; } else { SchemeScan(u, x.scheme); }
    var c := ScanAll(connect, u, t);
    ServerSome(a);
    ServerScan(connect, u, t, a);
    var d := ScanAll(connect, u, t + a);
    if x.tail == [] {
      assert CutText(x) == t + a;
      NoTail(d.u, |t + a|, d.last);
    } else {
      assert x.tail[0] == SLASH || x.tail[0] == QMARK by { assert "/?" == ['/', '?']; }
      FirstOfTail(x.tail[0]);
      NotServer(x.tail[0]);
      ServerMoves(d.s, x.tail[0]);
      TailScan(connect, u, t + a, x.tail);
      TailStates(x.tail);
    }
  }

  lemma NotServer(b: Byte)
    requires b == SLASH || b == QMARK
    ensures !ServerByte(b)
  {
    hide UserByte;
    UserBytesAgree(b);
  }

  lemma OnlyAppend(s: Bytes, t: Bytes, c: Byte -> bool)
    ensures Only(s + t, c) <==> Only(s, c) && Only(t, c)
  {
    forall i | 0 <= i < |t| ensures (s + t)[|s| + i] == t[i] {}
    if Only(s + t, c) {
      forall i | 0 <= i < |s| ensures c(s[i]) { assert (s + t)[i] == s[i]; }
      forall i | 0 <= i < |t| ensures c(t[i]) { assert c((s + t)[|s| + i]); }
    }
  }

  predicate NoAt(b: Byte) { ServerByte(b) && b != AT }

  /** An authority gets through the first pass, which sees its '@'. */
  lemma AuthorityIsServer(x: UrlPieces)
    requires IsAuthority(x)
    ensures IsServer(AuthorityText(x)) && (AT in AuthorityText(x) <==> x.at)
  {
    hide ServerByte, UserByte, RegNameByte, UrlAddressByte, DecDigit, HostText;
    var r := HostText(x) + PortText(x);
    HostNoAt(x);
    OnlyAppend(HostText(x), PortText(x), NoAt);
    UserNoAt(x.user);
    var a := AuthorityText(x);
    assert a == UserText(x) + r;
    assert ServerByte(AT) by { AtServes(); }
    if x.at { assert a[|x.user|] == AT; }
    assert r != [] by { HostSome(x); }
    forall i | 0 <= i < |a| ensures ServerByte(a[i]) && (a[i] == AT ==> x.at && i == |x.user|) {
      if i >= |UserText(x)| { assert a[i] == r[i - |UserText(x)|]; }
    }
  }

  lemma HostSome(x: UrlPieces)
    requires IsAuthority(x)
    ensures HostText(x) != []
  {
  }

  lemma AtServes()
    ensures ServerByte(AT)
  {
  }

  lemma UserNoAt(user: Bytes)
    requires Only(user, UserByte)
    ensures Only(user, NoAt)
  {
    hide UserByte;
    forall i | 0 <= i < |user| ensures NoAt(user[i]) { BracketIsNot(user[i]); }
  }

  lemma HostNoAt(x: UrlPieces)
    requires IsAuthority(x)
    ensures Only(HostText(x), NoAt) && Only(PortText(x), NoAt)
  {
    hide UserByte, RegNameByte, DecDigit, HexDigit;
    assert NoAt(LBRACKET) && NoAt(RBRACKET);
    assert NoAt(COLON) by { UserBytesAgree(COLON); }
    forall i | 0 <= i < |x.host| ensures NoAt(x.host[i]) {
      ClassesAgree(x.host[i]);
      UserBytesAgree(x.host[i]);
    }
    forall i | 0 <= i < |x.port| ensures NoAt(x.port[i]) {
      ClassesAgree(x.port[i]);
      UserBytesAgree(x.port[i]);
    }
  }

  /** A URL with an authority, by its text. */
  predicate IsUrl(connect: bool, x: UrlPieces) {
    && IsAuthority(x) && (x.tail == [] || IsTail(x.tail, "/?"))
    && if connect then x.scheme == [] else x.scheme != [] && Only(x.scheme, Letter)
  }

  /** The text `y` is found in `t`, at `off`, as part `f`; if it is empty the part is not found. */
  predicate FoundAt(t: Bytes, v: Parts, f: Field, y: Bytes, off: nat)
    requires 0 <= f < UF_MAX
  {
    if y == [] then f !in v.found else f in v.found && v.data[f] == Span(off, |y|) && Stands(t, off, y)
  }

  /** The parts found are those of the URL. */
  predicate FindsAuthority(t: Bytes, v: Parts, x: UrlPieces) {
    var n := |SchemeText(x)|;
    var h := n + |UserText(x)|;
    && FoundAt(t, v, UF_SCHEMA, x.scheme, 0)
    && FoundAt(t, v, UF_USERINFO, x.user, n)
    && FoundAt(t, v, UF_HOST, x.host, if x.bracketed then h + 1 else h)
    && FoundAt(t, v, UF_PORT, x.port, h + |HostText(x)| + 1)
  }

  predicate FindsTail(t: Bytes, v: Parts, r: Bytes, off: nat) {
    && FoundAt(t, v, UF_PATH, UrlTarget.PathOf(r), off)
    && FoundAt(t, v, UF_QUERY, UrlTarget.QueryOf(r), off + UrlTarget.PathEnd(r) + 1)
    && FoundAt(t, v, UF_FRAGMENT, UrlTarget.FragmentOf(r), off + UrlTarget.FragmentStart(r))
  }

  /** The struct behind both passes. */
  function Filled(u: Parts, x: UrlPieces): Parts {
    var n, m := |SchemeText(x)|, |SchemeText(x) + AuthorityText(x)|;
    var v := With(WithScheme(Emptied(u), x.scheme), UF_HOST, n, |AuthorityText(x)|);
    WithAuthority(WithTail(v, x.tail, m), x, n)
  }

  lemma StandsSlice(t: Bytes, i: nat, r: Bytes, k: nat, l: nat)
    requires Stands(t, i, r) && k <= l <= |r|
    ensures Stands(t, i + k, r[k..l])
  {
    hide Stands;
    assert r == r[..k] + (r[k..l] + r[l..]);
    StandsPart(t, i, r[..k], r[k..l] + r[l..]);
    StandsPart(t, i + k, r[k..l], r[l..]);
  }

  /** Where the pieces of a URL stand. */
  lemma PiecesStand(x: UrlPieces)
    ensures var t, n := UrlText(x), |SchemeText(x)|;
            var h := n + |UserText(x)|;
            && Stands(t, 0, SchemeText(x)) && Stands(t, n, UserText(x)) && Stands(t, h, HostText(x))
            && Stands(t, h + |HostText(x)|, PortText(x)) && Stands(t, n, AuthorityText(x))
            && Stands(t, |SchemeText(x) + AuthorityText(x)|, x.tail)
  {
    hide Stands, SchemeText, UserText, HostText, PortText;
    var t := UrlText(x);
    assert Stands(t, 0, t) by { StandsItself(t); }
    StandsPart(t, 0, SchemeText(x) + AuthorityText(x), x.tail);
    StandsPart(t, 0, SchemeText(x), AuthorityText(x));
    StandsPart(t, |SchemeText(x)|, UserText(x) + HostText(x), PortText(x));
    StandsPart(t, |SchemeText(x)|, UserText(x), HostText(x));
  }

  lemma StandsItself(t: Bytes)
    ensures Stands(t, 0, t)
  {
  }

  lemma FilledAuthority(u: Parts, x: UrlPieces)
    requires IsAuthority(x)
    ensures FindsAuthority(UrlText(x), Filled(u, x), x)
  {
    hide Stands, UrlText, Only;
    AuthorityStands(x);
  }

  lemma AuthorityStands(x: UrlPieces)
    requires IsAuthority(x)
    ensures var t, n := UrlText(x), |SchemeText(x)|;
            var h := n + |UserText(x)|;
            && (x.scheme != [] ==> Stands(t, 0, x.scheme)) && (x.user != [] ==> Stands(t, n, x.user))
            && Stands(t, if x.bracketed then h + 1 else h, x.host)
            && (x.port != [] ==> Stands(t, h + |HostText(x)| + 1, x.port))
  {
    hide Only, Stands, UrlText, AuthorityText, SchemeText, UserText, HostText, PortText;
    var t, n := UrlText(x), |SchemeText(x)|;
    var h := n + |UserText(x)|;
    PiecesStand(x);
    SchemeStands(t, x);
    UserStands(t, n, x);
    HostStands(t, h, x);
    PortStands(t, h + |HostText(x)|, x);
  }

  lemma SchemeStands(t: Bytes, x: UrlPieces)
    requires Stands(t, 0, SchemeText(x))
    ensures x.scheme != [] ==> Stands(t, 0, x.scheme)
  {
    hide Stands;
    if x.scheme != [] { StandsPart(t, 0, x.scheme, [COLON, SLASH, SLASH]); }
  }

  lemma UserStands(t: Bytes, n: nat, x: UrlPieces)
    requires IsAuthority(x) && Stands(t, n, UserText(x))
    ensures x.user != [] ==> Stands(t, n, x.user)
  {
    hide Stands, Only;
    if x.at { StandsPart(t, n, x.user, [AT]); }
  }

  lemma HostStands(t: Bytes, h: nat, x: UrlPieces)
    requires Stands(t, h, HostText(x))
    ensures Stands(t, if x.bracketed then h + 1 else h, x.host)
  {
    hide Stands;
    if x.bracketed {
      StandsPart(t, h, [LBRACKET] + x.host, [RBRACKET]);
      StandsPart(t, h, [LBRACKET], x.host);
    }
  }

  lemma PortStands(t: Bytes, i: nat, x: UrlPieces)
    requires Stands(t, i, PortText(x))
    ensures x.port != [] ==> Stands(t, i + 1, x.port)
  {
    hide Stands;
    if x.port != [] { StandsPart(t, i, [COLON], x.port); }
  }

  lemma FilledTail(u: Parts, x: UrlPieces)
    ensures FindsTail(UrlText(x), Filled(u, x), x.tail, |SchemeText(x) + AuthorityText(x)|)
  {
    hide Stands, FindsTail, UrlText, SchemeText, AuthorityText, WithAuthority, WithTail;
    PiecesStand(x);
    var off, r := |SchemeText(x) + AuthorityText(x)|, x.tail;
    var v := With(WithScheme(Emptied(u), x.scheme), UF_HOST, |SchemeText(x)|, |AuthorityText(x)|);
    TailFinds(UrlText(x), v, r, off);
    AuthorityApart(WithTail(v, r, off), x, |SchemeText(x)|);
    SameTail(UrlText(x), Filled(u, x), WithTail(v, r, off), r, off);
  }

  lemma TailStands(t: Bytes, r: Bytes, off: nat)
    requires Stands(t, off, r)
    ensures Stands(t, off, UrlTarget.PathOf(r))
    ensures UrlTarget.QueryOf(r) != [] ==> Stands(t, off + UrlTarget.PathEnd(r) + 1, UrlTarget.QueryOf(r))
    ensures Stands(t, off + UrlTarget.FragmentStart(r), UrlTarget.FragmentOf(r))
  {
    hide Stands, UrlTarget.PathEnd, UrlTarget.QueryEnd, UrlTarget.FragmentStart;
    UrlTarget.Bounds(r);
    var n, m, j := UrlTarget.PathEnd(r), UrlTarget.QueryEnd(r), UrlTarget.FragmentStart(r);
    StandsSlice(t, off, r, 0, n);
    if n + 1 < m { StandsSlice(t, off, r, n + 1, m); }
    StandsSlice(t, off, r, j, |r|);
    assert r[0..n] == r[..n] && r[j..|r|] == r[j..];
  }

  lemma TailFinds(t: Bytes, u: Parts, r: Bytes, off: nat)
    requires UF_PATH !in u.found && UF_QUERY !in u.found && UF_FRAGMENT !in u.found && Stands(t, off, r)
    ensures FindsTail(t, WithTail(u, r, off), r, off)
  {
    hide Stands, UrlTarget.PathEnd, UrlTarget.FragmentStart, UrlTarget.PathOf, UrlTarget.QueryOf, UrlTarget.FragmentOf,
         WithTail;
    TailStands(t, r, off);
    TailParts(u, r, off);
  }

  lemma SameTail(t: Bytes, v: Parts, w: Parts, r: Bytes, off: nat)
    requires FindsTail(t, w, r, off)
    requires forall f :: UF_PATH <= f <= UF_FRAGMENT ==> (f in v.found <==> f in w.found) && v.data[f] == w.data[f]
    ensures FindsTail(t, v, r, off)
  {
    hide Stands, UrlTarget.PathEnd, UrlTarget.QueryEnd, UrlTarget.FragmentStart, UrlTarget.PathOf, UrlTarget.QueryOf,
         UrlTarget.FragmentOf;
  }

  lemma AuthorityApart(u: Parts, x: UrlPieces, i: nat)
    ensures var v := WithAuthority(u, x, i);
            forall f :: UF_PATH <= f <= UF_FRAGMENT ==> (f in v.found <==> f in u.found) && v.data[f] == u.data[f]
  {
    hide UserText, HostText;
  }

  lemma TailParts(u: Parts, r: Bytes, off: nat)
    requires UF_PATH !in u.found && UF_QUERY !in u.found && UF_FRAGMENT !in u.found
    ensures var v := WithTail(u, r, off);
            && (if UrlTarget.PathOf(r) == [] then UF_PATH !in v.found
                else UF_PATH in v.found && v.data[UF_PATH] == Span(off, |UrlTarget.PathOf(r)|))
            && (if UrlTarget.QueryOf(r) == [] then UF_QUERY !in v.found
                else UF_QUERY in v.found
                     && v.data[UF_QUERY] == Span(off + UrlTarget.PathEnd(r) + 1, |UrlTarget.QueryOf(r)|))
            && (if UrlTarget.FragmentOf(r) == [] then UF_FRAGMENT !in v.found
                else UF_FRAGMENT in v.found
                     && v.data[UF_FRAGMENT] == Span(off + UrlTarget.FragmentStart(r), |UrlTarget.FragmentOf(r)|))
  {
    hide UrlTarget.PathEnd, UrlTarget.QueryEnd, UrlTarget.FragmentStart;
    UrlTarget.Bounds(r);
  }

  // ---------------------------------------------------------------- the theorems

  /** Nothing but delimiters. */
  predicate IsBare(r: Bytes) { r == [] || (r[0] == QMARK && forall i :: 0 < i < |r| ==> r[i] == HASH) }

  /** Under CONNECT nothing but a host and a port may be found. */
  predicate OnlyHostAndPort(x: UrlPieces) { x.user == [] && x.port != [] && IsBare(x.tail) }

  lemma {:induction false} Hashes(r: Bytes, i: nat)
    requires i <= |r|
    ensures UrlTarget.PastHashes(r, i) == |r| <==> forall k :: i <= k < |r| ==> r[k] == HASH
    decreases |r| - i
  {
    if i < |r| && r[i] == HASH { Hashes(r, i + 1); }
    UrlTarget.PastHashesBounds(r, i);
  }

  lemma BareTail(r: Bytes)
    requires r == [] || r[0] == SLASH || r[0] == QMARK
    ensures UrlTarget.PathOf(r) == [] && UrlTarget.QueryOf(r) == [] && UrlTarget.FragmentOf(r) == [] <==> IsBare(r)
  {
    hide UrlTarget.PastHashes;
    UrlTarget.Bounds(r);
    if r != [] && r[0] == QMARK {
      Hashes(r, UrlTarget.QueryEnd(r));
      if |r| > 1 { UrlTarget.UntilBounds(r, 1, false); }
    }
  }

  /** Both passes over a URL, up to the port. */
  lemma UrlScanned(connect: bool, u: Parts, x: UrlPieces)
    requires IsUrl(connect, x) && |UrlText(x)| < UINT16_SIZE
    ensures ParseUrl(UrlText(x), connect, u) == Ported(UrlText(x), Filled(u, x), connect)
  {
    hide ScanAll, HostAll, IsAuthority, Stands, AuthorityText, With, WithAuthority, IsServer, Only, OneOf;
    var t, a, n := UrlText(x), AuthorityText(x), |SchemeText(x)|;
    var y := Cut(x.scheme, if connect then [] else AFTER_SCHEME, a, x.tail);
    assert y.scheme + y.mid == SchemeText(x) && CutText(y) == t;
    AuthorityIsServer(x);
    CutScan(connect, u, y);
    var c := ScanAll(connect, u, t);
    var v := With(WithScheme(Emptied(u), x.scheme), UF_HOST, n, |a|);
    HostKept(v, x.tail, n + |a|, n, |a|, WithScheme(Emptied(u), x.scheme));
    PiecesStand(x);
    AuthorityScan(t, c.u, x);
  }

  lemma HostKept(v: Parts, r: Bytes, off: nat, n: nat, len: nat, u: Parts)
    requires v == With(u, UF_HOST, n, len)
    ensures UF_HOST in WithTail(v, r, off).found && WithTail(v, r, off).data[UF_HOST] == Span(n, len)
  {
  }

  /** A URL with an authority below 64 KiB, by its text: it is accepted if and only if its port is at most
      65535 and, under CONNECT, it has a port and nothing but a host and a port; and whether it is accepted
      or not, the parts found are its pieces, each if and only if it is there. */
  lemma UrlParts(connect: bool, u: Parts, x: UrlPieces)
    requires IsUrl(connect, x) && |UrlText(x)| < UINT16_SIZE
    ensures var t, r := UrlText(x), ParseUrl(UrlText(x), connect, u);
            && (r.ok <==> ParserFraming.Decimal(x.port) <= 0xffff && (connect ==> OnlyHostAndPort(x)))
            && FindsAuthority(t, r.u, x) && FindsTail(t, r.u, x.tail, |SchemeText(x) + AuthorityText(x)|)
            && (r.ok ==> r.u.port == ParserFraming.Decimal(x.port))
  {
    hide ParseUrl, Filled, IsAuthority, Stands, AuthorityText, UrlTarget.PathEnd, UrlTarget.QueryEnd,
         UrlTarget.FragmentStart, ParserFraming.Decimal, Only, IsBare;
    var t, v := UrlText(x), Filled(u, x);
    UrlScanned(connect, u, x);
    FilledAuthority(u, x);
    FilledTail(u, x);
    FilledPort(u, x);
    TailBegins(x.tail);
    BareTail(x.tail);
    assert x.host != [] by { HostThere(x); }
    if x.port != [] { PortNumber(x); }
    NoDigits();
    FilledFields(u, x);
    HostAndPort(v.found);
  }

  lemma HostAndPort(found: set<Field>)
    requires forall f :: f in found ==> 0 <= f < UF_MAX
    ensures found == {UF_HOST, UF_PORT}
       <==> UF_HOST in found && UF_PORT in found && UF_SCHEMA !in found && UF_USERINFO !in found && UF_PATH !in found
            && UF_QUERY !in found && UF_FRAGMENT !in found
  {
    var two: set<Field> := {UF_HOST, UF_PORT};
    if UF_HOST in found && UF_PORT in found && UF_SCHEMA !in found && UF_USERINFO !in found && UF_PATH !in found
       && UF_QUERY !in found && UF_FRAGMENT !in found {
      forall f | f in found ensures f in two {
        assert f != 0 && f != 3 && f != 4 && f != 5 && f != 6;
      }
      assert found == two;
    }
  }

  lemma HostThere(x: UrlPieces)
    requires IsAuthority(x)
    ensures x.host != []
  {
  }

  lemma TailBegins(r: Bytes)
    requires r == [] || IsTail(r, "/?")
    ensures r == [] || r[0] == SLASH || r[0] == QMARK
  {
    assert "/?" == ['/', '?'];
  }

  lemma FilledPort(u: Parts, x: UrlPieces)
    ensures Filled(u, x).port == 0
  {
    hide UrlTarget.PathEnd, UrlTarget.QueryEnd, UrlTarget.FragmentStart, SchemeText, AuthorityText, UserText, HostText;
  }

  lemma FilledFields(u: Parts, x: UrlPieces)
    ensures forall f :: f in Filled(u, x).found ==> 0 <= f < UF_MAX
  {
    hide UrlTarget.PathEnd, UrlTarget.QueryEnd, UrlTarget.FragmentStart, SchemeText, AuthorityText, UserText, HostText;
  }

  /** strtoul reads the digits of the port. */
  lemma PortNumber(x: UrlPieces)
    requires IsAuthority(x) && x.port != [] && (x.tail == [] || IsTail(x.tail, "/?"))
    ensures Number(UrlText(x), |SchemeText(x)| + |UserText(x)| + |HostText(x)| + 1, 0)
         == ParserFraming.Decimal(x.port)
  {
    hide UserText, HostText, SchemeText, ParserFraming.Decimal;
    var t, i := UrlText(x), |SchemeText(x)| + |UserText(x)| + |HostText(x)| + 1;
    var s := SchemeText(x) + UserText(x) + HostText(x) + [COLON];
    assert t == s + x.port + x.tail && |s| == i;
    var j := i + |x.port|;
    assert t[i..j] == x.port && t[i..i] == [];
    forall k | i <= k < j ensures IsDigit(t[k]) {
      assert t[k] == x.port[k - i];
      ClassesAgree(t[k]);
    }
    TailBegins(x.tail);
    if x.tail != [] { assert t[j] == x.tail[0]; }
    UrlPartition.NumberIs(t, i, i, j);
    assert ParserFraming.Decimal([]) == 0 by { NoDigits(); }
  }

  lemma NoDigits()
    ensures ParserFraming.Decimal([]) == 0
  {
  }

  /** The texts that are accepted: nothing, a path or '*', and a URL with an authority and a port that fits;
      under CONNECT a host and a port. */
  ghost predicate IsAccepted(connect: bool, t: Bytes) {
    || (!connect && (t == [] || IsTail(t, "/*")))
    || exists x :: IsUrl(connect, x) && UrlText(x) == t && ParserFraming.Decimal(x.port) <= 0xffff
                   && (connect ==> OnlyHostAndPort(x))
  }

  lemma OriginAccepted(u: Parts, t: Bytes)
    requires |t| < UINT16_SIZE && (t == [] || IsTail(t, "/*"))
    ensures ParseUrl(t, false, u).ok
  {
    hide UrlTarget.StateAt, TailLast, TargetByte, UrlTarget.PathEnd, UrlTarget.QueryEnd, UrlTarget.FragmentStart,
         ScanAll;
    ScanNothing(false, u);
    if t != [] {
      assert "/*" == ['/', '*'];
      FirstOfTail(t[0]);
      assert [] + t == t;
      TailScan(false, u, [], t);
      TailStates(t);
    }
  }

  /** A text with an authority that is accepted is a URL. */
  lemma AcceptedAuthority(connect: bool, u: Parts, t: Bytes, y: Cut) returns (x: UrlPieces)
    requires |t| < UINT16_SIZE && CutText(y) == t && y.server != [] && ParseUrl(t, connect, u).ok
    requires IsPrefix(connect, y) && IsServer(y.server) && (y.tail == [] || IsTail(y.tail, "/?"))
    ensures IsUrl(connect, x) && UrlText(x) == t
  {
    hide ScanAll, HostAll, HostFold, IsServer, WithTail, With, IsHostCut, IsAuthority, UserDone, HostDone, PortDone,
         Only, OneOf, AuthorityText, HostCutText, Stands;
    CutScan(connect, u, y);
    var c, n := ScanAll(connect, u, t), |y.scheme + y.mid|;
    var a, v := y.server, WithScheme(Emptied(u), y.scheme);
    HostKept(With(v, UF_HOST, n, |a|), y.tail, n + |a|, n, |a|, v);
    HostFolds(t, c.u, c.at, n + |a|);
    assert t[n..n + |a|] == a;
    assert HostEnds(HostFold(a, c.at));
    var z := AuthorityCut(a, c.at);
    HostCutDone(c.at, HostFold(a, c.at), z);
    x := AuthorityDone(a, c.at, z);
    AuthorityAlone(x, x.(scheme := y.scheme, tail := y.tail));
    x := x.(scheme := y.scheme, tail := y.tail);
    assert SchemeText(x) == y.scheme + y.mid;
  }

  lemma AuthorityAlone(x: UrlPieces, y: UrlPieces)
    requires y == x.(scheme := y.scheme, tail := y.tail)
    ensures AuthorityText(x) == AuthorityText(y) && (IsAuthority(x) <==> IsAuthority(y))
  {
  }

  /** Without an authority only a path or nothing is accepted, unless the struct held a host before. */
  lemma AcceptedWithout(connect: bool, u: Parts, t: Bytes, y: Cut)
    requires ScanAll(connect, u, t).s != S_DEAD && IsCut(connect, ScanAll(connect, u, t).s, y) && CutText(y) == t
    requires FoundIn(u, ScanAll(connect, u, t), y) && y.server == [] && ParseUrl(t, connect, u).ok
    requires UrlPartition.HostMissing(t, connect) ==> u.data[UF_HOST].len == 0
    ensures !connect && (t == [] || IsTail(t, "/*"))
  {
    hide ScanAll, UrlTarget.StateAt, Only, OneOf, UrlPartition.HostMissing;
    UrlPartition.ConnectScan(t, connect, u);
    if y.scheme == [] && !connect {
      assert t == y.tail;
    }
  }

  /** `http_parser_parse_url` accepts a text below 64 KiB if and only if it is one of these. A text with a
      scheme and no host needs a struct in which no host was found before. */
  lemma UrlExactly(connect: bool, u: Parts, t: Bytes)
    requires |t| < 65536 && (UrlPartition.HostMissing(t, connect) ==> u.data[UF_HOST].len == 0)
    ensures ParseUrl(t, connect, u).ok <==> IsAccepted(connect, t)
  {
    hide ScanAll, HostAll, IsCut, FoundIn, IsUrl, UrlText, CutText, IsTail, OnlyHostAndPort, ParserFraming.Decimal;
    if ParseUrl(t, connect, u).ok {
      assert ScanAll(connect, u, t).s != S_DEAD;
      var y := ScanCut(connect, u, t);
      if y.server == [] {
        AcceptedWithout(connect, u, t, y);
      } else {
        ServerCut(connect, ScanAll(connect, u, t).s, y);
        var x := AcceptedAuthority(connect, u, t, y);
        UrlParts(connect, u, x);
      }
    }
    if IsAccepted(connect, t) {
      if !connect && (t == [] || IsTail(t, "/*")) {
        OriginAccepted(u, t);
      } else {
        var x :| IsUrl(connect, x) && UrlText(x) == t && ParserFraming.Decimal(x.port) <= 0xffff
                 && (connect ==> OnlyHostAndPort(x));
        UrlParts(connect, u, x);
      }
    }
  }

  lemma ServerCut(connect: bool, s: State, y: Cut)
    requires IsCut(connect, s, y) && y.server != []
    ensures IsPrefix(connect, y) && IsServer(y.server) && (y.tail == [] || IsTail(y.tail, "/?"))
  {
    hide IsServer, IsTail;
  }
}
