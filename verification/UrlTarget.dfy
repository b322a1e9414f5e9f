/** Request targets that start with '/': what the URL parser lets through, and what `url_path()`,
    `url_query()` and `url_fragment()` then give. */
module UrlTarget {
  import opened Ascii
  import opened ParserTypes
  import opened HttpGrammar
  import opened UrlParser

  predicate IsTarget(t: Bytes) {
    t != [] && t[0] == SLASH && forall i :: 0 < i < |t| ==> TargetByte(t[i])
  }

  predicate Ends(b: Byte, query: bool) { b == HASH || (query && b == QMARK) }

  /** The first '#' from `i` on, or the first '?' or '#'. */
  function Until(t: Bytes, i: nat, query: bool): nat
    decreases |t| - i
  {
    if i >= |t| || Ends(t[i], query) then i else Until(t, i + 1, query)
  }

  function PastHashes(t: Bytes, i: nat): nat
    decreases |t| - i
  {
    if i < |t| && t[i] == HASH then PastHashes(t, i + 1) else i
  }

  function PathEnd(t: Bytes): nat { Until(t, 0, true) }

  function QueryEnd(t: Bytes): nat {
    if PathEnd(t) < |t| && t[PathEnd(t)] == QMARK then Until(t, PathEnd(t) + 1, false) else PathEnd(t)
  }

  function FragmentStart(t: Bytes): nat { PastHashes(t, QueryEnd(t)) }

  lemma {:induction false} UntilBounds(t: Bytes, i: nat, query: bool)
    requires i <= |t|
    ensures i <= Until(t, i, query) <= |t|
    ensures Until(t, i, query) < |t| ==> Ends(t[Until(t, i, query)], query)
    decreases |t| - i
  {
    if i < |t| && !Ends(t[i], query) {
      UntilBounds(t, i + 1, query);
    }
  }

  lemma {:induction false} PastHashesBounds(t: Bytes, i: nat)
    requires i <= |t|
    ensures i <= PastHashes(t, i) <= |t|
    decreases |t| - i
  {
    if i < |t| && t[i] == HASH {
      PastHashesBounds(t, i + 1);
    }
  }

  lemma Bounds(t: Bytes)
    ensures PathEnd(t) <= QueryEnd(t) <= FragmentStart(t) <= |t|
    ensures PathEnd(t) < |t| ==> Ends(t[PathEnd(t)], true)
    ensures QueryEnd(t) < |t| ==> t[QueryEnd(t)] == HASH
  {
    UntilBounds(t, 0, true);
    if PathEnd(t) < |t| {
      UntilBounds(t, PathEnd(t) + 1, false);
    }
    PastHashesBounds(t, QueryEnd(t));
  }

  /** The text `std::string(url, off, len)`. */
  function Substring(t: Bytes, p: Span): Bytes
    requires p.off <= |t|
  {
    if p.End() <= |t| then t[p.off..p.End()] else t[p.off..]
  }

  /** The path, query and fragment of a target, by its text. */
  function PathOf(t: Bytes): Bytes
  {
    Bounds(t);
    t[..PathEnd(t)]
  }

  function QueryOf(t: Bytes): Bytes
  {
    Bounds(t);
    if PathEnd(t) + 1 < QueryEnd(t) then t[PathEnd(t) + 1..QueryEnd(t)] else []
  }

  function FragmentOf(t: Bytes): Bytes
  {
    Bounds(t);
    t[FragmentStart(t)..]
  }

  // ---------------------------------------------------------------- one more byte

  lemma {:induction false} UntilAppend(t: Bytes, b: Byte, i: nat, query: bool)
    requires i <= |t|
    ensures var n := Until(t, i, query);
      Until(t + [b], i, query) == if n < |t| then n else if Ends(b, query) then |t| else |t| + 1
    decreases |t| - i
  {
    if i < |t| && !Ends(t[i], query) {
      UntilAppend(t, b, i + 1, query);
    }
  }

  lemma {:induction false} PastHashesAppend(t: Bytes, b: Byte, i: nat)
    requires i <= |t|
    ensures var n := PastHashes(t, i);
      PastHashes(t + [b], i) == if n < |t| then n else if b == HASH then |t| + 1 else |t|
    decreases |t| - i
  {
    if i < |t| && t[i] == HASH {
      PastHashesAppend(t, b, i + 1);
    }
  }

  lemma PathEndAppend(t: Bytes, b: Byte)
    ensures PathEnd(t + [b]) == if PathEnd(t) < |t| then PathEnd(t) else if Ends(b, true) then |t| else |t| + 1
  {
    UntilAppend(t, b, 0, true);
  }

  lemma QueryEndAppend(t: Bytes, b: Byte)
    ensures QueryEnd(t + [b]) == if QueryEnd(t) < |t| then QueryEnd(t) else if b == HASH then |t| else |t| + 1
  {
    Bounds(t);
    PathEndAppend(t, b);
    if PathEnd(t) < |t| {
      UntilAppend(t, b, PathEnd(t) + 1, false);
    }
  }

  lemma FragmentStartAppend(t: Bytes, b: Byte)
    ensures FragmentStart(t + [b]) ==
      if FragmentStart(t) < |t| then FragmentStart(t) else if QueryEnd(t) < |t| && b != HASH then |t| else |t| + 1
  {
    Bounds(t);
    QueryEndAppend(t, b);
    PastHashesAppend(t, b, QueryEnd(t));
  }

  // ---------------------------------------------------------------- the parts found

  function StateAt(t: Bytes): State {
    if PathEnd(t) == |t| then S_REQ_PATH
    else if QueryEnd(t) == |t| then if PathEnd(t) + 1 == |t| then S_REQ_QUERY_STRING_START else S_REQ_QUERY_STRING
    else if FragmentStart(t) == |t| then S_REQ_FRAGMENT_START
    else S_REQ_FRAGMENT
  }

  predicate QueryFound(t: Bytes, c: Scan) {
    var n, m := PathEnd(t), QueryEnd(t);
    if n + 1 < m then UF_QUERY in c.u.found && c.u.data[UF_QUERY] == Span(Wrap(n + 1), Wrap(m - n - 1))
    else UF_QUERY !in c.u.found
  }

  predicate FragmentFound(t: Bytes, c: Scan) {
    var j := FragmentStart(t);
    if j < |t| then UF_FRAGMENT in c.u.found && c.u.data[UF_FRAGMENT] == Span(Wrap(j), Wrap(|t| - j))
    else UF_FRAGMENT !in c.u.found
  }

  predicate TargetFound(t: Bytes, c: Scan) {
    c.s == StateAt(t)
    && c.last == (if FragmentStart(t) < |t| then UF_FRAGMENT
                  else if PathEnd(t) + 1 < QueryEnd(t) then UF_QUERY
                  else UF_PATH)
    && UF_PATH in c.u.found && c.u.found <= {UF_PATH, UF_QUERY, UF_FRAGMENT}
    && c.u.data[UF_PATH] == Span(0, Wrap(PathEnd(t)))
    && QueryFound(t, c) && FragmentFound(t, c)
  }

  lemma WrapMore(n: nat)
    ensures Wrap(Wrap(n) + 1) == Wrap(n + 1)
  {
  }

  /** The next state, where there is one. */
  lemma NextState(t: Bytes, b: Byte)
    ensures UrlChar(StateAt(t), b) == if TargetByte(b) then StateAt(t + [b]) else S_DEAD
  {
    hide Until, PastHashes, PathEnd, QueryEnd, FragmentStart, IsUserinfoChar;
    Bounds(t);
    Bounds(t + [b]);
    PathEndAppend(t, b);
    QueryEndAppend(t, b);
    FragmentStartAppend(t, b);
  }

  lemma TargetStep(t: Bytes, c: Scan, b: Byte)
    requires TargetFound(t, c) && TargetByte(b)
    ensures TargetFound(t + [b], ScanByte(c, |t|, b))
  {
    hide Until, PastHashes, PathEnd, QueryEnd, FragmentStart, UrlChar, Wrap, TargetByte;
    NextState(t, b);
    Bounds(t);
    Bounds(t + [b]);
    PathEndAppend(t, b);
    QueryEndAppend(t, b);
    FragmentStartAppend(t, b);
    WrapMore(PathEnd(t));
    WrapMore(|t| - FragmentStart(t));
    if PathEnd(t) < QueryEnd(t) {
      WrapMore(QueryEnd(t) - PathEnd(t) - 1);
    }
    assert Wrap(1) == 1 by { WrapOne(); }
  }

  lemma WrapOne()
    ensures Wrap(1) == 1 && Wrap(0) == 0
  {
  }

  /** The first pass over a target: it gets through exactly the targets, and finds their parts. */
  lemma {:induction false} TargetScanned(connect: bool, u: Parts, t: Bytes)
    requires t != [] && t[0] == SLASH
    ensures ScanAll(connect, u, t).s != S_DEAD <==> IsTarget(t)
    ensures IsTarget(t) ==> TargetFound(t, ScanAll(connect, u, t))
  {
    hide UrlChar, TargetFound, StateAt;
    var f, b := t[..|t| - 1], t[|t| - 1];
    if |t| == 1 {
      SlashScanned(connect, u);
      assert t == [SLASH];
    } else {
      TargetScanned(connect, u, f);
      assert t == f + [b];
      var c := ScanAll(connect, u, f);
      if IsTarget(f) {
        assert c.s == StateAt(f) by { FoundState(f, c); }
        NextState(f, b);
        if TargetByte(b) {
          TargetStep(f, c, b);
          FoundState(t, ScanAll(connect, u, t));
        } else {
          assert t[|t| - 1] == b;
        }
      } else {
        assert UrlChar(S_DEAD, b) == S_DEAD by { DeadStays(b); }
      }
    }
  }

  lemma FoundState(t: Bytes, c: Scan)
    requires TargetFound(t, c)
    ensures c.s == StateAt(t) && c.s != S_DEAD
  {
  }

  lemma DeadStays(b: Byte)
    ensures UrlChar(S_DEAD, b) == S_DEAD
  {
  }

  lemma SlashScanned(connect: bool, u: Parts)
    ensures TargetFound([SLASH], ScanAll(connect, u, [SLASH])) && ScanAll(connect, u, [SLASH]).s != S_DEAD
  {
    assert [SLASH][..0] == [];
    assert Until([SLASH], 1, true) == 1 && PathEnd([SLASH]) == 1;
    assert ScanAll(connect, u, [SLASH]) == ScanByte(ScanFrom(connect, u), 0, SLASH);
    assert UrlChar(ScanFrom(connect, u).s, SLASH) == S_REQ_PATH;
  }

  /** What `HttpRequest` keeps for a target, parsed as if it were that of a CONNECT. */
  function Kept(t: Bytes, u: Parts): Parts { ParseUrl(t, true, u).u }

  /** url_path() and the others: a part that was not found is the empty string. */
  function PartOf(t: Bytes, v: Parts, f: Field): Bytes
    requires 0 <= f < UF_MAX && (f in v.found ==> v.data[f].off <= |t|)
  {
    if f in v.found then Substring(t, v.data[f]) else []
  }

  lemma KeptIs(t: Bytes, u: Parts)
    requires IsTarget(t)
    ensures Kept(t, u) == ScanAll(true, u, t).u && TargetFound(t, ScanAll(true, u, t))
    ensures !ParseUrl(t, true, u).ok
  {
    hide ScanAll, StateAt;
    TargetScanned(true, u, t);
  }

  lemma WrapSmaller(n: nat)
    ensures Wrap(n) <= n && (Wrap(n) == n <==> n < UINT16_SIZE)
  {
  }

  /** url_path() is the text before the first '?' or '#' exactly when that is below 65536 bytes long,
      although the call reports failure. */
  lemma UrlPath(t: Bytes, u: Parts)
    requires IsTarget(t)
    ensures !ParseUrl(t, true, u).ok && UF_PATH in Kept(t, u).found && Kept(t, u).data[UF_PATH].off <= |t|
    ensures PartOf(t, Kept(t, u), UF_PATH) == PathOf(t) <==> |PathOf(t)| < 65536
  {
    hide Wrap, PathEnd, StateAt, ScanAll, ParseUrl;
    KeptIs(t, u);
    Bounds(t);
    WrapSmaller(PathEnd(t));
  }

  /** A text that starts at `off` is found again by an offset and a length of 16 bits: its length fits, and
      its offset fits or the same bytes stand at the wrapped offset. */
  predicate FoundAgain(t: Bytes, x: Bytes, off: nat) {
    x == []
    || (|x| < UINT16_SIZE
        && (off < UINT16_SIZE || (Wrap(off) + |x| <= |t| && t[Wrap(off)..Wrap(off) + |x|] == x)))
  }

  lemma TakenAgain(t: Bytes, off: nat, end: nat)
    requires off < end <= |t|
    ensures Wrap(off) <= |t|
    ensures Substring(t, Span(Wrap(off), Wrap(end - off))) == t[off..end] <==> FoundAgain(t, t[off..end], off)
  {
    hide Wrap;
    WrapSmaller(off);
    WrapSmaller(end - off);
    var got := Substring(t, Span(Wrap(off), Wrap(end - off)));
    if end - off >= UINT16_SIZE {
      assert |got| < end - off;
    }
  }

  /** url_query() is the text between the '?' that ends the path and the next '#', and url_fragment() what
      follows the '#'s, exactly if they are found again by 16-bit offsets and lengths: always while those
      fit, never when the length does not, and else if the text also stands at the wrapped offset. */
  lemma UrlQueryAndFragment(t: Bytes, u: Parts)
    requires IsTarget(t)
    ensures var v := Kept(t, u);
      && (UF_QUERY in v.found ==> v.data[UF_QUERY].off <= |t|)
      && (UF_FRAGMENT in v.found ==> v.data[UF_FRAGMENT].off <= |t|)
    ensures PartOf(t, Kept(t, u), UF_QUERY) == QueryOf(t) <==> FoundAgain(t, QueryOf(t), PathEnd(t) + 1)
    ensures PartOf(t, Kept(t, u), UF_FRAGMENT) == FragmentOf(t) <==> FoundAgain(t, FragmentOf(t), FragmentStart(t))
  {
    hide Wrap, PathEnd, QueryEnd, FragmentStart, StateAt, ScanAll, ParseUrl, Substring;
    KeptIs(t, u);
    Bounds(t);
    var n, m, j := PathEnd(t), QueryEnd(t), FragmentStart(t);
    if n + 1 < m {
      TakenAgain(t, n + 1, m);
    }
    if j < |t| {
      TakenAgain(t, j, |t|);
      assert t[j..|t|] == t[j..];
    }
  }

  /** The states of the parser inside a path, query or fragment. */
  predicate InTarget(s: State) { S_REQ_PATH <= s <= S_REQ_FRAGMENT }
}
