/** A URL that is accepted is cut into its parts: nothing is lost and nothing counted twice. */
module UrlPartition {
  import opened Ascii
  import opened ParserTypes
  import opened UrlParser
  import ParserFraming
  import HttpGrammar
  import UrlTarget

  /** Where a part stands in a URL. */
  function Place(f: Field): int { if f == UF_USERINFO then 1 else if f == UF_SCHEMA then 0 else f + 1 }

  predicate IsDelimiter(b: Byte) {
    b == COLON || b == SLASH || b == AT || b == LBRACKET || b == RBRACKET || b == QMARK || b == HASH
  }

  predicate In(u: Parts, f: Field, i: int) { 0 <= f < UF_MAX && f in u.found && u.data[f].Has(i) }

  ghost predicate Covered(u: Parts, i: int) { exists f :: In(u, f, i) }

  /** Every part found is a non-empty piece of `buf`. */
  predicate Pieces(u: Parts, n: nat) {
    forall f :: f in u.found ==> 0 <= f < UF_MAX && 0 < u.data[f].len && u.data[f].End() <= n
  }

  /** The parts stand in the order scheme, user, host, port, path, query, fragment, without overlap. */
  predicate InOrder(u: Parts)
    requires forall f :: f in u.found ==> 0 <= f < UF_MAX
  {
    forall f, g :: f in u.found && g in u.found && Place(f) < Place(g) ==> u.data[f].End() <= u.data[g].off
  }

  ghost predicate Complete(buf: Bytes, u: Parts, from: int, to: int)
    requires 0 <= from <= to <= |buf|
  {
    forall i :: from <= i < to ==> IsDelimiter(buf[i]) || Covered(u, i)
  }

  predicate PortRight(buf: Bytes, u: Parts)
    requires Pieces(u, |buf|)
  {
    if UF_PORT in u.found then
      u.port == ParserFraming.Decimal(buf[u.data[UF_PORT].off..u.data[UF_PORT].End()]) <= 0xffff
    else u.port == 0
  }

  /** The parts are pieces of `buf` in order that leave out delimiters only, the port is the value of
      its text, and a URL with a scheme has a host. */
  ghost predicate Partition(buf: Bytes, u: Parts) {
    Pieces(u, |buf|) && InOrder(u) && Complete(buf, u, 0, |buf|) && PortRight(buf, u)
    && (UF_SCHEMA in u.found ==> UF_HOST in u.found)
  }

  // ---------------------------------------------------------------- the first pass

  /** The state in which a part is first marked. */
  function Entry(f: Field): State {
    if f == UF_SCHEMA then S_REQ_SCHEMA
    else if f == UF_HOST then S_REQ_SERVER
    else if f == UF_PATH then S_REQ_PATH
    else if f == UF_QUERY then S_REQ_QUERY_STRING
    else S_REQ_FRAGMENT
  }

  predicate Scanned(f: Field) { f == UF_SCHEMA || f == UF_HOST || f == UF_PATH || f == UF_QUERY || f == UF_FRAGMENT }

  predicate ScanState(s: State) {
    S_REQ_SPACES_BEFORE_URL <= s <= S_REQ_SERVER_WITH_AT || S_REQ_PATH <= s <= S_REQ_FRAGMENT
  }

  /** The parts marked so far are behind the state, and the one the state stands in ends here. */
  predicate Behind(c: Scan, k: nat) {
    (forall f :: f in c.u.found ==>
                   Scanned(f) && Entry(f) <= c.s && 0 < c.u.data[f].len && c.u.data[f].End() <= k
                   && (f != FieldOf(c.s) ==> c.u.data[f].End() < k))
    && (c.last == UF_MAX || c.last in c.u.found)
    && (FieldOf(c.s) != UF_MAX ==>
          c.last == FieldOf(c.s) && c.last in c.u.found && c.u.data[c.last].End() == k)
  }

  /** What follows the host, and what stands before it. */
  predicate Around(buf: Bytes, c: Scan, k: nat)
    requires k <= |buf|
  {
    (c.at ==> UF_HOST in c.u.found)
    && (c.s == S_REQ_SPACES_BEFORE_URL ==> k == 0)
    && (UF_HOST in c.u.found && c.u.data[UF_HOST].End() < k ==>
          var b := buf[c.u.data[UF_HOST].End()]; b == SLASH || b == QMARK)
    && (UF_SCHEMA in c.u.found ==> c.u.data[UF_SCHEMA].off == 0 && 0 < k && IsAlpha(buf[0]))
  }

  ghost predicate ScanInv(buf: Bytes, k: nat, c: Scan)
    requires k <= |buf|
  {
    ScanState(c.s) && Behind(c, k) && InOrder(c.u) && Complete(buf, c.u, 0, k) && Around(buf, c, k)
  }

  lemma NextState(s: State, b: Byte)
    requires ScanState(s) && UrlChar(s, b) != S_DEAD
    ensures var t := UrlChar(s, b);
      ScanState(t) && (FieldOf(t) == UF_MAX ==> s <= t)
      && (FieldOf(t) == UF_MAX ==> IsDelimiter(b) && (FieldOf(s) == UF_HOST ==> b == QMARK))
      && (FieldOf(t) != UF_MAX ==> FieldOf(t) == FieldOf(s) || s < Entry(FieldOf(t)))
      && (FieldOf(t) != UF_MAX ==> Scanned(FieldOf(t)) && Entry(FieldOf(t)) <= t)
      && s <= t + 1 && t != S_REQ_SPACES_BEFORE_URL
      && (FieldOf(s) == UF_HOST && FieldOf(t) != UF_HOST ==> b == SLASH || b == QMARK)
      && (FieldOf(t) == UF_SCHEMA ==> IsAlpha(b) && (FieldOf(s) == UF_SCHEMA || s == S_REQ_SPACES_BEFORE_URL))
  {
  }

  /** Marking keeps what was covered and covers the byte at `i`. */
  lemma MarkCovers(buf: Bytes, u: Parts, last: Field, f: Field, k: nat)
    requires k < |buf| < UINT16_SIZE && 0 <= f < UF_MAX && Complete(buf, u, 0, k)
    requires f == last ==> f in u.found && u.data[f].End() == k && 0 < u.data[f].len
    requires f != last ==> f !in u.found
    ensures Complete(buf, Mark(u, last, f, k), 0, k + 1)
  {
    var v := Mark(u, last, f, k);
    forall i | 0 <= i < k + 1 ensures IsDelimiter(buf[i]) || Covered(v, i) {
      if i == k {
        assert In(v, f, k);
      } else if !IsDelimiter(buf[i]) {
        var g :| In(u, g, i);
        assert In(v, g, i);
      }
    }
  }

  /** The part a state enters is the last one marked, or is new and stands after all of them. */
  lemma LastOrNew(c: Scan, t: State, k: nat)
    requires Behind(c, k) && Scanned(FieldOf(t))
    requires FieldOf(t) == FieldOf(c.s) || c.s < Entry(FieldOf(t))
    ensures var f := FieldOf(t);
      (forall g :: g in c.u.found ==> Place(g) <= Place(f))
      && if f == FieldOf(c.s) then f == c.last && f in c.u.found && c.u.data[f].End() == k
         else f != c.last && f !in c.u.found
  {
  }

  /** What a mark does while no length or offset wraps. */
  function Marked(u: Parts, last: Field, f: Field, k: nat): Span
    requires 0 <= f < UF_MAX
  {
    if f == last then Span(u.data[f].off, u.data[f].len + 1) else Span(k, 1)
  }

  lemma NoWrap(n: nat)
    requires n < UINT16_SIZE
    ensures Wrap(n) == n
  {
  }

  lemma MarkIs(u: Parts, last: Field, f: Field, k: nat)
    requires k < UINT16_SIZE - 1 && 0 <= f < UF_MAX && (f == last ==> f in u.found && u.data[f].End() == k)
    ensures Mark(u, last, f, k) == u.(found := u.found + {f}, data := u.data[f := Marked(u, last, f, k)])
  {
    if f == last {
      assert u.found + {f} == u.found;
    }
  }

  lemma MarkOrdered(u: Parts, last: Field, f: Field, k: nat)
    requires k < UINT16_SIZE - 1 && 0 <= f < UF_MAX && Pieces(u, k) && InOrder(u)
    requires forall g :: g in u.found ==> Place(g) <= Place(f)
    requires if f == last then f in u.found && u.data[f].End() == k else f !in u.found
    ensures Pieces(Mark(u, last, f, k), k + 1) && InOrder(Mark(u, last, f, k))
  {
    hide Place, Mark;
    MarkIs(u, last, f, k);
    var v := Mark(u, last, f, k);
    forall g, h | g in v.found && h in v.found && Place(g) < Place(h) ensures v.data[g].End() <= v.data[h].off {
      if h == f {
        assert v.data[g] == u.data[g];
      }
    }
  }

  lemma MarkBehind(c: Scan, t: State, k: nat)
    requires k < UINT16_SIZE - 1 && Behind(c, k)
    requires Scanned(FieldOf(t)) && Entry(FieldOf(t)) <= t && c.s <= t + 1
    requires FieldOf(t) == FieldOf(c.s) || c.s < Entry(FieldOf(t))
    ensures Behind(Scan(t, FieldOf(t), c.at || t == S_REQ_SERVER_WITH_AT, Mark(c.u, c.last, FieldOf(t), k)), k + 1)
  {
    hide Mark;
    LastOrNew(c, t, k);
    MarkIs(c.u, c.last, FieldOf(t), k);
  }

  lemma ScanStep(buf: Bytes, k: nat, c: Scan)
    requires k < |buf| < UINT16_SIZE && ScanInv(buf, k, c) && UrlChar(c.s, buf[k]) != S_DEAD
    ensures ScanInv(buf, k + 1, ScanByte(c, k, buf[k]))
  {
    hide UrlChar, ScanInv, Mark;
    if FieldOf(UrlChar(c.s, buf[k])) == UF_MAX {
      DelimiterStep(buf, k, c);
    } else {
      FieldStep(buf, k, c);
    }
  }

  lemma DelimiterStep(buf: Bytes, k: nat, c: Scan)
    requires k < |buf| < UINT16_SIZE && ScanInv(buf, k, c) && UrlChar(c.s, buf[k]) != S_DEAD
    requires FieldOf(UrlChar(c.s, buf[k])) == UF_MAX
    ensures ScanInv(buf, k + 1, c.(s := UrlChar(c.s, buf[k])))
  {
    hide UrlChar, Complete, InOrder;
    NextState(c.s, buf[k]);
    Wider(buf, c.u, k);
  }

  lemma FieldStep(buf: Bytes, k: nat, c: Scan)
    requires k < |buf| < UINT16_SIZE && ScanInv(buf, k, c) && UrlChar(c.s, buf[k]) != S_DEAD
    requires FieldOf(UrlChar(c.s, buf[k])) != UF_MAX
    ensures ScanInv(buf, k + 1, ScanByte(c, k, buf[k]))
  {
    hide UrlChar, Complete, InOrder, Mark, Behind, Around;
    NextState(c.s, buf[k]);
    var t := UrlChar(c.s, buf[k]);
    LastOrNew(c, t, k);
    MarkBehind(c, t, k);
    BehindPieces(c, k);
    MarkOrdered(c.u, c.last, FieldOf(t), k);
    MarkCovers(buf, c.u, c.last, FieldOf(t), k);
    MarkAround(buf, c, t, k);
  }

  lemma BehindPieces(c: Scan, k: nat)
    requires Behind(c, k)
    ensures Pieces(c.u, k)
    ensures c.last == FieldOf(c.s) != UF_MAX ==>
              c.last in c.u.found && c.u.data[c.last].End() == k && 0 < c.u.data[c.last].len
  {
  }

  lemma MarkAround(buf: Bytes, c: Scan, t: State, k: nat)
    requires k < |buf| < UINT16_SIZE && Behind(c, k) && Around(buf, c, k) && t == UrlChar(c.s, buf[k])
    requires ScanState(c.s) && Scanned(FieldOf(t))
    ensures Around(buf, Scan(t, FieldOf(t), c.at || t == S_REQ_SERVER_WITH_AT, Mark(c.u, c.last, FieldOf(t), k)), k + 1)
  {
    hide UrlChar, Mark;
    NextState(c.s, buf[k]);
    LastOrNew(c, t, k);
    MarkIs(c.u, c.last, FieldOf(t), k);
  }

  lemma Wider(buf: Bytes, u: Parts, k: nat)
    requires k < |buf| && IsDelimiter(buf[k]) && Complete(buf, u, 0, k)
    ensures Complete(buf, u, 0, k + 1)
  {
  }

  /** The parts not found are as they were before. */
  predicate Untouched(u: Parts, v: Parts) {
    v.port == 0 && forall f :: 0 <= f < UF_MAX && f !in v.found ==> v.data[f] == u.data[f]
  }

  lemma {:induction false} ScanHolds(connect: bool, u: Parts, buf: Bytes, k: nat)
    requires k <= |buf| < UINT16_SIZE && ScanAll(connect, u, buf[..k]).s != S_DEAD
    ensures ScanInv(buf, k, ScanAll(connect, u, buf[..k])) && Untouched(u, ScanAll(connect, u, buf[..k]).u)
  {
    hide UrlChar, ScanInv;
    if k == 0 {
      ScanStarts(connect, u, buf);
    } else {
      assert buf[..k][..k - 1] == buf[..k - 1];
      var c := ScanAll(connect, u, buf[..k - 1]);
      DeadStays(c, k - 1, buf[k - 1]);
      ScanHolds(connect, u, buf, k - 1);
      ScanStep(buf, k - 1, c);
      UntouchedStep(u, buf, c, k - 1);
    }
  }

  lemma UntouchedStep(u: Parts, buf: Bytes, c: Scan, k: nat)
    requires k < |buf| && Untouched(u, c.u) && ScanInv(buf, k, c)
    ensures Untouched(u, ScanByte(c, k, buf[k]).u)
  {
    hide UrlChar, InOrder, Complete, Around;
  }

  lemma ScanStarts(connect: bool, u: Parts, buf: Bytes)
    ensures ScanInv(buf, 0, ScanFrom(connect, u)) && Untouched(u, ScanFrom(connect, u).u)
  {
  }

  lemma DeadStays(c: Scan, i: nat, b: Byte)
    requires ScanByte(c, i, b).s != S_DEAD
    ensures c.s != S_DEAD && UrlChar(c.s, b) != S_DEAD
  {
  }

  // ---------------------------------------------------------------- the authority

  predicate UserinfoShape(s: HostState, v: Parts, from: nat, p: nat) {
    var w := v.data[UF_USERINFO];
    (s == HS_USERINFO_START ==> p == from && UF_USERINFO !in v.found)
    && (UF_USERINFO in v.found ==> from <= w.off && 0 < w.len && w.End() <= p)
    && (s == HS_USERINFO ==> UF_USERINFO in v.found && w.End() == p)
  }

  predicate HostShape(s: HostState, v: Parts, from: nat, p: nat) {
    var h := v.data[UF_HOST];
    if s <= HS_HOST_V6_START then h.len == 0
    else
      0 < h.len && from <= h.off && h.End() <= p
      && (UF_USERINFO in v.found ==> v.data[UF_USERINFO].End() <= h.off)
      && (s <= HS_HOST_V6 ==> h.End() == p)
  }

  predicate PortShape(buf: Bytes, s: HostState, v: Parts, p: nat) {
    var n := v.data[UF_PORT];
    (UF_PORT in v.found <==> s == HS_PORT)
    && (s == HS_PORT ==>
          0 < n.len && v.data[UF_HOST].End() <= n.off && n.End() == p
          && forall i :: n.off <= i < n.End() ==> IsDigit(At(buf, i)))
  }

  predicate Shape(buf: Bytes, h: HostScan, from: nat, p: nat) {
    HS_USERINFO_START <= h.s <= HS_PORT && from <= p
    && UserinfoShape(h.s, h.u, from, p) && HostShape(h.s, h.u, from, p) && PortShape(buf, h.s, h.u, p)
  }

  /** The step of the machine, turned around: what can lead to the state `t`. */
  lemma HostTurn(s: HostState, b: Byte)
    requires HS_USERINFO_START <= s <= HS_PORT && HostChar(s, b) != HS_DEAD
    ensures var t := HostChar(s, b);
      HS_USERINFO < t <= HS_PORT || (t == HS_USERINFO && s <= t)
    ensures var t := HostChar(s, b);
      (t == HS_HOST_START ==> s <= HS_USERINFO && b == AT)
      && (t == HS_HOST_V6_START ==> s == HS_HOST_START && b == LBRACKET)
      && (t == HS_HOST ==> s == HS_HOST_START || s == t)
      && (t == HS_HOST_V6 ==> s == HS_HOST_V6_START || s == t)
      && (t == HS_HOST_V6_END ==> s == HS_HOST_V6 && b == RBRACKET)
      && (t == HS_PORT_START ==> (s == HS_HOST || s == HS_HOST_V6_END) && b == COLON)
      && (t == HS_PORT ==> (s == HS_PORT_START || s == t) && IsDigit(b))
  {
  }

  /** The part that a byte leading to state `t` belongs to; UF_MAX for a delimiter. */
  function HostFieldOf(t: HostState): Field {
    if t == HS_HOST || t == HS_HOST_V6 then UF_HOST
    else if t == HS_PORT then UF_PORT
    else if t == HS_USERINFO then UF_USERINFO
    else UF_MAX
  }

  /** What the marks of the second pass do while no length or offset wraps. */
  lemma HostMarkIs(buf: Bytes, h: HostScan, t: HostState, from: nat, p: nat)
    requires p < UINT16_SIZE - 1 && Shape(buf, h, from, p) && UF_HOST in h.u.found
    requires (t == HS_HOST ==> h.s == HS_HOST_START || h.s == t)
    requires (t == HS_HOST_V6 ==> h.s == HS_HOST_V6_START || h.s == t)
    ensures var f := HostFieldOf(t);
      if f == UF_MAX then HostMark(h.u, t, t == h.s, p) == h.u
      else
        HostMark(h.u, t, t == h.s, p) ==
        h.u.(found := h.u.found + {f},
             data := h.u.data[f := if t == h.s then Span(h.u.data[f].off, h.u.data[f].len + 1) else Span(p, 1)])
  {
    hide Wrap, IsDigit, At;
    var f := HostFieldOf(t);
    NoWrap(p);
    NoWrap(1);
    if f != UF_MAX && t == h.s {
      NoWrap(h.u.data[f].len + 1);
    }
    if f == UF_HOST || (f != UF_MAX && t == h.s) {
      assert h.u.found + {f} == h.u.found;
    }
  }

  lemma ShapeStep(buf: Bytes, h: HostScan, from: nat, p: nat)
    requires p < UINT16_SIZE - 1 && Shape(buf, h, from, p) && UF_HOST in h.u.found
    requires HostChar(h.s, At(buf, p)) != HS_DEAD
    ensures Shape(buf, HostByte(h, p, At(buf, p)), from, p + 1)
  {
    hide HostChar, HostMark, At, IsDigit;
    HostTurn(h.s, At(buf, p));
    HostMarkIs(buf, h, HostChar(h.s, At(buf, p)), from, p);
  }

  /** The second pass adds a port and a user, changes the host, and nothing else. */
  predicate OnlyAuthority(u: Parts, v: Parts) {
    v.port == u.port
    && (forall f :: f in v.found ==> f in u.found || f == UF_PORT || f == UF_USERINFO)
    && (forall f :: f in u.found ==> f in v.found)
    && (forall f :: 0 <= f < UF_MAX && f != UF_HOST && f != UF_PORT && f != UF_USERINFO ==> v.data[f] == u.data[f])
  }

  ghost predicate HostInv(buf: Bytes, u: Parts, h: HostScan, p: nat)
    requires u.data[UF_HOST].off <= p <= |buf|
  {
    Shape(buf, h, u.data[UF_HOST].off, p) && OnlyAuthority(u, h.u)
    && Complete(buf, h.u, u.data[UF_HOST].off, p)
  }

  /** The byte at `p` falls into the part its state names, or is a delimiter. */
  lemma HostCovers(buf: Bytes, h: HostScan, from: nat, p: nat)
    requires from <= p < |buf| < UINT16_SIZE && Shape(buf, h, from, p) && UF_HOST in h.u.found
    requires HostChar(h.s, buf[p]) != HS_DEAD && Complete(buf, h.u, from, p)
    ensures Complete(buf, HostByte(h, p, buf[p]).u, from, p + 1)
  {
    hide HostChar, HostMark;
    var t := HostChar(h.s, buf[p]);
    HostTurn(h.s, buf[p]);
    HostMarkIs(buf, h, t, from, p);
    var f, v := HostFieldOf(t), HostByte(h, p, buf[p]).u;
    forall i | from <= i < p + 1 ensures IsDelimiter(buf[i]) || Covered(v, i) {
      if i == p {
        assert f == UF_MAX || In(v, f, p);
      } else if !IsDelimiter(buf[i]) {
        var g :| In(h.u, g, i);
        assert In(v, g, i);
      }
    }
  }

  lemma OnlyAuthorityStep(u: Parts, h: HostScan, i: nat, b: Byte)
    requires OnlyAuthority(u, h.u)
    ensures OnlyAuthority(u, HostByte(h, i, b).u)
  {
    hide HostChar;
  }

  /** The first pass found a host, and no port or user yet. */
  predicate HasHost(u: Parts) { UF_HOST in u.found && UF_PORT !in u.found && UF_USERINFO !in u.found }

  lemma {:induction false} HostHolds(buf: Bytes, u: Parts, at: bool, p: nat)
    requires u.data[UF_HOST].off <= p <= |buf| < UINT16_SIZE && HasHost(u)
    requires HostAll(buf, u, at, p).s != HS_DEAD
    ensures HostInv(buf, u, HostAll(buf, u, at, p), p)
    decreases p
  {
    hide HostChar, HostMark, Complete;
    if p == u.data[UF_HOST].off {
      NothingYet(buf, HostAll(buf, u, at, p).u, p);
    } else {
      var h := HostAll(buf, u, at, p - 1);
      assert HostAll(buf, u, at, p) == HostByte(h, p - 1, buf[p - 1]);
      HostDeadStays(buf[p - 1]);
      HostHolds(buf, u, at, p - 1);
      ShapeStep(buf, h, u.data[UF_HOST].off, p - 1);
      OnlyAuthorityStep(u, h, p - 1, buf[p - 1]);
      HostCovers(buf, h, u.data[UF_HOST].off, p - 1);
    }
  }

  lemma NothingYet(buf: Bytes, u: Parts, p: nat)
    requires p <= |buf|
    ensures Complete(buf, u, p, p)
  {
  }

  lemma HostDeadStays(b: Byte)
    ensures HostChar(HS_DEAD, b) == HS_DEAD
  {
  }

  // ---------------------------------------------------------------- the port

  lemma {:induction false} NumberIs(buf: Bytes, from: nat, i: nat, end: nat)
    requires from <= i <= end <= |buf| && (forall j :: from <= j < end ==> IsDigit(buf[j]))
    requires end < |buf| ==> !IsDigit(buf[end])
    ensures Number(buf, i, ParserFraming.Decimal(buf[from..i])) == ParserFraming.Decimal(buf[from..end])
    decreases end - i
  {
    if i < end {
      var d := buf[from..i + 1];
      assert d[..|d| - 1] == buf[from..i] && d[|d| - 1] == buf[i];
      NumberIs(buf, from, i + 1, end);
    }
  }

  // ---------------------------------------------------------------- all of it

  lemma AuthorityOrdered(buf: Bytes, u: Parts, h: HostScan)
    requires HasHost(u) && (forall f :: f in u.found ==> Scanned(f)) && Pieces(u, |buf|) && InOrder(u)
    requires Shape(buf, h, u.data[UF_HOST].off, u.data[UF_HOST].End()) && OnlyAuthority(u, h.u) && HostEnds(h.s)
    ensures Pieces(h.u, |buf|) && InOrder(h.u)
  {
    var v, o := h.u, u.data[UF_HOST];
    forall f | f in v.found ensures 0 <= f < UF_MAX && 0 < v.data[f].len && v.data[f].End() <= |buf| {
      assert f in u.found || f == UF_PORT || f == UF_USERINFO;
    }
    forall f, g | f in v.found && g in v.found && Place(f) < Place(g) ensures v.data[f].End() <= v.data[g].off {
      if f in u.found && g in u.found {
        assert u.data[f].End() <= u.data[g].off;
      } else if f in u.found {
        assert f == UF_HOST || u.data[f].End() <= o.off;
      } else if g in u.found {
        assert g == UF_HOST || o.End() <= u.data[g].off;
      }
    }
  }

  lemma AuthorityComplete(buf: Bytes, u: Parts, h: HostScan)
    requires HasHost(u) && Pieces(u, |buf|) && Complete(buf, u, 0, |buf|) && OnlyAuthority(u, h.u)
    requires Complete(buf, h.u, u.data[UF_HOST].off, u.data[UF_HOST].End())
    ensures Complete(buf, h.u, 0, |buf|)
  {
    forall i | 0 <= i < |buf| && !IsDelimiter(buf[i]) ensures Covered(h.u, i) {
      var g :| In(u, g, i);
      if g != UF_HOST {
        assert In(h.u, g, i);
      }
    }
  }

  lemma PortedRight(buf: Bytes, u: Parts, connect: bool)
    requires Pieces(u, |buf|) && InOrder(u) && Complete(buf, u, 0, |buf|) && u.port == 0
    requires UF_SCHEMA in u.found ==> UF_HOST in u.found
    requires UF_PORT in u.found ==>
               (forall i :: u.data[UF_PORT].off <= i < u.data[UF_PORT].End() ==> IsDigit(buf[i]))
               && (u.data[UF_PORT].End() < |buf| ==> !IsDigit(buf[u.data[UF_PORT].End()]))
    ensures Ported(buf, u, connect).ok ==> Partition(buf, Ported(buf, u, connect).u)
  {
    hide InOrder;
    var v := Ported(buf, u, connect).u;
    if UF_PORT in u.found {
      var n := u.data[UF_PORT];
      assert buf[n.off..n.off] == [];
      NumberIs(buf, n.off, n.off, n.End());
    }
    SameCover(buf, u, v);
  }

  lemma SameCover(buf: Bytes, u: Parts, v: Parts)
    requires v == u.(port := v.port) && Pieces(u, |buf|) && InOrder(u) && Complete(buf, u, 0, |buf|)
    ensures Complete(buf, v, 0, |buf|) && InOrder(v)
  {
    forall i | 0 <= i < |buf| && !IsDelimiter(buf[i]) ensures Covered(v, i) {
      var g :| In(u, g, i);
      assert In(v, g, i);
    }
  }

  /** The first pass got through with a host, or without a scheme. */
  lemma Accepted(buf: Bytes, connect: bool, u: Parts)
    requires |buf| < UINT16_SIZE && ScanAll(connect, u, buf).s != S_DEAD
    requires UF_SCHEMA in ScanAll(connect, u, buf).u.found ==> UF_HOST in ScanAll(connect, u, buf).u.found
    ensures ParseUrl(buf, connect, u).ok ==> Partition(buf, ParseUrl(buf, connect, u).u)
  {
    hide Partition, Complete, InOrder, Ported, HostAll, ScanAll;
    assert buf[..|buf|] == buf;
    ScanHolds(connect, u, buf, |buf|);
    var c := ScanAll(connect, u, buf);
    if UF_HOST !in c.u.found {
      PortedRight(buf, c.u, connect);
    } else {
      var end := c.u.data[UF_HOST].End();
      var h := HostAll(buf, c.u, c.at, end);
      if HostEnds(h.s) {
        WithAuthority(buf, c, h, connect);
      }
    }
  }

  lemma WithAuthority(buf: Bytes, c: Scan, h: HostScan, connect: bool)
    requires |buf| < UINT16_SIZE && ScanInv(buf, |buf|, c) && UF_HOST in c.u.found && c.u.port == 0
    requires h == HostAll(buf, c.u, c.at, c.u.data[UF_HOST].End()) && HostEnds(h.s)
    ensures Ported(buf, h.u, connect).ok ==> Partition(buf, Ported(buf, h.u, connect).u)
  {
    hide Partition, Complete, InOrder, Ported, HostAll, Shape;
    HostHolds(buf, c.u, c.at, c.u.data[UF_HOST].End());
    AuthorityOrdered(buf, c.u, h);
    AuthorityComplete(buf, c.u, h);
    if UF_PORT in h.u.found {
      PortText(buf, h, c.u.data[UF_HOST].off, c.u.data[UF_HOST].End());
    }
    PortedRight(buf, h.u, connect);
  }

  lemma PortText(buf: Bytes, h: HostScan, from: nat, p: nat)
    requires p <= |buf| && Shape(buf, h, from, p) && UF_PORT in h.u.found
    ensures h.u.data[UF_PORT].End() == p && forall i :: h.u.data[UF_PORT].off <= i < p ==> IsDigit(buf[i])
  {
    forall i | h.u.data[UF_PORT].off <= i < p ensures IsDigit(buf[i]) {
      assert IsDigit(At(buf, i));
    }
  }

  const NO_SPAN := Span(0, 0)

  const BLANK := Parts({}, [NO_SPAN, NO_SPAN, NO_SPAN, NO_SPAN, NO_SPAN, NO_SPAN, NO_SPAN], 0)

  const AFTER_SCHEME: Bytes := [COLON, SLASH, SLASH]

  /** What may follow a scheme if no host does: "://" or a part of it, and then the end, or '/' or '?' and
      anything a path, query or fragment may have. */
  predicate HostlessRest(r: Bytes) {
    if |r| <= 3 then r == AFTER_SCHEME[..|r|]
    else
      r[..3] == AFTER_SCHEME && (r[3] == SLASH || r[3] == QMARK)
      && forall i :: 4 <= i < |r| ==> HttpGrammar.TargetByte(r[i])
  }

  predicate AllAlpha(s: Bytes) { forall i :: 0 <= i < |s| ==> IsAlpha(s[i]) }

  /** A scheme of `n` letters and no host. */
  predicate HostlessAt(buf: Bytes, n: int) { 0 < n <= |buf| && AllAlpha(buf[..n]) && HostlessRest(buf[n..]) }

  /** A URL, not that of a CONNECT, with a scheme and no host, by its text. */
  ghost predicate HostMissing(buf: Bytes, connect: bool) { !connect && exists n :: HostlessAt(buf, n) }

  /** The state behind such a text. */
  predicate HostlessState(s: State, r: Bytes) {
    if |r| == 0 then s == S_REQ_SCHEMA
    else if |r| == 1 then s == S_REQ_SCHEMA_SLASH
    else if |r| == 2 then s == S_REQ_SCHEMA_SLASH_SLASH
    else if |r| == 3 then s == S_REQ_SERVER_START
    else S_REQ_PATH <= s <= S_REQ_FRAGMENT
  }

  /** The first pass gets through, finding a scheme and no host. */
  predicate ScansHostless(c: Scan) { c.s != S_DEAD && UF_SCHEMA in c.u.found && UF_HOST !in c.u.found }

  lemma HostlessByte(s: State, r: Bytes, b: Byte)
    requires HostlessRest(r) && HostlessState(s, r)
    ensures var t := UrlChar(s, b);
      if HostlessRest(r + [b]) then HostlessState(t, r + [b]) && t != S_DEAD && FieldOf(t) != UF_HOST
      else t == S_DEAD || FieldOf(t) == UF_HOST || (r == [] && t == S_REQ_SCHEMA && IsAlpha(b))
  {
    var q := r + [b];
    if |r| >= 4 {
      assert q[..3] == r[..3] && q[3] == r[3];
      forall i | 4 <= i < |r| ensures q[i] == r[i] {}
      if HostlessRest(q) { assert HttpGrammar.TargetByte(q[|r|]); }
    } else if |r| == 3 {
      assert q[..3] == r;
    } else {
      assert q[|r|] == b && q[..|r|] == r;
      assert AFTER_SCHEME[..|r| + 1] == AFTER_SCHEME[..|r|] + [AFTER_SCHEME[|r|]];
    }
  }

  /** The part marked last is found, and so is the scheme while the scan is in it. */
  lemma {:induction false} LastFound(u: Parts, buf: Bytes)
    ensures var c := ScanAll(false, u, buf);
      (c.last == UF_MAX || c.last in c.u.found) && (c.s == S_REQ_SPACES_BEFORE_URL ==> buf == [])
      && (c.s == S_REQ_SCHEMA ==> UF_SCHEMA in c.u.found)
  {
    if buf != [] { LastFound(u, buf[..|buf| - 1]); }
  }

  /** One more byte keeps what is found, and adds no more than the part it is in. */
  lemma StaysFound(c: Scan, i: nat, b: Byte)
    requires c.last == UF_MAX || c.last in c.u.found
    ensures var d, f := ScanByte(c, i, b), FieldOf(UrlChar(c.s, b));
      d.s == UrlChar(c.s, b) && d.u.found == c.u.found + if f == UF_MAX then {} else {f}
  {
    hide UrlChar;
    assert c.u.found + {} == c.u.found;
    if FieldOf(UrlChar(c.s, b)) == c.last && c.last in c.u.found { assert c.u.found + {c.last} == c.u.found; }
  }

  lemma LateScheme(s: State, b: Byte)
    requires s != S_REQ_SPACES_BEFORE_URL && s != S_REQ_SCHEMA
    ensures FieldOf(UrlChar(s, b)) != UF_SCHEMA
  {
  }

  lemma RestStarts(buf: Bytes, n: int)
    requires HostlessAt(buf, n) && n < |buf|
    ensures !IsAlpha(buf[n])
  {
    var r := buf[n..];
    assert r[0] == buf[n];
    if |r| <= 3 {
      assert AFTER_SCHEME[..|r|][0] == COLON;
    } else {
      assert r[..3][0] == r[0];
    }
  }

  lemma LettersBefore(buf: Bytes, n: int, i: int)
    requires HostlessAt(buf, n) && 0 <= i < n
    ensures IsAlpha(buf[i])
  {
    assert buf[..n][i] == buf[i];
  }

  lemma OneScheme(buf: Bytes, n: int, m: int)
    requires HostlessAt(buf, n) && HostlessAt(buf, m)
    ensures n <= m
  {
    hide HostlessRest;
    if m < n {
      RestStarts(buf, m);
      LettersBefore(buf, n, m);
      assert false;
    }
  }

  /** A beginning of such a text is one. */
  lemma HostlessBefore(f: Bytes, b: Byte, n: int)
    requires f != [] && HostlessAt(f + [b], n)
    ensures if n <= |f| then HostlessAt(f, n) && HostlessRest(f[n..] + [b]) else HostlessAt(f, |f|) && IsAlpha(b)
  {
    var buf := f + [b];
    if n <= |f| {
      assert buf[..n] == f[..n] && buf[n..] == f[n..] + [b];
      ShorterRest(f[n..], b);
    } else {
      assert buf[..n] == buf && f[..|f|] == f && f[|f|..] == [];
      forall i | 0 <= i < |f| ensures IsAlpha(f[i]) { assert buf[i] == f[i]; }
      assert buf[|f|] == b;
    }
  }

  lemma ShorterRest(r: Bytes, b: Byte)
    requires HostlessRest(r + [b])
    ensures HostlessRest(r)
  {
    var q := r + [b];
    if |r| >= 4 {
      assert q[..3] == r[..3] && q[3] == r[3];
      forall i | 4 <= i < |r| ensures HttpGrammar.TargetByte(r[i]) { assert q[i] == r[i]; }
    } else if |r| == 3 {
      assert q[..3] == r;
    } else {
      assert q[..|r|] == r && AFTER_SCHEME[..|r| + 1][..|r|] == AFTER_SCHEME[..|r|];
    }
  }

  ghost predicate TextTells(u: Parts, buf: Bytes) {
    var c := ScanAll(false, u, buf);
    (forall n :: HostlessAt(buf, n) ==> ScansHostless(c) && HostlessState(c.s, buf[n..]))
    && (ScansHostless(c) ==> exists n :: HostlessAt(buf, n))
  }

  /** The text says whether the first pass finds a scheme and no host. */
  lemma {:induction false} HostlessScan(u: Parts, buf: Bytes)
    ensures TextTells(u, buf)
  {
    hide UrlChar, HostlessRest, HostlessState, ScanByte;
    if buf == [] {
      assert !ScansHostless(ScanAll(false, u, buf));
    } else if |buf| == 1 {
      FirstLetter(u, buf);
    } else {
      var f, b := buf[..|buf| - 1], buf[|buf| - 1];
      assert buf == f + [b];
      HostlessScan(u, f);
      HostlessMore(u, f, b);
    }
  }

  lemma FirstLetter(u: Parts, buf: Bytes)
    requires |buf| == 1
    ensures TextTells(u, buf)
  {
    assert buf[..0] == [] && buf[..1] == buf && buf[1..] == [];
    ScanMore(u, [], buf[0]);
    assert [] + [buf[0]] == buf;
    assert ScanAll(false, u, []) == ScanFrom(false, u);
    if IsAlpha(buf[0]) { assert HostlessAt(buf, 1); }
  }

  lemma HostlessMore(u: Parts, f: Bytes, b: Byte)
    requires f != [] && TextTells(u, f)
    ensures TextTells(u, f + [b])
  {
    hide UrlChar, HostlessRest, HostlessState, ScanByte, ScanAll, AllAlpha;
    var buf := f + [b];
    var c, d := ScanAll(false, u, f), ScanAll(false, u, buf);
    assert d == ScanByte(c, |f|, b) by { ScanMore(u, f, b); }
    LastFound(u, f);
    StaysFound(c, |f|, b);
    assert UrlChar(S_DEAD, b) == S_DEAD by { UrlTarget.DeadStays(b); }
    if ScansHostless(c) {
      var n :| HostlessAt(f, n);
      HostlessFrom(c.s, f, b, n);
      forall m | HostlessAt(buf, m) ensures m == if HostlessRest(f[n..] + [b]) then n else |buf| {
        HostlessBefore(f, b, m);
        OneScheme(f, n, if m <= |f| then m else |f|);
        OneScheme(f, if m <= |f| then m else |f|, n);
        if m > |f| {
          assert f[n..] + [b] == [b];
          LetterIsNoRest(b);
        }
      }
    } else {
      if UF_SCHEMA !in c.u.found { LateScheme(c.s, b); }
      forall m | HostlessAt(buf, m) ensures false { HostlessBefore(f, b, m); }
    }
  }

  lemma LetterIsNoRest(b: Byte)
    requires IsAlpha(b)
    ensures !HostlessRest([b])
  {
    assert AFTER_SCHEME[..1] == [COLON];
  }

  lemma ScanMore(u: Parts, f: Bytes, b: Byte)
    ensures ScanAll(false, u, f + [b]) == ScanByte(ScanAll(false, u, f), |f|, b)
  {
    hide ScanByte;
    assert (f + [b])[..|f|] == f;
  }

  lemma HostlessFrom(s: State, f: Bytes, b: Byte, n: int)
    requires HostlessAt(f, n) && HostlessState(s, f[n..])
    ensures var t, buf := UrlChar(s, b), f + [b];
      if HostlessRest(f[n..] + [b]) then
        HostlessAt(buf, n) && HostlessState(t, buf[n..]) && t != S_DEAD && FieldOf(t) != UF_HOST
      else if n == |f| && IsAlpha(b) then
        HostlessAt(buf, |buf|) && HostlessState(t, buf[|buf|..]) && t != S_DEAD && FieldOf(t) != UF_HOST
      else (t == S_DEAD || FieldOf(t) == UF_HOST) && !HostlessAt(buf, |buf|)
  {
    hide UrlChar;
    var buf := f + [b];
    HostlessByte(s, f[n..], b);
    assert buf[..n] == f[..n] && buf[n..] == f[n..] + [b] && buf[|buf|..] == [] && buf[..|buf|] == buf;
    if n == |f| {
      assert f[..n] == f && f[n..] == [];
      SchemeGoesOn(s, b);
    } else {
      assert f[n..][..1] == [f[n]] && buf[n] == f[n];
    }
  }

  lemma SchemeGoesOn(s: State, b: Byte)
    requires HostlessState(s, [])
    ensures IsAlpha(b) ==> UrlChar(s, b) == S_REQ_SCHEMA
  {
  }

  lemma ConnectScan(buf: Bytes, connect: bool, u: Parts)
    ensures ScansHostless(ScanAll(connect, u, buf)) <==> HostMissing(buf, connect)
  {
    hide ScanAll, HostlessAt, HostlessState;
    ConnectHasNoScheme(buf, connect, u);
    HostlessScan(u, buf);
  }

  lemma UrlPartitioned(buf: Bytes, connect: bool, u: Parts)
    requires |buf| < UINT16_SIZE && u.data[UF_HOST].len == 0
    ensures ParseUrl(buf, connect, u).ok ==> Partition(buf, ParseUrl(buf, connect, u).u)
  {
    hide Partition;
    var c := ScanAll(connect, u, buf);
    if c.s != S_DEAD {
      if UF_SCHEMA in c.u.found ==> UF_HOST in c.u.found {
        Accepted(buf, connect, u);
      } else {
        assert buf[..|buf|] == buf;
        ScanHolds(connect, u, buf, |buf|);
      }
    }
  }

  /** A struct that was not zeroed: what is left in its host lets a URL through that has none. */
  lemma StaleHost(buf: Bytes, connect: bool)
    requires |buf| < UINT16_SIZE && HostMissing(buf, connect)
    ensures var u := BLANK.(data := BLANK.data[UF_HOST := Span(0, 1)]);
      ParseUrl(buf, connect, u).ok && !Partition(buf, ParseUrl(buf, connect, u).u)
  {
    hide Complete, InOrder, ScanAll, HostMissing;
    var u := BLANK.(data := BLANK.data[UF_HOST := Span(0, 1)]);
    ConnectScan(buf, connect, u);
    assert buf[..|buf|] == buf;
    ScanHolds(connect, u, buf, |buf|);
    ConnectHasNoScheme(buf, connect, u);
    var c := ScanAll(connect, u, buf);
    assert HostAll(buf, c.u, c.at, 1) == HostByte(HostAll(buf, c.u, c.at, 0), 0, buf[0]);
    assert HostAll(buf, c.u, c.at, 1).s == HS_HOST;
  }

  lemma {:induction false} ConnectHasNoScheme(buf: Bytes, connect: bool, u: Parts)
    ensures var c := ScanAll(connect, u, buf);
      connect ==> UF_SCHEMA !in c.u.found && (c.s == S_DEAD || c.s >= S_REQ_SERVER_START)
  {
    if buf != [] {
      ConnectHasNoScheme(buf[..|buf| - 1], connect, u);
    }
  }

  /** The parts are right whatever the struct held before, exactly when no host is missing. */
  lemma PartitionExactly(buf: Bytes, connect: bool)
    requires |buf| < UINT16_SIZE
    ensures (forall u :: ParseUrl(buf, connect, u).ok ==> Partition(buf, ParseUrl(buf, connect, u).u))
       <==> !HostMissing(buf, connect)
  {
    hide Partition, ScanAll, HostMissing;
    if HostMissing(buf, connect) {
      StaleHost(buf, connect);
    } else {
      forall u ensures ParseUrl(buf, connect, u).ok ==> Partition(buf, ParseUrl(buf, connect, u).u) {
        ConnectScan(buf, connect, u);
        if ScanAll(connect, u, buf).s != S_DEAD {
          Accepted(buf, connect, u);
        }
      }
    }
  }

  // ---------------------------------------------------------------- longer than 65535 bytes

  function LongPath(n: nat): Bytes
    requires 0 < n
  {
    [SLASH] + seq(n - 1, i => LOWER_C)
  }

  lemma LongPathScan(n: nat)
    requires 0 < n
    ensures var c := ScanAll(false, BLANK, LongPath(n));
      c.s == S_REQ_PATH && c.u.found == {UF_PATH} && c.u.data[UF_PATH] == Span(0, Wrap(n))
  {
    hide ScanAll;
    var t := LongPath(n);
    UrlTarget.TargetScanned(false, BLANK, t);
    UrlTarget.Bounds(t);
    var found := ScanAll(false, BLANK, t).u.found;
    assert forall f :: f in found ==> f == UF_PATH;
  }

  /** Offsets and lengths are 16 bits wide: the parts are right for every URL of `n` bytes exactly when
      `n` is below 65536. */
  lemma WidthExactly(n: nat)
    ensures (forall buf :: |buf| == n && ParseUrl(buf, false, BLANK).ok
                           ==> Partition(buf, ParseUrl(buf, false, BLANK).u))
       <==> n < UINT16_SIZE
  {
    hide Partition;
    if n < UINT16_SIZE {
      forall buf: Bytes | |buf| == n
        ensures ParseUrl(buf, false, BLANK).ok ==> Partition(buf, ParseUrl(buf, false, BLANK).u)
      {
        UrlPartitioned(buf, false, BLANK);
      }
    } else {
      LongPathLost(n);
      assert |LongPath(n)| == n;
    }
  }

  lemma LongPathLost(n: nat)
    requires n >= UINT16_SIZE
    ensures ParseUrl(LongPath(n), false, BLANK).ok && !Partition(LongPath(n), ParseUrl(LongPath(n), false, BLANK).u)
  {
    LongPathScan(n);
    var u := ParseUrl(LongPath(n), false, BLANK).u;
    assert LongPath(n)[n - 1] == LOWER_C;
    assert !Covered(u, n - 1);
  }
}
