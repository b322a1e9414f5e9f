/** `http_parser_parse_url`: the offsets and lengths of the parts of a URL, and its port. */
module UrlParser {
  import opened Ascii
  import opened ParserTypes

  /** `enum http_parser_url_fields`. */
  type Field = int

  const UF_SCHEMA: Field := 0
  const UF_HOST: Field := 1
  const UF_PORT: Field := 2
  const UF_PATH: Field := 3
  const UF_QUERY: Field := 4
  const UF_FRAGMENT: Field := 5
  const UF_USERINFO: Field := 6
  const UF_MAX: Field := 7

  const UINT16_SIZE: nat := 0x1_0000

  datatype Span = Span(off: nat, len: nat) {
    function End(): nat { off + len }

    predicate Has(i: int) { off <= i < off + len }
  }

  type Spans = d: seq<Span> | |d| == UF_MAX witness seq(UF_MAX, i => Span(0, 0))

  /** `http_parser_url`; `found` is the bit mask `field_set`. */
  datatype Parts = Parts(found: set<Field>, data: Spans, port: nat)

  /** A value stored into a `uint16_t`. */
  function Wrap(n: nat): nat { n % UINT16_SIZE }

  /** `len++`. */
  function Longer(p: Span): Span { Span(p.off, Wrap(p.len + 1)) }

  // ---------------------------------------------------------------- parse_url_char

  function ServerChar(b: Byte): State {
    if b == SLASH then S_REQ_PATH
    else if b == QMARK then S_REQ_QUERY_STRING_START
    else if b == AT then S_REQ_SERVER_WITH_AT
    else if IsUserinfoChar(b) || b == LBRACKET || b == RBRACKET then S_REQ_SERVER
    else S_DEAD
  }

  function UrlChar(s: State, b: Byte): State {
    if b == SP || b == CR || b == LF then S_DEAD
    else if s == S_REQ_SPACES_BEFORE_URL then
      if b == SLASH || b == STAR then S_REQ_PATH else if IsAlpha(b) then S_REQ_SCHEMA else S_DEAD
    else if s == S_REQ_SCHEMA then
      if IsAlpha(b) then s else if b == COLON then S_REQ_SCHEMA_SLASH else S_DEAD
    else if s == S_REQ_SCHEMA_SLASH then if b == SLASH then S_REQ_SCHEMA_SLASH_SLASH else S_DEAD
    else if s == S_REQ_SCHEMA_SLASH_SLASH then if b == SLASH then S_REQ_SERVER_START else S_DEAD
    else if s == S_REQ_SERVER_WITH_AT then if b == AT then S_DEAD else ServerChar(b)
    else if s == S_REQ_SERVER_START || s == S_REQ_SERVER then ServerChar(b)
    else if s == S_REQ_PATH then
      if IsUrlChar(b) then s
      else if b == QMARK then S_REQ_QUERY_STRING_START
      else if b == HASH then S_REQ_FRAGMENT_START
      else S_DEAD
    else if s == S_REQ_QUERY_STRING_START || s == S_REQ_QUERY_STRING then
      if IsUrlChar(b) || b == QMARK then S_REQ_QUERY_STRING
      else if b == HASH then S_REQ_FRAGMENT_START
      else S_DEAD
    else if s == S_REQ_FRAGMENT_START then
      if IsUrlChar(b) || b == QMARK then S_REQ_FRAGMENT
      else if b == HASH then s
      else S_DEAD
    else if s == S_REQ_FRAGMENT then if IsUrlChar(b) || b == QMARK || b == HASH then s else S_DEAD
    else S_DEAD
  }

  /** The field a byte that leads to state `s` belongs to; UF_MAX for a delimiter. */
  function FieldOf(s: State): Field {
    if s == S_REQ_SCHEMA then UF_SCHEMA
    else if s == S_REQ_SERVER || s == S_REQ_SERVER_WITH_AT then UF_HOST
    else if s == S_REQ_PATH then UF_PATH
    else if s == S_REQ_QUERY_STRING then UF_QUERY
    else if s == S_REQ_FRAGMENT then UF_FRAGMENT
    else UF_MAX
  }

  // ---------------------------------------------------------------- the first pass

  /** The variables of the loop: the state, `old_uf`, `found_at` and the struct. */
  datatype Scan = Scan(s: State, last: Field, at: bool, u: Parts)

  function ScanFrom(connect: bool, u: Parts): Scan {
    Scan(if connect then S_REQ_SERVER_START else S_REQ_SPACES_BEFORE_URL, UF_MAX, false, u.(port := 0, found := {}))
  }

  function Mark(u: Parts, last: Field, f: Field, i: nat): Parts
    requires 0 <= f < UF_MAX
  {
    if f == last then u.(data := u.data[f := Longer(u.data[f])])
    else u.(data := u.data[f := Span(Wrap(i), 1)], found := u.found + {f})
  }

  function ScanByte(c: Scan, i: nat, b: Byte): Scan {
    var s := UrlChar(c.s, b);
    var f := FieldOf(s);
    if f == UF_MAX then c.(s := s)
    else Scan(s, f, c.at || s == S_REQ_SERVER_WITH_AT, Mark(c.u, c.last, f, i))
  }

  /** The loop over `buf`; once dead it stays as it was when it died. */
  function ScanAll(connect: bool, u: Parts, buf: Bytes): Scan {
    if buf == [] then ScanFrom(connect, u)
    else ScanByte(ScanAll(connect, u, buf[..|buf| - 1]), |buf| - 1, buf[|buf| - 1])
  }

  // ---------------------------------------------------------------- http_parse_host

  type HostState = int

  const HS_DEAD: HostState := 1
  const HS_USERINFO_START: HostState := 2
  const HS_USERINFO: HostState := 3
  const HS_HOST_START: HostState := 4
  const HS_HOST_V6_START: HostState := 5
  const HS_HOST: HostState := 6
  const HS_HOST_V6: HostState := 7
  const HS_HOST_V6_END: HostState := 8
  const HS_PORT_START: HostState := 9
  const HS_PORT: HostState := 10

  function HostChar(s: HostState, b: Byte): HostState {
    if s == HS_USERINFO || s == HS_USERINFO_START then
      if b == AT then HS_HOST_START else if IsUserinfoChar(b) then HS_USERINFO else HS_DEAD
    else if s == HS_HOST_START then
      if b == LBRACKET then HS_HOST_V6_START else if IsHostChar(b) then HS_HOST else HS_DEAD
    else if s == HS_HOST && IsHostChar(b) then HS_HOST
    else if s == HS_HOST || s == HS_HOST_V6_END then if b == COLON then HS_PORT_START else HS_DEAD
    else if s == HS_HOST_V6 && b == RBRACKET then HS_HOST_V6_END
    else if s == HS_HOST_V6 || s == HS_HOST_V6_START then
      if IsHex(b) || b == COLON || b == DOT then HS_HOST_V6 else HS_DEAD
    else if s == HS_PORT || s == HS_PORT_START then if IsDigit(b) then HS_PORT else HS_DEAD
    else HS_DEAD
  }

  datatype HostScan = HostScan(s: HostState, u: Parts)

  /** A byte of the authority: `s` is the state it leads to, `same` that it was in that state before. */
  function HostMark(u: Parts, s: HostState, same: bool, i: nat): Parts {
    if s == HS_HOST || s == HS_HOST_V6 then
      u.(data := u.data[UF_HOST := Longer(if same then u.data[UF_HOST] else Span(Wrap(i), u.data[UF_HOST].len))])
    else if s == HS_PORT then
      if same then u.(data := u.data[UF_PORT := Longer(u.data[UF_PORT])])
      else u.(data := u.data[UF_PORT := Span(Wrap(i), 1)], found := u.found + {UF_PORT})
    else if s == HS_USERINFO then
      if same then u.(data := u.data[UF_USERINFO := Longer(u.data[UF_USERINFO])])
      else u.(data := u.data[UF_USERINFO := Span(Wrap(i), 1)], found := u.found + {UF_USERINFO})
    else u
  }

  function HostByte(h: HostScan, i: nat, b: Byte): HostScan {
    var s := HostChar(h.s, b);
    HostScan(s, if s == HS_DEAD then h.u else HostMark(h.u, s, s == h.s, i))
  }

  function HostFrom(u: Parts, at: bool): HostScan {
    HostScan(if at then HS_USERINFO_START else HS_HOST_START,
             u.(data := u.data[UF_HOST := Span(u.data[UF_HOST].off, 0)]))
  }

  /** The byte at `i`; past the end, the terminator of the string that holds the URL. */
  function At(buf: Bytes, i: nat): Byte { if i < |buf| then buf[i] else NUL }

  function HostAll(buf: Bytes, u: Parts, at: bool, to: nat): HostScan {
    if to <= u.data[UF_HOST].off then HostFrom(u, at)
    else HostByte(HostAll(buf, u, at, to - 1), to - 1, At(buf, to - 1))
  }

  /** The states in which the authority may end. */
  predicate HostEnds(s: HostState) { s == HS_HOST || s == HS_HOST_V6_END || s == HS_PORT }

  // ---------------------------------------------------------------- http_parser_parse_url

  /** `strtoul`, which stops at the first byte that is no digit. */
  function Number(buf: Bytes, i: nat, sum: nat): nat
    decreases |buf| - i
  {
    if i < |buf| && IsDigit(buf[i]) then Number(buf, i + 1, sum * 10 + (buf[i] - DIGIT0)) else sum
  }

  /** The struct and whether 0 was returned. */
  datatype Parsed = Parsed(u: Parts, ok: bool)

  function Ported(buf: Bytes, u: Parts, connect: bool): Parsed {
    if connect && u.found != {UF_HOST, UF_PORT} then Parsed(u, false)
    else if UF_PORT !in u.found then Parsed(u, true)
    else
      var v := Number(buf, u.data[UF_PORT].off, 0);
      if v > 0xffff then Parsed(u, false) else Parsed(u.(port := v), true)
  }

  function ParseUrl(buf: Bytes, connect: bool, u: Parts): Parsed {
    var c := ScanAll(connect, u, buf);
    if c.s == S_DEAD then Parsed(c.u, false)
    else if UF_SCHEMA in c.u.found || UF_HOST in c.u.found then
      var h := HostAll(buf, c.u, c.at, c.u.data[UF_HOST].End());
      if HostEnds(h.s) then Ported(buf, h.u, connect) else Parsed(h.u, false)
    else Ported(buf, c.u, connect)
  }

  /** The struct, with the two functions that fill it in place. */
  class HttpParserUrl {
    var fieldSet: set<Field>
    var port: nat
    var fieldData: Spans

    function View(): Parts
      reads this
    {
      Parts(fieldSet, fieldData, port)
    }

    /** The switch in http_parse_host on the state `t` that the byte at `p` leads to. */
    method Widen(t: HostState, same: bool, p: nat)
      modifies this
      ensures View() == HostMark(old(View()), t, same, p)
    {
      if t == HS_HOST || t == HS_HOST_V6 {
        if !same {
          fieldData := fieldData[UF_HOST := Span(Wrap(p), fieldData[UF_HOST].len)];
        }
        fieldData := fieldData[UF_HOST := Longer(fieldData[UF_HOST])];
      } else if t == HS_PORT {
        if !same {
          fieldData := fieldData[UF_PORT := Span(Wrap(p), 0)];
          fieldSet := fieldSet + {UF_PORT};
        }
        fieldData := fieldData[UF_PORT := Longer(fieldData[UF_PORT])];
      } else if t == HS_USERINFO {
        if !same {
          fieldData := fieldData[UF_USERINFO := Span(Wrap(p), 0)];
          fieldSet := fieldSet + {UF_USERINFO};
        }
        fieldData := fieldData[UF_USERINFO := Longer(fieldData[UF_USERINFO])];
      }
    }

    /** http_parse_host. */
    method ParseHost(buf: Bytes, foundAt: bool) returns (r: int)
      modifies this
      ensures var h := HostAll(buf, old(View()), foundAt, old(fieldData)[UF_HOST].End());
        View() == h.u && (r == 0 <==> HostEnds(h.s))
    {
      hide HostMark, HostChar;
      ghost var u := View();
      var p := fieldData[UF_HOST].off;
      var end := p + fieldData[UF_HOST].len;
      fieldData := fieldData[UF_HOST := Span(p, 0)];
      var s := if foundAt then HS_USERINFO_START else HS_HOST_START;
      while p < end
        invariant u.data[UF_HOST].off <= p <= end
        invariant HostScan(s, View()) == HostAll(buf, u, foundAt, p)
        invariant s != HS_DEAD
      {
        var t := HostChar(s, At(buf, p));
        if t == HS_DEAD {
          HostDead(buf, u, foundAt, p + 1, end);
          return 1;
        }
        Widen(t, s == t, p);
        s := t;
        p := p + 1;
      }
      HostStates(buf, u, foundAt, end);
      return if s == HS_HOST_START || s == HS_HOST_V6_START || s == HS_HOST_V6 || s == HS_PORT_START
             || s == HS_USERINFO || s == HS_USERINFO_START then 1 else 0;
    }

    /** http_parser_parse_url; its "unexpected state" assert is the one before the field is used. */
    method Parse(buf: Bytes, connect: bool) returns (r: int)
      modifies this
      ensures Parsed(View(), r == 0) == ParseUrl(buf, connect, old(View()))
    {
      hide UrlChar, Mark, HostAll, Ported;
      ghost var u := View();
      var foundAt := false;
      port, fieldSet := 0, {};
      var s := if connect then S_REQ_SERVER_START else S_REQ_SPACES_BEFORE_URL;
      var last := UF_MAX;
      var p := 0;
      assert buf[..0] == [];
      while p < |buf|
        invariant 0 <= p <= |buf|
        invariant Scan(s, last, foundAt, View()) == ScanAll(connect, u, buf[..p])
        invariant s != S_DEAD
      {
        assert buf[..p + 1][..p] == buf[..p];
        s := UrlChar(s, buf[p]);
        if s == S_DEAD {
          ScanDead(connect, u, buf, p + 1);
          return 1;
        }
        if s == S_REQ_SCHEMA_SLASH || s == S_REQ_SCHEMA_SLASH_SLASH || s == S_REQ_SERVER_START
           || s == S_REQ_QUERY_STRING_START || s == S_REQ_FRAGMENT_START {
          p := p + 1;
          continue;
        }
        if s == S_REQ_SERVER_WITH_AT {
          foundAt := true;
        }
        NextStates(connect, u, buf[..p + 1]);
        assert FieldOf(s) != UF_MAX;
        MarkField(FieldOf(s), last, p);
        last := FieldOf(s);
        p := p + 1;
      }
      assert buf[..|buf|] == buf;
      if UF_SCHEMA in fieldSet || UF_HOST in fieldSet {
        var bad := ParseHost(buf, foundAt);
        if bad != 0 {
          return 1;
        }
      }
      r := ParsePort(buf, connect);
    }

    /** A byte of part `f`, where `last` was the part before. */
    method MarkField(f: Field, last: Field, p: nat)
      requires 0 <= f < UF_MAX
      modifies this
      ensures View() == Mark(old(View()), last, f, p)
    {
      if f == last {
        fieldData := fieldData[f := Longer(fieldData[f])];
      } else {
        fieldData := fieldData[f := Span(Wrap(p), 1)];
        fieldSet := fieldSet + {f};
      }
    }

    /** What follows the two passes. */
    method ParsePort(buf: Bytes, connect: bool) returns (r: int)
      modifies this
      ensures Parsed(View(), r == 0) == Ported(buf, old(View()), connect)
    {
      if connect && fieldSet != {UF_HOST, UF_PORT} {
        return 1;
      }
      if UF_PORT in fieldSet {
        var v := Number(buf, fieldData[UF_PORT].off, 0);
        if v > 0xffff {
          return 1;
        }
        port := v;
      }
      return 0;
    }
  }

  /** The states the scan can be in. */
  lemma {:induction false} NextStates(connect: bool, u: Parts, buf: Bytes)
    requires buf != []
    ensures var s := ScanAll(connect, u, buf).s;
      s == S_DEAD || S_REQ_SCHEMA <= s <= S_REQ_SERVER_WITH_AT || S_REQ_PATH <= s <= S_REQ_FRAGMENT
  {
    hide Mark;
  }

  lemma {:induction false} ScanDead(connect: bool, u: Parts, buf: Bytes, k: nat)
    requires k <= |buf| && ScanAll(connect, u, buf[..k]).s == S_DEAD
    ensures ScanAll(connect, u, buf) == ScanAll(connect, u, buf[..k])
    decreases |buf| - k
  {
    if k == |buf| {
      assert buf[..k] == buf;
    } else {
      assert buf[..k + 1][..k] == buf[..k];
      ScanDead(connect, u, buf, k + 1);
    }
  }

  lemma {:induction false} HostDead(buf: Bytes, u: Parts, at: bool, k: nat, end: nat)
    requires u.data[UF_HOST].off <= k <= end && HostAll(buf, u, at, k).s == HS_DEAD
    ensures HostAll(buf, u, at, end) == HostAll(buf, u, at, k)
    decreases end - k
  {
    hide HostMark;
    if k < end {
      HostDead(buf, u, at, k + 1, end);
    }
  }

  lemma {:induction false} HostStates(buf: Bytes, u: Parts, at: bool, to: nat)
    ensures HS_DEAD <= HostAll(buf, u, at, to).s <= HS_PORT
  {
  }
}
