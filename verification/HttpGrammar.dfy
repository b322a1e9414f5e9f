/** Characters and texts of HTTP as the standards and the parser's callers know them, by their letters. */
module HttpGrammar {
  import opened Ascii

  predicate OneOf(b: Byte, s: string) { b as char in s }

  /** Every byte of `s` is in the class `c`. */
  predicate Only(s: Bytes, c: Byte -> bool) { forall i :: 0 <= i < |s| ==> c(s[i]) }

  predicate Letter(b: Byte) { 'a' as int <= b <= 'z' as int || 'A' as int <= b <= 'Z' as int }

  predicate DecDigit(b: Byte) { '0' as int <= b <= '9' as int }

  predicate HexDigit(b: Byte) { DecDigit(b) || OneOf(b, "abcdefABCDEF") }

  /** The methods the parser knows. */
  const METHOD_NAMES: seq<string> := [
    "DELETE", "GET", "HEAD", "POST", "PUT", "CONNECT", "OPTIONS", "TRACE", "COPY", "LOCK", "MKCOL", "MOVE",
    "PROPFIND", "PROPPATCH", "UNLOCK", "REPORT", "MKACTIVITY", "CHECKOUT", "MERGE", "M-SEARCH", "NOTIFY",
    "SUBSCRIBE", "UNSUBSCRIBE", "PATCH"]

  /** The bytes spell the string. */
  predicate Spells(s: Bytes, w: string) { |s| == |w| && forall i :: 0 <= i < |s| ==> s[i] == w[i] as int }

  // ---------------------------------------------------------------- header lines

  /** A byte of a token (section 3.2.6 of RFC 7230). */
  predicate TokenByte(b: Byte) { Letter(b) || DecDigit(b) || OneOf(b, "!#$%&'*+-.^_`|~") }

  /** A byte of a field value: visible, a blank, or outside ASCII (section 3.2 of RFC 7230). */
  predicate ValueByte(b: Byte) { Blank(b) || 0x21 <= b <= 0x7e || 0x80 <= b }

  predicate Blank(b: Byte) { b == SP || b == TAB }

  predicate LineEndByte(b: Byte) { b == CR || b == LF }

  // ---------------------------------------------------------------- targets

  /** A byte of a path, query or fragment in the non-strict build: anything visible, the tab, the form
      feed, and every byte outside ASCII. */
  predicate TargetByte(b: Byte) { b == 0x09 || b == 0x0c || 0x21 <= b <= 0x7e || 0x80 <= b }

  predicate RegNameByte(b: Byte) { Letter(b) || DecDigit(b) || OneOf(b, ".-_") }

  /** A byte of a bracketed address; the URL parser also takes a '.' there. */
  predicate AddressByte(b: Byte) { HexDigit(b) || b == COLON }

  /** A request target in pieces; which of them there are depends on its form. */
  datatype Target = Target(scheme: Bytes, mid: Bytes, host: Bytes, port: Bytes, tail: Bytes)

  function TargetText(x: Target): Bytes { x.scheme + x.mid + x.host + x.port + x.tail }

  predicate IsRegName(h: Bytes) { h != [] && (Letter(h[0]) || DecDigit(h[0])) && Only(h, RegNameByte) }

  predicate IsBracketed(h: Bytes) {
    |h| >= 2 && h[0] == LBRACKET && h[|h| - 1] == RBRACKET && Only(h[1..|h| - 1], AddressByte)
  }

  predicate IsHost(h: Bytes) { IsRegName(h) || IsBracketed(h) }

  /** Nothing, or a colon and any number of digits. */
  predicate IsPort(p: Bytes) { p == [] || (p[0] == COLON && Only(p[1..], DecDigit)) }

  /** Nothing, or path, query and fragment, which start with one of `first`. */
  predicate IsTail(t: Bytes, first: string) { t != [] && OneOf(t[0], first) && Only(t[1..], TargetByte) }

  /** What comes before the host: nothing, or letters, a colon and any two bytes: the non-strict build does
      not check that these are "//". */
  predicate IsStart(scheme: Bytes, mid: Bytes, absolute: bool) {
    if absolute then scheme != [] && Only(scheme, Letter) && |mid| == 3 && mid[0] == COLON
    else scheme == [] && mid == []
  }

  predicate IsOrigin(x: Target) {
    x.scheme == [] && x.mid == [] && x.host == [] && x.port == [] && IsTail(x.tail, "/*")
  }

  /** The targets of a request, by their text: for CONNECT an authority; otherwise a path (or '*'), or a
      scheme and an authority. A path or query may follow an authority in both cases. */
  predicate IsForm(connect: bool, x: Target) {
    || (!connect && IsOrigin(x))
    || (&& IsStart(x.scheme, x.mid, !connect) && IsHost(x.host) && IsPort(x.port)
        && (x.tail == [] || IsTail(x.tail, "/?")))
  }

  ghost predicate IsRequestTarget(connect: bool, t: Bytes) { exists x :: IsForm(connect, x) && TargetText(x) == t }

  // ---------------------------------------------------------------- URLs

  predicate UserByte(b: Byte) { Letter(b) || DecDigit(b) || OneOf(b, "-_.!~*'()%;:&=+$,") }

  /** A byte of a bracketed address in a URL. */
  predicate UrlAddressByte(b: Byte) { AddressByte(b) || b == DOT }

  /** A URL with an authority, in pieces: the user, if there is an '@'; the host, in brackets or not; and the
      digits of the port, if there is a colon. */
  datatype UrlPieces = UrlPieces(
    scheme: Bytes, at: bool, user: Bytes, bracketed: bool, host: Bytes, port: Bytes, tail: Bytes)

  function UserText(x: UrlPieces): Bytes { if x.at then x.user + [AT] else [] }

  function HostText(x: UrlPieces): Bytes { if x.bracketed then [LBRACKET] + x.host + [RBRACKET] else x.host }

  function PortText(x: UrlPieces): Bytes { if x.port == [] then [] else [COLON] + x.port }

  function AuthorityText(x: UrlPieces): Bytes { UserText(x) + HostText(x) + PortText(x) }

  function SchemeText(x: UrlPieces): Bytes { if x.scheme == [] then [] else x.scheme + [COLON, SLASH, SLASH] }

  function UrlText(x: UrlPieces): Bytes { SchemeText(x) + AuthorityText(x) + x.tail }

  predicate IsAuthority(x: UrlPieces) {
    && (x.user != [] ==> x.at) && Only(x.user, UserByte)
    && x.host != [] && Only(x.host, if x.bracketed then UrlAddressByte else RegNameByte)
    && Only(x.port, DecDigit)
  }

  // ---------------------------------------------------------------- the classes of the source

  /** The macros and the table of the source are these classes. */
  lemma ClassesAgree(b: Byte)
    ensures Letter(b) == IsAlpha(b) && DecDigit(b) == IsDigit(b) && HexDigit(b) == IsHex(b)
    ensures RegNameByte(b) == IsHostChar(b)
    ensures TargetByte(b) == (IsUrlChar(b) || b == QMARK || b == HASH)
  {
    assert ".-_" == ['.', '-', '_'];
    assert "abcdefABCDEF" == ['a', 'b', 'c', 'd', 'e', 'f', 'A', 'B', 'C', 'D', 'E', 'F'];
  }

  lemma TokensAgree(b: Byte)
    ensures TokenByte(b) == IsToken(b)
    ensures ValueByte(b) == (IsHeaderChar(b) && !LineEndByte(b))
  {
    assert "!#$%&'*+-.^_`|~" == ['!', '#', '$', '%', '&', '\'', '*', '+', '-', '.', '^', '_', '`', '|', '~'];
  }

  lemma UserBytesAgree(b: Byte)
    ensures UserByte(b) == IsUserinfoChar(b)
  {
    assert "-_.!~*'()%;:&=+$,"
        == ['-', '_', '.', '!', '~', '*', '\'', '(', ')', '%', ';', ':', '&', '=', '+', '$', ','];
  }

  // ---------------------------------------------------------------- RFC 3986

  /** Section 2.3 of RFC 3986. */
  predicate Unreserved(b: Byte) { Letter(b) || DecDigit(b) || OneOf(b, "-._~") }

  /** The bytes of a path, query or fragment (sections 3.3 to 3.5), with the percent sign of an escape. */
  predicate UriByte(b: Byte) { Unreserved(b) || OneOf(b, "!$&'()*+,;=:@/?%") }

  function UpperHex(n: nat): Byte
    requires n < 16
  {
    if n < 10 then '0' as int + n else 'A' as int + n - 10
  }

  function Escaped(b: Byte): Bytes { ['%' as int, UpperHex(b / 16), UpperHex(b % 16)] }

  /** Any bytes, percent-encoded (section 2.1). */
  function PercentEncoded(x: Bytes): Bytes {
    if x == [] then []
    else
      var b := x[|x| - 1];
      PercentEncoded(x[..|x| - 1]) + if Unreserved(b) then [b] else Escaped(b)
  }
}
