/** Which texts `http_parser_execute` takes as the target of a request. */
module TargetForms {
  import opened Ascii
  import opened ParserTypes
  import opened ParserStep
  import opened ParserInvariant
  import opened ParserEvents
  import opened ParserCuts
  import opened HttpGrammar
  import UrlParser
  import UrlTarget

  /** A parser that has read the spaces after the method. */
  predicate BeforeTarget(e: Stream) { e.live && e.p.state == S_REQ_SPACES_BEFORE_URL }

  predicate Connects(e: Stream) { e.p.line.verb == M_CONNECT }

  /** Every byte of `t` keeps the parser inside a target. */
  ghost predicate Taken(cfg: Settings, e: Stream, t: Bytes) {
    forall n :: 0 < n <= |t| ==> ReadAll(cfg, e, t[..n]).live && InUrl(ReadAll(cfg, e, t[..n]).p.state)
  }

  lemma TakenMore(cfg: Settings, e: Stream, t: Bytes, b: Byte)
    requires Taken(cfg, e, t)
    requires ReadAll(cfg, e, t + [b]).live && InUrl(ReadAll(cfg, e, t + [b]).p.state)
    ensures Taken(cfg, e, t + [b])
  {
    hide ReadAll, InUrl;
    assert forall n :: 0 < n <= |t| ==> (t + [b])[..n] == t[..n];
    assert (t + [b])[..|t| + 1] == t + [b];
  }

  /** All of `t` was read as target so far, and is one callback; the parser is in state `s`. */
  ghost predicate Along(cfg: Settings, e: Stream, t: Bytes, s: State) {
    var d := ReadAll(cfg, e, t);
    && Taken(cfg, e, t) && InUrl(s) && d.live && d.p == e.p.(state := s) && d.pos == e.pos + |t|
    && d.out == Push(e.out, Piece(Url, t, s)) && (Neat(e) ==> Neat(d))
  }

  // ---------------------------------------------------------------- one byte

  lemma FirstAlong(cfg: Settings, e: Stream, b: Byte, s: State)
    requires BeforeTarget(e) && TargetStartMove(Connects(e), b) == Go(s, Start(Url)) && InUrl(s)
    ensures Along(cfg, e, [b], s)
  {
    hide Push, PushAll, TargetStartMove;
    assert [b][..0] == [];
    assert ReadAll(cfg, e, []) == e && ReadAll(cfg, e, [b]) == Read(cfg, e, b);
    PushAllOne(e.out, Piece(Url, [b], s));
    PushNothing(Push(e.out, Piece(Url, [b], s)));
    TakenMore(cfg, e, [], b);
    assert [] + [b] == [b];
  }

  /** The byte after `t`: the parser goes on in the target only as the table says. */
  lemma StepAlong(cfg: Settings, e: Stream, t: Bytes, s: State, b: Byte)
    requires Along(cfg, e, t, s)
    ensures var m, d := LineMove(s, Connects(e), b), ReadAll(cfg, e, t + [b]);
            && (m.Go? && m.op == Keep && InUrl(m.s) ==> Along(cfg, e, t + [b], m.s))
            && (d.live && InUrl(d.p.state) ==> m.Go? && m.s == d.p.state && m.op == Keep)
            && (m == Go(S_REQ_HTTP_START, Flush(Url, S_REQ_HTTP_START)) ==>
                  && d.live && d.p == e.p.(state := S_REQ_HTTP_START) && d.pos == e.pos + |t| + 1
                  && d.out == Push(e.out, Data(Url, t, S_REQ_HTTP_START)) && (Neat(e) ==> Neat(d)))
            && (d.live && d.p.state == S_REQ_HTTP_START ==> m == Go(S_REQ_HTTP_START, Flush(Url, S_REQ_HTTP_START)))
  {
    hide Push, PushAll, LineMove, ReadAll, Taken;
    ReadOneMore(cfg, e, t, b);
    var d, m := ReadAll(cfg, e, t), LineMove(s, Connects(e), b);
    MoveInUrl(s, Connects(e), b);
    var g := if m.Go? && m.op.Flush? then Piece(Url, [], m.s) else Piece(Url, [b], if m.Go? then m.s else s);
    PushAllOne(d.out, g);
    PushNothing(Push(d.out, g));
    PushTwice(e.out, Url, t, s, g.text, g.at);
    assert t + [] == t;
    if m.Go? && m.op == Keep && InUrl(m.s) { TakenMore(cfg, e, t, b); }
  }

  /** What a byte inside a target can lead to. */
  lemma MoveInUrl(s: State, connect: bool, b: Byte)
    requires InUrl(s)
    ensures var m := LineMove(s, connect, b);
            || (m.Go? && m.op == Keep && InUrl(m.s))
            || (b == SP && m == Go(S_REQ_HTTP_START, Flush(Url, S_REQ_HTTP_START)))
            || m.Http09? || m.Bad?
    ensures var m := LineMove(s, connect, b);
            m.Http09? ==> m.s == S_REQ_LINE_ALMOST_DONE || m.s == S_HEADER_FIELD_START
  {
  }

  // ---------------------------------------------------------------- texts that are targets

  /** Bytes that keep the parser in state `s`. */
  lemma {:induction false} RunAlong(cfg: Settings, e: Stream, t: Bytes, s: State, r: Bytes)
    requires Along(cfg, e, t, s)
    requires forall i :: 0 <= i < |r| ==> LineMove(s, Connects(e), r[i]) == Go(s, Keep)
    ensures Along(cfg, e, t + r, s)
    decreases |r|
  {
    hide Along, LineMove, InUrl;
    if r == [] {
      assert t + r == t;
    } else {
      var f, b := r[..|r| - 1], r[|r| - 1];
      RunAlong(cfg, e, t, s, f);
      StepAlong(cfg, e, t + f, s, b);
      assert t + f + [b] == t + r;
      AlongUrl(cfg, e, t + f, s);
    }
  }

  lemma AlongUrl(cfg: Settings, e: Stream, t: Bytes, s: State)
    requires Along(cfg, e, t, s)
    ensures InUrl(s)
  {
  }

  /** One byte that leads from state `s` to `n`. */
  lemma ByteAlong(cfg: Settings, e: Stream, t: Bytes, s: State, b: Byte, n: State)
    requires Along(cfg, e, t, s) && LineMove(s, Connects(e), b) == Go(n, Keep) && InUrl(n)
    ensures Along(cfg, e, t + [b], n)
  {
    hide Along, LineMove;
    StepAlong(cfg, e, t, s, b);
  }

  lemma SchemeAlong(cfg: Settings, e: Stream, x: Target)
    requires BeforeTarget(e) && !Connects(e) && IsStart(x.scheme, x.mid, true)
    ensures Along(cfg, e, x.scheme + x.mid, S_REQ_HOST_START)
  {
    hide Along, BeforeTarget, Connects;
    var s, m := x.scheme, x.mid;
    FirstAlong(cfg, e, s[0], S_REQ_SCHEMA);
    RunAlong(cfg, e, [s[0]], S_REQ_SCHEMA, s[1..]);
    assert [s[0]] + s[1..] == s;
    ByteAlong(cfg, e, s, S_REQ_SCHEMA, m[0], S_REQ_SCHEMA_SLASH);
    ByteAlong(cfg, e, s + [m[0]], S_REQ_SCHEMA_SLASH, m[1], S_REQ_SCHEMA_SLASH_SLASH);
    ByteAlong(cfg, e, s + [m[0]] + [m[1]], S_REQ_SCHEMA_SLASH_SLASH, m[2], S_REQ_HOST_START);
    assert s + [m[0]] + [m[1]] + [m[2]] == s + m;
  }

  /** The first byte of a host. */
  lemma HostFirst(cfg: Settings, e: Stream, t: Bytes, b: Byte, n: State)
    requires BeforeTarget(e)
    requires if Connects(e) then t == [] else Along(cfg, e, t, S_REQ_HOST_START)
    requires HostStartMove(b, Keep) == Go(n, Keep) && InUrl(n)
    ensures Along(cfg, e, t + [b], n)
  {
    hide Along, Connects;
    if Connects(e) {
      assert t + [b] == [b] && b != SP;
      FirstAlong(cfg, e, b, n);
    } else {
      ByteAlong(cfg, e, t, S_REQ_HOST_START, b, n);
    }
  }

  predicate AfterHost(s: State) { s == S_REQ_HOST || s == S_REQ_HOST_DONE }

  lemma HostAlong(cfg: Settings, e: Stream, t: Bytes, h: Bytes) returns (s: State)
    requires BeforeTarget(e) && IsHost(h)
    requires if Connects(e) then t == [] else Along(cfg, e, t, S_REQ_HOST_START)
    ensures AfterHost(s) && Along(cfg, e, t + h, s)
  {
    hide Along, Connects, BeforeTarget;
    if IsRegName(h) {
      HostFirst(cfg, e, t, h[0], S_REQ_HOST);
      RunAlong(cfg, e, t + [h[0]], S_REQ_HOST, h[1..]);
      assert t + [h[0]] + h[1..] == t + h;
      s := S_REQ_HOST;
    } else {
      var x := h[1..|h| - 1];
      HostFirst(cfg, e, t, LBRACKET, S_REQ_HOST_IPV6);
      RunAlong(cfg, e, t + [LBRACKET], S_REQ_HOST_IPV6, x);
      ByteAlong(cfg, e, t + [LBRACKET] + x, S_REQ_HOST_IPV6, RBRACKET, S_REQ_HOST_DONE);
      assert t + [LBRACKET] + x + [RBRACKET] == t + h;
      s := S_REQ_HOST_DONE;
    }
  }

  predicate AfterAuthority(s: State) { AfterHost(s) || s == S_REQ_PORT }

  lemma PortAlong(cfg: Settings, e: Stream, t: Bytes, s: State, p: Bytes) returns (n: State)
    requires Along(cfg, e, t, s) && AfterHost(s) && IsPort(p)
    ensures AfterAuthority(n) && Along(cfg, e, t + p, n)
  {
    hide Along, Connects;
    n := s;
    if p == [] {
      assert t + p == t;
    } else {
      ByteAlong(cfg, e, t, s, COLON, S_REQ_PORT);
      RunAlong(cfg, e, t + [COLON], S_REQ_PORT, p[1..]);
      assert t + [COLON] + p[1..] == t + p;
      n := S_REQ_PORT;
    }
  }

  /** Bytes of path, query and fragment. */
  lemma {:induction false} TailAlong(cfg: Settings, e: Stream, t: Bytes, s: State, r: Bytes) returns (n: State)
    requires Along(cfg, e, t, s) && UrlTarget.InTarget(s) && Only(r, TargetByte)
    ensures UrlTarget.InTarget(n) && Along(cfg, e, t + r, n)
    decreases |r|
  {
    hide Along, LineMove;
    n := s;
    if r == [] {
      assert t + r == t;
    } else {
      var f, b := r[..|r| - 1], r[|r| - 1];
      var m := TailAlong(cfg, e, t, s, f);
      TailMove(m, Connects(e), b);
      n := LineMove(m, Connects(e), b).s;
      ByteAlong(cfg, e, t + f, m, b, n);
      assert t + f + [b] == t + r;
    }
  }

  /** Inside a path, query or fragment the parser goes on exactly on a byte that may stand there. */
  lemma TailMove(s: State, connect: bool, b: Byte)
    requires UrlTarget.InTarget(s)
    ensures var m := LineMove(s, connect, b);
            TargetByte(b) <==> m.Go? && m.op == Keep && UrlTarget.InTarget(m.s)
  {
  }

  /** A target, followed by a space, is delivered whole, in one callback. */
  predicate Delivered(cfg: Settings, e: Stream, t: Bytes) {
    var d := ReadAll(cfg, e, t + [SP]);
    && d.live && d.p == e.p.(state := S_REQ_HTTP_START) && d.pos == e.pos + |t| + 1
    && d.out == Push(e.out, Data(Url, t, S_REQ_HTTP_START)) && (Neat(e) ==> Neat(d))
  }

  predicate MayEnd(s: State) { AfterAuthority(s) || UrlTarget.InTarget(s) }

  lemma SpaceAlong(cfg: Settings, e: Stream, t: Bytes, s: State)
    requires Along(cfg, e, t, s) && MayEnd(s)
    ensures Delivered(cfg, e, t)
  {
    hide Along, ReadAll, Push;
    StepAlong(cfg, e, t, s, SP);
  }

  lemma FormAlong(cfg: Settings, e: Stream, x: Target) returns (s: State)
    requires BeforeTarget(e) && IsForm(Connects(e), x)
    ensures MayEnd(s) && Along(cfg, e, TargetText(x), s) && (x.tail != [] ==> UrlTarget.InTarget(s))
  {
    hide Along, Connects, BeforeTarget;
    if !Connects(e) && IsOrigin(x) {
      var t := x.tail;
      FirstAlong(cfg, e, t[0], S_REQ_PATH);
      s := TailAlong(cfg, e, [t[0]], S_REQ_PATH, t[1..]);
      assert TargetText(x) == t == [t[0]] + t[1..];
    } else {
      var t := x.scheme + x.mid;
      if !Connects(e) { SchemeAlong(cfg, e, x); }
      s := HostAlong(cfg, e, t, x.host);
      s := PortAlong(cfg, e, t + x.host, s, x.port);
      if x.tail == [] {
        assert TargetText(x) == t + x.host + x.port;
      } else {
        s := FullAlong(cfg, e, t + x.host + x.port, s, x.tail);
      }
    }
  }

  /** The path or query behind an authority. */
  lemma FullAlong(cfg: Settings, e: Stream, t: Bytes, s: State, r: Bytes) returns (n: State)
    requires Along(cfg, e, t, s) && AfterAuthority(s) && IsTail(r, "/?")
    ensures UrlTarget.InTarget(n) && Along(cfg, e, t + r, n)
  {
    hide Along, Connects;
    n := if r[0] == SLASH then S_REQ_PATH else S_REQ_QUERY_STRING_START;
    ByteAlong(cfg, e, t, s, r[0], n);
    n := TailAlong(cfg, e, t + [r[0]], n, r[1..]);
    assert t + [r[0]] + r[1..] == t + r;
  }

  // ---------------------------------------------------------------- and no others

  const NOTHING := Target([], [], [], [], [])

  /** The pieces of a target read so far, with the parser in state `s`. */
  predicate Shape(connect: bool, s: State, x: Target) {
    if s == S_REQ_SCHEMA then !connect && x == NOTHING.(scheme := x.scheme) && x.scheme != [] && Only(x.scheme, Letter)
    else if S_REQ_SCHEMA_SLASH <= s <= S_REQ_SCHEMA_SLASH_SLASH || s == S_REQ_HOST_START then
      && !connect && x == NOTHING.(scheme := x.scheme, mid := x.mid) && x.scheme != [] && Only(x.scheme, Letter)
      && |x.mid| == (if s == S_REQ_SCHEMA_SLASH then 1 else if s == S_REQ_SCHEMA_SLASH_SLASH then 2 else 3)
      && x.mid[0] == COLON
    else if s == S_REQ_HOST then IsStart(x.scheme, x.mid, !connect) && IsRegName(x.host) && x.port == [] && x.tail == []
    else if s == S_REQ_HOST_IPV6 then
      && IsStart(x.scheme, x.mid, !connect) && x.port == [] && x.tail == []
      && x.host != [] && x.host[0] == LBRACKET && Only(x.host[1..], AddressByte)
    else if s == S_REQ_HOST_DONE then
      IsStart(x.scheme, x.mid, !connect) && IsBracketed(x.host) && x.port == [] && x.tail == []
    else if s == S_REQ_PORT then
      IsStart(x.scheme, x.mid, !connect) && IsHost(x.host) && x.port != [] && IsPort(x.port) && x.tail == []
    else UrlTarget.InTarget(s) && x.tail != [] && IsForm(connect, x)
  }

  /** The pieces with one more byte, that leads to state `s`. */
  function Grown(x: Target, s: State, b: Byte): Target {
    if s == S_REQ_SCHEMA then x.(scheme := x.scheme + [b])
    else if S_REQ_SCHEMA_SLASH <= s <= S_REQ_SCHEMA_SLASH_SLASH || s == S_REQ_HOST_START then x.(mid := x.mid + [b])
    else if S_REQ_HOST <= s <= S_REQ_HOST_DONE then x.(host := x.host + [b])
    else if s == S_REQ_PORT then x.(port := x.port + [b])
    else x.(tail := x.tail + [b])
  }

  lemma GrownText(connect: bool, x: Target, s: State, n: State, b: Byte)
    requires Shape(connect, s, x) && LineMove(s, connect, b) == Go(n, Keep) && InUrl(s) && InUrl(n)
    ensures TargetText(Grown(x, n, b)) == TargetText(x) + [b]
  {
    hide Shape, LineMove;
    ShapeSoFar(connect, s, x);
    MovesOn(s, connect, b);
  }

  /** Which pieces there are not yet. */
  lemma ShapeSoFar(connect: bool, s: State, x: Target)
    requires Shape(connect, s, x) && InUrl(s)
    ensures s < S_REQ_PATH ==> x.tail == []
    ensures s < S_REQ_PORT ==> x.port == []
    ensures s < S_REQ_HOST ==> x.host == []
    ensures s == S_REQ_SCHEMA ==> x.mid == []
  {
    hide Only, IsRegName, IsBracketed, IsForm, IsTail, IsPort, IsStart;
  }

  /** A target is read from left to right. */
  lemma MovesOn(s: State, connect: bool, b: Byte)
    requires InUrl(s)
    ensures var m := LineMove(s, connect, b);
            m.Go? && InUrl(m.s) ==>
              && (m.s == S_REQ_SCHEMA ==> s == S_REQ_SCHEMA) && (m.s <= S_REQ_HOST_START ==> s < S_REQ_HOST)
              && (m.s <= S_REQ_HOST_DONE ==> s < S_REQ_PORT) && (m.s <= S_REQ_PORT ==> s < S_REQ_PATH)
  {
  }

  lemma SchemeGrows(connect: bool, x: Target, s: State, n: State, b: Byte)
    requires S_REQ_SCHEMA <= s <= S_REQ_SCHEMA_SLASH_SLASH
    requires Shape(connect, s, x) && LineMove(s, connect, b) == Go(n, Keep)
    ensures Shape(connect, n, Grown(x, n, b))
  {
    hide IsRegName, IsBracketed, IsForm, IsTail, IsPort;
  }

  lemma HostStarts(connect: bool, x: Target, n: State, b: Byte)
    requires IsStart(x.scheme, x.mid, !connect) && x.host == [] && x.port == [] && x.tail == []
    requires HostStartMove(b, Keep) == Go(n, Keep)
    ensures Shape(connect, n, Grown(x, n, b))
  {
    hide IsForm, IsTail, IsPort;
    assert [] + [b] == [b];
  }

  lemma HostGrows(connect: bool, x: Target, s: State, n: State, b: Byte)
    requires S_REQ_HOST <= s <= S_REQ_HOST_IPV6 && S_REQ_HOST <= n <= S_REQ_HOST_DONE
    requires Shape(connect, s, x) && LineMove(s, connect, b) == Go(n, Keep)
    ensures Shape(connect, n, Grown(x, n, b))
  {
    hide IsForm, IsTail, IsPort, IsStart;
    var h := x.host + [b];
    if n == S_REQ_HOST_DONE {
      assert h[1..|h| - 1] == x.host[1..];
    } else {
      assert h[1..] == x.host[1..] + [b];
    }
  }

  lemma PortGrows(connect: bool, x: Target, s: State, b: Byte)
    requires s == S_REQ_HOST || S_REQ_HOST_DONE <= s <= S_REQ_PORT
    requires Shape(connect, s, x) && LineMove(s, connect, b) == Go(S_REQ_PORT, Keep)
    ensures Shape(connect, S_REQ_PORT, Grown(x, S_REQ_PORT, b))
  {
    hide IsForm, IsTail, IsStart, IsRegName, IsBracketed;
    var p := x.port + [b];
    if x.port != [] { assert p[1..] == x.port[1..] + [b]; }
  }

  lemma TailStarts(connect: bool, x: Target, s: State, n: State, b: Byte)
    requires s == S_REQ_HOST || S_REQ_HOST_DONE <= s <= S_REQ_PORT
    requires Shape(connect, s, x) && LineMove(s, connect, b) == Go(n, Keep) && UrlTarget.InTarget(n)
    ensures Shape(connect, n, Grown(x, n, b))
  {
    hide IsStart, IsRegName, IsBracketed;
    assert OneOf(SLASH, "/?") && OneOf(QMARK, "/?") by {
      assert "/?"[0] == '/' && "/?"[1] == '?';
    }
    assert [] + [b] == [b];
  }

  lemma TailGrows(connect: bool, x: Target, s: State, n: State, b: Byte)
    requires UrlTarget.InTarget(s)
    requires Shape(connect, s, x) && LineMove(s, connect, b) == Go(n, Keep) && InUrl(n)
    ensures Shape(connect, n, Grown(x, n, b))
  {
    hide IsStart, IsHost, IsPort, LineMove, OneOf;
    TailMove(s, connect, b);
    StaysInTail(s, connect, b);
    assert (x.tail + [b])[1..] == x.tail[1..] + [b];
  }

  lemma StaysInTail(s: State, connect: bool, b: Byte)
    requires UrlTarget.InTarget(s)
    ensures var m := LineMove(s, connect, b); m.Go? && InUrl(m.s) ==> UrlTarget.InTarget(m.s)
  {
  }

  lemma GrownShape(connect: bool, x: Target, s: State, n: State, b: Byte)
    requires Shape(connect, s, x) && LineMove(s, connect, b) == Go(n, Keep) && InUrl(s) && InUrl(n)
    ensures Shape(connect, n, Grown(x, n, b))
  {
    hide Shape, Grown, IsStart;
    if UrlTarget.InTarget(s) {
      TailGrows(connect, x, s, n, b);
    } else if s <= S_REQ_SCHEMA_SLASH_SLASH {
      SchemeGrows(connect, x, s, n, b);
    } else if s == S_REQ_HOST_START {
      SchemeDone(connect, x);
      HostStarts(connect, x, n, b);
    } else if UrlTarget.InTarget(n) {
      TailStarts(connect, x, s, n, b);
    } else if n == S_REQ_PORT {
      PortGrows(connect, x, s, b);
    } else {
      HostGrows(connect, x, s, n, b);
    }
  }

  lemma SchemeDone(connect: bool, x: Target)
    requires Shape(connect, S_REQ_HOST_START, x)
    ensures !connect && IsStart(x.scheme, x.mid, true) && x.host == [] && x.port == [] && x.tail == []
  {
  }

  /** The first byte of a target. */
  lemma FirstShape(connect: bool, n: State, b: Byte)
    requires TargetStartMove(connect, b) == Go(n, Start(Url))
    ensures Shape(connect, n, Grown(NOTHING, n, b)) && TargetText(Grown(NOTHING, n, b)) == [b]
  {
    assert [] + [b] == [b];
    if connect {
      HostStarts(connect, NOTHING, n, b);
    } else {
      assert OneOf(SLASH, "/*") && OneOf(STAR, "/*") by { assert "/*"[0] == '/' && "/*"[1] == '*'; }
    }
  }

  /** Texts that keep the parser inside a target have its shape. */
  lemma {:induction false} TakenShape(cfg: Settings, e: Stream, t: Bytes) returns (s: State, x: Target)
    requires BeforeTarget(e) && t != [] && Taken(cfg, e, t)
    ensures Along(cfg, e, t, s) && Shape(Connects(e), s, x) && TargetText(x) == t
  {
    hide Along, ReadAll, Shape, Grown, LineMove, InUrl, TargetStartMove;
    var f, b := t[..|t| - 1], t[|t| - 1];
    assert t[..|t|] == t && t == f + [b];
    if f == [] {
      assert t == [b];
      s := FirstTaken(cfg, e, b);
      FirstShape(Connects(e), s, b);
      x := Grown(NOTHING, s, b);
    } else {
      assert forall n :: 0 < n <= |f| ==> f[..n] == t[..n];
      var r, y := TakenShape(cfg, e, f);
      AlongUrl(cfg, e, f, r);
      StepAlong(cfg, e, f, r, b);
      s := ReadAll(cfg, e, t).p.state;
      GrownShape(Connects(e), y, r, s, b);
      GrownText(Connects(e), y, r, s, b);
      x := Grown(y, s, b);
    }
  }

  lemma FirstTaken(cfg: Settings, e: Stream, b: Byte) returns (s: State)
    requires BeforeTarget(e) && ReadAll(cfg, e, [b]).live && InUrl(ReadAll(cfg, e, [b]).p.state)
    ensures TargetStartMove(Connects(e), b) == Go(s, Start(Url)) && Along(cfg, e, [b], s)
  {
    hide PushAll, Push, Along;
    assert [b][..0] == [];
    assert ReadAll(cfg, e, []) == e && ReadAll(cfg, e, [b]) == Read(cfg, e, b);
    s := ReadAll(cfg, e, [b]).p.state;
    FirstAlong(cfg, e, b, s);
  }

  /** A text, followed by a space, is taken as the target of a request and delivered whole in one callback if
      and only if it is one: for CONNECT an authority, for other methods a path, '*' or an absolute form. */
  lemma TargetExactly(cfg: Settings, e: Stream, t: Bytes)
    requires BeforeTarget(e)
    ensures t != [] && Taken(cfg, e, t) && Delivered(cfg, e, t) <==> IsRequestTarget(Connects(e), t)
  {
    hide Along, Shape, ReadAll, LineMove, IsForm, Push, InUrl, Connects, TargetText;
    if t != [] && Taken(cfg, e, t) && Delivered(cfg, e, t) {
      var s, x := TakenShape(cfg, e, t);
      StepAlong(cfg, e, t, s, SP);
      AlongUrl(cfg, e, t, s);
      EndsShape(Connects(e), s, x);
    }
    if IsRequestTarget(Connects(e), t) {
      var x :| IsForm(Connects(e), x) && TargetText(x) == t;
      var s := FormAlong(cfg, e, x);
      SpaceAlong(cfg, e, t, s);
      AlongTaken(cfg, e, t, s);
    }
  }

  lemma AlongTaken(cfg: Settings, e: Stream, t: Bytes, s: State)
    requires BeforeTarget(e) && Along(cfg, e, t, s)
    ensures Taken(cfg, e, t) && t != []
  {
    ReadNothing(cfg, e);
  }

  /** Where a space ends a target, its pieces are complete. */
  lemma EndsShape(connect: bool, s: State, x: Target)
    requires InUrl(s) && Shape(connect, s, x)
    requires LineMove(s, connect, SP) == Go(S_REQ_HTTP_START, Flush(Url, S_REQ_HTTP_START))
    ensures IsForm(connect, x)
  {
    hide IsStart, IsRegName, IsBracketed, Only, OneOf;
  }

  /** The two URL machines let the same targets that start with '/' through. */
  lemma MachinesAgree(cfg: Settings, e: Stream, u: UrlParser.Parts, t: Bytes)
    requires BeforeTarget(e) && !Connects(e) && t != [] && t[0] == SLASH
    ensures Taken(cfg, e, t) <==> UrlParser.ScanAll(true, u, t).s != S_DEAD
  {
    hide ReadAll, UrlParser.ScanAll, Along, Shape, Connects, BeforeTarget, UrlTarget.IsTarget, IsForm;
    UrlTarget.TargetScanned(true, u, t);
    if Taken(cfg, e, t) {
      var s, x := TakenShape(cfg, e, t);
      SlashShape(s, x);
    }
    if UrlTarget.IsTarget(t) {
      OriginForm(t);
      var x :| IsForm(false, x) && TargetText(x) == t;
      var s := FormAlong(cfg, e, x);
      AlongTaken(cfg, e, t, s);
    }
  }

  /** Only a path starts with '/'. */
  lemma SlashShape(s: State, x: Target)
    requires Shape(false, s, x) && TargetText(x) != [] && TargetText(x)[0] == SLASH
    ensures UrlTarget.IsTarget(TargetText(x))
  {
    hide TargetByte, IsHost, IsPort;
    assert x.scheme == [];
    assert TargetText(x) == x.tail;
    assert forall i :: 0 < i < |x.tail| ==> x.tail[i] == x.tail[1..][i - 1];
  }

  // ---------------------------------------------------------------- targets as clients write them

  /** Every byte of the URI grammar may stand in a target. */
  lemma UriByteTaken(b: Byte)
    requires UriByte(b) || b == HASH
    ensures TargetByte(b)
  {
    var s := "!$&'()*+,;=:@/?%";
    var t := "-._~";
    assert forall c :: c in s ==> 0x21 <= c as int <= 0x7e;
    assert forall c :: c in t ==> 0x21 <= c as int <= 0x7e;
  }

  predicate InPath(b: Byte) { TargetByte(b) && b != QMARK && b != HASH }

  lemma {:induction false} EncodedBytes(x: Bytes)
    ensures Only(PercentEncoded(x), InPath)
  {
    if x != [] {
      EncodedBytes(x[..|x| - 1]);
      var b := x[|x| - 1];
      if Unreserved(b) {
        assert "-._~" == ['-', '.', '_', '~'];
      }
    }
  }

  lemma {:induction false} UntilEnd(t: Bytes, i: nat)
    requires i <= |t| && Only(t, InPath)
    ensures UrlTarget.Until(t, i, true) == |t|
    decreases |t| - i
  {
    if i < |t| { UntilEnd(t, i + 1); }
  }

  /** Any bytes, percent-encoded behind a '/', are a target that is delivered whole, and url_path() gives it
      back exactly while it is below 65536 bytes long. */
  lemma EncodedPath(cfg: Settings, e: Stream, u: UrlParser.Parts, x: Bytes)
    requires BeforeTarget(e) && !Connects(e)
    ensures var t := [SLASH] + PercentEncoded(x);
            && Delivered(cfg, e, t)
            && UrlTarget.IsTarget(t) && UrlTarget.PathOf(t) == t
            && UrlParser.UF_PATH in UrlTarget.Kept(t, u).found
            && UrlTarget.Kept(t, u).data[UrlParser.UF_PATH].off <= |t|
            && (UrlTarget.PartOf(t, UrlTarget.Kept(t, u), UrlParser.UF_PATH) == t <==> |t| < UrlParser.UINT16_SIZE)
  {
    hide Delivered, UrlTarget.Kept, UrlTarget.PartOf, BeforeTarget, Connects, UrlTarget.Until, IsRequestTarget;
    var t := [SLASH] + PercentEncoded(x);
    EncodedTarget(x);
    OriginForm(t);
    TargetExactly(cfg, e, t);
    UrlTarget.UrlPath(t, u);
  }

  lemma EncodedTarget(x: Bytes)
    ensures var t := [SLASH] + PercentEncoded(x); UrlTarget.IsTarget(t) && UrlTarget.PathOf(t) == t
  {
    hide UrlTarget.Until, PercentEncoded;
    var t := [SLASH] + PercentEncoded(x);
    EncodedBytes(x);
    UntilEnd(t, 0);
  }

  /** A target that starts with '/'. */
  lemma OriginForm(t: Bytes)
    requires UrlTarget.IsTarget(t)
    ensures IsRequestTarget(false, t)
  {
    hide TargetByte;
    assert "/*"[0] == '/';
    var y := NOTHING.(tail := t);
    assert IsForm(false, y) && TargetText(y) == t;
  }
}
