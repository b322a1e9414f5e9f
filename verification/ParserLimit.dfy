/** The header limit: exactly which streams run into it, however they are cut into calls. */
module ParserLimit {
  import opened Ascii
  import opened ParserTypes
  import opened ParserStep
  import opened ParserInvariant
  import opened ParserRun
  import opened ParserEvents
  import opened ParserCuts

  /** The bytes since the count was last reset, one more byte on. */
  function CountByte(cfg: Settings, e: Stream, k: nat, b: Byte): nat {
    if !e.live then k
    else
      var a := Step(cfg, e.p, b);
      if a.ctl == StopBefore then k else if a.reset then 1 else k + 1
  }

  /** The bytes since the count was last reset, by the stream alone; `k` at its start. */
  function Since(cfg: Settings, e: Stream, k: nat, s: Bytes): nat {
    if s == [] then k
    else CountByte(cfg, ReadAll(cfg, e, s[..|s| - 1]), Since(cfg, e, k, s[..|s| - 1]), s[|s| - 1])
  }

  /** The parser is running, in a state that counts as header. */
  predicate InHeader(e: Stream) { e.live && ParsingHeader(e.p.state) }

  /** Wherever the parser is in a header, it has counted no more than the limit. */
  ghost predicate WithinCount(cfg: Settings, e: Stream, k: nat, s: Bytes) {
    forall n :: 0 <= n <= |s| && InHeader(ReadAll(cfg, e, s[..n])) ==> Since(cfg, e, k, s[..n]) <= MAX_HEADER_SIZE
  }

  function AtFirst(p: Parser): Stream { Stream(p, [], 0, true, false, true) }

  // ---------------------------------------------------------------- the count of a call

  /** A step from a body back into a header resets the count. */
  lemma BodyToHeader(cfg: Settings, p: Parser, b: Byte)
    requires Live(p) && !ParsingHeader(p.state)
    ensures var a := Step(cfg, p, b); a.ctl != StopBefore && ParsingHeader(a.p.state) ==> a.reset
  {
  }

  /** In a header, a run that goes on from earlier calls has counted what the stream counts. */
  predicate SameCount(r: Run, k: nat) { r.live && ParsingHeader(r.p.state) ==> r.nread + r.since == k }

  lemma CountStep(cfg: Settings, off: nat, r: Run, e: Stream, k: nat, b: Byte)
    requires SamePlace(off, r, e) && SameCount(r, k) && RunFits(r)
    ensures SameCount(Advance(cfg, r, b), CountByte(cfg, e, k, b))
  {
    hide Step, Inv, Flushed, NextMark, MarkFits;
    if r.live && !ParsingHeader(r.p.state) {
      BodyToHeader(cfg, r.p, b);
    }
  }

  lemma {:induction false} CountAll(cfg: Settings, off: nat, r: Run, e: Stream, k: nat, s: Bytes)
    requires SamePlace(off, r, e) && SameCount(r, k) && RunFits(r)
    ensures SamePlace(off, RunOver(cfg, r, s), ReadAll(cfg, e, s)) && SameCount(RunOver(cfg, r, s), Since(cfg, e, k, s))
  {
    hide Advance, Read, RunFits, SameCount, SamePlace, CountByte;
    SamePlaceAll(cfg, off, r, e, s);
    if s != [] {
      var t := s[..|s| - 1];
      CountAll(cfg, off, r, e, k, t);
      RunOverFits(cfg, r, t);
      CountStep(cfg, off, RunOver(cfg, r, t), ReadAll(cfg, e, t), Since(cfg, e, k, t), s[|s| - 1]);
    }
  }

  /** The loop itself never sets HPE_HEADER_OVERFLOW. */
  lemma {:induction false} NotOverflow(cfg: Settings, r: Run, s: Bytes)
    requires r.p.errno != HPE_HEADER_OVERFLOW && RunFits(r)
    ensures RunOver(cfg, r, s).p.errno != HPE_HEADER_OVERFLOW
  {
    hide Step, Inv, ZoneOf, ZoneFits;
    if s != [] {
      var t := s[..|s| - 1];
      NotOverflow(cfg, r, t);
      RunOverFits(cfg, r, t);
      var q := RunOver(cfg, r, t);
      if q.live { StepFits(cfg, q.p, s[|s| - 1]); }
    }
  }

  // ---------------------------------------------------------------- calls in a row

  predicate FedCount(f: Fed, e: Stream, k: nat) {
    FedPlace(f, e) && f.p.errno != HPE_HEADER_OVERFLOW && (!f.stopped && ParsingHeader(f.p.state) ==> f.nread == k)
  }

  /** The outcome of a call that ran into the limit. */
  predicate Overflows(g: Fed, d: Stream) {
    g.p == d.p.(errno := HPE_HEADER_OVERFLOW) && g.stopped && g.pos == d.pos
  }

  /** A call runs into the limit exactly if it ends in a header with more than the limit counted. */
  lemma FeedCount(cfg: Settings, f: Fed, e: Stream, k: nat, data: Bytes)
    requires FedCount(f, e, k) && data != []
    requires InHeader(ReadAll(cfg, e, data)) ==> Since(cfg, e, k, data) < UINT32_SIZE
    ensures var d, n := ReadAll(cfg, e, data), Since(cfg, e, k, data);
            if InHeader(d) && n > MAX_HEADER_SIZE then Overflows(Feed(cfg, f, data), d)
            else FedCount(Feed(cfg, f, data), d, n)
  {
    hide Step, Inv, PushAll, RunOver, ReadAll, Since;
    if f.stopped {
      ReadAllStopped(cfg, e, data);
    } else {
      var r := Begin(f.p, f.nread);
      BeginFits(f.p, f.nread);
      CountAll(cfg, f.pos, r, e, k, data);
      NotOverflow(cfg, r, data);
      RunOverFits(cfg, r, data);
    }
  }

  lemma {:induction false} SinceAppend(cfg: Settings, e: Stream, k: nat, s: Bytes, t: Bytes)
    ensures Since(cfg, e, k, s + t) == Since(cfg, ReadAll(cfg, e, s), Since(cfg, e, k, s), t)
    decreases |t|
  {
    hide CountByte, Read;
    if t == [] {
      assert s + t == s;
    } else {
      var u := t[..|t| - 1];
      assert (s + t)[..|s + t| - 1] == s + u;
      SinceAppend(cfg, e, k, s, u);
      ReadAllAppend(cfg, e, s, u);
    }
  }

  lemma WithinCountBefore(cfg: Settings, e: Stream, k: nat, s: Bytes, t: Bytes)
    requires WithinCount(cfg, e, k, s + t)
    ensures WithinCount(cfg, e, k, s)
  {
    hide ReadAll, Since, InHeader;
    forall n | 0 <= n <= |s| && InHeader(ReadAll(cfg, e, s[..n])) ensures Since(cfg, e, k, s[..n]) <= MAX_HEADER_SIZE {
      assert (s + t)[..n] == s[..n];
    }
  }

  lemma {:induction false} SinceBound(cfg: Settings, e: Stream, k: nat, s: Bytes)
    ensures Since(cfg, e, k, s) <= k + |s|
  {
    hide Step, ReadAll;
    if s != [] { SinceBound(cfg, e, k, s[..|s| - 1]); }
  }

  lemma WithinCountAll(cfg: Settings, e: Stream, k: nat, s: Bytes)
    requires WithinCount(cfg, e, k, s) && InHeader(ReadAll(cfg, e, s))
    ensures Since(cfg, e, k, s) <= MAX_HEADER_SIZE
  {
    assert s[..|s|] == s;
  }

  lemma {:induction false} FeedAllCount(cfg: Settings, p: Parser, pieces: seq<Bytes>)
    requires Live(p) && NoneEmpty(pieces) && WithinCount(cfg, AtFirst(p), 0, Concat(pieces))
    ensures var s := Concat(pieces);
            FedCount(FeedAll(cfg, Fresh(p, 0), pieces), Whole(cfg, p, s), Since(cfg, AtFirst(p), 0, s))
  {
    hide Step, Inv, Feed, ReadAll, WithinCount;
    if pieces == [] {
      ReadNothing(cfg, AtFirst(p));
    } else {
      var front, last := pieces[..|pieces| - 1], pieces[|pieces| - 1];
      var s := Concat(front);
      WithinCountBefore(cfg, AtFirst(p), 0, s, last);
      FeedAllCount(cfg, p, front);
      SinceAppend(cfg, AtFirst(p), 0, s, last);
      ReadAllAppend(cfg, AtFirst(p), s, last);
      if InHeader(Whole(cfg, p, s + last)) {
        WithinCountAll(cfg, AtFirst(p), 0, s + last);
      }
      FeedCount(cfg, FeedAll(cfg, Fresh(p, 0), front), Whole(cfg, p, s), Since(cfg, AtFirst(p), 0, s), last);
    }
  }

  // ---------------------------------------------------------------- exactly

  lemma {:induction false} ReadAllLive(cfg: Settings, e: Stream, s: Bytes)
    requires Live(e.p) && ReadAll(cfg, e, s).live
    ensures Live(ReadAll(cfg, e, s).p)
  {
    hide Step, Inv, PushAll, TextOf;
    if s != [] {
      ReadAllLive(cfg, e, s[..|s| - 1]);
      StepFits(cfg, ReadAll(cfg, e, s[..|s| - 1]).p, s[|s| - 1]);
    }
  }

  /** The first place beyond the limit is one byte beyond it. */
  lemma {:induction false} FirstBeyond(cfg: Settings, e: Stream, k: nat, s: Bytes) returns (n: nat)
    requires Live(e.p) && k <= MAX_HEADER_SIZE && !WithinCount(cfg, e, k, s)
    ensures 0 < n <= |s| && InHeader(ReadAll(cfg, e, s[..n])) && Since(cfg, e, k, s[..n]) == MAX_HEADER_SIZE + 1
  {
    hide Step, PushAll, Inv;
    if s == [] {
      assert false;
    }
    var t := s[..|s| - 1];
    if !WithinCount(cfg, e, k, t) {
      n := FirstBeyond(cfg, e, k, t);
      assert t[..n] == s[..n];
    } else {
      n := |s|;
      assert s[..n] == s;
      OnlyLast(cfg, e, k, s);
      var d := ReadAll(cfg, e, t);
      ReadAllLive(cfg, e, t);
      if ParsingHeader(d.p.state) {
        WithinCountAll(cfg, e, k, t);
      } else {
        BodyToHeader(cfg, d.p, s[|s| - 1]);
      }
    }
  }

  lemma OnlyLast(cfg: Settings, e: Stream, k: nat, s: Bytes)
    requires s != [] && WithinCount(cfg, e, k, s[..|s| - 1]) && !WithinCount(cfg, e, k, s)
    ensures InHeader(ReadAll(cfg, e, s)) && Since(cfg, e, k, s) > MAX_HEADER_SIZE
  {
    hide ReadAll, Since, InHeader;
    var t := s[..|s| - 1];
    assert forall n :: 0 <= n <= |t| ==> t[..n] == s[..n];
    assert s[..|s|] == s;
  }

  /** No way to cut a beginning of the stream runs into the limit if and only if, wherever the parser is
      in a header, no more than the limit was read since the message or the chunk before it began. */
  lemma WithinLimitExactly(cfg: Settings, p: Parser, s: Bytes)
    requires Live(p)
    ensures WithinLimit(cfg, p, s) <==> WithinCount(cfg, AtFirst(p), 0, s)
  {
    hide FeedAll, Feed, Inv, WithinCount, ReadAll, Since, Concat;
    if WithinCount(cfg, AtFirst(p), 0, s) {
      forall n, pieces | 0 < n <= |s| && IsCutOf(pieces, s[..n])
        ensures FeedAll(cfg, Fresh(p, 0), pieces).p.errno != HPE_HEADER_OVERFLOW
      {
        assert s == s[..n] + s[n..];
        WithinCountBefore(cfg, AtFirst(p), 0, s[..n], s[n..]);
        FeedAllCount(cfg, p, pieces);
      }
    } else {
      var n := FirstBeyond(cfg, AtFirst(p), 0, s);
      OnePiece(cfg, Fresh(p, 0), s[..n]);
      FeedCount(cfg, Fresh(p, 0), AtFirst(p), 0, s[..n]);
    }
  }

  /** The same for the pieces of one stream. */
  lemma NoOverflow(cfg: Settings, p: Parser, pieces: seq<Bytes>)
    requires Live(p) && NoneEmpty(pieces) && WithinCount(cfg, AtFirst(p), 0, Concat(pieces))
    ensures FeedAll(cfg, Fresh(p, 0), pieces).p.errno != HPE_HEADER_OVERFLOW
  {
    hide FeedAll, WithinCount, Since, Inv;
    FeedAllCount(cfg, p, pieces);
  }

  /** A stream no longer than the limit never runs into it. */
  lemma SmallWithinLimit(cfg: Settings, p: Parser, s: Bytes)
    requires Live(p) && |s| <= 80 * 1024
    ensures WithinLimit(cfg, p, s)
  {
    hide WithinLimit, ReadAll, Since, Inv;
    forall n | 0 <= n <= |s| && InHeader(ReadAll(cfg, AtFirst(p), s[..n]))
      ensures Since(cfg, AtFirst(p), 0, s[..n]) <= MAX_HEADER_SIZE
    {
      SinceBound(cfg, AtFirst(p), 0, s[..n]);
    }
    WithinLimitExactly(cfg, p, s);
  }

  // ---------------------------------------------------------------- cuts of any stream

  lemma {:induction false} LivePos(cfg: Settings, e: Stream, s: Bytes)
    ensures ReadAll(cfg, e, s).live ==> ReadAll(cfg, e, s).pos == e.pos + |s|
  {
    hide Step, PushAll, TextOf;
    if s != [] { LivePos(cfg, e, s[..|s| - 1]); }
  }

  /** All but the last byte. */
  function ButLast(s: Bytes): Bytes
    requires s != []
  {
    s[..|s| - 1]
  }

  /** The last byte is the first one beyond the limit. */
  ghost predicate JustBeyond(cfg: Settings, p: Parser, s: Bytes) {
    s != [] && WithinCount(cfg, AtFirst(p), 0, ButLast(s)) && !WithinCount(cfg, AtFirst(p), 0, s)
  }

  /** Every way to feed such a stream ends in the overflow. */
  lemma JustBeyondOverflows(cfg: Settings, p: Parser, s: Bytes, pieces: seq<Bytes>)
    requires Live(p) && JustBeyond(cfg, p, s) && IsCutOf(pieces, s)
    ensures Overflows(FeedAll(cfg, Fresh(p, 0), pieces), Whole(cfg, p, s))
  {
    hide Feed, Inv, WithinCount, ReadAll, Since;
    var front, last := pieces[..|pieces| - 1], pieces[|pieces| - 1];
    var t := Concat(front);
    var n := FirstBeyond(cfg, AtFirst(p), 0, s);
    BeyondIsLast(cfg, p, s, n);
    assert s[..n] == s;
    assert last != [] && ButLast(s) == t + ButLast(last);
    WithinCountBefore(cfg, AtFirst(p), 0, t, ButLast(last));
    FeedAllCount(cfg, p, front);
    SinceAppend(cfg, AtFirst(p), 0, t, last);
    ReadAllAppend(cfg, AtFirst(p), t, last);
    FeedCount(cfg, FeedAll(cfg, Fresh(p, 0), front), Whole(cfg, p, t), Since(cfg, AtFirst(p), 0, t), last);
  }

  /** A byte more, and the cut before it shows. */
  lemma BeyondMatters(cfg: Settings, p: Parser, s: Bytes, b: Byte)
    requires Live(p) && s != [] && JustBeyond(cfg, p, s)
    ensures !SameOutcome(FeedAll(cfg, Fresh(p, 0), [s, [b]]), Feed(cfg, Fresh(p, 0), s + [b]))
  {
    hide Feed, Inv, WithinCount, ReadAll, Since, FeedAll;
    var f := Fresh(p, 0);
    OnePiece(cfg, f, s);
    JustBeyondOverflows(cfg, p, s, [s]);
    TwoPieces(cfg, f, s, [b]);
    StoppedFeed(cfg, Feed(cfg, f, s), [b]);
    var n := FirstBeyond(cfg, AtFirst(p), 0, s);
    BeyondIsLast(cfg, p, s, n);
    assert s[..n] == s;
    LivePos(cfg, AtFirst(p), s);
    LivePos(cfg, AtFirst(p), s + [b]);
    SinceAppend(cfg, AtFirst(p), 0, s, [b]);
    SinceBound(cfg, Whole(cfg, p, s), Since(cfg, AtFirst(p), 0, s), [b]);
    FeedCount(cfg, f, AtFirst(p), 0, s + [b]);
  }

  lemma StoppedFeed(cfg: Settings, f: Fed, data: Bytes)
    requires f.stopped
    ensures Feed(cfg, f, data) == f
  {
  }

  lemma BeyondIsLast(cfg: Settings, p: Parser, s: Bytes, n: nat)
    requires JustBeyond(cfg, p, s) && 0 < n <= |s|
    requires InHeader(Whole(cfg, p, s[..n])) && Since(cfg, AtFirst(p), 0, s[..n]) > MAX_HEADER_SIZE
    ensures n == |s|
  {
    hide ReadAll, Since;
    assert forall k :: 0 <= k < |s| ==> ButLast(s)[..k] == s[..k];
  }

  /** The first place beyond the limit cuts the stream there. */
  lemma {:induction false} BeyondPrefix(cfg: Settings, p: Parser, s: Bytes) returns (n: nat)
    requires !WithinCount(cfg, AtFirst(p), 0, s)
    ensures 0 < n <= |s| && JustBeyond(cfg, p, s[..n])
  {
    hide ReadAll, Since;
    if s == [] {
      StartWithin(cfg, p, s);
      assert false;
    }
    if WithinCount(cfg, AtFirst(p), 0, ButLast(s)) {
      n := |s|;
      assert s[..n] == s;
    } else {
      n := BeyondPrefix(cfg, p, ButLast(s));
      assert ButLast(s)[..n] == s[..n];
    }
  }

  lemma StartWithin(cfg: Settings, p: Parser, s: Bytes)
    requires s == []
    ensures WithinCount(cfg, AtFirst(p), 0, s)
  {
  }

  lemma CutsAgreeBefore(cfg: Settings, p: Parser, s: Bytes, n: nat)
    requires CutsAgree(cfg, p, s) && n <= |s|
    ensures CutsAgree(cfg, p, s[..n])
  {
    hide Feed, FeedAll, SameOutcome, Concat;
    forall m, pieces | 0 < m <= n && IsCutOf(pieces, s[..n][..m])
      ensures SameOutcome(FeedAll(cfg, Fresh(p, 0), pieces), Feed(cfg, Fresh(p, 0), s[..n][..m]))
    {
      assert s[..n][..m] == s[..m];
    }
  }

  /** When no byte is beyond the limit: cuts agree if and only if the stream is clean. */
  lemma CutsAgreeWithin(cfg: Settings, p: Parser, s: Bytes)
    requires Live(p) && WithinCount(cfg, AtFirst(p), 0, s)
    ensures CutsAgree(cfg, p, s) <==> Whole(cfg, p, s).clean
  {
    hide WithinCount, WithinLimit, CutsAgree, ReadAll, Inv;
    WithinLimitExactly(cfg, p, s);
    CutsAgreeExactlyWhenClean(cfg, p, s);
  }

  /** Cut independence, for every stream: however its beginnings are cut, they come to the same as in one
      call if and only if no byte is accepted in a gap and none is beyond the header limit, except that the
      last byte may be the first one beyond it: there every cut overflows. */
  lemma CutsAgreeExactly(cfg: Settings, p: Parser, s: Bytes)
    requires Live(p)
    ensures CutsAgree(cfg, p, s)
       <==> if JustBeyond(cfg, p, s) then Whole(cfg, p, ButLast(s)).clean
            else WithinCount(cfg, AtFirst(p), 0, s) && Whole(cfg, p, s).clean
  {
    hide WithinCount, CutsAgree, ReadAll, Inv;
    if WithinCount(cfg, AtFirst(p), 0, s) {
      CutsAgreeWithin(cfg, p, s);
    } else if JustBeyond(cfg, p, s) {
      CutsAgreeWithin(cfg, p, ButLast(s));
      if CutsAgree(cfg, p, s) { CutsAgreeBefore(cfg, p, s, |s| - 1); }
      if CutsAgree(cfg, p, ButLast(s)) { LastBeyondAgrees(cfg, p, s); }
    } else {
      var n := BeyondPrefix(cfg, p, s);
      assert s[..|s|] == s;
      BeyondDisagrees(cfg, p, s, n);
    }
  }

  lemma LastBeyondAgrees(cfg: Settings, p: Parser, s: Bytes)
    requires Live(p) && JustBeyond(cfg, p, s) && CutsAgree(cfg, p, ButLast(s))
    ensures CutsAgree(cfg, p, s)
  {
    hide Feed, FeedAll, Concat, JustBeyond, ReadAll, Inv;
    var f := Fresh(p, 0);
    forall n, pieces | 0 < n <= |s| && IsCutOf(pieces, s[..n])
      ensures SameOutcome(FeedAll(cfg, f, pieces), Feed(cfg, f, s[..n]))
    {
      if n < |s| {
        assert ButLast(s)[..n] == s[..n];
      } else {
        assert s[..n] == s;
        OnePiece(cfg, f, s);
        JustBeyondOverflows(cfg, p, s, pieces);
        JustBeyondOverflows(cfg, p, s, [s]);
      }
    }
  }

  lemma BeyondDisagrees(cfg: Settings, p: Parser, s: Bytes, n: nat)
    requires Live(p) && 0 < n < |s| && JustBeyond(cfg, p, s[..n])
    ensures !CutsAgree(cfg, p, s)
  {
    hide Feed, FeedAll, SameOutcome, Concat, JustBeyond, Inv;
    var t, b := s[..n], s[n];
    assert s[..n + 1] == t + [b];
    TwoPieces(cfg, Fresh(p, 0), t, [b]);
    BeyondMatters(cfg, p, t, b);
  }

  // ---------------------------------------------------------------- the count piece by piece

  lemma WithinCountAppend(cfg: Settings, e: Stream, k: nat, s: Bytes, t: Bytes)
    ensures WithinCount(cfg, e, k, s + t)
       <==> WithinCount(cfg, e, k, s) && WithinCount(cfg, ReadAll(cfg, e, s), Since(cfg, e, k, s), t)
  {
    hide ReadAll, Since, InHeader;
    var d, c := ReadAll(cfg, e, s), Since(cfg, e, k, s);
    forall n | 0 <= n <= |t|
      ensures (s + t)[..|s| + n] == s + t[..n]
      ensures ReadAll(cfg, e, (s + t)[..|s| + n]) == ReadAll(cfg, d, t[..n])
      ensures Since(cfg, e, k, (s + t)[..|s| + n]) == Since(cfg, d, c, t[..n])
    {
      assert (s + t)[..|s| + n] == s + t[..n];
      ReadAllAppend(cfg, e, s, t[..n]);
      SinceAppend(cfg, e, k, s, t[..n]);
    }
    if WithinCount(cfg, e, k, s + t) {
      WithinCountBefore(cfg, e, k, s, t);
      forall n | 0 <= n <= |t| && InHeader(ReadAll(cfg, d, t[..n]))
        ensures Since(cfg, d, c, t[..n]) <= MAX_HEADER_SIZE
      {
        assert InHeader(ReadAll(cfg, e, (s + t)[..|s| + n]));
      }
    }
    if WithinCount(cfg, e, k, s) && WithinCount(cfg, d, c, t) {
      forall n | 0 <= n <= |s + t| && InHeader(ReadAll(cfg, e, (s + t)[..n]))
        ensures Since(cfg, e, k, (s + t)[..n]) <= MAX_HEADER_SIZE
      {
        if n <= |s| {
          assert (s + t)[..n] == s[..n];
        } else {
          var m := n - |s|;
          assert (s + t)[..|s| + m] == (s + t)[..n];
          assert InHeader(ReadAll(cfg, d, t[..m]));
        }
      }
    }
  }

  /** The callbacks with which the parser leaves a header or starts to count anew. */
  predicate Breaks(v: Event) {
    v.HeadersComplete? || v.ChunkComplete? || v.MessageComplete? || (v.ChunkHeader? && v.size != 0)
  }

  datatype Sort = Break | Beginning | Completion

  predicate IsOf(v: Event, k: Sort) {
    match k
    case Break => Breaks(v)
    case Beginning => v.MessageBegin?
    case Completion => v.MessageComplete?
  }

  /** How many callbacks of a sort there are. */
  function Tally(es: seq<Event>, k: Sort): nat {
    if es == [] then 0 else Tally(es[..|es| - 1], k) + if IsOf(es[|es| - 1], k) then 1 else 0
  }

  lemma TallyPush(es: seq<Event>, f: Event, k: Sort)
    ensures Tally(Push(es, f), k) == Tally(es, k) + if IsOf(f, k) then 1 else 0
  {
    var fs := Push(es, f);
    if es != [] && Continues(es[|es| - 1], f) {
      assert fs[..|fs| - 1] == es[..|es| - 1];
    } else {
      assert fs[..|fs| - 1] == es;
    }
  }

  lemma {:induction false} TallyPushAll(es: seq<Event>, fs: seq<Event>, k: Sort)
    ensures Tally(PushAll(es, fs), k) == Tally(es, k) + Tally(fs, k)
    decreases |fs|
  {
    hide IsOf, Push;
    if fs != [] {
      TallyPushAll(es, fs[..|fs| - 1], k);
      TallyPush(PushAll(es, fs[..|fs| - 1]), fs[|fs| - 1], k);
    }
  }

  /** A byte adds the callbacks its step makes; text is of no sort. */
  lemma ReadTally(cfg: Settings, e: Stream, b: Byte, k: Sort)
    requires e.live
    ensures Tally(Read(cfg, e, b).out, k) == Tally(e.out, k) + Tally(Step(cfg, e.p, b).notes, k)
  {
    hide Step, PushAll, Tally;
    var a := Step(cfg, e.p, b);
    var text := TextOf(e.p.state, a.op, b, a.p.state);
    TallyPushAll(e.out, a.notes, k);
    TallyPushAll(e.out, text, k);
    TallyPushAll(PushAll(e.out, text), a.notes, k);
    TextTally(text, k);
  }

  lemma TextTally(es: seq<Event>, k: Sort)
    requires |es| <= 1 && forall i :: 0 <= i < |es| ==> es[i].Data?
    ensures Tally(es, k) == 0
  {
    assert Tally([], k) == 0;
  }

  /** In a header, and not paused at its very end. */
  predicate Counting(s: State) { ParsingHeader(s) && s != S_HEADERS_DONE }

  /** A step that makes no such callback stays in the header and goes on counting. */
  lemma StepBreaks(cfg: Settings, p: Parser, b: Byte)
    requires Live(p) && Counting(p.state) && Tally(Step(cfg, p, b).notes, Break) == 0
    ensures var a := Step(cfg, p, b); a.ctl != StopBefore ==> !a.reset && Counting(a.p.state)
  {
    hide StepStart, StepMethod, StepLine, StepHeaders, StepBody;
    if InStart(p.state) {
      StartCounts(cfg, p, b);
    } else if p.state == S_REQ_METHOD {
      MethodCounts(p, b);
    } else if InLine(p.state) {
      LineCounts(p, b);
    } else if InHeaders(p.state) {
      HeadersCount(cfg, p, b);
    } else {
      SizeCounts(cfg, p, b);
    }
  }

  predicate GoesOn(a: Act) { Tally(a.notes, Break) == 0 && a.ctl != StopBefore ==> !a.reset && Counting(a.p.state) }

  lemma StartCounts(cfg: Settings, p: Parser, b: Byte)
    requires InStart(p.state)
    ensures GoesOn(StepStart(cfg, p, b))
  {
    hide Tally, FirstMethod;
  }

  lemma MethodCounts(p: Parser, b: Byte)
    requires p.state == S_REQ_METHOD
    ensures GoesOn(StepMethod(p, b))
  {
    hide Tally, MethodChar, SwitchMethod;
  }

  lemma LineCounts(p: Parser, b: Byte)
    requires InLine(p.state)
    ensures GoesOn(StepLine(p, b))
  {
    hide Tally, LineMove, Perform, MoveFits;
    LineMoveFits(p.state, p.line.verb == M_CONNECT, b);
    MoveCounts(p, LineMove(p.state, p.line.verb == M_CONNECT, b), b);
  }

  lemma MoveCounts(p: Parser, m: Move, b: Byte)
    requires InLine(p.state) && MoveFits(p.state, m)
    ensures GoesOn(Perform(p, m, b))
  {
    hide Tally, Digit;
  }

  lemma BreakLast(fs: seq<Event>, v: Event)
    requires Breaks(v)
    ensures Tally(fs + [v], Break) > 0
  {
    assert (fs + [v])[..|fs|] == fs;
  }

  lemma EmptyLineCounts(cfg: Settings, p: Parser, b: Byte)
    ensures GoesOn(StepHeadersAlmostDone(cfg, p, b))
  {
    hide Tally;
    BreakLast([], HeadersComplete);
    BreakLast([], ChunkComplete);
    BreakLast([], MessageComplete);
    BreakLast([HeadersComplete], MessageComplete);
    BreakLast([ChunkComplete], MessageComplete);
    assert [] + [HeadersComplete] == [HeadersComplete] && [HeadersComplete] + [] == [HeadersComplete];
    assert [] + [ChunkComplete] == [ChunkComplete] && [] + [MessageComplete] == [MessageComplete];
  }

  lemma HeadersCount(cfg: Settings, p: Parser, b: Byte)
    requires InHeaders(p.state) && p.state != S_HEADERS_DONE
    ensures GoesOn(StepHeaders(cfg, p, b))
  {
    hide Tally, StepHeadersAlmostDone, StepHeadersDone, Match, Token, IsToken;
    EmptyLineCounts(cfg, p, b);
    EmptyLineCounts(cfg, p.(state := S_HEADERS_ALMOST_DONE), b);
  }

  lemma SizeCounts(cfg: Settings, p: Parser, b: Byte)
    requires InBody(p.state) && ParsingHeader(p.state)
    ensures GoesOn(StepBody(cfg, p, b))
  {
    hide Tally, Unhex;
    BreakLast([], ChunkHeader(if p.length == 0 then 1 else p.length));
    assert [] + [ChunkHeader(p.length)] == [ChunkHeader(p.length)];
  }

  /** A stretch of header without such a callback: every byte counts. */
  lemma {:induction false} StretchCounts(cfg: Settings, e: Stream, k: nat, s: Bytes)
    requires Live(e.p) && e.live && Counting(e.p.state) && Without(e, ReadAll(cfg, e, s), Break)
    ensures var d := ReadAll(cfg, e, s); Live(d.p) && Counting(d.p.state) && Since(cfg, e, k, s) == k + |s|
  {
    hide Step, Inv, PushAll, TextOf, Tally;
    if s != [] {
      var t, b := s[..|s| - 1], s[|s| - 1];
      var d := ReadAll(cfg, e, t);
      var a := Step(cfg, d.p, b);
      TallyGrows(cfg, e, t, Break);
      ReadTally(cfg, d, b, Break);
      StretchCounts(cfg, e, k, t);
      StepBreaks(cfg, d.p, b);
      ReadAllLive(cfg, e, s);
    }
  }

  lemma {:induction false} TallyGrows(cfg: Settings, e: Stream, s: Bytes, k: Sort)
    ensures Tally(ReadAll(cfg, e, s).out, k) >= Tally(e.out, k)
  {
    hide Read, Tally;
    if s != [] {
      TallyGrows(cfg, e, s[..|s| - 1], k);
      var d := ReadAll(cfg, e, s[..|s| - 1]);
      if d.live { ReadTally(cfg, d, s[|s| - 1], k); } else { ReadAllStopped(cfg, d, [s[|s| - 1]]); }
    }
  }

  /** The parser runs on, without a callback of that sort so far. */
  predicate Without(e: Stream, d: Stream, k: Sort) { d.live && Tally(d.out, k) == Tally(e.out, k) }

  /** Such a stretch is within the limit exactly if its end is. */
  lemma StretchWithin(cfg: Settings, e: Stream, k: nat, s: Bytes)
    requires Live(e.p) && e.live && Counting(e.p.state) && Without(e, ReadAll(cfg, e, s), Break)
    ensures WithinCount(cfg, e, k, s) <==> k + |s| <= MAX_HEADER_SIZE
    ensures Since(cfg, e, k, s) == k + |s| && InHeader(ReadAll(cfg, e, s))
  {
    hide ReadAll, Since, Tally, Inv, Without;
    StretchCounts(cfg, e, k, s);
    assert InHeader(ReadAll(cfg, e, s)) by { WithoutLive(e, ReadAll(cfg, e, s)); }
    if WithinCount(cfg, e, k, s) {
      WithinCountAll(cfg, e, k, s);
    }
    forall n | 0 <= n <= |s| ensures Since(cfg, e, k, s[..n]) == k + n {
      WithoutPart(cfg, e, s, n, Break);
      StretchCounts(cfg, e, k, s[..n]);
    }
  }

  lemma WithoutLive(e: Stream, d: Stream)
    requires Without(e, d, Break)
    ensures d.live
  {
  }

  lemma WithoutPart(cfg: Settings, e: Stream, s: Bytes, n: nat, k: Sort)
    requires n <= |s| && Without(e, ReadAll(cfg, e, s), k)
    ensures Without(e, ReadAll(cfg, e, s[..n]), k)
  {
    hide ReadAll, Tally;
    var d := ReadAll(cfg, e, s[..n]);
    assert s[..n] + s[n..] == s;
    ReadAllAppend(cfg, e, s[..n], s[n..]);
    TallyGrows(cfg, e, s[..n], k);
    TallyGrows(cfg, d, s[n..], k);
    if !d.live { ReadAllStopped(cfg, d, s[n..]); }
  }

  /** Outside headers nothing is checked. */
  lemma OutsideWithin(cfg: Settings, e: Stream, k: nat, s: Bytes)
    requires forall n :: 0 < n <= |s| ==> !InHeader(ReadAll(cfg, e, s[..n]))
    ensures WithinCount(cfg, e, k, s) <==> (InHeader(e) ==> k <= MAX_HEADER_SIZE)
  {
    hide InHeader;
    assert s[..0] == [];
    assert ReadAll(cfg, e, s[..0]) == e && Since(cfg, e, k, s[..0]) == k;
  }
}
