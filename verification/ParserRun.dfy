/** One call of `http_parser_execute`, as a fold of `Step` over its bytes.

    This is the simple form of the loop: every byte is stepped on its own and a mark is the text
    seen since it was set. Module ParserExecute has the form of the source. */
module ParserRun {
  import opened Ascii
  import opened ParserTypes
  import opened ParserStep
  import opened ParserInvariant

  /** The mark that is live, if any, with the text from it to the current position. */
  datatype Mark = NoMark | Mark(k: Kind, text: Bytes)

  /** The text from the mark for `k` to the current position, if that mark is set. */
  function MarkedText(m: Mark, k: Kind): Bytes { if m.Mark? && m.k == k then m.text else [] }

  function NextMark(m: Mark, op: MarkOp, b: Byte): Mark {
    match op
    case Keep => if m.Mark? then Mark(m.k, m.text + [b]) else NoMark
    case Start(k) => Mark(k, MarkedText(m, k) + [b])
    case _ => NoMark
  }

  /** The text callback made while a byte is handled. */
  function Flushed(m: Mark, op: MarkOp, b: Byte): seq<Event> {
    match op
    case Flush(k, at) => if m.Mark? && m.k == k then [Piece(k, m.text, at)] else []
    case MarkFlush(k, at) => [Piece(k, MarkedText(m, k), at)]
    case Take(k) => [Piece(k, MarkedText(m, k) + [b], S_MESSAGE_DONE)]
    case _ => []
  }

  /** A call in progress: the struct, the live mark, the callbacks made, the bytes consumed,
      whether the loop is still running, `nread`, and the distance of the current position from
      `data_or_header_data_start`. */
  datatype Run = Run(p: Parser, mark: Mark, out: seq<Event>, pos: nat, live: bool, nread: nat, since: nat)

  /** The marks a call sets before its first byte. */
  function FirstMark(s: State): Mark {
    match ZoneOf(s)
    case FieldZone => Mark(Field, [])
    case ValueZone => Mark(Value, [])
    case UrlZone => Mark(Url, [])
    case ReasonZone => Mark(Reason, [])
    case _ => NoMark
  }

  function Begin(p: Parser, nread: nat): Run { Run(p, FirstMark(p.state), [], 0, true, nread, 0) }

  function Apply(r: Run, a: Act, b: Byte): Run {
    if a.ctl == StopBefore then r.(p := a.p, mark := NoMark, out := r.out + a.notes, live := false)
    else Run(a.p,
             if a.ctl == Next then NextMark(r.mark, a.op, b) else NoMark,
             r.out + Flushed(r.mark, a.op, b) + a.notes,
             r.pos + 1,
             a.ctl == Next,
             if a.reset then 0 else r.nread,
             if a.reset then 1 else r.since + 1)
  }

  function Advance(cfg: Settings, r: Run, b: Byte): Run {
    if r.live then Apply(r, Step(cfg, r.p, b), b) else r
  }

  function RunOver(cfg: Settings, r: Run, s: Bytes): Run {
    if s == [] then r else Advance(cfg, RunOver(cfg, r, s[..|s| - 1]), s[|s| - 1])
  }

  /** What a call leaves: the struct, `nread`, the callbacks in order, the return value, and
      whether it returned before it ran out of bytes. */
  datatype Outcome = Outcome(p: Parser, nread: nat, calls: seq<Event>, consumed: nat, stopped: bool)

  /** The end of a call that ran out of bytes: the header limit, then the callback for a mark
      that is still live. */
  function Finish(r: Run): Outcome {
    if !r.live then Outcome(r.p, r.nread, r.out, r.pos, true)
    else
      var nread := if ParsingHeader(r.p.state) then (r.nread + r.since) % UINT32_SIZE else r.nread;
      if ParsingHeader(r.p.state) && nread > MAX_HEADER_SIZE then
        Outcome(r.p.(errno := HPE_HEADER_OVERFLOW), nread, r.out, r.pos, true)
      else
        var left := if r.mark.Mark? then [Piece(r.mark.k, r.mark.text, r.p.state)] else [];
        Outcome(r.p, nread, r.out + left, r.pos, false)
  }

  /** A call with no bytes reports the end of the stream. */
  function EndOfStream(cfg: Settings, p: Parser, nread: nat): Outcome {
    if p.state == S_BODY_IDENTITY_EOF then
      var r := cfg.onMessageComplete;
      Outcome(if r == Proceed then p else p.(errno := StopErrno(r, HPE_CB_MESSAGE_COMPLETE)),
              nread, [MessageComplete], 0, true)
    else if p.state == S_PRE_START_REQ_OR_RES || p.state == S_PRE_START_RES || p.state == S_PRE_START_REQ then
      Outcome(p, nread, [], 0, true)
    else Outcome(p.(errno := HPE_INVALID_EOF_STATE), nread, [], 1, true)
  }

  function Call(cfg: Settings, p: Parser, nread: nat, data: Bytes): Outcome {
    if p.errno != HPE_OK then Outcome(p, nread, [], 0, true)
    else if data == [] then EndOfStream(cfg, p, nread)
    else Finish(RunOver(cfg, Begin(p, nread), data))
  }

  // ---------------------------------------------------------------- what a run keeps

  /** Which marks can be live in a zone; there is never more than one. */
  predicate MarkFits(z: Zone, m: Mark) {
    match z
    case Plain => m == NoMark
    case UrlZone => m.Mark? && m.k == Url
    case FieldZone => m.Mark? && m.k == Field
    case ValueZone => m.Mark? ==> m.k == Value
    case ReasonZone => m.Mark? ==> m.k == Reason
    case Text => m.Mark? ==> m.k == Body && m.text != []
    case TextEnd => m.Mark? ==> m.k == Body && m.text != []
  }

  lemma NextMarkFits(z: Zone, m: Mark, op: MarkOp, b: Byte, y: Zone)
    requires MarkFits(z, m) && ZoneFits(z, op, y)
    ensures MarkFits(y, NextMark(m, op, b))
  {
  }

  predicate RunFits(r: Run) {
    && Inv(r.p)
    && (r.live ==> r.p.errno == HPE_OK && MarkFits(ZoneOf(r.p.state), r.mark))
  }

  lemma AdvanceFits(cfg: Settings, r: Run, b: Byte)
    requires RunFits(r)
    ensures RunFits(Advance(cfg, r, b))
  {
    hide Step, Inv, ZoneOf, ZoneFits, MarkFits, NextMark;
    if r.live {
      StepFits(cfg, r.p, b);
      var a := Step(cfg, r.p, b);
      if a.ctl == Next {
        NextMarkFits(ZoneOf(r.p.state), r.mark, a.op, b, ZoneOf(a.p.state));
      }
    }
  }

  lemma BeginFits(p: Parser, nread: nat)
    requires Live(p)
    ensures RunFits(Begin(p, nread))
  {
  }

  /** The invariant of a call, for every input: the struct's invariant, and at most one mark, in
      the states that can have it. */
  lemma {:induction false} RunOverFits(cfg: Settings, r: Run, s: Bytes)
    requires RunFits(r)
    ensures RunFits(RunOver(cfg, r, s))
  {
    if s != [] {
      RunOverFits(cfg, r, s[..|s| - 1]);
      AdvanceFits(cfg, RunOver(cfg, r, s[..|s| - 1]), s[|s| - 1]);
    }
  }

  /** A run over `s` consumes no more than `s`, and all of it while the loop is running. */
  lemma {:induction false} RunOverPos(cfg: Settings, r: Run, s: Bytes)
    requires r.live
    ensures var q := RunOver(cfg, r, s); r.pos <= q.pos <= r.pos + |s| && (q.live ==> q.pos == r.pos + |s|)
  {
    hide Step;
    if s != [] {
      RunOverPos(cfg, r, s[..|s| - 1]);
    }
  }

  lemma {:induction false} RunOverAppend(cfg: Settings, r: Run, s: Bytes, t: Bytes)
    ensures RunOver(cfg, r, s + t) == RunOver(cfg, RunOver(cfg, r, s), t)
    decreases |t|
  {
    hide Advance;
    if t == [] {
      assert s + t == s;
    } else {
      var u := t[..|t| - 1];
      assert (s + t)[..|s + t| - 1] == s + u;
      RunOverAppend(cfg, r, s, u);
    }
  }

  lemma {:induction false} RunOverStopped(cfg: Settings, r: Run, s: Bytes)
    requires !r.live
    ensures RunOver(cfg, r, s) == r
  {
    if s != [] { RunOverStopped(cfg, r, s[..|s| - 1]); }
  }

  /** Whole-machine invariant: a call keeps the struct's invariant whatever the bytes. */
  lemma CallKeepsInv(cfg: Settings, p: Parser, nread: nat, data: Bytes)
    requires Inv(p)
    ensures Inv(Call(cfg, p, nread, data).p)
    ensures Call(cfg, p, nread, data).consumed <= |data| || data == []
  {
    hide Step, RunOver;
    if p.errno == HPE_OK && data != [] {
      BeginFits(p, nread);
      RunOverFits(cfg, Begin(p, nread), data);
      RunOverPos(cfg, Begin(p, nread), data);
    }
  }
}
