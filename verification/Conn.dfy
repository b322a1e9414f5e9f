/** The output side of `TCPConn` over `FdChannel` and `Buffer`, on the loop thread. */
module Conn {
  import opened Ascii
  import opened ByteBuffer

  datatype Status = Disconnected | Connecting | Connected | Disconnecting

  /** What `send` did: wrote some of the bytes, failed and can be tried again, failed with EPIPE or
      ECONNRESET, failed otherwise. */
  datatype SendResult = Sent(n: nat) | Retry | Broken | OtherError

  /** What reading did: got bytes, found the end of the stream, or failed. */
  datatype ReadResult = Got(data: Bytes) | EndOfStream | RetryRead | ReadError

  // ---------------------------------------------------------------- as values

  /** `FdChannel`: the interest in events_, attached_, and whether event_ still exists. */
  datatype Channel = Channel(readable: bool, writable: bool, attached: bool, hasEvent: bool)

  /** A connection: status, channel, output buffer, whether the delay timer is set; and what has
      happened: the bytes on the wire, the data SendInLoop has accepted, and how often the close
      callback was made. */
  datatype State = State(
    status: Status, chan: Channel, output: Bytes, timer: bool, wire: Bytes, accepted: Bytes, closes: nat)

  /** Whether the connection is outgoing, and whether an incoming one is kept for a while after the
      peer has closed. */
  datatype Kind = Kind(outgoing: bool, delayed: bool)

  function Update(c: Channel): Channel { c.(attached := c.readable || c.writable) }

  function HandleClose(s: State): State {
    if s.status == Disconnected then s
    else s.(status := Disconnected, chan := Channel(false, false, false, false), timer := false, closes := s.closes + 1)
  }

  function HandleError(s: State): State { HandleClose(s.(status := Disconnecting)) }

  function Attached(s: State): State {
    s.(status := Connected, chan := Update(s.chan.(readable := true)))
  }

  /** The bytes a direct send leaves over. */
  function Unsent(data: Bytes, r: SendResult): Bytes {
    if r.Sent? && r.n <= |data| then data[r.n..] else data
  }

  function SendInLoop(s: State, data: Bytes, r: SendResult): State {
    if s.status == Disconnected then s
    else
      var direct := !s.chan.writable && s.output == [];
      if direct && r.Broken? then HandleError(s.(accepted := s.accepted + data))
      else Queued(s, data, if direct then Unsent(data, r) else data)
  }

  function HandleWrite(s: State, r: SendResult): State {
    if r.Sent? && 0 < r.n <= |s.output| then
      var rest := s.output[r.n..];
      s.(wire := s.wire + s.output[..r.n], output := rest,
         chan := if rest == [] then Update(s.chan.(writable := false)) else s.chan)
    else if r.Retry? then s
    else HandleError(s)
  }

  function HandleRead(kind: Kind, s: State, r: ReadResult): State {
    match r
    case Got(_) => s
    case EndOfStream =>
      if kind.outgoing then HandleError(s)
      else
        var s := s.(chan := Update(s.chan.(readable := false)));
        if kind.delayed then s.(timer := true) else HandleError(s)
    case RetryRead => s
    case ReadError => HandleError(s)
  }

  datatype Op =
    | Send(data: Bytes, r: SendResult)
    | Writable(r: SendResult)
    | Readable(got: ReadResult)
    | Close
    | CloseTask
    | Timer

  /** The events the loop delivers: reads and writes only while there is interest in them, and the
      timer only while it is set; a close task was queued by an earlier Close. A result of `send` is no
      more than it was given. */
  predicate Enabled(s: State, op: Op) {
    match op
    case Send(data, r) => r.Sent? ==> r.n <= |data|
    case Writable(r) => s.chan.attached && s.chan.writable && (r.Sent? ==> r.n <= |s.output|)
    case Readable(r) => s.chan.attached && s.chan.readable
    case Close => true
    case CloseTask => s.status != Connected
    case Timer => s.timer
  }

  function Do(kind: Kind, s: State, op: Op): State {
    match op
    case Send(data, r) => SendInLoop(s, data, r)
    case Writable(r) => HandleWrite(s, r)
    case Readable(r) => HandleRead(kind, s, r)
    case Close => s.(status := Disconnecting)
    case CloseTask => HandleClose(s)
    case Timer => HandleClose(s.(status := Disconnecting, timer := false))
  }

  /** A connection before it is attached to its loop. */
  predicate IsNew(s: State) {
    s.status == Disconnected && s.chan == Channel(false, false, false, true) && s.output == [] && !s.timer
    && s.wire == [] && s.accepted == [] && s.closes == 0
  }

  /** Until the close: attached exactly if there is interest in some event, interest in writing
      exactly if there is output, and the wire followed by the output is all accepted data. After
      the close, which happens once: no event, no timer, and the wire is a beginning of that data. */
  predicate Inv(s: State) {
    && s.chan.attached == (s.chan.readable || s.chan.writable)
    && if s.status == Disconnected then
         s.chan == Channel(false, false, false, false) && !s.timer && s.closes == 1 && s.wire <= s.accepted
       else
         && s.status != Connecting
         && s.chan.hasEvent && s.closes == 0
         && s.chan.writable == (s.output != [])
         && s.wire + s.output == s.accepted
  }

  lemma AttachInv(s: State)
    requires IsNew(s)
    ensures Inv(Attached(s))
  {
  }

  lemma ConnOpen(s: State)
    requires Inv(s)
    ensures s.status == Disconnected
            || (s.chan.hasEvent && s.chan.attached == (s.chan.readable || s.chan.writable)
                && s.chan.writable == (s.output != []))
  {
  }

  lemma CloseInv(s: State)
    requires Inv(s) && s.status != Disconnected
    ensures Inv(HandleError(s)) && Inv(HandleClose(s))
  {
    assert s.wire <= s.wire + s.output;
  }

  /** Part of the data written, the rest appended to the output. */
  function Queued(s: State, data: Bytes, rest: Bytes): State
    requires |rest| <= |data|
  {
    var s := s.(accepted := s.accepted + data, wire := s.wire + data[..|data| - |rest|]);
    if rest == [] then s
    else s.(output := s.output + rest, chan := Update(s.chan.(writable := true)))
  }

  lemma QueuedInv(s: State, data: Bytes, n: nat)
    requires Inv(s) && s.status != Disconnected && n <= |data| && (s.output != [] ==> n == 0)
    ensures Inv(Queued(s, data, data[n..]))
  {
    var t := Queued(s, data, data[n..]);
    assert data[..|data| - |data[n..]|] == data[..n];
    Regrouped(s.wire, s.output, data, n);
  }

  lemma Regrouped(wire: Bytes, output: Bytes, data: Bytes, n: nat)
    requires n <= |data| && (output != [] ==> n == 0)
    ensures wire + data[..n] + (output + data[n..]) == wire + output + data
  {
    assert data[..n] + data[n..] == data;
    if output == [] {
      assert wire + data[..n] + (output + data[n..]) == wire + (data[..n] + data[n..]);
    }
  }

  lemma SendInv(s: State, data: Bytes, r: SendResult)
    requires Inv(s) && (r.Sent? ==> r.n <= |data|)
    ensures Inv(SendInLoop(s, data, r))
  {
    hide Queued;
    if s.status != Disconnected {
      if s.output == [] && r.Broken? {
        assert s.wire + [] == s.wire && s.wire <= s.accepted + data;
      } else {
        var n := if s.output == [] && r.Sent? then r.n else 0;
        assert data[0..] == data;
        QueuedInv(s, data, n);
      }
    }
  }

  lemma WriteInv(s: State, r: SendResult)
    requires Inv(s) && Enabled(s, Writable(r))
    ensures Inv(HandleWrite(s, r))
  {
    if r.Sent? && 0 < r.n {
      assert s.wire + s.output[..r.n] + s.output[r.n..] == s.wire + s.output;
    } else {
      CloseInv(s);
    }
  }

  lemma ReadInv(kind: Kind, s: State, r: ReadResult)
    requires Inv(s) && Enabled(s, Readable(r))
    ensures Inv(HandleRead(kind, s, r))
  {
    var t := s.(chan := Update(s.chan.(readable := false)));
    CloseInv(s);
    CloseInv(t);
  }

  /** Every operation keeps the invariant except Close on a connection that is already disconnected. */
  lemma StepInv(kind: Kind, s: State, op: Op)
    requires Inv(s) && Enabled(s, op)
    ensures Inv(Do(kind, s, op)) <==> !(op.Close? && s.status == Disconnected)
  {
    hide SendInLoop, HandleWrite, HandleRead;
    match op {
      case Send(data, r) => SendInv(s, data, r);
      case Writable(r) => WriteInv(s, r);
      case Readable(r) => ReadInv(kind, s, r);
      case Close =>
      case CloseTask => if s.status != Disconnected { CloseInv(s); }
      case Timer => CloseInv(s.(status := Disconnecting, timer := false));
    }
  }

  /** Operations that can happen one after the other, with no Close once disconnected. */
  predicate Allowed(kind: Kind, s: State, ops: seq<Op>)
    decreases |ops|
  {
    ops == []
    || (&& Enabled(s, ops[0])
        && (ops[0].Close? ==> s.status != Disconnected)
        && Allowed(kind, Do(kind, s, ops[0]), ops[1..]))
  }

  function After(kind: Kind, s: State, ops: seq<Op>): State
    decreases |ops|
  {
    if ops == [] then s else After(kind, Do(kind, s, ops[0]), ops[1..])
  }

  lemma {:induction false} RunInv(kind: Kind, s: State, ops: seq<Op>)
    requires Inv(s) && Allowed(kind, s, ops)
    ensures Inv(After(kind, s, ops))
    decreases |ops|
  {
    hide Inv, Do;
    if ops != [] {
      StepInv(kind, s, ops[0]);
      RunInv(kind, Do(kind, s, ops[0]), ops[1..]);
    }
  }

  /** The data SendInLoop is given while the connection is not disconnected, in order. */
  function Given(kind: Kind, s: State, ops: seq<Op>): Bytes
    decreases |ops|
  {
    if ops == [] then []
    else
      (if ops[0].Send? && s.status != Disconnected then ops[0].data else [])
      + Given(kind, Do(kind, s, ops[0]), ops[1..])
  }

  lemma AcceptedStep(kind: Kind, s: State, op: Op)
    ensures Do(kind, s, op).accepted == s.accepted + if op.Send? && s.status != Disconnected then op.data else []
  {
    assert s.accepted + [] == s.accepted;
  }

  lemma {:induction false} AcceptedIsGiven(kind: Kind, s: State, ops: seq<Op>)
    ensures After(kind, s, ops).accepted == s.accepted + Given(kind, s, ops)
    decreases |ops|
  {
    hide Do;
    if ops == [] {
      assert s.accepted + [] == s.accepted;
    } else {
      AcceptedStep(kind, s, ops[0]);
      AcceptedIsGiven(kind, Do(kind, s, ops[0]), ops[1..]);
    }
  }

  /** Conservation of the output stream: on every run of a newly attached connection the bytes on the
      wire followed by the output buffer are the data given to SendInLoop, in order, whatever the
      partial sends and errors; after the close the wire is a beginning of that data. The close
      callback is made at most once, exactly when the connection is disconnected. */
  lemma OutputConserved(kind: Kind, s: State, ops: seq<Op>)
    requires IsNew(s) && Allowed(kind, Attached(s), ops)
    ensures var t := After(kind, Attached(s), ops);
            var given := Given(kind, Attached(s), ops);
            && t.closes == (if t.status == Disconnected then 1 else 0)
            && (if t.status == Disconnected then t.wire <= given else t.wire + t.output == given)
            && t.chan.attached == (t.chan.readable || t.chan.writable)
            && (t.status != Disconnected ==> t.chan.writable == (t.output != []))
  {
    hide Do, After, Given;
    AttachInv(s);
    RunInv(kind, Attached(s), ops);
    AcceptedIsGiven(kind, Attached(s), ops);
    assert [] + Given(kind, Attached(s), ops) == Given(kind, Attached(s), ops);
  }

  /** Without that proviso it fails: Close on a disconnected connection makes its task close the
      channel, whose event is gone, and call the close callback again. */
  lemma CloseTwice(kind: Kind, s: State)
    requires Inv(s) && s.status == Disconnected
    ensures var t := Do(kind, s, Close);
            !t.chan.hasEvent && t.status != Disconnected && Do(kind, t, CloseTask).closes == 2
  {
  }

  // ---------------------------------------------------------------- when it closes, and what was sent

  /** How many bytes `send` takes in an operation, `n` bytes waiting before it. */
  function Taken(n: int, op: Op): int {
    match op
    case Send(_, r) => if r.Sent? && n == 0 then r.n else 0
    case Writable(r) => if r.Sent? then r.n else 0
    case _ => 0
  }

  /** How many bytes wait after it. */
  function Waiting(n: int, op: Op): int { n + (if op.Send? then |op.data| else 0) - Taken(n, op) }

  /** The operations that end a connection: a send with nothing waiting that finds it broken; a writable
      event on which `send` takes nothing, other than for now; a failed read, or the end of the stream
      unless an incoming connection is to be kept for a while; the end of that while; and what an earlier
      Close has queued. */
  predicate Fatal(kind: Kind, n: int, op: Op) {
    match op
    case Send(_, r) => n == 0 && r == Broken
    case Writable(r) => r == Sent(0) || r == Broken || r == OtherError
    case Readable(got) => got == ReadError || (got == EndOfStream && (kind.outgoing || !kind.delayed))
    case Close => false
    case CloseTask => true
    case Timer => true
  }

  /** What becomes of a connection, by the operations alone: whether it is closed, how many bytes were
      taken and are waiting, whether Close was called, and whether the peer has closed. */
  datatype Fate = Fate(closed: bool, taken: int, waiting: int, closing: bool, ended: bool)

  function Next(kind: Kind, f: Fate, op: Op): Fate {
    if f.closed then f
    else if Fatal(kind, f.waiting, op) then f.(closed := true)
    else Fate(false, f.taken + Taken(f.waiting, op), Waiting(f.waiting, op), f.closing || op.Close?,
              f.ended || op == Readable(EndOfStream))
  }

  function FateOf(kind: Kind, f: Fate, ops: seq<Op>): Fate
    decreases |ops|
  {
    if ops == [] then f else FateOf(kind, Next(kind, f, ops[0]), ops[1..])
  }

  const NEW := Fate(false, 0, 0, false, false)

  /** The connection is where its fate says. */
  predicate Suffers(s: State, f: Fate) {
    && (s.status == Disconnected <==> f.closed)
    && |s.wire| == f.taken
    && (!f.closed ==>
          && |s.output| == f.waiting
          && s.status == (if f.closing then Disconnecting else Connected)
          && s.chan.readable == !f.ended && s.timer == f.ended)
  }

  lemma SendFate(kind: Kind, s: State, f: Fate, data: Bytes, r: SendResult)
    requires Inv(s) && s.status != Disconnected && Suffers(s, f) && (r.Sent? ==> r.n <= |data|)
    ensures Suffers(SendInLoop(s, data, r), Next(kind, f, Send(data, r)))
  {
  }

  lemma FateStep(kind: Kind, s: State, f: Fate, op: Op)
    requires Inv(s) && Enabled(s, op) && Suffers(s, f) && (op.Close? ==> s.status != Disconnected)
    ensures Suffers(Do(kind, s, op), Next(kind, f, op))
  {
    if op.Send? && s.status != Disconnected {
      SendFate(kind, s, f, op.data, op.r);
    }
  }

  lemma {:induction false} FateRun(kind: Kind, s: State, f: Fate, ops: seq<Op>)
    requires Inv(s) && Allowed(kind, s, ops) && Suffers(s, f)
    ensures Suffers(After(kind, s, ops), FateOf(kind, f, ops))
    decreases |ops|
  {
    hide Inv, Do, Suffers, Next, Enabled;
    if ops != [] {
      StepInv(kind, s, ops[0]);
      FateStep(kind, s, f, ops[0]);
      FateRun(kind, Do(kind, s, ops[0]), Next(kind, f, ops[0]), ops[1..]);
    }
  }

  lemma {:induction false} ClosedStays(kind: Kind, f: Fate, ops: seq<Op>)
    requires f.closed
    ensures FateOf(kind, f, ops) == f
    decreases |ops|
  {
    if ops != [] { ClosedStays(kind, f, ops[1..]); }
  }

  /** A run closes a connection if and only if one of its operations is fatal, where it stands. */
  lemma {:induction false} FatalOp(kind: Kind, f: Fate, ops: seq<Op>)
    requires !f.closed
    ensures FateOf(kind, f, ops).closed
       <==> exists i :: 0 <= i < |ops| && Fatal(kind, FateOf(kind, f, ops[..i]).waiting, ops[i])
    decreases |ops|
  {
    hide Fatal, Taken, Waiting;
    if ops != [] {
      var g, rest := Next(kind, f, ops[0]), ops[1..];
      assert forall i :: 0 <= i < |rest| ==> ops[..i + 1][1..] == rest[..i] && ops[i + 1] == rest[i];
      if g.closed {
        ClosedStays(kind, g, rest);
        assert FateOf(kind, f, ops[..0]) == f;
      } else {
        FatalOp(kind, g, rest);
        forall i | 0 <= i < |rest| ensures FateOf(kind, f, ops[..i + 1]) == FateOf(kind, g, rest[..i]) {}
        if i :| 0 <= i < |rest| && Fatal(kind, FateOf(kind, g, rest[..i]).waiting, rest[i]) {
          assert Fatal(kind, FateOf(kind, f, ops[..i + 1]).waiting, ops[i + 1]);
        }
        if i :| 0 <= i < |ops| && Fatal(kind, FateOf(kind, f, ops[..i]).waiting, ops[i]) {
          assert FateOf(kind, f, ops[..0]) == f;
          assert i > 0 && Fatal(kind, FateOf(kind, g, rest[..i - 1]).waiting, rest[i - 1]);
        }
      }
    }
  }

  /** A run of a newly attached connection, by the operations alone: it is closed if and only if one of
      them was fatal; the wire has the beginning of the data given that `send` had taken until then; and
      while it is open the rest waits, it reads and has no timer set until the peer has closed, and it is
      connected until Close. */
  lemma ClosedExactly(kind: Kind, s: State, ops: seq<Op>)
    requires IsNew(s) && Allowed(kind, Attached(s), ops)
    ensures var t, f := After(kind, Attached(s), ops), FateOf(kind, NEW, ops);
            var given := Given(kind, Attached(s), ops);
            && (t.status == Disconnected <==> f.closed)
            && (f.closed <==> exists i :: 0 <= i < |ops| && Fatal(kind, FateOf(kind, NEW, ops[..i]).waiting, ops[i]))
            && 0 <= f.taken <= |given| && t.wire == given[..f.taken]
            && (!f.closed ==>
                  && t.output == given[f.taken..] && |t.output| == f.waiting
                  && t.status == (if f.closing then Disconnecting else Connected)
                  && t.chan.readable == !f.ended && t.timer == f.ended)
  {
    hide Do, After, Given, FateOf, Allowed, Fatal;
    AttachInv(s);
    OutputConserved(kind, s, ops);
    FateRun(kind, Attached(s), NEW, ops);
    FatalOp(kind, NEW, ops);
    var t, given := After(kind, Attached(s), ops), Given(kind, Attached(s), ops);
    if t.status != Disconnected {
      assert given[..|t.wire|] == t.wire && given[|t.wire|..] == t.output;
    }
  }

  /** What can be tried again changes nothing, but that data given to send is kept. */
  lemma RetriesHarmless(kind: Kind, s: State, data: Bytes)
    requires Inv(s) && s.status != Disconnected
    ensures Do(kind, s, Writable(Retry)) == s && Do(kind, s, Readable(RetryRead)) == s
    ensures var t := Do(kind, s, Send(data, Retry));
            t.status == s.status && t.wire == s.wire && t.output == s.output + data && t.timer == s.timer
            && t.chan.readable == s.chan.readable && t.closes == s.closes
  {
  }

  /** The end of the stream closes a connection if and only if it is outgoing or not to be kept. One that
      is kept no longer reads and has its timer set, and is otherwise as before: what is waiting is still
      sent, and so is what is given to send. In the end the timer closes it, once. */
  lemma EndOfStreamExactly(kind: Kind, s: State)
    requires Inv(s) && Enabled(s, Readable(EndOfStream))
    ensures var t := Do(kind, s, Readable(EndOfStream));
            if kind.outgoing || !kind.delayed then t.status == Disconnected && t.closes == 1
            else
              && t == s.(chan := Channel(false, s.chan.writable, s.chan.writable, true), timer := true)
              && Do(kind, t, Timer).status == Disconnected && Do(kind, t, Timer).closes == 1
              && forall data :: s.output == [] ==> Do(kind, t, Send(data, Sent(|data|))).wire == s.wire + data
  {
  }

  // ---------------------------------------------------------------- as objects

  class FdChannel {
    var readable: bool
    var writable: bool
    var attached: bool
    var hasEvent: bool

    function View(): Channel
      reads this
    {
      Channel(readable, writable, attached, hasEvent)
    }

    constructor ()
      ensures View() == Channel(false, false, false, true)
    {
      readable, writable, attached, hasEvent := false, false, false, true;
    }

    /** Update: AttachToLoop or DetachFromLoop; adding and deleting the event succeeds. The requires
        are their asserts. */
    method Refresh()
      requires hasEvent && (!readable && !writable ==> attached)
      modifies this`attached
      ensures View() == Update(old(View()))
    {
      if !readable && !writable {
        attached := false;
      } else {
        if attached {
          attached := false;
        }
        attached := true;
      }
    }

    /** EnableReadEvent, EnableWriteEvent, DisableReadEvent, DisableWriteEvent. */
    method SetInterest(read: bool, write: bool)
      requires hasEvent && attached == (readable || writable)
      modifies this
      ensures View() == Update(old(View()).(readable := read, writable := write))
    {
      if readable != read || writable != write {
        readable, writable := read, write;
        Refresh();
      }
    }

    /** DisableAllEvent and then Close, which asserts that the event exists and is not attached. */
    method Shut()
      requires hasEvent && attached == (readable || writable)
      modifies this
      ensures View() == Channel(false, false, false, false)
    {
      if readable || writable {
        readable, writable := false, false;
        Refresh();
      }
      assert hasEvent && !attached;
      hasEvent := false;
    }
  }

  class TCPConn {
    const kind: Kind
    var status: Status
    const chan: FdChannel
    const output: Buffer
    var timer: bool
    ghost var wire: Bytes
    ghost var accepted: Bytes
    ghost var closes: nat

    ghost predicate Valid()
      reads this, output
    {
      output.Valid()
    }

    ghost function View(): State
      requires Valid()
      reads this, chan, output, output.buffer
    {
      State(status, chan.View(), output.Contents(), timer, wire, accepted, closes)
    }

    /** The channel has its event, attached exactly if there is interest in some event. */
    ghost predicate Open()
      reads chan
    {
      chan.hasEvent && chan.attached == (chan.readable || chan.writable)
    }

    constructor (kind: Kind)
      ensures Valid() && fresh(chan) && fresh(output) && fresh(output.buffer) && IsNew(View()) && this.kind == kind
    {
      this.kind := kind;
      status, timer, wire, accepted, closes := Disconnected, false, [], [], 0;
      chan := new FdChannel();
      output := new Buffer(1024, CHEAP_PREPEND_SIZE);
    }

    method OnAttachedToLoop()
      requires Valid() && IsNew(View())
      modifies this, chan
      ensures Valid() && output.buffer == old(output.buffer) && View() == Attached(old(View())) && Inv(View())
    {
      status := Connected;
      chan.SetInterest(true, chan.writable);
    }

    /** HandleClose, with the asserts of the source as its requires and asserts. */
    method Shutdown()
      requires Valid() && (status == Disconnected || (status == Disconnecting && Open()))
      modifies this, chan
      ensures Valid() && output.buffer == old(output.buffer) && View() == HandleClose(old(View()))
    {
      if status == Disconnected {
        return;
      }
      assert status == Disconnecting;
      chan.Shut();
      timer := false;
      closes := closes + 1;
      status := Disconnected;
    }

    /** HandleError and DelayClose. */
    method Fail()
      requires Valid() && Open()
      modifies this, chan
      ensures Valid() && output.buffer == old(output.buffer) && View() == HandleError(old(View()))
    {
      status := Disconnecting;
      Shutdown();
    }

    /** SendInLoop; `r` is what `send` does if it is called. */
    method Send(data: Bytes, r: SendResult)
      requires Valid() && Inv(View()) && (r.Sent? ==> r.n <= |data|)
      modifies this, chan, output, output.buffer
      ensures Valid() && (output.buffer == old(output.buffer) || fresh(output.buffer))
      ensures View() == SendInLoop(old(View()), data, r) && Inv(View())
    {
      hide Inv;
      ConnOpen(View());
      SendInv(View(), data, r);
      if status == Disconnected {
        return;
      }
      accepted := accepted + data;
      var written, broken := 0, false;
      if !chan.writable && output.Length() == 0 {
        if r.Sent? {
          written := r.n;
        } else if r.Broken? {
          broken := true;
        }
      }
      if broken {
        Fail();
        return;
      }
      wire := wire + data[..written];
      var rest := data[written..];
      assert data[0..] == data;
      assert data[..|data| - |rest|] == data[..written];
      Queue(rest);
    }

    /** The bytes that `send` did not take. */
    method Queue(rest: Bytes)
      requires Valid() && Open()
      modifies chan, output, output.buffer
      ensures Valid() && (output.buffer == old(output.buffer) || fresh(output.buffer))
      ensures output.Contents() == old(output.Contents()) + rest
      ensures chan.View() == if |rest| > 0 then Update(old(chan.View()).(writable := true)) else old(chan.View())
    {
      if |rest| > 0 {
        output.Write(rest);
        if !chan.writable {
          chan.SetInterest(chan.readable, true);
        }
      }
    }

    /** HandleWrite; `r` is what `send` does with the output buffer. */
    method Flush(r: SendResult)
      requires Valid() && Inv(View()) && Enabled(View(), Writable(r))
      modifies this, chan, output
      ensures Valid() && output.buffer == old(output.buffer)
      ensures View() == HandleWrite(old(View()), r) && Inv(View())
    {
      WriteInv(View(), r);
      if r.Sent? && r.n > 0 {
        var s := output.Next(r.n);
        wire := wire + s;
        if output.Length() == 0 {
          chan.SetInterest(chan.readable, false);
        }
      } else if !r.Retry? {
        Fail();
      }
    }

    /** HandleRead, up to the message callback; `r` is what reading does. */
    method Receive(r: ReadResult)
      requires Valid() && Inv(View()) && Enabled(View(), Readable(r))
      modifies this, chan
      ensures Valid() && output.buffer == old(output.buffer)
      ensures View() == HandleRead(kind, old(View()), r) && Inv(View())
    {
      ReadInv(kind, View(), r);
      if r.EndOfStream? {
        if kind.outgoing {
          Fail();
        } else {
          chan.SetInterest(false, chan.writable);
          if kind.delayed {
            timer := true;
          } else {
            Fail();
          }
        }
      } else if r.ReadError? {
        Fail();
      }
    }
  }
}
