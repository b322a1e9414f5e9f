/** The cross-thread task queue of `EventLoop`, as a state machine over the atomic steps of any
    number of `QueueInLoop` callers and of the loop thread. */
module EventLoop {

  /** Where a caller is in QueueInLoop: not in it; after the push; after the increment of
      pending_functor_count_; after winning the compare-and-swap, about to write to the pipe. */
  datatype Caller = Idle | Pushed | Counted | Winner

  /** Where the loop thread is: in event dispatch; about to clear `notified_`; about to swap the
      queue; in the for loop of the innermost DoPendingFunctors. */
  datatype LoopAt = Waiting | AtStore | AtSwap | InBatch

  /** One activation of DoPendingFunctors: its tasks, how many are finished, and whether the next
      one is running. Tasks are numbered in the order of their push. */
  datatype Frame = Frame(batch: seq<nat>, next: nat, running: bool)

  /** The loop thread: where it is, its open batches, the innermost last, and whether a task has
      called DoPendingFunctors itself, as StopInLoop does. */
  datatype Loop = Loop(at: LoopAt, frames: seq<Frame>, nested: bool)

  /** The number of pushes, and the tasks in the order they were started. */
  datatype Log = Log(pushed: nat, done: seq<nat>)

  /** `count` is pending_functor_count_, `pipe` the number of unread bytes. */
  datatype State = State(
    queue: seq<nat>, notified: bool, pipe: nat, count: int, callers: seq<Caller>, loop: Loop, log: Log)

  datatype Action =
    | Push(i: nat) | Count(i: nat) | Cas(i: nat) | Send(i: nat) | SendToFull(i: nat)
    | Receive | Store | Swap | Start | Finish | Nest | Return
    | SpuriousCas(i: nat)

  const PIPE_READ: nat := 128

  function Initial(n: nat): State {
    State([], false, 0, 0, seq(n, i => Idle), Loop(Waiting, [], false), Log(0, []))
  }

  predicate CallerIs(s: State, i: nat, c: Caller) { i < |s.callers| && s.callers[i] == c }

  function Top(l: Loop): Frame
    requires l.frames != []
  {
    l.frames[|l.frames| - 1]
  }

  function SetTop(l: Loop, f: Frame): Loop
    requires l.frames != []
  {
    l.(frames := l.frames[..|l.frames| - 1] + [f])
  }

  predicate InTask(l: Loop) { l.at == InBatch && l.frames != [] }

  /** The steps a thread can take. A task that the loop thread runs may itself queue tasks: it is then
      one of the callers. `SendToFull` is a write to a full pipe, which fails. `SpuriousCas`, a
      compare_exchange_weak that fails although `notified_` is clear, is not among them. */
  predicate Enabled(s: State, a: Action) {
    match a
    case Push(i) => CallerIs(s, i, Idle)
    case Count(i) => CallerIs(s, i, Pushed)
    case Cas(i) => CallerIs(s, i, Counted)
    case Send(i) => CallerIs(s, i, Winner)
    case SendToFull(i) => CallerIs(s, i, Winner) && s.pipe > 0
    case Receive => s.loop.at == Waiting && s.pipe > 0
    case Store => s.loop.at == AtStore
    case Swap => s.loop.at == AtSwap
    case Start => InTask(s.loop) && !Top(s.loop).running && Top(s.loop).next < |Top(s.loop).batch|
    case Finish => InTask(s.loop) && Top(s.loop).running
    case Nest => InTask(s.loop) && Top(s.loop).running
    case Return => InTask(s.loop) && !Top(s.loop).running && Top(s.loop).next >= |Top(s.loop).batch|
    case SpuriousCas(i) => false
  }

  function SetCaller(s: State, i: nat, c: Caller): State
    requires i < |s.callers|
  {
    s.(callers := s.callers[i := c])
  }

  function Do(s: State, a: Action): State
    requires Enabled(s, a) || (a.SpuriousCas? && CallerIs(s, a.i, Counted))
  {
    match a
    case Push(i) =>
      SetCaller(s.(queue := s.queue + [s.log.pushed], log := s.log.(pushed := s.log.pushed + 1)), i, Pushed)
    case Count(i) => SetCaller(s.(count := s.count + 1), i, Counted)
    case Cas(i) => if s.notified then SetCaller(s, i, Idle) else SetCaller(s.(notified := true), i, Winner)
    case Send(i) => SetCaller(s.(pipe := s.pipe + 1), i, Idle)
    case SendToFull(i) => SetCaller(s, i, Idle)
    case Receive => s.(pipe := if s.pipe < PIPE_READ then 0 else s.pipe - PIPE_READ, loop := s.loop.(at := AtStore))
    case Store => s.(notified := false, loop := s.loop.(at := AtSwap))
    case Swap => s.(queue := [], loop := s.loop.(frames := s.loop.frames + [Frame(s.queue, 0, false)], at := InBatch))
    case Start =>
      var f := Top(s.loop);
      s.(log := s.log.(done := s.log.done + [f.batch[f.next]]), loop := SetTop(s.loop, f.(running := true)))
    case Finish =>
      var f := Top(s.loop);
      s.(count := s.count - 1, loop := SetTop(s.loop, f.(running := false, next := f.next + 1)))
    case Nest => s.(loop := s.loop.(at := AtStore, nested := true))
    case Return =>
      var frames := s.loop.frames[..|s.loop.frames| - 1];
      s.(loop := s.loop.(frames := frames, at := if frames == [] then Waiting else InBatch))
    case SpuriousCas(i) => SetCaller(s, i, Idle)
  }

  predicate Allowed(s: State, actions: seq<Action>)
    decreases |actions|, 0
  {
    actions == [] || (Allowed(s, actions[..|actions| - 1])
                      && Enabled(After(s, actions[..|actions| - 1]), actions[|actions| - 1]))
  }

  function After(s: State, actions: seq<Action>): State
    requires Allowed(s, actions)
    decreases |actions|, 1
  {
    if actions == [] then s else Do(After(s, actions[..|actions| - 1]), actions[|actions| - 1])
  }

  ghost predicate Reachable(s: State) {
    exists n: nat, actions :: Allowed(Initial(n), actions) && After(Initial(n), actions) == s
  }

  // ---------------------------------------------------------------- no wake-up is lost

  predicate SomeCaller(callers: seq<Caller>, c: Caller) { exists i :: 0 <= i < |callers| && callers[i] == c }

  /** While `notified_` is set, a byte is in the pipe, or about to be written, or just taken out by
      a loop that has yet to clear the flag. */
  predicate FlagInv(s: State) {
    s.notified ==> s.pipe > 0 || SomeCaller(s.callers, Winner) || s.loop.at == AtStore
  }

  /** And a task in the queue has set the flag, or will, or the loop is about to take it. */
  predicate WakeInv(s: State) {
    && FlagInv(s)
    && (s.queue != [] ==>
          s.notified || SomeCaller(s.callers, Pushed) || SomeCaller(s.callers, Counted) || s.loop.at == AtSwap)
  }

  lemma SetCallerKeeps(callers: seq<Caller>, i: nat, c: Caller, d: Caller)
    requires i < |callers|
    ensures SomeCaller(callers[i := c], c)
    ensures SomeCaller(callers, d) && callers[i] != d ==> SomeCaller(callers[i := c], d)
  {
    assert callers[i := c][i] == c;
    if SomeCaller(callers, d) && callers[i] != d {
      var j :| 0 <= j < |callers| && callers[j] == d;
      assert callers[i := c][j] == d;
    }
  }

  lemma FlagStep(s: State, a: Action)
    requires FlagInv(s) && Enabled(s, a)
    ensures FlagInv(Do(s, a))
  {
    hide SomeCaller;
    match a {
      case Push(i) => SetCallerKeeps(s.callers, i, Pushed, Winner);
      case Count(i) => SetCallerKeeps(s.callers, i, Counted, Winner);
      case Cas(i) =>
        SetCallerKeeps(s.callers, i, Winner, Winner);
        SetCallerKeeps(s.callers, i, Idle, Winner);
      case _ =>
    }
  }

  lemma WakeStep(s: State, a: Action)
    requires WakeInv(s) && Enabled(s, a)
    ensures WakeInv(Do(s, a))
  {
    hide SomeCaller, FlagInv;
    FlagStep(s, a);
    match a {
      case Push(i) => SetCallerKeeps(s.callers, i, Pushed, Winner);
      case Count(i) => SetCallerKeeps(s.callers, i, Counted, Winner);
      case Send(i) =>
        SetCallerKeeps(s.callers, i, Idle, Pushed);
        SetCallerKeeps(s.callers, i, Idle, Counted);
      case SendToFull(i) =>
        SetCallerKeeps(s.callers, i, Idle, Pushed);
        SetCallerKeeps(s.callers, i, Idle, Counted);
      case _ =>
    }
  }

  lemma {:induction false} WakeAlways(s: State, actions: seq<Action>)
    requires WakeInv(s) && Allowed(s, actions)
    ensures WakeInv(After(s, actions))
  {
    if actions != [] {
      WakeAlways(s, actions[..|actions| - 1]);
      WakeStep(After(s, actions[..|actions| - 1]), actions[|actions| - 1]);
    }
  }

  predicate Quiet(s: State) { forall i :: 0 <= i < |s.callers| ==> s.callers[i] == Idle }

  /** No wake-up is lost: in every reachable state with a task in the queue, no caller between its
      push and its notification, and the loop not between its read and its swap, an unread byte is
      in the pipe. */
  lemma NoLostWakeUp(s: State)
    requires Reachable(s) && s.queue != [] && Quiet(s) && s.loop.at != AtStore && s.loop.at != AtSwap
    ensures s.pipe > 0
  {
    var n: nat, actions :| Allowed(Initial(n), actions) && After(Initial(n), actions) == s;
    WakeAlways(Initial(n), actions);
  }

  // ---------------------------------------------------------------- every task runs exactly once

  /** The tasks of a batch that have not been started, and those not finished. */
  function Rest(f: Frame): seq<nat> {
    var n := f.next + if f.running then 1 else 0;
    if n <= |f.batch| then f.batch[n..] else []
  }

  function Unfinished(f: Frame): nat { if f.next <= |f.batch| then |f.batch| - f.next else 0 }

  /** The tasks not started of all open batches. */
  function Open(frames: seq<Frame>): multiset<nat> {
    if frames == [] then multiset{} else Open(frames[..|frames| - 1]) + multiset(Rest(frames[|frames| - 1]))
  }

  function OpenCount(frames: seq<Frame>): nat {
    if frames == [] then 0 else OpenCount(frames[..|frames| - 1]) + Unfinished(frames[|frames| - 1])
  }

  function Between(callers: seq<Caller>): nat {
    if callers == [] then 0 else Between(callers[..|callers| - 1]) + if callers[|callers| - 1] == Pushed then 1 else 0
  }

  /** The tasks pushed so far. */
  function Tickets(n: nat): seq<nat> { seq(n, i => i) }

  predicate FrameOk(f: Frame) { f.next <= |f.batch| && (f.running ==> f.next < |f.batch|) }

  /** Where the loop is, and the shape of its open batches: all but the innermost are running. */
  predicate FramesOk(l: Loop) {
    && (l.at == Waiting ==> l.frames == [])
    && (l.at == InBatch ==> l.frames != [])
    && (forall i :: 0 <= i < |l.frames| ==> FrameOk(l.frames[i]))
    && (forall i :: 0 <= i < |l.frames| - (if l.at == InBatch then 1 else 0) ==> l.frames[i].running)
    && (!l.nested ==> |l.frames| == if l.at == InBatch then 1 else 0)
  }

  /** Each task pushed is, exactly once, in the queue, in an open batch, or started. */
  predicate Once(queue: seq<nat>, frames: seq<Frame>, log: Log) {
    multiset(queue) + Open(frames) + multiset(log.done) == multiset(Tickets(log.pushed))
  }

  /** The counter counts the queue and what is unfinished, less the callers that have pushed and
      not yet counted. */
  predicate Counts(s: State) { s.count == |s.queue| + OpenCount(s.loop.frames) - Between(s.callers) }

  /** The tasks of the innermost batch that have not been started. */
  function TopRest(l: Loop): seq<nat> { if l.frames == [] then [] else Rest(Top(l)) }

  /** As long as no task has called DoPendingFunctors itself, tasks start in the order of their push. */
  predicate InOrder(s: State) {
    !s.loop.nested ==> s.log.done + TopRest(s.loop) + s.queue == Tickets(s.log.pushed)
  }

  predicate TaskInv(s: State) { FramesOk(s.loop) && Once(s.queue, s.loop.frames, s.log) && Counts(s) && InOrder(s) }

  lemma {:induction false} BetweenUpdate(callers: seq<Caller>, i: nat, c: Caller)
    requires i < |callers|
    ensures Between(callers[i := c])
         == Between(callers) + (if c == Pushed then 1 else 0) - (if callers[i] == Pushed then 1 else 0)
    decreases |callers|
  {
    var front := callers[..|callers| - 1];
    var next := callers[i := c];
    if i < |callers| - 1 {
      BetweenUpdate(front, i, c);
      assert next[..|next| - 1] == front[i := c];
    } else {
      assert next[..|next| - 1] == front;
    }
  }

  lemma TicketsMore(n: nat)
    ensures Tickets(n + 1) == Tickets(n) + [n]
  {
  }

  lemma OpenMore(frames: seq<Frame>, f: Frame)
    ensures Open(frames + [f]) == Open(frames) + multiset(Rest(f))
            && OpenCount(frames + [f]) == OpenCount(frames) + Unfinished(f)
  {
    assert (frames + [f])[..|frames|] == frames;
  }

  lemma FramesStep(s: State, a: Action)
    requires FramesOk(s.loop) && Enabled(s, a)
    ensures FramesOk(Do(s, a).loop)
  {
    var l := Do(s, a).loop;
    match a {
      case Swap =>
      case Start => assert FrameOk(Top(s.loop));
      case Finish => assert FrameOk(Top(s.loop));
      case Nest => assert FrameOk(Top(s.loop));
      case Return =>
      case _ =>
    }
  }

  lemma OnceStep(s: State, a: Action)
    requires FramesOk(s.loop) && Once(s.queue, s.loop.frames, s.log) && Enabled(s, a)
    ensures var t := Do(s, a); Once(t.queue, t.loop.frames, t.log)
  {
    hide Open, OpenCount, Tickets;
    match a {
      case Push(i) => TicketsMore(s.log.pushed);
      case Swap => SwapOnce(s);
      case Start => StartOnce(s);
      case Finish => FinishOnce(s);
      case Return => TopLeaves(s.loop);
      case _ =>
    }
  }

  lemma SwapOnce(s: State)
    requires Once(s.queue, s.loop.frames, s.log) && Enabled(s, Swap)
    ensures var t := Do(s, Swap); Once(t.queue, t.loop.frames, t.log)
  {
    hide Open, OpenCount, Tickets;
    OpenMore(s.loop.frames, Frame(s.queue, 0, false));
    assert Rest(Frame(s.queue, 0, false)) == s.queue;
  }

  lemma FinishOnce(s: State)
    requires Once(s.queue, s.loop.frames, s.log) && Enabled(s, Finish)
    ensures var t := Do(s, Finish); Once(t.queue, t.loop.frames, t.log)
  {
    hide Open, OpenCount, Tickets;
    var f := Top(s.loop);
    TopChanges(s.loop, f.(running := false, next := f.next + 1));
    assert Rest(f) == Rest(f.(running := false, next := f.next + 1));
  }

  lemma StartOnce(s: State)
    requires Once(s.queue, s.loop.frames, s.log) && Enabled(s, Start)
    ensures var t := Do(s, Start); Once(t.queue, t.loop.frames, t.log)
  {
    hide Open, Tickets, Rest;
    var f := Top(s.loop);
    var g := f.(running := true);
    StartRest(f);
    TopChanges(s.loop, g);
    assert multiset(Rest(f)) == multiset{f.batch[f.next]} + multiset(Rest(g));
    assert multiset(s.log.done + [f.batch[f.next]]) == multiset(s.log.done) + multiset{f.batch[f.next]};
  }

  lemma TopChanges(l: Loop, g: Frame)
    requires l.frames != []
    ensures var front := Open(l.frames[..|l.frames| - 1]);
            Open(l.frames) == front + multiset(Rest(Top(l))) && Open(SetTop(l, g).frames) == front + multiset(Rest(g))
    ensures OpenCount(SetTop(l, g).frames) + Unfinished(Top(l)) == OpenCount(l.frames) + Unfinished(g)
  {
    hide Rest, Unfinished;
    var front := l.frames[..|l.frames| - 1];
    assert l.frames == front + [Top(l)];
    OpenMore(front, Top(l));
    OpenMore(front, g);
  }

  lemma TopLeaves(l: Loop)
    requires l.frames != [] && !Top(l).running && Top(l).next == |Top(l).batch|
    ensures Open(l.frames[..|l.frames| - 1]) == Open(l.frames)
            && OpenCount(l.frames[..|l.frames| - 1]) == OpenCount(l.frames)
  {
    assert Rest(Top(l)) == [];
  }

  lemma StartRest(f: Frame)
    requires !f.running && f.next < |f.batch|
    ensures Rest(f) == [f.batch[f.next]] + Rest(f.(running := true))
  {
  }

  /** The steps of a caller, as far as the counter goes. */
  lemma CallerCounts(s: State, t: State, i: nat)
    requires Counts(s) && i < |s.callers| && |t.callers| == |s.callers| && t.callers == s.callers[i := t.callers[i]]
    requires t.loop == s.loop
    requires t.count - |t.queue| == s.count - |s.queue|
          + (if s.callers[i] == Pushed then 1 else 0) - (if t.callers[i] == Pushed then 1 else 0)
    ensures Counts(t)
  {
    hide OpenCount, Between;
    BetweenUpdate(s.callers, i, t.callers[i]);
  }

  lemma BatchCounts(s: State, a: Action)
    requires FramesOk(s.loop) && Counts(s) && Enabled(s, a)
    requires a.Swap? || a.Start? || a.Finish? || a.Return?
    ensures Counts(Do(s, a))
  {
    hide Open, OpenCount, Between;
    match a {
      case Swap => OpenMore(s.loop.frames, Frame(s.queue, 0, false));
      case Start => TopChanges(s.loop, Top(s.loop).(running := true));
      case Finish =>
        var f := Top(s.loop);
        assert FrameOk(f);
        TopChanges(s.loop, f.(running := false, next := f.next + 1));
      case Return =>
        assert FrameOk(Top(s.loop));
        TopLeaves(s.loop);
    }
  }

  lemma CountsStep(s: State, a: Action)
    requires FramesOk(s.loop) && Counts(s) && Enabled(s, a)
    ensures Counts(Do(s, a))
  {
    hide OpenCount, Between, FramesOk;
    if a.Swap? || a.Start? || a.Finish? || a.Return? {
      BatchCounts(s, a);
    } else if a.Push? || a.Count? || a.Cas? || a.Send? || a.SendToFull? {
      CallerCounts(s, Do(s, a), a.i);
    }
  }

  lemma OrderStep(s: State, a: Action)
    requires FramesOk(s.loop) && InOrder(s) && Enabled(s, a)
    ensures InOrder(Do(s, a))
  {
    hide Tickets;
    var t := Do(s, a);
    if !s.loop.nested {
      var done, rest, queue := s.log.done, TopRest(s.loop), s.queue;
      match a {
        case Push(i) =>
          TicketsMore(s.log.pushed);
          assert done + rest + (queue + [s.log.pushed]) == done + rest + queue + [s.log.pushed];
        case Swap =>
          assert rest == [] && TopRest(t.loop) == queue;
          assert done + [] + queue == done + queue + [];
        case Start => StartOrder(s);
        case Finish => assert TopRest(t.loop) == rest;
        case Return => assert rest == [] && TopRest(t.loop) == [];
        case _ =>
      }
    }
  }

  lemma StartOrder(s: State)
    requires InOrder(s) && Enabled(s, Start)
    ensures InOrder(Do(s, Start))
  {
    hide Tickets;
    var t := Do(s, Start);
    StartRest(Top(s.loop));
    var task := [Top(s.loop).batch[Top(s.loop).next]];
    assert s.log.done + (task + TopRest(t.loop)) + s.queue == s.log.done + task + TopRest(t.loop) + s.queue;
  }

  /** Every step keeps the bookkeeping of tasks. */
  lemma TaskStep(s: State, a: Action)
    requires TaskInv(s) && Enabled(s, a)
    ensures TaskInv(Do(s, a))
  {
    hide FramesOk, Once, Counts, InOrder, Do, Enabled;
    FramesStep(s, a);
    OnceStep(s, a);
    CountsStep(s, a);
    OrderStep(s, a);
  }

  lemma {:induction false} TasksAlways(s: State, actions: seq<Action>)
    requires TaskInv(s) && Allowed(s, actions)
    ensures TaskInv(After(s, actions))
  {
    hide TaskInv, Do, Enabled;
    if actions != [] {
      TasksAlways(s, actions[..|actions| - 1]);
      TaskStep(After(s, actions[..|actions| - 1]), actions[|actions| - 1]);
    }
  }

  lemma {:induction false} BetweenIdle(callers: seq<Caller>)
    requires forall i :: 0 <= i < |callers| ==> callers[i] == Idle
    ensures Between(callers) == 0
  {
    if callers != [] { BetweenIdle(callers[..|callers| - 1]); }
  }

  lemma InitialTaskInv(n: nat)
    ensures TaskInv(Initial(n))
  {
    BetweenIdle(Initial(n).callers);
  }

  /** In every reachable state each pushed task is in the queue, in an open batch or started, in
      exactly one of them and once; in particular no task is ever started twice. */
  lemma ExactlyOnce(s: State, task: nat)
    requires Reachable(s)
    ensures multiset(s.queue)[task] + Open(s.loop.frames)[task] + multiset(s.log.done)[task]
            == if task < s.log.pushed then 1 else 0
  {
    hide FramesOk, Counts, InOrder, Open, Reachable;
    ReachableTaskInv(s);
    TicketOnce(s.log.pushed, task);
  }

  lemma {:induction false} TicketOnce(n: nat, task: nat)
    ensures multiset(Tickets(n))[task] == if task < n then 1 else 0
  {
    if n > 0 {
      TicketOnce(n - 1, task);
      TicketsMore(n - 1);
    }
  }

  /** The counter and the order of execution, in every reachable state. */
  lemma CounterAndOrder(s: State)
    requires Reachable(s)
    ensures s.count == |s.queue| + OpenCount(s.loop.frames) - Between(s.callers)
    ensures !s.loop.nested ==> s.log.done <= Tickets(s.log.pushed)
  {
    hide FramesOk, Once, OpenCount, Between, Rest, Reachable;
    ReachableTaskInv(s);
    if !s.loop.nested {
      assert s.log.done + TopRest(s.loop) + s.queue == s.log.done + (TopRest(s.loop) + s.queue);
    }
  }

  // ---------------------------------------------------------------- the queue is emptied

  lemma {:induction false} AfterAppend(s: State, xs: seq<Action>, ys: seq<Action>)
    requires Allowed(s, xs) && Allowed(After(s, xs), ys)
    ensures Allowed(s, xs + ys) && After(s, xs + ys) == After(After(s, xs), ys)
    decreases |ys|
  {
    hide Do, Enabled;
    if ys == [] {
      assert xs + ys == xs;
    } else {
      AfterAppend(s, xs, ys[..|ys| - 1]);
      assert (xs + ys)[..|xs + ys| - 1] == xs + ys[..|ys| - 1];
    }
  }

  /** A step that pushes nothing: of the loop thread, other than a task calling DoPendingFunctors itself, or
      of a caller that has pushed before. */
  predicate WindingStep(a: Action) {
    a.Receive? || a.Store? || a.Swap? || a.Start? || a.Finish? || a.Return?
    || a.Count? || a.Cas? || a.Send? || a.SendToFull?
  }

  predicate Winding(actions: seq<Action>) { forall i :: 0 <= i < |actions| ==> WindingStep(actions[i]) }

  /** The steps left in the open batches: two for each task, and one to return. */
  function FrameWork(f: Frame): nat { 2 * Unfinished(f) + 1 - (if f.running && Unfinished(f) > 0 then 1 else 0) }

  function BatchWork(frames: seq<Frame>): nat {
    if frames == [] then 0 else BatchWork(frames[..|frames| - 1]) + FrameWork(frames[|frames| - 1])
  }

  /** The steps a caller has left, and those that the byte it may write makes the loop take. */
  function CallWork(c: Caller): nat { match c { case Idle => 0 case Pushed => 7 case Counted => 6 case Winner => 5 } }

  function CallersWork(callers: seq<Caller>): nat {
    if callers == [] then 0 else CallersWork(callers[..|callers| - 1]) + CallWork(callers[|callers| - 1])
  }

  /** A bound on the steps left while nothing is pushed. */
  function Work(s: State): nat {
    4 * s.pipe + 2 * |s.queue| + BatchWork(s.loop.frames) + CallersWork(s.callers)
    + match s.loop.at { case Waiting => 0 case AtStore => 3 case AtSwap => 2 case InBatch => 0 }
  }

  lemma {:induction false} CallersUpdate(callers: seq<Caller>, i: nat, c: Caller)
    requires i < |callers|
    ensures CallersWork(callers[i := c]) == CallersWork(callers) + CallWork(c) - CallWork(callers[i])
    decreases |callers|
  {
    var front := callers[..|callers| - 1];
    var next := callers[i := c];
    if i < |callers| - 1 {
      CallersUpdate(front, i, c);
      assert next[..|next| - 1] == front[i := c];
    } else {
      assert next[..|next| - 1] == front;
    }
  }

  lemma TopWork(l: Loop, g: Frame)
    requires l.frames != []
    ensures BatchWork(SetTop(l, g).frames) == BatchWork(l.frames) - FrameWork(Top(l)) + FrameWork(g)
    ensures BatchWork(l.frames[..|l.frames| - 1]) == BatchWork(l.frames) - FrameWork(Top(l))
  {
    var fs := SetTop(l, g).frames;
    assert fs[..|fs| - 1] == l.frames[..|l.frames| - 1];
  }

  lemma NewWork(frames: seq<Frame>, f: Frame)
    ensures BatchWork(frames + [f]) == BatchWork(frames) + FrameWork(f)
  {
    assert (frames + [f])[..|frames|] == frames;
  }

  /** Every such step leaves less to do. */
  lemma WorkShrinks(s: State, a: Action)
    requires FramesOk(s.loop) && WindingStep(a) && Enabled(s, a)
    ensures var t := Do(s, a); Work(t) < Work(s) && t.log.pushed == s.log.pushed
  {
    hide BatchWork, CallersWork;
    match a {
      case Swap => NewWork(s.loop.frames, Frame(s.queue, 0, false));
      case Start =>
        var f := Top(s.loop);
        TopWork(s.loop, f.(running := true));
      case Finish =>
        var f := Top(s.loop);
        assert FrameOk(f);
        TopWork(s.loop, f.(running := false, next := f.next + 1));
      case Return => TopWork(s.loop, Top(s.loop));
      case Receive =>
      case Store =>
      case Count(i) => CallersUpdate(s.callers, i, Counted);
      case Cas(i) => CallersUpdate(s.callers, i, if s.notified then Idle else Winner);
      case Send(i) => CallersUpdate(s.callers, i, Idle);
      case SendToFull(i) => CallersUpdate(s.callers, i, Idle);
    }
  }

  /** What is in the queue will be taken: there is something to make the loop read, or the loop is on its
      way to the swap, or a caller is still under way. */
  predicate WillTake(s: State) {
    s.queue == [] || s.pipe > 0 || s.loop.at == AtStore || s.loop.at == AtSwap || !Quiet(s)
  }

  lemma WillTakeStep(s: State, a: Action)
    requires FlagInv(s) && WindingStep(a) && Enabled(s, a)
    ensures WillTake(Do(s, a)) <==> WillTake(s)
  {
    hide Quiet, SomeCaller;
    var t := Do(s, a);
    if a.Count? || a.Cas? || a.Send? || a.SendToFull? {
      NotQuiet(s, a.i);
      if a.Count? || (a.Cas? && !s.notified) {
        NotQuiet(t, a.i);
      } else if a.Cas? && SomeCaller(s.callers, Winner) {
        SetCallerKeeps(s.callers, a.i, Idle, Winner);
        WinnerNotQuiet(t);
      }
    } else {
      QuietSame(s, t);
    }
  }

  lemma QuietSame(s: State, t: State)
    requires s.callers == t.callers
    ensures Quiet(s) <==> Quiet(t)
  {
  }

  lemma NotQuiet(s: State, i: nat)
    requires i < |s.callers| && s.callers[i] != Idle
    ensures !Quiet(s)
  {
  }

  lemma WinnerNotQuiet(s: State)
    requires SomeCaller(s.callers, Winner)
    ensures !Quiet(s)
  {
  }

  lemma {:induction false} WindingRun(s: State, actions: seq<Action>)
    requires TaskInv(s) && FlagInv(s) && Winding(actions) && Allowed(s, actions)
    ensures var t := After(s, actions);
            && |actions| + Work(t) <= Work(s) && t.log.pushed == s.log.pushed
            && TaskInv(t) && FlagInv(t) && (WillTake(t) <==> WillTake(s))
  {
    hide Work, Do, Enabled, TaskInv, FramesOk, FlagInv, WillTake;
    if actions != [] {
      var xs, a := actions[..|actions| - 1], actions[|actions| - 1];
      WindingRun(s, xs);
      var t := After(s, xs);
      assert FramesOk(t.loop) by { TaskFrames(t); }
      WorkShrinks(t, a);
      TaskStep(t, a);
      FlagStep(t, a);
      WillTakeStep(t, a);
    }
  }

  lemma TaskFrames(s: State)
    requires TaskInv(s)
    ensures FramesOk(s.loop)
  {
  }

  /** No such step is left. */
  ghost predicate Done(s: State) { forall a :: WindingStep(a) ==> !Enabled(s, a) }

  /** All has come to rest: the loop waits, with nothing to read, and every task pushed was run. */
  predicate Drained(s: State) {
    s.queue == [] && s.loop.at == Waiting && s.pipe == 0 && s.count == 0
    && multiset(s.log.done) == multiset(Tickets(s.log.pushed))
  }

  lemma DoneWaits(s: State)
    requires Done(s) && FramesOk(s.loop)
    ensures s.loop.at == Waiting && s.pipe == 0 && Quiet(s)
  {
    assert !Enabled(s, Store) && !Enabled(s, Swap) && !Enabled(s, Receive);
    assert !Enabled(s, Start) && !Enabled(s, Finish) && !Enabled(s, Return);
    forall i | 0 <= i < |s.callers| ensures s.callers[i] == Idle {
      assert !Enabled(s, Count(i)) && !Enabled(s, Cas(i)) && !Enabled(s, Send(i));
    }
  }

  lemma DoneDrained(s: State)
    requires Done(s) && TaskInv(s)
    ensures Drained(s) <==> WillTake(s)
  {
    hide Done;
    TaskFrames(s);
    DoneWaits(s);
    BetweenIdle(s.callers);
    assert s.loop.frames == [];
  }

  /** From every reachable state, every run without a new push is finite, and ends only when every task
      ever pushed was run, the queue is empty and the counter 0. */
  lemma QueueDrains(s: State, actions: seq<Action>)
    requires Reachable(s) && Winding(actions) && Allowed(s, actions)
    ensures var t := After(s, actions);
            |actions| <= Work(s) && t.log.pushed == s.log.pushed && (Done(t) ==> Drained(t))
  {
    hide Allowed, After, Initial, Reachable, Work, Enabled, TaskInv, Drained, Done;
    ReachableTaskInv(s);
    ReachableWillTake(s);
    WindingRun(s, actions);
    if Done(After(s, actions)) { DoneDrained(After(s, actions)); }
  }

  lemma ReachableWillTake(s: State)
    requires Reachable(s)
    ensures FlagInv(s) && WillTake(s)
  {
    var n: nat, actions :| Allowed(Initial(n), actions) && After(Initial(n), actions) == s;
    WakeAlways(Initial(n), actions);
  }

  /** And such a run to the end exists. */
  lemma LoopFinishes(s: State) returns (actions: seq<Action>)
    requires TaskInv(s)
    ensures Winding(actions) && Allowed(s, actions) && Done(After(s, actions))
    decreases Work(s)
  {
    hide Do, Enabled, TaskInv, Work, FramesOk;
    actions := [];
    assert Allowed(s, []) && After(s, []) == s;
    if a :| WindingStep(a) && Enabled(s, a) {
      var one := [a];
      assert one[..0] == [];
      assert Allowed(s, one) && After(s, one) == Do(s, a);
      assert FramesOk(s.loop) by { TaskFrames(s); }
      WorkShrinks(s, a);
      TaskStep(s, a);
      var more := LoopFinishes(Do(s, a));
      actions := one + more;
      AfterAppend(s, one, more);
    }
  }

  // ---------------------------------------------------------------- a compare-and-swap that fails spuriously

  /** However the threads go on without a new push, they end with every task run. */
  ghost predicate AlwaysDrains(s: State) {
    forall actions :: Winding(actions) && Allowed(s, actions) && Done(After(s, actions)) ==> Drained(After(s, actions))
  }

  lemma DrainsExactly(s: State)
    requires TaskInv(s) && FlagInv(s)
    ensures AlwaysDrains(s) <==> WillTake(s)
  {
    hide Allowed, After, Work, Enabled, TaskInv, Drained, Done, FlagInv, WillTake, Winding;
    forall actions | Winding(actions) && Allowed(s, actions) && Done(After(s, actions))
      ensures Drained(After(s, actions)) <==> WillTake(s)
    {
      WindingRun(s, actions);
      DoneDrained(After(s, actions));
    }
    var actions := LoopFinishes(s);
  }

  /** Some caller other than `i` is under way. */
  predicate OtherUnderway(callers: seq<Caller>, i: nat) {
    exists j :: 0 <= j < |callers| && j != i && callers[j] != Idle
  }

  /** A compare-and-swap that fails spuriously, in any state, also after others that did: every task is still
      run if and only if none is queued, or a byte is unread, or the loop is on its way to take the queue, or
      another caller is under way. Otherwise the wake-up is lost. */
  lemma SpuriousExactly(s: State, i: nat)
    requires TaskInv(s) && FlagInv(s) && CallerIs(s, i, Counted)
    ensures var t := Do(s, SpuriousCas(i));
            && TaskInv(t) && FlagInv(t)
            && (AlwaysDrains(t) <==>
                  s.queue == [] || s.pipe > 0 || s.loop.at == AtStore || s.loop.at == AtSwap
                  || OtherUnderway(s.callers, i))
  {
    hide AlwaysDrains, Between;
    var t := Do(s, SpuriousCas(i));
    BetweenUpdate(s.callers, i, Idle);
    SetCallerKeeps(s.callers, i, Idle, Winner);
    DrainsExactly(t);
    forall j | 0 <= j < |s.callers| && j != i ensures t.callers[j] == s.callers[j] {}
    if OtherUnderway(s.callers, i) {
      var j :| 0 <= j < |s.callers| && j != i && s.callers[j] != Idle;
      NotQuiet(t, j);
    }
  }

  /** The steps of one caller up to its compare-and-swap. */
  lemma OneCaller(s: State)
    requires s == State([0], false, 0, 1, [Counted], Loop(Waiting, [], false), Log(1, []))
    ensures Reachable(s)
  {
    var one, two := [Push(0)], [Push(0), Count(0)];
    assert two[..1] == one && one[..0] == [];
    assert Allowed(Initial(1), []) && After(Initial(1), []) == Initial(1);
    assert Allowed(Initial(1), one);
    assert Allowed(Initial(1), two) && After(Initial(1), two) == s;
  }

  /** So the wake-up can be lost, for instance with one caller and one task: nothing is in the pipe. */
  lemma SpuriousFailureLosesWakeUp()
    ensures exists s :: Reachable(s) && CallerIs(s, 0, Counted) && !AlwaysDrains(Do(s, SpuriousCas(0)))
  {
    hide AlwaysDrains, Reachable, TaskInv, FlagInv;
    var s := State([0], false, 0, 1, [Counted], Loop(Waiting, [], false), Log(1, []));
    OneCaller(s);
    ReachableTaskInv(s);
    ReachableWillTake(s);
    SpuriousExactly(s, 0);
  }

  lemma ReachableTaskInv(s: State)
    requires Reachable(s)
    ensures TaskInv(s)
  {
    hide TaskInv;
    var n: nat, actions :| Allowed(Initial(n), actions) && After(Initial(n), actions) == s;
    InitialTaskInv(n);
    TasksAlways(Initial(n), actions);
  }
}
