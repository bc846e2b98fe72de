/** The dispatcher as a transition system: callers of addTask, stop and shutdown against one worker thread,
    interleaved at every lock, unlock, wait and notify. */
module Dispatcher {

  datatype Mode = Running | Closing | Terminated

  /** How far a call has got. `front` is the flag of `addTask`; `signal` says that the list was empty. */
  datatype Call =
    | AddWants(front: bool) | AddHolds(front: bool) | AddDone(signal: bool) | AddNotifies
    | StopWants | StopHolds | StopDone
    | ShutdownWants | ShutdownHolds | ShutdownFlushes
  {
    predicate Starts() {
      AddWants? || StopWants? || ShutdownWants?
    }

    predicate Holds() {
      AddHolds? || AddDone? || StopHolds? || StopDone? || ShutdownHolds? || ShutdownFlushes?
    }

    /** A notification is still to come from this call. */
    predicate Pending() {
      AddNotifies? || (AddDone? && signal)
    }

    function Locked(): Call
      requires Starts()
    {
      match this
      case AddWants(front) => AddHolds(front)
      case StopWants => StopHolds
      case _ => ShutdownHolds
    }
  }

  datatype Task = NoTask | Numbered(n: nat)

  /** Where `threadMain` is. */
  datatype Worker = AtTop | WantsLock | Checks | Parked | Woken | Takes | Releases(task: Task) | Executes(n: nat) | Exited
  {
    predicate Holds() {
      Checks? || Takes? || Releases?
    }
  }

  datatype Holder = Free | ByWorker | ByCall(id: nat)

  /** Accepted tasks are numbered in the order of acceptance: `fronts[n]` is the flag of number `n`.
      `taken` lists the numbers in the order they left the list, through the worker or through `flush`;
      `ended` becomes true when a call of `shutdown` has gone through. */
  datatype System = System(mode: Mode, queue: seq<nat>, holder: Holder, calls: map<nat, Call>, worker: Worker,
                           fronts: seq<bool>, taken: seq<nat>, ended: bool)

  datatype Step =
    | Begin(id: nat, call: Call) | Acquire(id: nat) | Act(id: nat) | Unlock(id: nat) | Notify(id: nat)
    | WorkerTop | WorkerLock | WorkerCheck | WorkerWakes | WorkerTake | WorkerUnlock | WorkerDone

  function Start(): System {
    System(Running, [], Free, map[], AtTop, [], [], false)
  }

  predicate Enabled(s: System, step: Step) {
    match step
    case Begin(id, call) => id !in s.calls && call.Starts()
    case Acquire(id) => id in s.calls && s.calls[id].Starts() && s.holder == Free
    case Act(id) =>
      && id in s.calls && s.calls[id].Holds()
      && (s.calls[id].AddHolds? || s.calls[id].StopHolds? || s.calls[id].ShutdownHolds? || (s.calls[id].ShutdownFlushes? && s.queue != []))
    case Unlock(id) =>
      id in s.calls && (s.calls[id].AddDone? || s.calls[id].StopDone? || (s.calls[id].ShutdownFlushes? && s.queue == []))
    case Notify(id) => id in s.calls && s.calls[id].AddNotifies?
    case WorkerTop => s.worker.AtTop?
    case WorkerLock => (s.worker.WantsLock? || s.worker.Woken?) && s.holder == Free
    case WorkerCheck => s.worker.Checks?
    case WorkerWakes => s.worker.Parked?
    case WorkerTake => s.worker.Takes?
    case WorkerUnlock => s.worker.Releases?
    case WorkerDone => s.worker.Executes?
  }

  /** What a call does while it holds the lock. */
  function Acted(s: System, id: nat): System
    requires Enabled(s, Act(id))
  {
    match s.calls[id]
    case AddHolds(front) =>
      if s.mode == Running then
        s.(queue := if front then [|s.fronts|] + s.queue else s.queue + [|s.fronts|],
           fronts := s.fronts + [front],
           calls := s.calls[id := AddDone(s.queue == [])])
      else s.(calls := s.calls[id := AddDone(false)])
    case StopHolds => s.(mode := Closing, calls := s.calls[id := StopDone])
    case ShutdownHolds => s.(mode := Terminated, calls := s.calls[id := ShutdownFlushes])
    case _ => s.(queue := s.queue[1..], taken := s.taken + [s.queue[0]])
  }

  function Next(s: System, step: Step): System
    requires Enabled(s, step)
  {
    match step
    case Begin(id, call) => s.(calls := s.calls[id := call])
    case Acquire(id) => s.(holder := ByCall(id), calls := s.calls[id := s.calls[id].Locked()])
    case Act(id) => Acted(s, id)
    case Unlock(id) =>
      s.(holder := Free,
         ended := s.ended || s.calls[id].ShutdownFlushes?,
         calls := if s.calls[id].Pending() then s.calls[id := AddNotifies] else s.calls - {id})
    case Notify(id) =>
      s.(calls := s.calls - {id}, worker := if s.worker.Parked? then Woken else s.worker)
    case WorkerTop => s.(worker := if s.mode == Terminated then Exited else WantsLock)
    case WorkerLock => s.(holder := ByWorker, worker := if s.worker.Woken? then Takes else Checks)
    case WorkerCheck => if s.queue == [] then s.(worker := Parked, holder := Free) else s.(worker := Takes)
    case WorkerWakes => s.(worker := Woken)
    case WorkerTake =>
      if s.queue != [] && s.mode != Terminated
      then s.(worker := Releases(Numbered(s.queue[0])), queue := s.queue[1..], taken := s.taken + [s.queue[0]])
      else s.(worker := Releases(NoTask))
    case WorkerUnlock => s.(holder := Free, worker := if s.worker.task.NoTask? then AtTop else Executes(s.worker.task.n))
    case WorkerDone => s.(worker := AtTop)
  }

  predicate Run(s: System, steps: seq<Step>)
    decreases |steps|
  {
    steps == [] || (Enabled(s, steps[0]) && Run(Next(s, steps[0]), steps[1..]))
  }

  function After(s: System, steps: seq<Step>): System
    requires Run(s, steps)
    decreases |steps|
  {
    if steps == [] then s else After(Next(s, steps[0]), steps[1..])
  }

  // ---------------------------------------------------------------- what every step keeps

  /** The lock is held by whoever is between lock and unlock. */
  predicate Exclusive(s: System) {
    && (s.holder == ByWorker <==> s.worker.Holds())
    && (forall id :: id in s.calls && s.calls[id].Holds() ==> s.holder == ByCall(id))
    && (s.holder.ByCall? ==> s.holder.id in s.calls && s.calls[s.holder.id].Holds())
  }

  /** Taken followed by waiting: the order in which tasks leave the list if nothing more is added. */
  function Order(s: System): seq<nat> {
    s.taken + s.queue
  }

  /** Every accepted task is taken or waiting, exactly once. */
  predicate Conserved(order: seq<nat>, n: nat) {
    multiset(order) == multiset(seq(n, i requires 0 <= i < n => i))
  }

  /** Tasks added at the back keep the order of acceptance. */
  predicate Fifo(order: seq<nat>, fronts: seq<bool>) {
    && (forall a :: 0 <= a < |order| ==> order[a] < |fronts|)
    && (forall a, b :: 0 <= a < b < |order| && !fronts[order[a]] && !fronts[order[b]] ==> order[a] < order[b])
  }

  predicate NotifyPending(s: System) {
    exists id :: id in s.calls && s.calls[id].Pending()
  }

  /** A worker that sleeps while tasks wait is about to be notified. */
  predicate NoLostWakeup(s: System) {
    s.worker.Parked? && s.queue != [] ==> NotifyPending(s)
  }

  predicate Shut(s: System) {
    && (s.ended ==> s.mode != Running && s.queue == [])
    && (forall id :: id in s.calls && s.calls[id].ShutdownFlushes? ==> s.mode == Terminated)
  }

  predicate Safe(s: System) {
    Exclusive(s) && Conserved(Order(s), |s.fronts|) && Fifo(Order(s), s.fronts) && NoLostWakeup(s) && Shut(s)
  }

  lemma ExclusiveKept(s: System, step: Step)
    requires Exclusive(s) && Enabled(s, step)
    ensures Exclusive(Next(s, step))
  {
  }

  lemma ShutKept(s: System, step: Step)
    requires Exclusive(s) && Shut(s) && Enabled(s, step)
    ensures Shut(Next(s, step))
  {
  }

  lemma NoLostWakeupKept(s: System, step: Step)
    requires Exclusive(s) && NoLostWakeup(s) && Enabled(s, step)
    ensures NoLostWakeup(Next(s, step))
  {
    var t := Next(s, step);
    if t.worker.Parked? && t.queue != [] {
      assert s.worker.Parked?;
      if s.queue == [] {
        assert t.calls[step.id].Pending();
      } else {
        var id :| id in s.calls && s.calls[id].Pending();
        assert id in t.calls && t.calls[id].Pending();
      }
    }
  }

  lemma OneMore(order: seq<nat>, n: nat)
    requires Conserved(order, n)
    ensures Conserved(order + [n], n + 1)
  {
    assert seq(n + 1, i requires 0 <= i < n + 1 => i) == seq(n, i requires 0 <= i < n => i) + [n];
  }

  lemma OrderAfterAct(s: System, id: nat)
    requires Enabled(s, Act(id)) && Conserved(Order(s), |s.fronts|) && Fifo(Order(s), s.fronts)
    ensures var t := Acted(s, id); Conserved(Order(t), |t.fronts|) && Fifo(Order(t), t.fronts)
  {
    hide Conserved;
    var t := Acted(s, id);
    var n := |s.fronts|;
    if s.calls[id].AddHolds? && s.mode == Running {
      OneMore(Order(s), n);
      if s.calls[id].front {
        assert Order(t) == s.taken + [n] + s.queue;
        Inserted(s.taken, s.queue, n);
        FifoInsert(s.taken, s.queue, s.fronts);
      } else {
        assert Order(t) == Order(s) + [n];
      }
    } else if s.calls[id].ShutdownFlushes? {
      assert Order(t) == Order(s);
    }
  }

  lemma Inserted(a: seq<nat>, b: seq<nat>, n: nat)
    requires Conserved(a + b + [n], n + 1)
    ensures Conserved(a + [n] + b, n + 1)
  {
    assert multiset(a + [n] + b) == multiset(a) + multiset{n} + multiset(b) == multiset(a + b + [n]);
  }

  lemma FifoInsert(a: seq<nat>, b: seq<nat>, fronts: seq<bool>)
    requires Fifo(a + b, fronts)
    ensures Fifo(a + [|fronts|] + b, fronts + [true])
  {
    var o, u, gs := a + b, a + [|fronts|] + b, fronts + [true];
    forall i | 0 <= i < |u| && i != |a| ensures u[i] == o[if i < |a| then i else i - 1] {
    }
    forall i, j | 0 <= i < j < |u| && !gs[u[i]] && !gs[u[j]] ensures u[i] < u[j] {
      assert u[i] == o[if i < |a| then i else i - 1] && u[j] == o[if j < |a| then j else j - 1];
    }
  }

  lemma OrderKept(s: System, step: Step)
    requires Enabled(s, step) && Conserved(Order(s), |s.fronts|) && Fifo(Order(s), s.fronts)
    ensures var t := Next(s, step); Conserved(Order(t), |t.fronts|) && Fifo(Order(t), t.fronts)
  {
    hide Conserved, Fifo;
    var t := Next(s, step);
    if step.Act? {
      OrderAfterAct(s, step.id);
    } else {
      assert Order(t) == Order(s);
    }
  }

  /** Every step of every thread keeps the dispatcher safe. */
  lemma SafeKept(s: System, step: Step)
    requires Safe(s) && Enabled(s, step)
    ensures Safe(Next(s, step))
  {
    hide Exclusive, Conserved, Fifo, NoLostWakeup, Shut, Next, Order;
    ExclusiveKept(s, step);
    OrderKept(s, step);
    NoLostWakeupKept(s, step);
    ShutKept(s, step);
  }

  lemma {:induction false} SafeAlong(s: System, steps: seq<Step>)
    requires Safe(s) && Run(s, steps)
    ensures Safe(After(s, steps))
    decreases |steps|
  {
    hide Safe, Next, Enabled;
    if steps != [] {
      SafeKept(s, steps[0]);
      SafeAlong(Next(s, steps[0]), steps[1..]);
    }
  }

  lemma StartIsSafe()
    ensures Safe(Start())
  {
    assert Order(Start()) == [] && seq(0, i requires 0 <= i < 0 => i) == [];
  }

  // ---------------------------------------------------------------- over all interleavings

  lemma CountOf(n: nat, k: nat)
    ensures multiset(seq(n, i requires 0 <= i < n => i))[k] == if k < n then 1 else 0
  {
    if n > 0 {
      CountOf(n - 1, k);
      assert seq(n, i requires 0 <= i < n => i) == seq(n - 1, i requires 0 <= i < n - 1 => i) + [n - 1];
    }
  }

  /** Whatever the interleaving: every accepted task has been taken exactly once or is still waiting, exactly once,
      and nothing else is taken. */
  lemma ExactlyOnce(steps: seq<Step>, n: nat)
    requires Run(Start(), steps)
    ensures var s := After(Start(), steps);
            multiset(s.taken)[n] + multiset(s.queue)[n] == if n < |s.fronts| then 1 else 0
  {
    hide Run, After, Start;
    StartIsSafe();
    SafeAlong(Start(), steps);
    var s := After(Start(), steps);
    CountOf(|s.fronts|, n);
    assert multiset(Order(s)) == multiset(s.taken) + multiset(s.queue);
  }

  /** Of two tasks added at the back, the later one is taken only after the earlier one. */
  lemma TakenInOrder(steps: seq<Step>, m: nat, n: nat, j: nat)
    requires Run(Start(), steps)
    requires var s := After(Start(), steps);
             m < n < |s.fronts| && !s.fronts[m] && !s.fronts[n] && j < |s.taken| && s.taken[j] == n
    ensures var s := After(Start(), steps); exists i :: 0 <= i < j && s.taken[i] == m
  {
    hide Run, After, Start;
    StartIsSafe();
    SafeAlong(Start(), steps);
    var s := After(Start(), steps);
    CountOf(|s.fronts|, m);
    var o := Order(s);
    assert m in multiset(o) && m in o;
    var i :| 0 <= i < |o| && o[i] == m;
    assert o[j] == n;
    assert s.taken[i] == m;
  }

  // ---------------------------------------------------------------- who comes before whom

  predicate Before(order: seq<nat>, m: nat, n: nat) {
    exists i, j :: 0 <= i < j < |order| && order[i] == m && order[j] == n
  }

  lemma BeforeInsert(a: seq<nat>, b: seq<nat>, x: nat, m: nat, n: nat)
    requires Before(a + b, m, n)
    ensures Before(a + [x] + b, m, n)
  {
    var o, u := a + b, a + [x] + b;
    var i, j :| 0 <= i < j < |o| && o[i] == m && o[j] == n;
    var k, l := if i < |a| then i else i + 1, if j < |a| then j else j + 1;
    assert u[k] == m && u[l] == n;
  }

  lemma BeforeKept(s: System, step: Step, m: nat, n: nat)
    requires Enabled(s, step) && Before(Order(s), m, n)
    ensures Before(Order(Next(s, step)), m, n)
  {
    hide Before;
    var t := Next(s, step);
    if step.Act? && s.calls[step.id].AddHolds? && s.mode == Running {
      var x := |s.fronts|;
      if s.calls[step.id].front {
        assert Order(t) == s.taken + [x] + s.queue;
        BeforeInsert(s.taken, s.queue, x, m, n);
      } else {
        assert Order(t) == Order(s) + [x] + [] && Order(s) + [] == Order(s);
        BeforeInsert(Order(s), [], x, m, n);
      }
    } else {
      assert Order(t) == Order(s);
    }
  }

  lemma {:induction false} BeforeAlong(s: System, steps: seq<Step>, m: nat, n: nat)
    requires Run(s, steps) && Before(Order(s), m, n)
    ensures Before(Order(After(s, steps)), m, n)
    decreases |steps|
  {
    hide Before, Next, Enabled, Order;
    if steps != [] {
      BeforeKept(s, steps[0], m, n);
      BeforeAlong(Next(s, steps[0]), steps[1..], m, n);
    }
  }

  lemma Twice(order: seq<nat>, i: nat, j: nat)
    requires i < j < |order| && order[i] == order[j]
    ensures multiset(order)[order[i]] >= 2
  {
    assert order == order[..i] + [order[i]] + order[i + 1..j] + [order[j]] + order[j + 1..];
  }

  lemma OnlyOnce(order: seq<nat>, n: nat, i: nat, j: nat)
    requires Conserved(order, n) && i < |order| && j < |order| && order[i] == order[j]
    ensures i == j
  {
    CountOf(n, order[i]);
    if i < j {
      Twice(order, i, j);
    } else if j < i {
      Twice(order, j, i);
    }
  }

  /** What stands before a task has been taken before it once the task has been taken. */
  lemma TakenBefore(s: System, m: nat, n: nat, j: nat)
    requires Conserved(Order(s), |s.fronts|) && Before(Order(s), m, n) && j < |s.taken| && s.taken[j] == n
    ensures exists i :: 0 <= i < j && s.taken[i] == m
  {
    var o := Order(s);
    var i, k :| 0 <= i < k < |o| && o[i] == m && o[k] == n;
    OnlyOnce(o, |s.fronts|, j, k);
    assert s.taken[i] == m;
  }

  /** A task added at the front is taken before every task that waits when it is accepted; one added at the back, after
      every one of them, whatever is added later. */
  lemma AddedInPlace(s: System, id: nat, steps: seq<Step>, m: nat, j: nat)
    requires Safe(s) && s.mode == Running && id in s.calls && s.calls[id].AddHolds? && m in s.queue
    requires Run(Next(s, Act(id)), steps) && j < |After(Next(s, Act(id)), steps).taken|
    ensures var t := After(Next(s, Act(id)), steps);
            && (s.calls[id].front && t.taken[j] == m ==> exists i :: 0 <= i < j && t.taken[i] == |s.fronts|)
            && (!s.calls[id].front && t.taken[j] == |s.fronts| ==> exists i :: 0 <= i < j && t.taken[i] == m)
  {
    hide Run, After, Before, Exclusive, Conserved, Fifo, NoLostWakeup, Shut;
    var t, u, x := Next(s, Act(id)), After(Next(s, Act(id)), steps), |s.fronts|;
    SafeKept(s, Act(id));
    SafeAlong(t, steps);
    var k :| 0 <= k < |s.queue| && s.queue[k] == m;
    var at := |s.taken|;
    if s.calls[id].front {
      InOrder(Order(t), at, at + 1 + k);
      BeforeAlong(t, steps, x, m);
      if u.taken[j] == m {
        TakenBefore(u, x, m, j);
      }
    } else {
      InOrder(Order(t), at + k, at + |s.queue|);
      BeforeAlong(t, steps, m, x);
      if u.taken[j] == x {
        TakenBefore(u, m, x, j);
      }
    }
  }

  lemma InOrder(order: seq<nat>, i: nat, j: nat)
    requires i < j < |order|
    ensures Before(order, order[i], order[j])
  {
  }

  /** With a task waiting, the worker is never asleep without a notification on its way. */
  lemma NeverForgotten(steps: seq<Step>)
    requires Run(Start(), steps)
    ensures var s := After(Start(), steps);
            s.worker.Parked? && s.queue != [] ==> exists id :: id in s.calls && s.calls[id].Pending()
  {
    hide Run, After, Start;
    StartIsSafe();
    SafeAlong(Start(), steps);
  }

  /** With a task waiting and no termination, some thread can always go on without outside help. */
  lemma NeverStuck(s: System) returns (step: Step)
    requires Safe(s) && s.queue != [] && s.mode != Terminated && !s.worker.Exited?
    ensures Enabled(s, step) && !step.Begin? && !step.WorkerWakes?
  {
    if s.holder.ByCall? {
      step := if Enabled(s, Act(s.holder.id)) then Act(s.holder.id) else Unlock(s.holder.id);
    } else {
      match s.worker {
        case AtTop => step := WorkerTop;
        case WantsLock => step := WorkerLock;
        case Checks => step := WorkerCheck;
        case Parked =>
          var id :| id in s.calls && s.calls[id].Pending();
          step := Notify(id);
        case Woken => step := WorkerLock;
        case Takes => step := WorkerTake;
        case Releases(_) => step := WorkerUnlock;
        case Executes(_) => step := WorkerDone;
        case Exited => assert false;
      }
    }
  }

  lemma HistoryGrows(s: System, step: Step)
    requires Enabled(s, step)
    ensures var t := Next(s, step);
            s.fronts <= t.fronts && s.taken <= t.taken
            && (t.fronts != s.fronts ==> s.mode == Running)
            && (s.mode != Running ==> t.mode != Running)
  {
  }

  /** Over every run: nothing accepted or taken is ever revised, and after the first `stop` or `shutdown`
      nothing more is accepted. */
  lemma {:induction false} HistoryKept(s: System, steps: seq<Step>)
    requires Run(s, steps)
    ensures var t := After(s, steps);
            s.fronts <= t.fronts && s.taken <= t.taken && (s.mode != Running ==> t.mode != Running && t.fronts == s.fronts)
    decreases |steps|
  {
    hide Next, Enabled;
    if steps != [] {
      HistoryGrows(s, steps[0]);
      HistoryKept(Next(s, steps[0]), steps[1..]);
    }
  }

  /** Once a shutdown has gone through, the list is empty and stays so: nothing is accepted or taken any more. */
  lemma {:induction false} EmptyAfterShutdown(s: System, steps: seq<Step>)
    requires Safe(s) && s.ended && Run(s, steps)
    ensures var t := After(s, steps);
            t.ended && t.queue == [] && t.mode != Running && t.fronts == s.fronts && t.taken == s.taken
    decreases |steps|
  {
    hide Conserved, Fifo, Order, Exclusive, NoLostWakeup;
    if steps != [] {
      SafeKept(s, steps[0]);
      assert Next(s, steps[0]).ended;
      EmptyAfterShutdown(Next(s, steps[0]), steps[1..]);
    }
  }

  // ---------------------------------------------------------------- what shutdown does not do

  /** A worker asleep after a shutdown, with no notification on its way. */
  predicate Abandoned(s: System) {
    s.ended && s.worker.Parked? && !NotifyPending(s)
  }

  /** `shutdown` does not notify: unless the wait returns by itself, an abandoned worker sleeps for ever. */
  lemma {:induction false} AbandonedForGood(s: System, steps: seq<Step>)
    requires Safe(s) && Abandoned(s) && Run(s, steps) && WorkerWakes !in steps
    ensures Abandoned(After(s, steps))
    decreases |steps|
  {
    hide Conserved, Fifo, Order;
    if steps != [] {
      SafeKept(s, steps[0]);
      StillAbandoned(s, steps[0]);
      AbandonedForGood(Next(s, steps[0]), steps[1..]);
    }
  }

  lemma StillAbandoned(s: System, step: Step)
    requires Safe(s) && Abandoned(s) && Enabled(s, step) && step != WorkerWakes
    ensures Abandoned(Next(s, step))
  {
    hide Conserved, Fifo, Order;
    var t := Next(s, step);
    if NotifyPending(t) {
      var id :| id in t.calls && t.calls[id].Pending();
      assert false;
    }
  }

  /** It happens: the worker goes to sleep on the empty list, then somebody shuts the dispatcher down. */
  lemma CanBeAbandoned() returns (steps: seq<Step>)
    ensures Run(Start(), steps) && Abandoned(After(Start(), steps))
  {
    var asleep := FallsAsleep();
    var shut := ShutsDown(asleep);
    hide Next, Enabled, Start, Abandoned;
    RunCons(Next(Next(Start(), WorkerTop), WorkerLock), WorkerCheck, shut);
    RunCons(Next(Start(), WorkerTop), WorkerLock, [WorkerCheck] + shut);
    RunCons(Start(), WorkerTop, [WorkerLock] + ([WorkerCheck] + shut));
    steps := [WorkerTop] + ([WorkerLock] + ([WorkerCheck] + shut));
  }

  lemma ShutsDown(s: System) returns (steps: seq<Step>)
    requires s == Start().(worker := Parked)
    ensures Run(s, steps) && Abandoned(After(s, steps))
  {
    var s1 := Next(s, Begin(0, ShutdownWants));
    var s2 := Next(s1, Acquire(0));
    var s3 := Next(s2, Act(0));
    RunOfOne(s3, Unlock(0));
    RunCons(s2, Act(0), [Unlock(0)]);
    RunCons(s1, Acquire(0), [Act(0)] + [Unlock(0)]);
    RunCons(s, Begin(0, ShutdownWants), [Acquire(0)] + ([Act(0)] + [Unlock(0)]));
    steps := [Begin(0, ShutdownWants)] + ([Acquire(0)] + ([Act(0)] + [Unlock(0)]));
  }

  lemma FallsAsleep() returns (s: System)
    ensures Enabled(Start(), WorkerTop) && Enabled(Next(Start(), WorkerTop), WorkerLock)
    ensures var t := Next(Next(Start(), WorkerTop), WorkerLock); Enabled(t, WorkerCheck) && Next(t, WorkerCheck) == s
    ensures s == Start().(worker := Parked)
  {
    s := Start().(worker := Parked);
  }

  lemma RunOfOne(s: System, step: Step)
    requires Enabled(s, step)
    ensures Run(s, [step]) && After(s, [step]) == Next(s, step)
  {
    assert [step][1..] == [];
  }

  lemma RunCons(s: System, step: Step, steps: seq<Step>)
    requires Enabled(s, step) && Run(Next(s, step), steps)
    ensures Run(s, [step] + steps) && After(s, [step] + steps) == After(Next(s, step), steps)
  {
    assert ([step] + steps)[1..] == steps;
  }

  /** `stop` after `shutdown` overwrites TERMINATED: until another shutdown the worker no longer gets out of its loop. */
  lemma {:induction false} StopHidesShutdown(s: System, steps: seq<Step>)
    requires s.mode == Closing && !s.worker.Exited? && Run(s, steps)
    requires forall id :: id in s.calls ==> !s.calls[id].ShutdownWants? && !s.calls[id].ShutdownHolds?
    requires forall id :: Begin(id, ShutdownWants) !in steps
    ensures After(s, steps).mode == Closing && !After(s, steps).worker.Exited?
    decreases |steps|
  {
    if steps != [] {
      var t := Next(s, steps[0]);
      assert forall id :: Begin(id, ShutdownWants) in steps[1..] ==> Begin(id, ShutdownWants) in steps;
      StopHidesShutdown(t, steps[1..]);
    }
  }

  // ---------------------------------------------------------------- which shutdowns the worker survives

  /** A shutdown has gone through, and nobody is about to overwrite TERMINATED. */
  predicate Settled(s: System) {
    s.ended && s.mode == Terminated && forall id :: id in s.calls ==> !s.calls[id].StopWants? && !s.calls[id].StopHolds?
  }

  /** The worker is past its look at the state and before its wait, or sleeps with nothing to wake it. */
  predicate AtRisk(s: System) {
    s.worker.WantsLock? || s.worker.Checks? || (s.worker.Parked? && !NotifyPending(s))
  }

  /** A run in which the wait does not return by itself and nobody calls `stop`. */
  predicate Quiet(steps: seq<Step>) {
    forall step :: step in steps ==> step != WorkerWakes && !(step.Begin? && step.call.StopWants?)
  }

  /** The steps the worker may still have to make before it is out of its loop. */
  function Distance(w: Worker): nat {
    match w
    case Exited => 0
    case AtTop => 1
    case Executes(_) => 2
    case Releases(_) => 3
    case Takes => 4
    case Woken => 5
    case _ => 6
  }

  predicate WorkerMoves(step: Step) {
    step.WorkerTop? || step.WorkerLock? || step.WorkerCheck? || step.WorkerWakes? || step.WorkerTake? || step.WorkerUnlock? || step.WorkerDone?
  }

  function Moves(steps: seq<Step>): nat {
    if steps == [] then 0 else (if WorkerMoves(steps[0]) then 1 else 0) + Moves(steps[1..])
  }

  lemma SettledStays(s: System, step: Step)
    requires Settled(s) && Enabled(s, step) && !(step.Begin? && step.call.StopWants?)
    ensures Settled(Next(s, step))
  {
  }

  /** Out of danger, every step keeps out of danger, and every step of the worker brings it nearer to its end. */
  lemma NearerTheEnd(s: System, step: Step)
    requires Settled(s) && !AtRisk(s) && Enabled(s, step)
    ensures !AtRisk(Next(s, step))
    ensures Distance(Next(s, step).worker) + (if WorkerMoves(step) then 1 else 0) <= Distance(s.worker)
  {
    var t := Next(s, step);
    if t.worker.Parked? {
      var id :| id in s.calls && s.calls[id].Pending();
      assert id in t.calls && t.calls[id].Pending();
    }
  }

  /** Over every run without another `stop`: a worker out of danger is never abandoned and makes six more steps at most. */
  lemma {:induction false} NeverAbandoned(s: System, steps: seq<Step>)
    requires Settled(s) && !AtRisk(s) && Run(s, steps) && forall step :: step in steps ==> !(step.Begin? && step.call.StopWants?)
    ensures var t := After(s, steps); Settled(t) && !AtRisk(t) && Distance(t.worker) + Moves(steps) <= Distance(s.worker)
    decreases |steps|
  {
    hide Next, Enabled, Settled, AtRisk, Distance, WorkerMoves;
    if steps != [] {
      assert steps[0] in steps;
      SettledStays(s, steps[0]);
      NearerTheEnd(s, steps[0]);
      NeverAbandoned(Next(s, steps[0]), steps[1..]);
    }
  }

  /** And it does come out: as long as it has not, some thread can go on; when only new calls are possible, it is out. */
  lemma OutInTheEnd(s: System) returns (step: Step)
    requires Safe(s) && Settled(s) && !AtRisk(s) && !s.worker.Exited?
    ensures Enabled(s, step) && !step.Begin? && !step.WorkerWakes?
    ensures s.holder.ByCall? ==> step == Act(s.holder.id) || step == Unlock(s.holder.id)
    ensures !s.holder.ByCall? ==> WorkerMoves(step) || (step.Notify? && s.worker.Parked?)
  {
    hide Conserved, Fifo, Order;
    if s.holder.ByCall? {
      step := if Enabled(s, Act(s.holder.id)) then Act(s.holder.id) else Unlock(s.holder.id);
    } else {
      match s.worker {
        case AtTop => step := WorkerTop;
        case Parked =>
          var id :| id in s.calls && s.calls[id].Pending();
          step := Notify(id);
        case Woken => step := WorkerLock;
        case Takes => step := WorkerTake;
        case Releases(_) => step := WorkerUnlock;
        case Executes(_) => step := WorkerDone;
        case _ => assert false;
      }
    }
  }

  /** Left alone, it leaves its loop. */
  lemma {:induction false} LeavesItsLoop(s: System) returns (steps: seq<Step>)
    requires Safe(s) && Settled(s) && !AtRisk(s)
    ensures Run(s, steps) && Quiet(steps) && (forall step :: step in steps ==> !step.Begin?)
    ensures After(s, steps).worker.Exited?
    decreases Distance(s.worker), if s.holder.ByCall? && s.holder.id in s.calls then LeftToDo(s.calls[s.holder.id]) else 0
  {
    hide Conserved, Fifo, Order, NoLostWakeup;
    steps := [];
    if !s.worker.Exited? {
      var step := OutInTheEnd(s);
      SafeKept(s, step);
      SettledStays(s, step);
      NearerTheEnd(s, step);
      var rest := LeavesItsLoop(Next(s, step));
      RunCons(s, step, rest);
      steps := [step] + rest;
    }
  }

  lemma {:induction false} RunJoin(s: System, a: seq<Step>, b: seq<Step>)
    requires Run(s, a) && Run(After(s, a), b)
    ensures Run(s, a + b) && After(s, a + b) == After(After(s, a), b)
    decreases |a|
  {
    hide Next, Enabled;
    if a == [] {
      assert a + b == b;
    } else {
      assert (a + b)[1..] == a[1..] + b;
      RunJoin(Next(s, a[0]), a[1..], b);
    }
  }

  /** How much a call that holds the lock has still to do. */
  function LeftToDo(c: Call): nat {
    if c.ShutdownHolds? then 2 else if c.AddHolds? then 2 else 1
  }

  /** Whoever holds the lock can finish; the worker stays where it is. */
  lemma {:induction false} LockFreed(s: System) returns (steps: seq<Step>)
    requires Safe(s) && Settled(s) && !s.worker.Holds()
    ensures Run(s, steps) && Quiet(steps)
    ensures var t := After(s, steps); Safe(t) && Settled(t) && t.holder == Free && t.worker == s.worker
    decreases if s.holder.ByCall? && s.holder.id in s.calls then LeftToDo(s.calls[s.holder.id]) else 0
  {
    hide Conserved, Fifo, Order, NoLostWakeup;
    steps := [];
    if s.holder.ByCall? {
      var id := s.holder.id;
      var step := if s.calls[id].AddHolds? || s.calls[id].ShutdownHolds? then Act(id) else Unlock(id);
      SafeKept(s, step);
      SettledStays(s, step);
      var rest := LockFreed(Next(s, step));
      RunCons(s, step, rest);
      steps := [step] + rest;
    }
  }

  function Notifying(s: System): set<nat> {
    set id | id in s.calls && s.calls[id].AddNotifies?
  }

  /** Notifications that reach a worker who does not sleep are lost. */
  lemma {:induction false} NotificationsSpent(s: System) returns (steps: seq<Step>)
    requires Safe(s) && Settled(s) && !s.worker.Parked? && !s.holder.ByCall?
    ensures Run(s, steps) && Quiet(steps)
    ensures var t := After(s, steps); Safe(t) && Settled(t) && t.holder == s.holder && t.worker == s.worker && !NotifyPending(t)
    decreases Notifying(s)
  {
    hide Conserved, Fifo, Order, NoLostWakeup;
    steps := [];
    if NotifyPending(s) {
      var id :| id in s.calls && s.calls[id].Pending();
      var t := Next(s, Notify(id));
      SafeKept(s, Notify(id));
      SettledStays(s, Notify(id));
      assert id in Notifying(s) && Notifying(t) == Notifying(s) - {id};
      var rest := NotificationsSpent(t);
      RunCons(s, Notify(id), rest);
      steps := [Notify(id)] + rest;
    }
  }

  /** From every position at risk the worker can be abandoned without anything unusual happening. */
  lemma CanFallAsleep(s: System) returns (steps: seq<Step>)
    requires Safe(s) && Settled(s) && AtRisk(s)
    ensures Run(s, steps) && Quiet(steps) && Abandoned(After(s, steps))
  {
    hide Conserved, Fifo, Order, NoLostWakeup;
    if s.worker.Parked? {
      steps := [];
    } else {
      var t, free := s, [];
      if s.worker.WantsLock? {
        free := LockFreed(s);
        t := After(s, free);
      }
      var spent := NotificationsSpent(t);
      var u := After(t, spent);
      var last := Sleeps(u);
      RunJoin(t, spent, last);
      RunJoin(s, free, spent + last);
      steps := free + (spent + last);
    }
  }

  /** The last steps of a worker on its way to sleep. */
  lemma Sleeps(s: System) returns (steps: seq<Step>)
    requires Safe(s) && Settled(s) && !NotifyPending(s)
    requires s.worker.Checks? || (s.worker.WantsLock? && s.holder == Free)
    ensures Run(s, steps) && Quiet(steps) && Abandoned(After(s, steps))
  {
    hide Conserved, Fifo, Order, NoLostWakeup;
    if s.worker.Checks? {
      steps := [WorkerCheck];
      RunOfOne(s, WorkerCheck);
    } else {
      var t := Next(s, WorkerLock);
      steps := [WorkerLock] + [WorkerCheck];
      RunOfOne(t, WorkerCheck);
      RunCons(s, WorkerLock, [WorkerCheck]);
    }
  }

  /** Which shutdowns lose the worker: once one has gone through, with nobody about to call `stop`, a run in which the wait
      does not return by itself can leave the worker asleep for good if and only if it is at risk now. */
  lemma LosesTheWorker(s: System)
    requires Safe(s) && Settled(s)
    ensures AtRisk(s) <==> exists steps :: Run(s, steps) && Quiet(steps) && Abandoned(After(s, steps))
  {
    hide Conserved, Fifo, Order, Run, After;
    if AtRisk(s) {
      var steps := CanFallAsleep(s);
    }
    if exists steps :: Run(s, steps) && Quiet(steps) && Abandoned(After(s, steps)) {
      var steps :| Run(s, steps) && Quiet(steps) && Abandoned(After(s, steps));
      if !AtRisk(s) {
        NeverAbandoned(s, steps);
        assert false;
      }
    }
  }
}
