/** The dispatcher's own fields and the code between lock and unlock, each piece proved to be steps of the system. */
module TaskLists {
  import opened Dispatcher

  /** The same step, n times. */
  function Repeat(step: Step, n: nat): seq<Step>
    decreases n
  {
    if n == 0 then [] else [step] + Repeat(step, n - 1)
  }

  /** A flush takes everything that waits, in order, and leaves the rest of the system alone. */
  lemma {:induction false} FlushTakesAll(s: System, id: nat)
    requires id in s.calls && s.calls[id].ShutdownFlushes?
    ensures Run(s, Repeat(Act(id), |s.queue|))
    ensures After(s, Repeat(Act(id), |s.queue|)) == s.(queue := [], taken := s.taken + s.queue)
    decreases |s.queue|
  {
    if s.queue == [] {
      assert s.taken + [] == s.taken;
    } else {
      var t := Next(s, Act(id));
      FlushTakesAll(t, id);
      RunCons(s, Act(id), Repeat(Act(id), |t.queue|));
      assert s.taken + [s.queue[0]] + s.queue[1..] == s.taken + s.queue;
    }
  }

  class TaskList {
    var mode: Mode
    var tasks: seq<nat>
    /** The flags of all tasks ever accepted, and the tasks taken so far. */
    var fronts: seq<bool>
    var taken: seq<nat>

    predicate Shows(s: System)
      reads this
    {
      s.mode == mode && s.queue == tasks && s.fronts == fronts && s.taken == taken
    }

    constructor ()
      ensures Shows(Start())
    {
      mode, tasks, fronts, taken := Running, [], [], [];
    }

    /** `addTask` between lock and unlock. */
    method Add(front: bool, ghost s: System, ghost id: nat) returns (signal: bool)
      requires Shows(s) && id in s.calls && s.calls[id] == AddHolds(front)
      modifies this
      ensures Shows(Next(s, Act(id))) && Next(s, Act(id)).calls[id] == AddDone(signal)
      ensures signal <==> old(mode) == Running && old(tasks) == []
      ensures old(mode) != Running ==> tasks == old(tasks) && fronts == old(fronts)
      ensures old(mode) == Running ==>
        && fronts == old(fronts) + [front]
        && tasks == if front then [|old(fronts)|] + old(tasks) else old(tasks) + [|old(fronts)|]
    {
      signal := false;
      if mode == Running {
        signal := tasks == [];
        var task := |fronts|;
        if front {
          tasks := [task] + tasks;
        } else {
          tasks := tasks + [task];
        }
        fronts := fronts + [front];
      }
    }

    /** The worker's attempt to take a task, under the lock. */
    method Take(ghost s: System) returns (task: Task)
      requires Shows(s) && s.worker.Takes?
      modifies this
      ensures Shows(Next(s, WorkerTake)) && Next(s, WorkerTake).worker == Releases(task)
      ensures old(tasks) == [] || mode == Terminated ==> task == NoTask && tasks == old(tasks) && taken == old(taken)
      ensures old(tasks) != [] && mode != Terminated ==>
        task == Numbered(old(tasks)[0]) && tasks == old(tasks)[1..] && taken == old(taken) + [old(tasks)[0]]
    {
      task := NoTask;
      if tasks != [] && mode != Terminated {
        task := Numbered(tasks[0]);
        taken := taken + [tasks[0]];
        tasks := tasks[1..];
      }
    }

    method Stop(ghost s: System, ghost id: nat)
      requires Shows(s) && id in s.calls && s.calls[id].StopHolds?
      modifies this
      ensures Shows(Next(s, Act(id))) && mode == Closing && tasks == old(tasks) && taken == old(taken)
    {
      mode := Closing;
    }

    method Flush()
      modifies this
      ensures tasks == [] && taken == old(taken) + old(tasks) && mode == old(mode) && fronts == old(fronts)
    {
      while tasks != []
        invariant taken + tasks == old(taken) + old(tasks)
        invariant mode == old(mode) && fronts == old(fronts)
        decreases |tasks|
      {
        var task := tasks[0];
        tasks := tasks[1..];
        taken := taken + [task];
      }
    }

    /** `shutdown` between lock and unlock: the state, then every waiting task. */
    method Shutdown(ghost s: System, ghost id: nat)
      requires Shows(s) && id in s.calls && s.calls[id].ShutdownHolds?
      modifies this
      ensures var steps := [Act(id)] + Repeat(Act(id), |s.queue|); Run(s, steps) && Shows(After(s, steps))
      ensures mode == Terminated && tasks == [] && taken == old(taken) + old(tasks) && fronts == old(fronts)
    {
      mode := Terminated;
      Flush();
      ghost var t := Next(s, Act(id));
      FlushTakesAll(t, id);
      RunCons(s, Act(id), Repeat(Act(id), |s.queue|));
    }
  }
}
