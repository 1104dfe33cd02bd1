/** The worker pool as objects, run under interference.

`PoolManager.Acquire` and `PoolManager.DropGuard` are the source's own control flow. Between any
two of their atomic operations `Environment` lets other tasks perform whatever enabled actions a
caller-chosen schedule lists, so what is proved of these methods holds in every interleaving.
Each method also returns, as a ghost, the run of `PoolProtocol` that it performed. */
module PoolManager {
  import opened PoolProtocol
  import opened PoolRuns
  import opened PoolTurns

  class Worker {
    var busy: bool

    constructor ()
      ensures !busy
    {
      busy := false;
    }

    method TryAcquire() returns (ok: bool)
      modifies this
      ensures busy && ok == !old(busy)
    {
      ok := !busy;
      busy := true;
    }

    method Release()
      modifies this
      ensures !busy
    {
      busy := false;
    }

    predicate IsAvailable()
      reads this
    {
      !busy
    }
  }

  datatype Outcome =
    | Acquired(worker: nat)
    | NoAvailableWorkers
    | StillWaiting         // the future is still pending on the semaphore

  datatype Status = Status(total: nat, available: nat, busy: nat)

  class PoolManager {
    const workers: seq<Worker>
    var permits: nat
    var tasks: map<Task, Phase>  // where each concurrent caller stands

    function Flags(): (flags: seq<bool>)
      reads this, workers
      ensures |flags| == |workers| && forall i | 0 <= i < |workers| :: flags[i] == workers[i].busy
    {
      seq(|workers|, i requires 0 <= i < |workers| reads this, workers => workers[i].busy)
    }

    function View(): Pool
      reads this, workers
    {
      Pool(|workers|, permits, Flags(), tasks)
    }

    ghost predicate Valid()
      reads this, workers
    {
      && (forall i, j | 0 <= i < j < |workers| :: workers[i] != workers[j])
      && Inv(View())
    }

    constructor (size: nat)
      ensures Valid() && fresh(workers) && View() == Initial(size)
    {
      var spawned: seq<Worker> := [];
      while |spawned| < size
        invariant |spawned| <= size && fresh(spawned)
        invariant forall i | 0 <= i < |spawned| :: !spawned[i].busy
        invariant forall i, j | 0 <= i < j < |spawned| :: spawned[i] != spawned[j]
      {
        var worker := new Worker();
        spawned := spawned + [worker];
      }
      workers := spawned;
      permits := size;
      tasks := map[];
      new;
      assert View() == Initial(size);
      InitialInv(size);
    }

    /** One `try_acquire` of a scan. */
    method TryNext(t: Task)
      requires Valid() && Enabled(View(), Probe(t))
      modifies this, workers
      ensures View() == Next(old(View()), Probe(t))
    {
      ghost var before := View();
      var h := tasks[t].next;
      var ok := workers[h].TryAcquire();
      assert Flags() == before.busy[h := true];
      tasks := tasks[t := if ok then Holding(h) else Scanning(h + 1)];
      assert View() == Next(before, Probe(t));
    }

    /** `release` on drop of a guard. */
    method ReleaseHeld(t: Task)
      requires Valid() && Enabled(View(), ClearFlag(t))
      modifies this, workers
      ensures View() == Next(old(View()), ClearFlag(t))
    {
      ghost var before := View();
      workers[tasks[t].worker].Release();
      assert Flags() == before.busy[before.tasks[t].worker := false];
      tasks := tasks[t := Cleared];
    }

    /** One atomic operation of one task, on the shared objects. */
    method Perform(a: Action)
      requires Valid() && Enabled(View(), a)
      modifies this, workers
      ensures Valid() && View() == Next(old(View()), a)
    {
      StepKeepsInv(View(), a);
      ghost var flags := Flags();
      match a {
        case Request(t) => tasks := tasks[t := Waiting];
        case Grant(t) => permits, tasks := permits - 1, tasks[t := Granted];
        case StartScan(t) => tasks := tasks[t := Scanning(0)];
        case Probe(t) => TryNext(t);
        case Reject(t) => permits, tasks := permits + 1, tasks[t := Rejected];
        case ClearFlag(t) => ReleaseHeld(t);
        case ReturnPermit(t) => permits, tasks := permits + 1, tasks - {t};
        case Cancel(t) =>
          permits := if tasks[t].Granted? then permits + 1 else permits;
          tasks := tasks - {t};
      }
      assert !a.Probe? && !a.ClearFlag? ==> Flags() == flags;
    }

    /** Performs `a` after what `run` already did since `start`. */
    method Step(ghost start: Pool, ghost run: seq<Action>, a: Action) returns (ghost longer: seq<Action>)
      requires Valid() && Enabled(View(), a) && Leads(start, run, View())
      modifies this, workers
      ensures Valid() && View() == Next(old(View()), a)
      ensures longer == run + [a] && Leads(start, longer, View())
    {
      RunExtended(start, run, a);
      Perform(a);
      longer := run + [a];
    }

    /** Other tasks run: every listed action that is not of a task in `still` and is enabled when its
        turn comes is performed, and nothing else. */
    method Environment(ghost start: Pool, ghost run: seq<Action>, schedule: seq<Action>, still: set<Task>)
      returns (ghost longer: seq<Action>)
      requires Valid() && Leads(start, run, View())
      modifies this, workers
      ensures Valid() && Leads(start, longer, View())
      ensures longer == run + Performed(old(View()), schedule, still)
      ensures forall t | t in still :: t in tasks <==> t in old(tasks)
      ensures forall t | t in still && t in tasks :: tasks[t] == old(tasks)[t]
    {
      longer := run;
      ghost var before := View();
      assert run + [] == run;
      for i := 0 to |schedule|
        invariant Valid() && Leads(start, longer, View())
        invariant IsRun(before, Performed(before, schedule[..i], still))
        invariant longer == run + Performed(before, schedule[..i], still)
        invariant View() == After(before, Performed(before, schedule[..i], still))
        invariant forall t | t in still :: t in tasks <==> t in old(tasks)
        invariant forall t | t in still && t in tasks :: tasks[t] == old(tasks)[t]
      {
        PerformedNext(before, schedule, i, still);
        if schedule[i].task !in still && Enabled(View(), schedule[i]) {
          longer := Step(start, longer, schedule[i]);
        }
      }
      assert schedule[..|schedule|] == schedule;
    }

    /** `PoolManager::acquire`. However long the semaphore makes the caller wait, and whatever other
        tasks do meanwhile, the scan that follows ends with a worker: the error branch is dead. What the
        caller itself does is to ask, to be granted a permit, and to probe the workers up to the one it
        gets; all else is done by others. */
    method Acquire(me: Task, env: nat -> seq<Action>, patience: nat) returns (r: Outcome, ghost run: seq<Action>)
      requires Valid() && me !in tasks
      modifies this, workers
      ensures Valid()
      ensures r != NoAvailableWorkers
      ensures r.Acquired? ==>
                && Told(old(View()), run, View(), me, env,
                        [Request(me), Grant(me), StartScan(me)] + Probes(me, r.worker + 1))
                && In(View(), me, Holding(r.worker)) && r.worker < |workers| && workers[r.worker].busy
      ensures r.StillWaiting? ==>
                && Told(old(View()), run, View(), me, env, [Request(me)])
                && In(View(), me, Waiting) && permits == 0
      ensures Quiet(env) ==>
                OnlyMoved(old(View()), View(), me) && (r.StillWaiting? <==> old(permits) == 0)
    {
      ghost var start := View();
      ghost var own := [Request(me)];
      var turn;
      turn, run := AwaitPermit(me, env, patience);
      if permits == 0 {
        QuietAcquisition(start, run, View(), me, env, own, true);
        return StillWaiting, run;
      }
      r, run := TakeWorker(start, run, me, env, turn);
      own := [Request(me), Grant(me), StartScan(me)] + Probes(me, r.worker + 1);
      QuietAcquisition(start, run, View(), me, env, own, false);
    }

    /** Asks for a permit and waits for one. */
    method AwaitPermit(me: Task, env: nat -> seq<Action>, patience: nat) returns (turn: nat, ghost run: seq<Action>)
      requires Valid() && me !in tasks
      modifies this, workers
      ensures Valid() && In(View(), me, Waiting) && (permits > 0 || turn == patience)
      ensures Told(old(View()), run, View(), me, env, [Request(me)])
    {
      ghost var start := View();
      ghost var own := [] + [Request(me)];
      assert own == [Request(me)];
      NothingTold(start, me, env);
      run := OwnStep(start, [], me, env, [], Request(me));
      turn := 0;
      while permits == 0 && turn < patience
        invariant Valid() && In(View(), me, Waiting) && turn <= patience
        invariant Told(start, run, View(), me, env, own)
      {
        run := OthersRun(start, run, me, env, own, turn);
        turn := turn + 1;
      }
    }

    /** What follows on the wait: the permit, the read lock, and the scan. */
    method TakeWorker(ghost start: Pool, ghost run: seq<Action>, me: Task, env: nat -> seq<Action>, turn: nat)
      returns (r: Outcome, ghost longer: seq<Action>)
      requires Valid() && In(View(), me, Waiting) && permits > 0
      requires Told(start, run, View(), me, env, [Request(me)])
      modifies this, workers
      ensures Valid() && r.Acquired?
      ensures Told(start, longer, View(), me, env,
                   [Request(me), Grant(me), StartScan(me)] + Probes(me, r.worker + 1))
      ensures In(View(), me, Holding(r.worker)) && r.worker < |workers| && workers[r.worker].busy
    {
      longer := TakePermit(start, run, me, env, turn);
      longer := OwnStep(start, longer, me, env, [Request(me), Grant(me)], StartScan(me));
      assert [Request(me), Grant(me)] + [StartScan(me)] == [Request(me), Grant(me), StartScan(me)];
      r, longer := Scan(start, longer, me, env, [Request(me), Grant(me), StartScan(me)], turn + 1);
    }

    /** The permit, and what the others do until the read lock is obtained. */
    method TakePermit(ghost start: Pool, ghost run: seq<Action>, me: Task, env: nat -> seq<Action>, turn: nat)
      returns (ghost longer: seq<Action>)
      requires Valid() && In(View(), me, Waiting) && permits > 0
      requires Told(start, run, View(), me, env, [Request(me)])
      modifies this, workers
      ensures Valid() && In(View(), me, Granted)
      ensures Told(start, longer, View(), me, env, [Request(me), Grant(me)])
    {
      ghost var own := [Request(me)] + [Grant(me)];
      assert own == [Request(me), Grant(me)];
      longer := OwnStep(start, run, me, env, [Request(me)], Grant(me));
      longer := OthersRun(start, longer, me, env, own, turn);
    }

    /** One operation of the caller. */
    method OwnStep(
      ghost start: Pool, ghost run: seq<Action>, me: Task, ghost env: nat -> seq<Action>, ghost own: seq<Action>,
      a: Action)
      returns (ghost longer: seq<Action>)
      requires Valid() && a.task == me && Enabled(View(), a) && Told(start, run, View(), me, env, own)
      modifies this, workers
      ensures Valid() && View() == Next(old(View()), a) && longer == run + [a]
      ensures Told(start, longer, View(), me, env, own + [a])
    {
      ToldNext(start, run, View(), me, env, own, a);
      Perform(a);
      longer := run + [a];
    }

    /** The turn `k` of the others. */
    method OthersRun(
      ghost start: Pool, ghost run: seq<Action>, me: Task, env: nat -> seq<Action>, ghost own: seq<Action>, k: nat)
      returns (ghost longer: seq<Action>)
      requires Valid() && me in tasks && Told(start, run, View(), me, env, own)
      modifies this, workers
      ensures Valid() && me in tasks && tasks[me] == old(tasks)[me]
      ensures longer == run + Performed(old(View()), env(k), {me})
      ensures Told(start, longer, View(), me, env, own)
    {
      ghost var before := View();
      longer := Environment(start, run, env(k), {me});
      ToldOfOthers(start, run, before, longer, View(), me, env, k, own);
    }

    /** The others run, then one probe. */
    method ProbeNext(
      ghost start: Pool, ghost run: seq<Action>, me: Task, env: nat -> seq<Action>, ghost own: seq<Action>, k: nat,
      h: nat)
      returns (taken: bool, ghost longer: seq<Action>)
      requires Valid() && h < |workers| && In(View(), me, Scanning(h)) && Told(start, run, View(), me, env, own)
      modifies this, workers
      ensures Valid() && Told(start, longer, View(), me, env, own + [Probe(me)])
      ensures taken ==> In(View(), me, Holding(h)) && workers[h].busy
      ensures !taken ==> In(View(), me, Scanning(h + 1))
    {
      longer := OthersRun(start, run, me, env, own, k);
      ProbeOutcome(View(), me, h);
      longer := OwnStep(start, longer, me, env, own, Probe(me));
      taken := tasks[me].Holding?;
      assert taken ==> View().busy[h];
    }

    /** The `find_map` over the workers. */
    method Scan(
      ghost start: Pool, ghost run: seq<Action>, me: Task, env: nat -> seq<Action>, ghost own: seq<Action>, turn: nat)
      returns (r: Outcome, ghost longer: seq<Action>)
      requires Valid() && In(View(), me, Scanning(0)) && Told(start, run, View(), me, env, own)
      modifies this, workers
      ensures Valid() && r.Acquired?
      ensures Told(start, longer, View(), me, env, own + Probes(me, r.worker + 1))
      ensures In(View(), me, Holding(r.worker)) && r.worker < |workers| && workers[r.worker].busy
    {
      r, longer := NoAvailableWorkers, run;
      var h := 0;
      ProbesNext(own, me, 0);
      while h < |workers|
        invariant Valid() && h <= |workers| && In(View(), me, Scanning(h))
        invariant Told(start, longer, View(), me, env, own + Probes(me, h))
      {
        var taken;
        ProbesNext(own, me, h);
        taken, longer := ProbeNext(start, longer, me, env, own + Probes(me, h), turn + h, h);
        if taken {
          return Acquired(h), longer;
        }
        h := h + 1;
      }
      NoTaskPassedTheEnd(View(), me);
      assert false;
    }

    /** Dropping a `WorkerGuard`: `Drop::drop` clears the flag, then the permit field is dropped, and
        whatever happens in between is done by others. */
    method DropGuard(me: Task, env: nat -> seq<Action>) returns (ghost run: seq<Action>)
      requires Valid() && me in tasks && tasks[me].Holding?
      modifies this, workers
      ensures Valid() && me !in tasks && permits > 0
      ensures Told(old(View()), run, View(), me, env, [ClearFlag(me), ReturnPermit(me)])
      ensures run != [] && run[0] == ClearFlag(me) && run[|run| - 1] == ReturnPermit(me)
      ensures Quiet(env) ==>
                && OnlyMoved(old(View()), View(), me) && permits == old(permits) + 1
                && old(tasks)[me].worker < |workers|
                && View().busy == old(View()).busy[old(tasks)[me].worker := false]
    {
      ghost var start := View();
      run := ClearThenOthers(me, env);
      run := OwnStep(start, run, me, env, [ClearFlag(me)], ReturnPermit(me));
      assert [ClearFlag(me)] + [ReturnPermit(me)] == [ClearFlag(me), ReturnPermit(me)];
      QuietDrop(start, run, View(), me, env);
    }

    /** The first half of a drop, and what the others do before the second. */
    method ClearThenOthers(me: Task, env: nat -> seq<Action>) returns (ghost run: seq<Action>)
      requires Valid() && me in tasks && tasks[me].Holding?
      modifies this, workers
      ensures Valid() && In(View(), me, Cleared)
      ensures Told(old(View()), run, View(), me, env, [ClearFlag(me)])
      ensures run != [] && run[0] == ClearFlag(me)
    {
      ghost var start := View();
      ghost var own := [] + [ClearFlag(me)];
      assert own == [ClearFlag(me)];
      NothingTold(start, me, env);
      run := OwnStep(start, [], me, env, [], ClearFlag(me));
      run := OthersRun(start, run, me, env, own, 0);
    }

    /** `PoolManager::status`, from its first read of a flag to its last: the flags are read one by one
        and other tasks run in between. The parts always add up, and the busy count differs from the
        number of guards, before as after, by no more than the flags that changed meanwhile. Nothing is
        changed by the report itself. */
    method GetStatus(env: nat -> seq<Action>) returns (status: Status, ghost run: seq<Action>)
      requires Valid()
      modifies this, workers
      ensures Valid() && Leads(old(View()), run, View()) && AllFrom(run, env)
      ensures Quiet(env) ==> run == [] && View() == old(View())
      ensures status.total == |workers| && status.available + status.busy == status.total
      ensures |Holders(old(View()))| - FlagChanges(old(View()), run) <= status.busy
              <= |Holders(old(View()))| + FlagChanges(old(View()), run)
      ensures |Holders(View())| - FlagChanges(old(View()), run) <= status.busy
              <= |Holders(View())| + FlagChanges(old(View()), run)
    {
      ghost var start := View();
      ghost var seen: seq<bool> := [];
      var available := 0;
      run := [];
      NothingRead(start);
      for i := 0 to |workers|
        invariant Valid() && |seen| == i && ReadSoFar(start, run, View(), seen, available)
        invariant AllFrom(run, env) && (Quiet(env) ==> run == [])
      {
        if i > 0 {
          ghost var earlier, before := run, View();
          run := Environment(start, run, env(i), {});
          PerformedByOthers(before, env(i), {});
          ListedIsFrom(earlier, Performed(before, env(i), {}), env, i);
          OthersRanBetweenReads(start, earlier, before, run, View(), seen, available);
        }
        FlagRead(start, run, View(), seen, available);
        seen := seen + [View().busy[i]];
        if workers[i].IsAvailable() {
          available := available + 1;
        }
      }
      AllRead(start, run, View(), seen, available);
      status := Status(|workers|, available, |workers| - available);
    }
  }
}
