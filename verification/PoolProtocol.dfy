/** The acquire/release protocol of the worker pool as a step system.

A counting semaphore with one permit a worker admits tasks to a left-to-right scan over the
workers' busy flags. Each flag is taken by compare-and-swap, so the scan as a whole is not
atomic: between two probes any other task may take or clear any flag. Every atomic operation
of `PoolManager::acquire` and of dropping a `WorkerGuard` is one action here, and a run is any
sequence of enabled actions of any number of tasks. */
module PoolProtocol {

  type Task = nat

  /** Where a task is inside `acquire`, or inside the life of the guard it returned. */
  datatype Phase =
    | Waiting                 // awaits a semaphore permit
    | Granted                 // has a permit, awaits the read lock on the worker list
    | Scanning(next: nat)     // will compare-and-swap the flag of worker `next`
    | Rejected                // left through the `NoAvailableWorkers` branch
    | Holding(worker: nat)    // owns a live guard on `worker`
    | Cleared                 // its guard cleared the flag, the permit field is still to be dropped
  {
    predicate OwnsPermit() {
      Granted? || Scanning? || Holding? || Cleared?
    }

    /** Still has, or may still take, a worker at index `i` or later. */
    predicate AtOrPast(i: nat) {
      (Scanning? && next >= i) || (Holding? && worker >= i)
    }
  }

  datatype Pool = Pool(size: nat, permits: nat, busy: seq<bool>, tasks: map<Task, Phase>)

  datatype Action =
    | Request(task: Task)       // call `acquire`
    | Grant(task: Task)         // the semaphore hands over a permit
    | StartScan(task: Task)     // the read lock is obtained
    | Probe(task: Task)         // one `try_acquire`
    | Reject(task: Task)        // every worker was probed in vain
    | ClearFlag(task: Task)     // `WorkerGuard::drop` runs `release`
    | ReturnPermit(task: Task)  // the `_permit` field is dropped
    | Cancel(task: Task)        // the future is dropped at one of the two await points

  predicate In(s: Pool, t: Task, p: Phase) {
    t in s.tasks && s.tasks[t] == p
  }

  predicate Enabled(s: Pool, a: Action) {
    match a
    case Request(t) => t !in s.tasks
    case Grant(t) => In(s, t, Waiting) && s.permits > 0
    case StartScan(t) => In(s, t, Granted)
    case Probe(t) => t in s.tasks && s.tasks[t].Scanning? && s.tasks[t].next < |s.busy|
    case Reject(t) => t in s.tasks && s.tasks[t].Scanning? && s.tasks[t].next >= |s.busy|
    case ClearFlag(t) => t in s.tasks && s.tasks[t].Holding? && s.tasks[t].worker < |s.busy|
    case ReturnPermit(t) => In(s, t, Cleared)
    case Cancel(t) => In(s, t, Waiting) || In(s, t, Granted)
  }

  function Next(s: Pool, a: Action): Pool
    requires Enabled(s, a)
  {
    match a
    case Request(t) => s.(tasks := s.tasks[t := Waiting])
    case Grant(t) => s.(permits := s.permits - 1, tasks := s.tasks[t := Granted])
    case StartScan(t) => s.(tasks := s.tasks[t := Scanning(0)])
    case Probe(t) =>
      var h := s.tasks[t].next;
      if s.busy[h] then s.(tasks := s.tasks[t := Scanning(h + 1)])
      else s.(busy := s.busy[h := true], tasks := s.tasks[t := Holding(h)])
    case Reject(t) => s.(permits := s.permits + 1, tasks := s.tasks[t := Rejected])
    case ClearFlag(t) => s.(busy := s.busy[s.tasks[t].worker := false], tasks := s.tasks[t := Cleared])
    case ReturnPermit(t) => s.(permits := s.permits + 1, tasks := s.tasks - {t})
    case Cancel(t) =>
      s.(permits := if s.tasks[t].Granted? then s.permits + 1 else s.permits, tasks := s.tasks - {t})
  }

  function Initial(size: nat): Pool {
    Pool(size, size, seq(size, _ => false), map[])
  }

  predicate IsRun(s: Pool, run: seq<Action>)
    decreases |run|
  {
    run == [] || (Enabled(s, run[0]) && IsRun(Next(s, run[0]), run[1..]))
  }

  function After(s: Pool, run: seq<Action>): Pool
    requires IsRun(s, run)
    decreases |run|
  {
    if run == [] then s else After(Next(s, run[0]), run[1..])
  }

  ghost predicate Reachable(s: Pool) {
    exists size: nat, run: seq<Action> :: IsRun(Initial(size), run) && After(Initial(size), run) == s
  }

  // ---------------------------------------------------------------------------------------------
  // The inductive invariant
  // ---------------------------------------------------------------------------------------------

  function PermitOwners(s: Pool): set<Task> {
    set t | t in s.tasks && s.tasks[t].OwnsPermit()
  }

  function Contenders(s: Pool, i: nat): set<Task> {
    set t | t in s.tasks && s.tasks[t].AtOrPast(i)
  }

  function Holders(s: Pool): set<Task> {
    set t | t in s.tasks && s.tasks[t].Holding?
  }

  ghost predicate HeldBySomeone(s: Pool, w: nat) {
    exists t :: In(s, t, Holding(w))
  }

  /** Flags and guards agree, and no worker has two guards. */
  ghost predicate GuardsMatchFlags(s: Pool) {
    && |s.busy| == s.size
    && (forall t | t in s.tasks && s.tasks[t].Holding? :: s.tasks[t].worker < s.size)
    && (forall w | 0 <= w < s.size :: s.busy[w] <==> HeldBySomeone(s, w))
    && (forall t, u, w {:trigger In(s, t, Holding(w)), In(s, u, Holding(w))} ::
          In(s, t, Holding(w)) && In(s, u, Holding(w)) ==> t == u)
  }

  /** From every index on there are at least as many workers as tasks that still compete for them. */
  ghost predicate RoomFrom(s: Pool, i: nat) {
    |Contenders(s, i)| + i <= s.size
  }

  ghost predicate Inv(s: Pool) {
    && s.permits + |PermitOwners(s)| == s.size
    && GuardsMatchFlags(s)
    && (forall t | t in s.tasks && s.tasks[t].Scanning? :: s.tasks[t].next <= s.size)
    && (forall t | t in s.tasks :: !s.tasks[t].Rejected?)
    && (forall i | 0 <= i <= s.size :: RoomFrom(s, i))
  }

  function Bit(b: bool): nat {
    if b then 1 else 0
  }

  predicate CompetesFrom(s: Pool, t: Task, i: nat) {
    t in s.tasks && s.tasks[t].AtOrPast(i)
  }

  predicate Owns(s: Pool, t: Task) {
    t in s.tasks && s.tasks[t].OwnsPermit()
  }

  /** Only task `t` changed its phase. */
  ghost predicate OnlyMoved(s: Pool, s': Pool, t: Task) {
    forall u | u != t ::
      && (u in s.tasks <==> u in s'.tasks)
      && (u in s.tasks ==> s.tasks[u] == s'.tasks[u])
  }

  lemma CardinalityOfMove(a: set<Task>, b: set<Task>, t: Task)
    requires a - {t} == b - {t}
    ensures |b| + Bit(t in a) == |a| + Bit(t in b)
  {
    assert t in a ==> a == (a - {t}) + {t};
    assert t in b ==> b == (b - {t}) + {t};
    assert t !in a ==> a == a - {t};
    assert t !in b ==> b == b - {t};
  }

  lemma CountsAfterMove(s: Pool, s': Pool, t: Task, i: nat)
    requires OnlyMoved(s, s', t)
    ensures |Contenders(s', i)| + Bit(CompetesFrom(s, t, i)) == |Contenders(s, i)| + Bit(CompetesFrom(s', t, i))
    ensures |PermitOwners(s')| + Bit(Owns(s, t)) == |PermitOwners(s)| + Bit(Owns(s', t))
  {
    CardinalityOfMove(Contenders(s, i), Contenders(s', i), t);
    CardinalityOfMove(PermitOwners(s), PermitOwners(s'), t);
  }

  /** A task whose probe of `h` fails is not alone at `h`: the holder of `h` is there too, so past
      `h` there is room for one more. */
  lemma RoomPastBusyWorker(s: Pool, t: Task, h: nat)
    requires Inv(s) && h < s.size && s.busy[h] && In(s, t, Scanning(h))
    ensures |Contenders(s, h + 1)| + 1 + h + 1 <= s.size
  {
    assert HeldBySomeone(s, h);
    var u :| In(s, u, Holding(h));
    var past, here := Contenders(s, h + 1), Contenders(s, h);
    assert past + {t, u} <= here;
    assert |past + {t, u}| == |past| + 2 by {
      assert past + {t, u} == past + {t} + {u};
    }
    Subset(past + {t, u}, here);
    assert RoomFrom(s, h);
  }

  lemma Subset<T>(a: set<T>, b: set<T>)
    requires a <= b
    ensures |a| <= |b|
  {
    assert b == a + (b - a);
  }

  lemma RoomIsKept(s: Pool, a: Action, i: nat)
    requires Inv(s) && Enabled(s, a) && i <= s.size
    ensures RoomFrom(Next(s, a), i)
  {
    var s' := Next(s, a);
    CountsAfterMove(s, s', a.task, i);
    assert RoomFrom(s, i);
    if a.StartScan? {
      // the permit count bounds index 0; later indices do not see the task yet
      if i == 0 {
        Subset(Contenders(s', 0), PermitOwners(s'));
        CountsAfterMove(s, s', a.task, 0);
      }
    } else if a.Probe? {
      var h := s.tasks[a.task].next;
      if s.busy[h] && i == h + 1 {
        RoomPastBusyWorker(s, a.task, h);
      }
    }
  }

  lemma GuardsAreKept(s: Pool, a: Action)
    requires Inv(s) && Enabled(s, a)
    ensures GuardsMatchFlags(Next(s, a))
  {
    var s' := Next(s, a);
    forall w | 0 <= w < s.size
      ensures s'.busy[w] <==> HeldBySomeone(s', w)
    {
      if HeldBySomeone(s, w) {
        var t :| In(s, t, Holding(w));
        assert t != a.task ==> In(s', t, Holding(w));
      }
      if a.Probe? && s.tasks[a.task].next == w && !s.busy[w] {
        assert In(s', a.task, Holding(w));
      }
      if HeldBySomeone(s', w) {
        var t :| In(s', t, Holding(w));
        assert t != a.task ==> In(s, t, Holding(w));
        if a.ClearFlag? { assert In(s, a.task, Holding(s.tasks[a.task].worker)); }
      }
    }
    forall t, u, w | In(s', t, Holding(w)) && In(s', u, Holding(w))
      ensures t == u
    {
      assert t != a.task ==> In(s, t, Holding(w));
      assert u != a.task ==> In(s, u, Holding(w));
      if t != a.task { assert HeldBySomeone(s, w); }
      if u != a.task { assert HeldBySomeone(s, w); }
    }
  }

  lemma StepKeepsInv(s: Pool, a: Action)
    requires Inv(s) && Enabled(s, a)
    ensures Inv(Next(s, a))
  {
    var s' := Next(s, a);
    GuardsAreKept(s, a);
    CountsAfterMove(s, s', a.task, 0);
    if a.Reject? {
      NoTaskPassedTheEnd(s, a.task);
    }
    forall i: nat | i <= s.size
      ensures RoomFrom(s', i)
    {
      RoomIsKept(s, a, i);
    }
  }

  lemma NoTaskPassedTheEnd(s: Pool, t: Task)
    requires Inv(s) && t in s.tasks
    ensures !(s.tasks[t].Scanning? && s.tasks[t].next >= s.size)
  {
    assert RoomFrom(s, s.size);
    assert Contenders(s, s.size) == {};
    assert t !in Contenders(s, s.size);
  }

  lemma {:induction false} RunKeepsInv(s: Pool, run: seq<Action>)
    requires Inv(s) && IsRun(s, run)
    ensures Inv(After(s, run)) && After(s, run).size == s.size
    decreases |run|
  {
    if run != [] {
      StepKeepsInv(s, run[0]);
      RunKeepsInv(Next(s, run[0]), run[1..]);
    }
  }

  lemma InitialInv(size: nat)
    ensures Inv(Initial(size))
  {
    var s := Initial(size);
    assert PermitOwners(s) == {};
    forall i | 0 <= i <= size
      ensures RoomFrom(s, i)
    {
      assert Contenders(s, i) == {};
    }
  }

  lemma ReachableInv(s: Pool)
    requires Reachable(s)
    ensures Inv(s)
  {
    var size: nat, run: seq<Action> :| IsRun(Initial(size), run) && After(Initial(size), run) == s;
    InitialInv(size);
    RunKeepsInv(Initial(size), run);
  }

  // ---------------------------------------------------------------------------------------------
  // Safety
  // ---------------------------------------------------------------------------------------------

  /** The branch the source calls "a bug" is dead in every interleaving: no reachable state has a
      task that probed every worker in vain, and none that left through that branch. */
  lemma NoAvailableWorkersIsUnreachable(s: Pool, t: Task)
    requires Reachable(s) && t in s.tasks
    ensures !Enabled(s, Reject(t)) && !s.tasks[t].Rejected?
    ensures s.tasks[t].Scanning? ==> Enabled(s, Probe(t))
  {
    ReachableInv(s);
    NoTaskPassedTheEnd(s, t);
  }

  /** At every moment of a scan some worker at or ahead of its position is free, although which
      one may change between any two probes. */
  lemma FreeWorkerAhead(s: Pool, t: Task)
    requires Reachable(s) && t in s.tasks && s.tasks[t].Scanning?
    ensures exists w :: s.tasks[t].next <= w < |s.busy| && !s.busy[w]
  {
    ReachableInv(s);
    assert RoomFrom(s, s.tasks[t].next);
    var w := FreeWorkerAheadFrom(s, t, s.tasks[t].next);
  }

  lemma {:induction false} FreeWorkerAheadFrom(s: Pool, t: Task, from: nat) returns (w: nat)
    requires Inv(s) && t in s.tasks && s.tasks[t].Scanning?
    requires s.tasks[t].next <= from <= s.size
    requires |Contenders(s, from)| + Bit(s.tasks[t].next < from) + from <= s.size
    ensures from <= w < s.size && !s.busy[w]
    decreases s.size - from
  {
    if from == s.size {
      NoTaskPassedTheEnd(s, t);
      assert false;
    } else if !s.busy[from] {
      w := from;
    } else {
      assert HeldBySomeone(s, from);
      var u :| In(s, u, Holding(from));
      var past, here := Contenders(s, from + 1), Contenders(s, from);
      var lost := if s.tasks[t].next == from then {t, u} else {u};
      assert past + lost <= here && past !! lost;
      Subset(past + lost, here);
      assert |past + lost| == |past| + |lost|;
      w := FreeWorkerAheadFrom(s, t, from + 1);
    }
  }

  /** Each worker has at most one live guard, its flag is set exactly while that guard has not yet
      released it, and permits are neither lost nor made. */
  lemma GuardsFlagsAndPermitsAgree(s: Pool)
    requires Reachable(s)
    ensures |s.busy| == s.size
    ensures forall w | 0 <= w < |s.busy| :: s.busy[w] <==> exists t :: In(s, t, Holding(w))
    ensures forall t, u, w :: In(s, t, Holding(w)) && In(s, u, Holding(w)) ==> t == u
    ensures s.permits + |PermitOwners(s)| == s.size
  {
    ReachableInv(s);
    forall w | 0 <= w < |s.busy|
      ensures s.busy[w] <==> exists t :: In(s, t, Holding(w))
    {
      assert s.busy[w] <==> HeldBySomeone(s, w);
    }
  }

  /** Nothing leaks: once no task is inside `acquire` and no guard is left, every worker is free
      and every permit is back. */
  lemma QuiescentPoolIsFull(s: Pool)
    requires Reachable(s) && (forall t | t in s.tasks :: s.tasks[t].Waiting?)
    ensures s.permits == s.size && s.busy == Initial(s.size).busy
  {
    ReachableInv(s);
    assert PermitOwners(s) == {};
    forall w | 0 <= w < s.size
      ensures !s.busy[w]
    {
      assert s.busy[w] <==> HeldBySomeone(s, w);
    }
  }

  // ---------------------------------------------------------------------------------------------
  // Progress
  // ---------------------------------------------------------------------------------------------

  lemma {:induction false} RunsCompose(s: Pool, a: seq<Action>, b: seq<Action>)
    requires IsRun(s, a) && IsRun(After(s, a), b)
    ensures IsRun(s, a + b) && After(s, a + b) == After(After(s, a), b)
    decreases |a|
  {
    if a == [] {
      assert a + b == b;
    } else {
      RunsCompose(Next(s, a[0]), a[1..], b);
      assert (a + b)[1..] == a[1..] + b;
    }
  }

  /** `run` is a run of the protocol that takes `s` to `s'`. */
  ghost predicate Leads(s: Pool, run: seq<Action>, s': Pool) {
    IsRun(s, run) && After(s, run) == s'
  }

  lemma RunExtended(s: Pool, run: seq<Action>, a: Action)
    requires IsRun(s, run) && Enabled(After(s, run), a)
    ensures IsRun(s, run + [a]) && After(s, run + [a]) == Next(After(s, run), a)
  {
    SingleAction(After(s, run), a);
    RunsCompose(s, run, [a]);
  }

  /** Part of the ordinary course of an acquisition: neither cancelled nor rejected. */
  predicate Ordinary(a: Action) {
    !a.Cancel? && !a.Reject?
  }

  predicate ActionsOf(run: seq<Action>, t: Task) {
    forall i | 0 <= i < |run| :: run[i].task == t && Ordinary(run[i])
  }

  lemma {:induction false} OthersUntouched(s: Pool, run: seq<Action>, t: Task)
    requires IsRun(s, run) && ActionsOf(run, t)
    ensures OnlyMoved(s, After(s, run), t)
    decreases |run|
  {
    if run != [] {
      assert ActionsOf(run[1..], t) by {
        forall i | 0 <= i < |run[1..]| ensures run[1..][i] == run[i + 1] {}
      }
      OthersUntouched(Next(s, run[0]), run[1..], t);
    }
  }

  function ProbesOf(run: seq<Action>, t: Task): nat {
    if run == [] then 0 else Bit(run[0] == Probe(t)) + ProbesOf(run[1..], t)
  }

  /** Task `t` does nothing but probe; the others may do anything. */
  predicate OnlyProbes(run: seq<Action>, t: Task) {
    forall i | 0 <= i < |run| :: run[i].task == t ==> run[i] == Probe(t)
  }

  lemma OnlyProbesLater(run: seq<Action>, t: Task)
    requires OnlyProbes(run, t) && run != []
    ensures OnlyProbes(run[1..], t) && (run[0].task == t ==> run[0] == Probe(t))
  {
    assert forall i | 0 <= i < |run[1..]| :: run[1..][i] == run[i + 1];
  }

  lemma {:induction false} HolderDoesNotProbe(s: Pool, run: seq<Action>, t: Task, w: nat)
    requires In(s, t, Holding(w)) && IsRun(s, run) && OnlyProbes(run, t)
    ensures ProbesOf(run, t) == 0 && In(After(s, run), t, Holding(w))
    decreases |run|
  {
    if run != [] {
      OnlyProbesLater(run, t);
      HolderDoesNotProbe(Next(s, run[0]), run[1..], t, w);
    }
  }

  /** However the other tasks interfere, a scan takes at most one probe for each worker ahead of it:
      after some probes it either stands that much further on, in front of a worker, or it holds the
      worker it probed last. */
  lemma {:induction false} ScanUnderInterference(s: Pool, run: seq<Action>, t: Task)
    requires Inv(s) && t in s.tasks && s.tasks[t].Scanning? && IsRun(s, run) && OnlyProbes(run, t)
    ensures t in After(s, run).tasks
    ensures var reached, phase := s.tasks[t].next + ProbesOf(run, t), After(s, run).tasks[t];
            || (phase == Scanning(reached) && reached < s.size)
            || (phase.Holding? && phase.worker + 1 == reached <= s.size)
    decreases |run|
  {
    if run == [] {
      NoTaskPassedTheEnd(s, t);
    } else {
      var s' := Next(s, run[0]);
      StepKeepsInv(s, run[0]);
      OnlyProbesLater(run, t);
      if s'.tasks[t].Scanning? {
        ScanUnderInterference(s', run[1..], t);
      } else {
        HolderDoesNotProbe(s', run[1..], t, s.tasks[t].next);
      }
    }
  }

  /** Left alone, a scan takes a worker within as many probes as workers are ahead of it. */
  lemma {:induction false} ScanAlone(s: Pool, t: Task) returns (run: seq<Action>)
    requires Inv(s) && t in s.tasks && s.tasks[t].Scanning?
    ensures IsRun(s, run) && ActionsOf(run, t)
    ensures |run| + s.tasks[t].next <= s.size
    ensures t in After(s, run).tasks && After(s, run).tasks[t].Holding?
    decreases s.size - s.tasks[t].next
  {
    NoTaskPassedTheEnd(s, t);
    var s' := Next(s, Probe(t));
    StepKeepsInv(s, Probe(t));
    if s.busy[s.tasks[t].next] {
      var rest := ScanAlone(s', t);
      run := [Probe(t)] + rest;
      assert run[1..] == rest;
    } else {
      run := [Probe(t)];
      assert After(s', run[1..]) == s';
    }
  }

  /** Left alone, a task with a permit comes to hold a worker. */
  lemma TakeAlone(s: Pool, t: Task) returns (run: seq<Action>)
    requires Inv(s) && t in s.tasks && (s.tasks[t].Granted? || s.tasks[t].Scanning? || s.tasks[t].Holding?)
    ensures IsRun(s, run) && ActionsOf(run, t) && |run| <= s.size + 1
    ensures t in After(s, run).tasks && After(s, run).tasks[t].Holding?
  {
    if s.tasks[t].Granted? {
      StepKeepsInv(s, StartScan(t));
      var rest := ScanAlone(Next(s, StartScan(t)), t);
      run := [StartScan(t)] + rest;
      assert run[1..] == rest;
    } else if s.tasks[t].Scanning? {
      run := ScanAlone(s, t);
    } else {
      run := [];
    }
  }

  lemma DropAlone(s: Pool, t: Task, drop: seq<Action>)
    requires Inv(s) && t in s.tasks
    requires (s.tasks[t].Holding? && drop == [ClearFlag(t), ReturnPermit(t)])
          || (s.tasks[t].Cleared? && drop == [ReturnPermit(t)])
    ensures IsRun(s, drop) && t !in After(s, drop).tasks && After(s, drop).permits > 0
  {
    var s1 := if s.tasks[t].Holding? then Next(s, ClearFlag(t)) else s;
    SingleAction(s1, ReturnPermit(t));
    if s.tasks[t].Holding? {
      SingleAction(s, ClearFlag(t));
      RunsCompose(s, [ClearFlag(t)], [ReturnPermit(t)]);
      assert drop == [ClearFlag(t)] + [ReturnPermit(t)];
    }
  }

  lemma SingleAction(s: Pool, a: Action)
    requires Enabled(s, a)
    ensures IsRun(s, [a]) && After(s, [a]) == Next(s, a)
  {
    assert [a][1..] == [];
  }

  /** Left alone, a task with a permit gives it back. */
  lemma FinishAlone(s: Pool, t: Task) returns (run: seq<Action>)
    requires Inv(s) && Owns(s, t)
    ensures IsRun(s, run) && ActionsOf(run, t) && |run| <= s.size + 3
    ensures t !in After(s, run).tasks && After(s, run).permits > 0
  {
    var take: seq<Action> := [];
    if !s.tasks[t].Cleared? {
      take := TakeAlone(s, t);
    }
    RunKeepsInv(s, take);
    var s1 := After(s, take);
    var drop := if s1.tasks[t].Holding? then [ClearFlag(t), ReturnPermit(t)] else [ReturnPermit(t)];
    DropAlone(s1, t, drop);
    RunsCompose(s, take, drop);
    run := take + drop;
  }

  /** A waiting task can be served without anybody being cancelled: one permit owner finishes if
      none is free, and the waiter then takes a worker. */
  lemma ServeWaiter(s: Pool, t: Task) returns (run: seq<Action>)
    requires Inv(s) && In(s, t, Waiting) && s.size > 0
    ensures IsRun(s, run) && |run| <= 2 * s.size + 5
    ensures forall i | 0 <= i < |run| :: Ordinary(run[i])
    ensures t in After(s, run).tasks && After(s, run).tasks[t].Holding?
  {
    var free: seq<Action> := [];
    if s.permits == 0 {
      assert PermitOwners(s) != {};
      var u :| u in PermitOwners(s);
      free := FinishAlone(s, u);
      OthersUntouched(s, free, u);
    }
    RunKeepsInv(s, free);
    var s1 := After(s, free);
    StepKeepsInv(s1, Grant(t));
    var take := TakeAlone(Next(s1, Grant(t)), t);
    var serve := [Grant(t)] + take;
    assert serve[1..] == take;
    RunsCompose(s, free, serve);
    run := free + serve;
  }

  /** No deadlock: from every reachable state a waiting task has a run, of at most 2 * size + 5
      actions and without a cancellation, that ends with it holding a worker. The one exception is
      the pool of size zero, which the constructor accepts: there nobody is ever served. */
  lemma WaiterCanBeServedIffPoolHasWorkers(s: Pool, t: Task)
    requires Reachable(s) && In(s, t, Waiting)
    ensures s.size > 0 <==>
            exists run: seq<Action> :: && IsRun(s, run) && |run| <= 2 * s.size + 5
                          && (forall i | 0 <= i < |run| :: Ordinary(run[i]))
                          && t in After(s, run).tasks && After(s, run).tasks[t].Holding?
    ensures s.size == 0 ==>
            forall run: seq<Action> | IsRun(s, run) && t in After(s, run).tasks :: !After(s, run).tasks[t].Holding?
  {
    ReachableInv(s);
    if s.size > 0 {
      var run := ServeWaiter(s, t);
    } else {
      forall run: seq<Action> | IsRun(s, run) && t in After(s, run).tasks
        ensures !After(s, run).tasks[t].Holding?
      {
        RunKeepsInv(s, run);
      }
    }
  }

  /** While a task waits with no permit free, the pool is not stuck: a permit owner exists, and
      every permit owner has an action of its own that is enabled now. */
  lemma PermitOwnersCanStep(s: Pool, t: Task)
    requires Reachable(s) && In(s, t, Waiting) && s.permits == 0 && s.size > 0
    ensures PermitOwners(s) != {}
    ensures forall u | u in PermitOwners(s) ::
              exists a: Action :: a.task == u && Ordinary(a) && Enabled(s, a)
  {
    ReachableInv(s);
    forall u | u in PermitOwners(s)
      ensures exists a: Action :: a.task == u && Ordinary(a) && Enabled(s, a)
    {
      NoTaskPassedTheEnd(s, u);
      assert Enabled(s, StartScan(u)) || Enabled(s, Probe(u)) || Enabled(s, ClearFlag(u))
          || Enabled(s, ReturnPermit(u));
    }
  }
}
