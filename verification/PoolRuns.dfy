/** Particular runs of the pool protocol: what a task does when it is alone, why the order of dropping
a guard matters, and how a status report can be wrong. */
module PoolRuns {
  import opened PoolProtocol

  // ---------------------------------------------------------------------------------------------
  // Acquiring and dropping alone
  // ---------------------------------------------------------------------------------------------

  /** No worker before `w` is free. */
  predicate BusyBelow(s: Pool, w: nat) {
    w <= |s.busy| && forall i | 0 <= i < w :: s.busy[i]
  }

  /** `run` leads from `s` to `s'` and drops no guard. */
  ghost predicate Acquires(s: Pool, run: seq<Action>, s': Pool) {
    Leads(s, run, s') && forall i | 0 <= i < |run| :: !run[i].ClearFlag? && !run[i].ReturnPermit?
  }

  lemma AcquiresMore(s: Pool, run: seq<Action>, s': Pool, a: Action)
    requires Acquires(s, run, s') && Enabled(s', a) && !a.ClearFlag? && !a.ReturnPermit?
    ensures Acquires(s, run + [a], Next(s', a))
  {
    RunExtended(s, run, a);
  }

  lemma AcquiresThen(s: Pool, a: seq<Action>, s1: Pool, b: seq<Action>, s2: Pool)
    requires Acquires(s, a, s1) && Acquires(s1, b, s2)
    ensures Acquires(s, a + b, s2)
  {
    RunsCompose(s, a, b);
  }

  lemma StartScanAlone(s: Pool, t: Task) returns (run: seq<Action>)
    requires t !in s.tasks && s.permits > 0
    ensures Acquires(s, run, s.(permits := s.permits - 1, tasks := s.tasks[t := Scanning(0)]))
  {
    AcquiresMore(s, [], s, Request(t));
    AcquiresMore(s, [] + [Request(t)], Next(s, Request(t)), Grant(t));
    var granted := Next(Next(s, Request(t)), Grant(t));
    AcquiresMore(s, [] + [Request(t)] + [Grant(t)], granted, StartScan(t));
    run := [] + [Request(t)] + [Grant(t)] + [StartScan(t)];
    assert Next(granted, StartScan(t)).tasks == s.tasks[t := Scanning(0)];
  }

  lemma {:induction false} ScanPast(s: Pool, t: Task, w: nat) returns (run: seq<Action>)
    requires In(s, t, Scanning(0)) && BusyBelow(s, w)
    ensures Acquires(s, run, s.(tasks := s.tasks[t := Scanning(w)]))
  {
    if w == 0 {
      run := [];
      assert s.tasks[t := Scanning(0)] == s.tasks;
    } else {
      var before := ScanPast(s, t, w - 1);
      var s' := s.(tasks := s.tasks[t := Scanning(w - 1)]);
      AcquiresMore(s, before, s', Probe(t));
      run := before + [Probe(t)];
      assert s'.tasks[t := Scanning(w)] == s.tasks[t := Scanning(w)];
    }
  }

  /** A task that acquires alone takes the free worker with the lowest index. */
  lemma TakesFirstFreeWorker(s: Pool, t: Task, w: nat) returns (run: seq<Action>)
    requires t !in s.tasks && s.permits > 0 && BusyBelow(s, w) && w < |s.busy| && !s.busy[w]
    ensures Acquires(s, run, Pool(s.size, s.permits - 1, s.busy[w := true], s.tasks[t := Holding(w)]))
  {
    var start := StartScanAlone(s, t);
    var scanning := s.(permits := s.permits - 1, tasks := s.tasks[t := Scanning(0)]);
    var past := ScanPast(scanning, t, w);
    var there := scanning.(tasks := scanning.tasks[t := Scanning(w)]);
    AcquiresThen(s, start, scanning, past, there);
    AcquiresMore(s, start + past, there, Probe(t));
    run := start + past + [Probe(t)];
    assert there.tasks[t := Holding(w)] == s.tasks[t := Holding(w)];
  }

  /** Dropping a guard alone undoes its acquisition. */
  lemma DropUndoesAcquisition(s: Pool, t: Task, w: nat)
    requires t !in s.tasks && s.permits > 0 && w < |s.busy| && !s.busy[w]
    ensures Leads(Pool(s.size, s.permits - 1, s.busy[w := true], s.tasks[t := Holding(w)]),
                  [ClearFlag(t), ReturnPermit(t)], s)
  {
    var held := Pool(s.size, s.permits - 1, s.busy[w := true], s.tasks[t := Holding(w)]);
    var cleared := Next(held, ClearFlag(t));
    assert cleared.busy == s.busy && cleared.tasks - {t} == s.tasks;
    SingleAction(held, ClearFlag(t));
    SingleAction(cleared, ReturnPermit(t));
    RunsCompose(held, [ClearFlag(t)], [ReturnPermit(t)]);
    assert [ClearFlag(t)] + [ReturnPermit(t)] == [ClearFlag(t), ReturnPermit(t)];
  }

  /** A caller that is cancelled while it waits, or while it has a permit and waits for the read lock, leaves
      the pool as if it had never come. */
  lemma CancelUndoesRequest(s: Pool, t: Task)
    requires t !in s.tasks
    ensures Leads(s, [Request(t), Cancel(t)], s)
    ensures s.permits > 0 ==> Leads(s, [Request(t), Grant(t), Cancel(t)], s)
  {
    var asked := Next(s, Request(t));
    assert asked.tasks - {t} == s.tasks;
    SingleAction(s, Request(t));
    RunExtended(s, [Request(t)], Cancel(t));
    assert [Request(t)] + [Cancel(t)] == [Request(t), Cancel(t)];
    if s.permits > 0 {
      assert Next(asked, Grant(t)).tasks - {t} == s.tasks;
      RunExtended(s, [Request(t)], Grant(t));
      RunExtended(s, [Request(t)] + [Grant(t)], Cancel(t));
      assert [Request(t)] + [Grant(t)] + [Cancel(t)] == [Request(t), Grant(t), Cancel(t)];
    }
  }

  /** Tasks 0, 1, ... have acquired the first `k` workers of a pool, one after the other. */
  function Taken(size: nat, k: nat): Pool
    requires k <= size
  {
    Pool(size, size - k, seq(size, i => i < k), map t: Task | t < k :: Holding(t))
  }

  lemma {:induction false} TakeFirst(size: nat, k: nat) returns (run: seq<Action>)
    requires k <= size
    ensures Acquires(Initial(size), run, Taken(size, k))
  {
    if k == 0 {
      run := [];
      assert Taken(size, 0).busy == Initial(size).busy && Taken(size, 0).tasks == map[];
    } else {
      var before := TakeFirst(size, k - 1);
      var s := Taken(size, k - 1);
      var take := TakesFirstFreeWorker(s, k - 1, k - 1);
      var s' := Taken(size, k);
      assert s'.busy == s.busy[k - 1 := true] && s'.tasks == s.tasks[k - 1 := Holding(k - 1)];
      AcquiresThen(Initial(size), before, s, take, s');
      run := before + take;
    }
  }

  // ---------------------------------------------------------------------------------------------
  // The other order of dropping a guard
  // ---------------------------------------------------------------------------------------------

  /** A pool whose guards return the permit first and clear the flag last. `late` holds the workers of
      the guards in between. */
  datatype SwappedPool = SwappedPool(pool: Pool, late: map<Task, nat>)

  datatype SwappedAction =
    | AsBefore(action: Action)
    | PermitFirst(task: Task)
    | FlagLast(task: Task)

  predicate SwappedEnabled(s: SwappedPool, a: SwappedAction) {
    match a
    case AsBefore(action) => Enabled(s.pool, action) && !action.ClearFlag? && !action.ReturnPermit?
    case PermitFirst(t) => t in s.pool.tasks && s.pool.tasks[t].Holding?
    case FlagLast(t) => t in s.late && s.late[t] < |s.pool.busy|
  }

  function SwappedNext(s: SwappedPool, a: SwappedAction): SwappedPool
    requires SwappedEnabled(s, a)
  {
    match a
    case AsBefore(action) => s.(pool := Next(s.pool, action))
    case PermitFirst(t) =>
      SwappedPool(s.pool.(permits := s.pool.permits + 1, tasks := s.pool.tasks - {t}),
                  s.late[t := s.pool.tasks[t].worker])
    case FlagLast(t) => SwappedPool(s.pool.(busy := s.pool.busy[s.late[t] := false]), s.late - {t})
  }

  ghost predicate SwappedLeads(s: SwappedPool, run: seq<SwappedAction>, s': SwappedPool)
    decreases |run|
  {
    if run == [] then s == s'
    else SwappedEnabled(s, run[0]) && SwappedLeads(SwappedNext(s, run[0]), run[1..], s')
  }

  lemma {:induction false} SwappedThen(
    s: SwappedPool, a: seq<SwappedAction>, s1: SwappedPool, b: seq<SwappedAction>, s2: SwappedPool)
    requires SwappedLeads(s, a, s1) && SwappedLeads(s1, b, s2)
    ensures SwappedLeads(s, a + b, s2)
    decreases |a|
  {
    if a == [] {
      assert a + b == b;
    } else {
      assert (a + b)[0] == a[0] && (a + b)[1..] == a[1..] + b;
      SwappedThen(SwappedNext(s, a[0]), a[1..], s1, b, s2);
    }
  }

  /** As long as no guard is dropped the order makes no difference. */
  lemma {:induction false} AcquiringIsAsBefore(s: Pool, run: seq<Action>, s': Pool, late: map<Task, nat>)
    returns (swapped: seq<SwappedAction>)
    requires Acquires(s, run, s')
    ensures SwappedLeads(SwappedPool(s, late), swapped, SwappedPool(s', late))
    decreases |run|
  {
    if run == [] {
      swapped := [];
    } else {
      assert forall i | 0 <= i < |run[1..]| :: run[1..][i] == run[i + 1];
      var rest := AcquiringIsAsBefore(Next(s, run[0]), run[1..], s', late);
      swapped := [AsBefore(run[0])] + rest;
      assert swapped[1..] == rest;
    }
  }

  /** Returning the permit before clearing the flag is a bug in every pool that has workers: from the
      start there is a run into a scan that has probed all workers in vain. */
  lemma PermitBeforeFlagIsABug(size: nat) returns (run: seq<SwappedAction>, s: SwappedPool)
    requires size > 0
    ensures SwappedLeads(SwappedPool(Initial(size), map[]), run, s) && SwappedEnabled(s, AsBefore(Reject(size)))
  {
    var full := Taken(size, size);
    var fill := TakeFirst(size, size);
    var filled := AcquiringIsAsBefore(Initial(size), fill, full, map[]);
    var early := SwappedNext(SwappedPool(full, map[]), PermitFirst(0));
    assert SwappedLeads(SwappedPool(full, map[]), [PermitFirst(0)], early) by {
      assert [PermitFirst(0)][1..] == [];
    }
    var start := StartScanAlone(early.pool, size);
    var scanning := early.pool.(permits := 0, tasks := early.pool.tasks[size := Scanning(0)]);
    var past := ScanPast(scanning, size, size);
    var passed := scanning.(tasks := scanning.tasks[size := Scanning(size)]);
    AcquiresThen(early.pool, start, scanning, past, passed);
    var scan := AcquiringIsAsBefore(early.pool, start + past, passed, early.late);
    s := SwappedPool(passed, early.late);
    SwappedThen(SwappedPool(Initial(size), map[]), filled, SwappedPool(full, map[]), [PermitFirst(0)], early);
    SwappedThen(SwappedPool(Initial(size), map[]), filled + [PermitFirst(0)], early, scan, s);
    run := filled + [PermitFirst(0)] + scan;
  }

  // ---------------------------------------------------------------------------------------------
  // Reading the flags one by one
  // ---------------------------------------------------------------------------------------------

  function CountBusy(flags: seq<bool>): nat {
    if flags == [] then 0 else CountBusy(flags[..|flags| - 1]) + Bit(flags[|flags| - 1])
  }

  ghost function HoldersBelow(s: Pool, k: nat): set<Task> {
    set t | t in s.tasks && s.tasks[t].Holding? && s.tasks[t].worker < k
  }

  lemma {:induction false} BusyFlagsCountGuards(s: Pool, k: nat)
    requires Inv(s) && k <= s.size
    ensures CountBusy(s.busy[..k]) == |HoldersBelow(s, k)|
  {
    if k == 0 {
      assert HoldersBelow(s, 0) == {};
    } else {
      BusyFlagsCountGuards(s, k - 1);
      assert s.busy[..k][..k - 1] == s.busy[..k - 1];
      HoldersOfOneMore(s, k - 1);
    }
  }

  lemma HoldersOfOneMore(s: Pool, w: nat)
    requires Inv(s) && w < s.size
    ensures |HoldersBelow(s, w + 1)| == |HoldersBelow(s, w)| + Bit(s.busy[w])
  {
    var below, with := HoldersBelow(s, w), HoldersBelow(s, w + 1);
    if s.busy[w] {
      assert HeldBySomeone(s, w);
      var t :| In(s, t, Holding(w));
      assert forall u | u in with && s.tasks[u].worker == w :: In(s, u, Holding(w));
      assert with == below + {t};
    } else {
      assert !HeldBySomeone(s, w);
      assert forall u | u in with && s.tasks[u].worker == w :: In(s, u, Holding(w));
      assert with == below;
    }
  }

  lemma GuardsAreCounted(s: Pool)
    requires Inv(s)
    ensures CountBusy(s.busy) == |Holders(s)|
  {
    BusyFlagsCountGuards(s, s.size);
    assert s.busy[..s.size] == s.busy && HoldersBelow(s, s.size) == Holders(s);
  }

  /** A probe that takes its worker, or the release of one. */
  predicate ChangesFlag(s: Pool, a: Action)
    requires Enabled(s, a)
  {
    a.ClearFlag? || (a.Probe? && !s.busy[s.tasks[a.task].next])
  }

  /** How many actions of a run change a flag. */
  function FlagChanges(s: Pool, run: seq<Action>): nat
    requires IsRun(s, run)
    decreases |run|
  {
    if run == [] then 0 else Bit(ChangesFlag(s, run[0])) + FlagChanges(Next(s, run[0]), run[1..])
  }

  lemma {:induction false} FlagChangesCompose(s: Pool, a: seq<Action>, b: seq<Action>)
    requires IsRun(s, a) && IsRun(After(s, a), b)
    ensures IsRun(s, a + b) && FlagChanges(s, a + b) == FlagChanges(s, a) + FlagChanges(After(s, a), b)
    decreases |a|
  {
    RunsCompose(s, a, b);
    if a == [] {
      assert a + b == b;
    } else {
      assert (a + b)[0] == a[0] && (a + b)[1..] == a[1..] + b;
      FlagChangesCompose(Next(s, a[0]), a[1..], b);
    }
  }

  /** The flags as read so far, and the rest as they are. */
  function Mixed(seen: seq<bool>, flags: seq<bool>): seq<bool>
    requires |seen| <= |flags|
  {
    seen + flags[|seen|..]
  }

  predicate IsWithin(a: seq<bool>, b: seq<bool>, d: nat) {
    CountBusy(b) - d <= CountBusy(a) <= CountBusy(b) + d
  }

  lemma CountOneMore(seen: seq<bool>, flag: bool)
    ensures CountBusy(seen + [flag]) == CountBusy(seen) + Bit(flag)
  {
    assert (seen + [flag])[..|seen|] == seen;
  }

  lemma {:induction false} CountAfterUpdate(flags: seq<bool>, w: nat, b: bool)
    requires w < |flags|
    ensures CountBusy(flags[w := b]) + Bit(flags[w]) == CountBusy(flags) + Bit(b)
    decreases |flags|
  {
    var n := |flags| - 1;
    if w == n {
      assert flags[w := b][..n] == flags[..n];
    } else {
      assert flags[w := b][..n] == flags[..n][w := b];
      CountAfterUpdate(flags[..n], w, b);
    }
  }

  lemma MixedReadsOn(seen: seq<bool>, flags: seq<bool>)
    requires |seen| < |flags|
    ensures Mixed(seen + [flags[|seen|]], flags) == Mixed(seen, flags)
  {
  }

  lemma MixedAfterUpdate(seen: seq<bool>, flags: seq<bool>, w: nat, b: bool, c: seq<bool>, d: nat)
    requires |seen| <= |flags| && w < |flags|
    requires IsWithin(Mixed(seen, flags), c, d) && IsWithin(Mixed(seen, flags), flags, d)
    ensures IsWithin(Mixed(seen, flags[w := b]), c, d + 1)
    ensures IsWithin(Mixed(seen, flags[w := b]), flags[w := b], d + 1)
  {
    CountAfterUpdate(flags, w, b);
    if w < |seen| {
      assert Mixed(seen, flags[w := b]) == Mixed(seen, flags);
    } else {
      assert Mixed(seen, flags[w := b]) == Mixed(seen, flags)[w := b];
      CountAfterUpdate(Mixed(seen, flags), w, b);
    }
  }

  lemma MixedAfterStep(s: Pool, a: Action, seen: seq<bool>, c: seq<bool>, d: nat)
    requires Enabled(s, a) && |seen| <= |s.busy|
    requires IsWithin(Mixed(seen, s.busy), c, d) && IsWithin(Mixed(seen, s.busy), s.busy, d)
    ensures var flags, changed := Next(s, a).busy, d + Bit(ChangesFlag(s, a));
            && |flags| == |s.busy|
            && IsWithin(Mixed(seen, flags), c, changed) && IsWithin(Mixed(seen, flags), flags, changed)
  {
    if a.ClearFlag? {
      MixedAfterUpdate(seen, s.busy, s.tasks[a.task].worker, false, c, d);
    } else if ChangesFlag(s, a) {
      MixedAfterUpdate(seen, s.busy, s.tasks[a.task].next, true, c, d);
    }
  }

  lemma {:induction false} MixedAfterActions(s: Pool, run: seq<Action>, seen: seq<bool>, c: seq<bool>, d: nat)
    requires IsRun(s, run) && |seen| <= |s.busy|
    requires IsWithin(Mixed(seen, s.busy), c, d) && IsWithin(Mixed(seen, s.busy), s.busy, d)
    ensures var flags, changed := After(s, run).busy, d + FlagChanges(s, run);
            && |flags| == |s.busy|
            && IsWithin(Mixed(seen, flags), c, changed) && IsWithin(Mixed(seen, flags), flags, changed)
    decreases |run|
  {
    if run != [] {
      MixedAfterStep(s, run[0], seen, c, d);
      MixedAfterActions(Next(s, run[0]), run[1..], seen, c, d + Bit(ChangesFlag(s, run[0])));
    }
  }

  lemma {:induction false} RunSplits(s: Pool, a: seq<Action>, b: seq<Action>)
    requires IsRun(s, a + b)
    ensures IsRun(s, a) && IsRun(After(s, a), b) && After(s, a + b) == After(After(s, a), b)
    decreases |a|
  {
    if a == [] {
      assert a + b == b;
    } else {
      assert (a + b)[0] == a[0] && (a + b)[1..] == a[1..] + b;
      RunSplits(Next(s, a[0]), a[1..], b);
    }
  }

  /** The state of a report that began in `start`, when `run` has brought the pool to `s`: `seen` are the
      flags read so far, `available` how many of them were clear. */
  ghost predicate ReadSoFar(start: Pool, run: seq<Action>, s: Pool, seen: seq<bool>, available: nat) {
    && Leads(start, run, s) && |seen| <= |s.busy|
    && available + CountBusy(seen) == |seen|
    && IsWithin(Mixed(seen, s.busy), start.busy, FlagChanges(start, run))
    && IsWithin(Mixed(seen, s.busy), s.busy, FlagChanges(start, run))
  }

  lemma NothingRead(s: Pool)
    ensures ReadSoFar(s, [], s, [], 0)
  {
    assert Mixed([], s.busy) == s.busy;
  }

  lemma FlagRead(start: Pool, run: seq<Action>, s: Pool, seen: seq<bool>, available: nat)
    requires ReadSoFar(start, run, s, seen, available) && |seen| < |s.busy|
    ensures var flag := s.busy[|seen|];
            ReadSoFar(start, run, s, seen + [flag], if flag then available else available + 1)
  {
    CountOneMore(seen, s.busy[|seen|]);
    MixedReadsOn(seen, s.busy);
  }

  lemma OthersRanBetweenReads(
    start: Pool, run: seq<Action>, s: Pool, longer: seq<Action>, s': Pool, seen: seq<bool>, available: nat)
    requires ReadSoFar(start, run, s, seen, available) && run <= longer && Leads(start, longer, s')
    ensures ReadSoFar(start, longer, s', seen, available)
  {
    var more := longer[|run|..];
    assert longer == run + more;
    RunSplits(start, run, more);
    FlagChangesCompose(start, run, more);
    MixedAfterActions(s, more, seen, start.busy, FlagChanges(start, run));
  }

  lemma AllRead(start: Pool, run: seq<Action>, s: Pool, seen: seq<bool>, available: nat)
    requires ReadSoFar(start, run, s, seen, available) && |seen| == |s.busy| && Inv(start) && Inv(s)
    ensures available <= |s.busy|
    ensures var busy, changes := |s.busy| - available, FlagChanges(start, run);
            && |Holders(start)| - changes <= busy <= |Holders(start)| + changes
            && |Holders(s)| - changes <= busy <= |Holders(s)| + changes
  {
    assert Mixed(seen, s.busy) == seen;
    GuardsAreCounted(start);
    GuardsAreCounted(s);
  }

  /** A report can be wrong at every moment it spans: with two workers, a scan may take the first one
      after its flag was read, and the guard on the second one be dropped before its flag is. Both are
      read as free, and yet a guard is held in every state in between. */
  lemma StatusCanMissEveryGuard()
    ensures var s := Pool(2, 0, [false, true], map[1 := Holding(1), 2 := Scanning(0)]);
            var s' := Next(s, Probe(2));
            && Reachable(s) && Enabled(s, Probe(2)) && Enabled(s', ClearFlag(1))
            && !s.busy[0] && !Next(s', ClearFlag(1)).busy[1]
            && 1 in Holders(s) && 1 in Holders(s') && 2 in Holders(Next(s', ClearFlag(1)))
  {
    var one := Pool(2, 1, [false, true], map[1 := Holding(1)]);
    var take := TakeFirst(2, 2);
    DropUndoesAcquisition(one, 0, 0);
    assert Taken(2, 2) == Pool(2, 0, one.busy[0 := true], one.tasks[0 := Holding(0)]);
    RunsCompose(Initial(2), take, [ClearFlag(0), ReturnPermit(0)]);
    var scan := StartScanAlone(one, 2);
    RunsCompose(Initial(2), take + [ClearFlag(0), ReturnPermit(0)], scan);
    assert one.tasks[2 := Scanning(0)] == map[1 := Holding(1), 2 := Scanning(0)];
  }
}
