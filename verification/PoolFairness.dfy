/** The pool with a semaphore that serves its waiters in the order in which they came.

`PoolProtocol` lets the semaphore hand a permit to any waiter. Here the waiters stand in a queue, as tokio's
semaphore documents, and a waiter is overtaken by nobody. */
module PoolFairness {
  import opened PoolProtocol

  datatype FairPool = FairPool(pool: Pool, queue: seq<Task>)

  function Without(queue: seq<Task>, t: Task): seq<Task> {
    if queue == [] then []
    else if queue[0] == t then queue[1..]
    else [queue[0]] + Without(queue[1..], t)
  }

  /** Only the first in the queue is granted a permit. */
  predicate FairEnabled(s: FairPool, a: Action) {
    Enabled(s.pool, a) && (a.Grant? ==> s.queue != [] && s.queue[0] == a.task)
  }

  function FairNext(s: FairPool, a: Action): FairPool
    requires FairEnabled(s, a)
  {
    var queue :=
      if a.Request? then s.queue + [a.task]
      else if a.Grant? then s.queue[1..]
      else if a.Cancel? then Without(s.queue, a.task)
      else s.queue;
    FairPool(Next(s.pool, a), queue)
  }

  predicate IsFairRun(s: FairPool, run: seq<Action>)
    decreases |run|
  {
    run == [] || (FairEnabled(s, run[0]) && IsFairRun(FairNext(s, run[0]), run[1..]))
  }

  function FairAfter(s: FairPool, run: seq<Action>): FairPool
    requires IsFairRun(s, run)
    decreases |run|
  {
    if run == [] then s else FairAfter(FairNext(s, run[0]), run[1..])
  }

  function FairInitial(size: nat): FairPool {
    FairPool(Initial(size), [])
  }

  /** Serving in order is one way in which the pool can run, so all that is proved of every run holds. */
  lemma {:induction false} FairRunIsRun(s: FairPool, run: seq<Action>)
    requires IsFairRun(s, run)
    ensures IsRun(s.pool, run) && After(s.pool, run) == FairAfter(s, run).pool
    decreases |run|
  {
    if run != [] {
      FairRunIsRun(FairNext(s, run[0]), run[1..]);
    }
  }

  // ---------------------------------------------------------------------------------------------
  // The queue holds the waiters, each once
  // ---------------------------------------------------------------------------------------------

  predicate IsWaiting(s: Pool, t: Task) {
    t in s.tasks && s.tasks[t] == Waiting
  }

  predicate IsDistinct(queue: seq<Task>) {
    forall i, j | 0 <= i < j < |queue| :: queue[i] != queue[j]
  }

  ghost predicate QueueOk(s: FairPool) {
    && IsDistinct(s.queue)
    && (forall t :: t in s.queue <==> IsWaiting(s.pool, t))
  }

  lemma {:induction false} WithoutKeepsOrder(queue: seq<Task>, t: Task)
    requires IsDistinct(queue)
    ensures IsDistinct(Without(queue, t))
    ensures forall u :: u in Without(queue, t) <==> u in queue && u != t
    decreases |queue|
  {
    if queue != [] {
      FirstIsOnce(queue);
      assert forall u :: u in queue <==> u == queue[0] || u in queue[1..];
      if queue[0] != t {
        WithoutKeepsOrder(queue[1..], t);
        FirstStaysOnce(queue[0], Without(queue[1..], t));
      }
    }
  }

  lemma FirstStaysOnce(first: Task, rest: seq<Task>)
    requires first !in rest && IsDistinct(rest)
    ensures IsDistinct([first] + rest)
  {
    assert forall i | 0 < i < |[first] + rest| :: ([first] + rest)[i] == rest[i - 1];
  }

  /** Which tasks stand in the queue after an action: the same, but for the acting task. */
  lemma QueueAfterStep(s: FairPool, a: Action, t: Task)
    requires QueueOk(s) && FairEnabled(s, a)
    ensures t in FairNext(s, a).queue
            <==> if t == a.task && (a.Request? || a.Grant? || a.Cancel?) then a.Request? else t in s.queue
  {
    if a.Grant? {
      FirstIsOnce(s.queue);
      assert t in s.queue <==> t == s.queue[0] || t in s.queue[1..];
    } else if a.Cancel? {
      WithoutKeepsOrder(s.queue, a.task);
    }
  }

  lemma FirstIsOnce(queue: seq<Task>)
    requires queue != [] && IsDistinct(queue)
    ensures queue[0] !in queue[1..] && IsDistinct(queue[1..])
  {
    assert forall i | 0 <= i < |queue[1..]| :: queue[1..][i] == queue[i + 1];
  }

  lemma LastIsOnce(queue: seq<Task>, t: Task)
    requires IsDistinct(queue) && t !in queue
    ensures IsDistinct(queue + [t])
  {
    assert forall i | 0 <= i < |queue| :: (queue + [t])[i] == queue[i];
  }

  lemma QueueStaysDistinct(s: FairPool, a: Action)
    requires QueueOk(s) && FairEnabled(s, a)
    ensures IsDistinct(FairNext(s, a).queue)
  {
    if a.Request? {
      assert !IsWaiting(s.pool, a.task);
      LastIsOnce(s.queue, a.task);
    } else if a.Grant? {
      FirstIsOnce(s.queue);
    } else if a.Cancel? {
      WithoutKeepsOrder(s.queue, a.task);
    }
  }

  lemma PhaseAfterStep(s: Pool, a: Action, t: Task)
    requires Enabled(s, a)
    ensures IsWaiting(Next(s, a), t)
            <==> if t == a.task && (a.Request? || a.Grant? || a.Cancel?) then a.Request? else IsWaiting(s, t)
  {
  }

  lemma StepKeepsQueue(s: FairPool, a: Action)
    requires QueueOk(s) && FairEnabled(s, a)
    ensures QueueOk(FairNext(s, a))
  {
    var s' := FairNext(s, a);
    QueueStaysDistinct(s, a);
    forall t
      ensures t in s'.queue <==> IsWaiting(s'.pool, t)
    {
      QueueAfterStep(s, a, t);
      PhaseAfterStep(s.pool, a, t);
    }
  }

  lemma {:induction false} RunKeepsQueue(s: FairPool, run: seq<Action>)
    requires QueueOk(s) && IsFairRun(s, run)
    ensures QueueOk(FairAfter(s, run))
    decreases |run|
  {
    if run != [] {
      StepKeepsQueue(s, run[0]);
      RunKeepsQueue(FairNext(s, run[0]), run[1..]);
    }
  }

  // ---------------------------------------------------------------------------------------------
  // Nobody is overtaken
  // ---------------------------------------------------------------------------------------------

  function GrantsIn(run: seq<Action>): nat {
    if run == [] then 0 else Bit(run[0].Grant?) + GrantsIn(run[1..])
  }

  /** The actions that give a permit back. */
  predicate Returns(s: Pool, a: Action)
    requires Enabled(s, a)
  {
    a.ReturnPermit? || a.Reject? || (a.Cancel? && s.tasks[a.task].Granted?)
  }

  function ReturnsIn(s: Pool, run: seq<Action>): nat
    requires IsRun(s, run)
    decreases |run|
  {
    if run == [] then 0 else Bit(Returns(s, run[0])) + ReturnsIn(Next(s, run[0]), run[1..])
  }

  lemma {:induction false} PermitsAreConserved(s: Pool, run: seq<Action>)
    requires IsRun(s, run)
    ensures After(s, run).permits + GrantsIn(run) == s.permits + ReturnsIn(s, run)
    decreases |run|
  {
    if run != [] {
      PermitsAreConserved(Next(s, run[0]), run[1..]);
    }
  }

  /** `t` stands in the queue with at most `ahead` waiters in front of it. */
  ghost predicate StandsWithin(s: FairPool, t: Task, ahead: nat) {
    exists i :: 0 <= i < |s.queue| && i <= ahead && s.queue[i] == t
  }

  lemma {:induction false} WithoutMovesUp(queue: seq<Task>, t: Task, i: nat, u: Task) returns (j: nat)
    requires i < |queue| && queue[i] == t && u != t
    ensures j <= i && j < |Without(queue, u)| && Without(queue, u)[j] == t
    decreases |queue|
  {
    if queue[0] == u {
      j := i - 1;
    } else if i == 0 {
      j := 0;
    } else {
      j := WithoutMovesUp(queue[1..], t, i - 1, u);
      j := j + 1;
    }
  }

  lemma StepMovesUp(s: FairPool, a: Action, t: Task, ahead: nat)
    requires FairEnabled(s, a) && StandsWithin(s, t, ahead) && !(a.task == t && (a.Grant? || a.Cancel?))
    ensures ahead >= Bit(a.Grant?) && StandsWithin(FairNext(s, a), t, ahead - Bit(a.Grant?))
  {
    var i :| 0 <= i < |s.queue| && i <= ahead && s.queue[i] == t;
    var s' := FairNext(s, a);
    if a.Grant? {
      assert i > 0 && s'.queue[i - 1] == t;
    } else if a.Cancel? {
      var j := WithoutMovesUp(s.queue, t, i, a.task);
    } else {
      assert s'.queue[i] == t;
    }
  }

  predicate Leaves(run: seq<Action>, t: Task) {
    exists k :: 0 <= k < |run| && (run[k] == Grant(t) || run[k] == Cancel(t))
  }

  /** A waiter that has not left the queue has moved up by one for each permit that was handed over. */
  lemma {:induction false} NobodyIsOvertaken(s: FairPool, run: seq<Action>, t: Task, ahead: nat)
    requires IsFairRun(s, run) && StandsWithin(s, t, ahead) && !Leaves(run, t)
    ensures GrantsIn(run) <= ahead && StandsWithin(FairAfter(s, run), t, ahead - GrantsIn(run))
    decreases |run|
  {
    if run != [] {
      assert run[0] != Grant(t) && run[0] != Cancel(t);
      StepMovesUp(s, run[0], t, ahead);
      assert forall k | 0 <= k < |run[1..]| :: run[1..][k] == run[k + 1];
      NobodyIsOvertaken(FairNext(s, run[0]), run[1..], t, ahead - Bit(run[0].Grant?));
    }
  }

  /** Bounded waiting. In every run that keeps the order, a task with `ahead` waiters in front of it that is
      not cancelled has its permit by the time `ahead` + 1 permits have been free or come back: as long
      as it still waits, the free permits at the start and the returned ones exceed those still free by
      no more than `ahead`. In particular, with no permit idle while somebody waits, at most `ahead` come
      back before its turn. */
  lemma WaitIsBounded(s: FairPool, run: seq<Action>, t: Task, ahead: nat)
    requires IsFairRun(s, run) && StandsWithin(s, t, ahead) && !Leaves(run, t)
    ensures IsRun(s.pool, run)
    ensures s.pool.permits + ReturnsIn(s.pool, run) <= FairAfter(s, run).pool.permits + ahead
    ensures FairAfter(s, run).pool.permits == 0 ==> s.pool.permits + ReturnsIn(s.pool, run) <= ahead
  {
    FairRunIsRun(s, run);
    NobodyIsOvertaken(s, run, t, ahead);
    PermitsAreConserved(s.pool, run);
  }

  /** A new caller stands behind those who wait already, and no more tasks wait than the pool knows. */
  lemma NewcomerStandsLast(size: nat, run: seq<Action>, t: Task)
    requires IsFairRun(FairInitial(size), run) && FairEnabled(FairAfter(FairInitial(size), run), Request(t))
    ensures var s := FairAfter(FairInitial(size), run);
            && StandsWithin(FairNext(s, Request(t)), t, |s.queue|)
            && (forall u :: u in s.queue <==> IsWaiting(s.pool, u))
            && IsDistinct(s.queue)
  {
    var s := FairAfter(FairInitial(size), run);
    assert QueueOk(FairInitial(size));
    RunKeepsQueue(FairInitial(size), run);
    assert FairNext(s, Request(t)).queue[|s.queue|] == t;
  }
}
