/** Whose actions a run of the pool holds: those of one caller, and those listed for the other tasks. */
module PoolTurns {
  import opened PoolProtocol

  /** The actions of a schedule that are performed from `s` on. */
  function Performed(s: Pool, schedule: seq<Action>, still: set<Task>): seq<Action>
    decreases |schedule|
  {
    if schedule == [] then []
    else if schedule[0].task !in still && Enabled(s, schedule[0]) then
      [schedule[0]] + Performed(Next(s, schedule[0]), schedule[1..], still)
    else Performed(s, schedule[1..], still)
  }

  lemma {:induction false} PerformedIsRun(s: Pool, schedule: seq<Action>, still: set<Task>)
    ensures IsRun(s, Performed(s, schedule, still))
    decreases |schedule|
  {
    if schedule != [] {
      if schedule[0].task !in still && Enabled(s, schedule[0]) {
        var rest := Performed(Next(s, schedule[0]), schedule[1..], still);
        PerformedIsRun(Next(s, schedule[0]), schedule[1..], still);
        assert ([schedule[0]] + rest)[1..] == rest;
      } else {
        PerformedIsRun(s, schedule[1..], still);
      }
    }
  }

  lemma {:induction false} PerformedJoined(s: Pool, a: seq<Action>, b: seq<Action>, still: set<Task>)
    ensures IsRun(s, Performed(s, a, still))
    ensures Performed(s, a + b, still)
            == Performed(s, a, still) + Performed(After(s, Performed(s, a, still)), b, still)
    decreases |a|
  {
    PerformedIsRun(s, a, still);
    if a == [] {
      assert a + b == b && [] + Performed(s, b, still) == Performed(s, b, still);
    } else {
      assert (a + b)[0] == a[0] && (a + b)[1..] == a[1..] + b;
      if a[0].task !in still && Enabled(s, a[0]) {
        var rest := Performed(Next(s, a[0]), a[1..], still);
        PerformedJoined(Next(s, a[0]), a[1..], b, still);
        assert ([a[0]] + rest)[1..] == rest;
      } else {
        PerformedJoined(s, a[1..], b, still);
      }
    }
  }

  lemma PerformedNext(s: Pool, schedule: seq<Action>, i: nat, still: set<Task>)
    requires i < |schedule|
    ensures var done, a := Performed(s, schedule[..i], still), schedule[i];
            && IsRun(s, done)
            && Performed(s, schedule[..i + 1], still)
               == (if a.task !in still && Enabled(After(s, done), a) then done + [a] else done)
            && IsRun(s, Performed(s, schedule[..i + 1], still))
            && After(s, Performed(s, schedule[..i + 1], still))
               == (if a.task !in still && Enabled(After(s, done), a) then Next(After(s, done), a) else After(s, done))
  {
    var done, a := Performed(s, schedule[..i], still), schedule[i];
    assert schedule[..i + 1] == schedule[..i] + [a];
    PerformedJoined(s, schedule[..i], [a], still);
    assert [a][1..] == [] && done + [] == done;
    PerformedIsRun(s, schedule[..i + 1], still);
    if a.task !in still && Enabled(After(s, done), a) {
      RunExtended(s, done, a);
    }
  }

  /** A schedule that can be performed as it stands is performed as it stands. */
  lemma {:induction false} RunnableIsPerformed(s: Pool, schedule: seq<Action>, still: set<Task>)
    requires IsRun(s, schedule) && forall i | 0 <= i < |schedule| :: schedule[i].task !in still
    ensures Performed(s, schedule, still) == schedule
    decreases |schedule|
  {
    if schedule != [] {
      assert forall i | 0 <= i < |schedule[1..]| :: schedule[1..][i] == schedule[i + 1];
      RunnableIsPerformed(Next(s, schedule[0]), schedule[1..], still);
      assert [schedule[0]] + schedule[1..] == schedule;
    }
  }

  lemma {:induction false} PerformedByOthers(s: Pool, schedule: seq<Action>, still: set<Task>)
    ensures forall a | a in Performed(s, schedule, still) :: a in schedule && a.task !in still
    decreases |schedule|
  {
    if schedule != [] {
      PerformedByOthers(s, schedule[1..], still);
      if Enabled(s, schedule[0]) {
        PerformedByOthers(Next(s, schedule[0]), schedule[1..], still);
      }
      assert forall a | a in schedule[1..] :: a in schedule;
    }
  }

  ghost predicate Listed(env: nat -> seq<Action>, a: Action) {
    exists k: nat :: a in env(k)
  }

  /** Every action of the run is listed for the others. */
  ghost predicate AllFrom(run: seq<Action>, env: nat -> seq<Action>) {
    forall a | a in run :: Listed(env, a)
  }

  /** Every action of the run is of `me`, or is listed for the others. */
  ghost predicate OthersFrom(run: seq<Action>, me: Task, env: nat -> seq<Action>) {
    forall a | a in run :: a.task == me || Listed(env, a)
  }

  /** The others do nothing. */
  ghost predicate Quiet(env: nat -> seq<Action>) {
    forall k: nat :: env(k) == []
  }

  function Own(run: seq<Action>, me: Task): seq<Action> {
    if run == [] then []
    else Own(run[..|run| - 1], me) + (if run[|run| - 1].task == me then [run[|run| - 1]] else [])
  }

  function Probes(me: Task, n: nat): seq<Action> {
    seq(n, _ => Probe(me))
  }

  lemma ProbesNext(own: seq<Action>, me: Task, n: nat)
    ensures own + Probes(me, 0) == own
    ensures own + Probes(me, n) + [Probe(me)] == own + Probes(me, n + 1)
  {
  }

  lemma ProbeOutcome(s: Pool, me: Task, h: nat)
    requires In(s, me, Scanning(h)) && h < |s.busy|
    ensures var s' := Next(s, Probe(me));
            if s'.tasks[me].Holding? then In(s', me, Holding(h)) && s'.busy[h] else In(s', me, Scanning(h + 1))
  {
  }

  lemma OwnNext(run: seq<Action>, me: Task, env: nat -> seq<Action>, a: Action)
    requires OthersFrom(run, me, env) && a.task == me
    ensures OthersFrom(run + [a], me, env) && Own(run + [a], me) == Own(run, me) + [a]
  {
    assert (run + [a])[..|run|] == run;
  }

  lemma ListedIsFrom(run: seq<Action>, more: seq<Action>, env: nat -> seq<Action>, k: nat)
    requires AllFrom(run, env) && forall a | a in more :: a in env(k)
    ensures AllFrom(run + more, env) && (Quiet(env) ==> more == [])
  {
    if more != [] {
      assert more[0] in more;
    }
  }

  lemma {:induction false} ListedIsFromEnvironment(
    run: seq<Action>, more: seq<Action>, me: Task, env: nat -> seq<Action>, k: nat)
    requires OthersFrom(run, me, env) && forall a | a in more :: a in env(k) && a.task != me
    ensures OthersFrom(run + more, me, env) && Own(run + more, me) == Own(run, me)
    decreases |more|
  {
    if more == [] {
      assert run + more == run;
    } else {
      var n := |more| - 1;
      assert more[n] in more;
      ListedIsFromEnvironment(run, more[..n], me, env, k);
      assert (run + more)[..|run + more| - 1] == run + more[..n];
      assert Own(run, me) + [] == Own(run, me);
    }
  }

  lemma {:induction false} OwnRunMovesOnlyMe(s: Pool, run: seq<Action>, me: Task)
    requires IsRun(s, run) && forall i | 0 <= i < |run| :: run[i].task == me
    ensures OnlyMoved(s, After(s, run), me)
    decreases |run|
  {
    if run != [] {
      assert forall i | 0 <= i < |run[1..]| :: run[1..][i] == run[i + 1];
      OwnRunMovesOnlyMe(Next(s, run[0]), run[1..], me);
    }
  }

  /** `run` leads from `start` to `s`, `own` are the actions of `me` in it, and the others did only what is
      listed for them. */
  ghost predicate Told(start: Pool, run: seq<Action>, s: Pool, me: Task, env: nat -> seq<Action>, own: seq<Action>) {
    Leads(start, run, s) && OthersFrom(run, me, env) && Own(run, me) == own
  }

  lemma ToldNext(
    start: Pool, run: seq<Action>, s: Pool, me: Task, env: nat -> seq<Action>, own: seq<Action>, a: Action)
    requires Told(start, run, s, me, env, own) && a.task == me && Enabled(s, a)
    ensures Told(start, run + [a], Next(s, a), me, env, own + [a])
  {
    RunExtended(start, run, a);
    OwnNext(run, me, env, a);
  }

  lemma NothingTold(s: Pool, me: Task, env: nat -> seq<Action>)
    ensures Told(s, [], s, me, env, [])
  {
  }

  lemma ToldOfOthers(
    start: Pool, run: seq<Action>, s: Pool, longer: seq<Action>, s': Pool, me: Task, env: nat -> seq<Action>, k: nat,
    own: seq<Action>)
    requires Told(start, run, s, me, env, own) && Leads(start, longer, s')
    requires longer == run + Performed(s, env(k), {me})
    ensures Told(start, longer, s', me, env, own)
  {
    PerformedByOthers(s, env(k), {me});
    ListedIsFromEnvironment(run, Performed(s, env(k), {me}), me, env, k);
  }

  lemma {:induction false} OwnOfOwn(run: seq<Action>, me: Task)
    requires forall i | 0 <= i < |run| :: run[i].task == me
    ensures Own(run, me) == run
    decreases |run|
  {
    if run != [] {
      var n := |run| - 1;
      OwnOfOwn(run[..n], me);
      assert run[..n] + [run[n]] == run;
    }
  }

  /** While the others do nothing, the caller's actions are the whole run, and no other task is moved. */
  lemma QuietRunIsOwn(start: Pool, run: seq<Action>, s: Pool, me: Task, env: nat -> seq<Action>, own: seq<Action>)
    requires Told(start, run, s, me, env, own) && Quiet(env)
    ensures Leads(start, own, s) && OnlyMoved(start, s, me)
  {
    forall i | 0 <= i < |run|
      ensures run[i].task == me
    {
      assert run[i] in run;
    }
    OwnOfOwn(run, me);
    OwnRunMovesOnlyMe(start, run, me);
  }

  lemma TwoActions(s: Pool, own: seq<Action>, s': Pool)
    requires Leads(s, own, s') && |own| >= 2
    ensures Enabled(s, own[0]) && Enabled(Next(s, own[0]), own[1])
    ensures |own| == 2 ==> s' == Next(Next(s, own[0]), own[1])
  {
    assert own[1..][0] == own[1] && IsRun(Next(s, own[0]), own[1..]);
    if |own| == 2 {
      assert own[1..] == [own[1]];
      SingleAction(Next(s, own[0]), own[1]);
    }
  }

  /** Alone, the caller waits exactly when no permit is free. */
  lemma QuietAcquisition(
    start: Pool, run: seq<Action>, s: Pool, me: Task, env: nat -> seq<Action>, own: seq<Action>, waits: bool)
    requires Told(start, run, s, me, env, own)
    requires if waits then own == [Request(me)] && s.permits == 0
             else |own| >= 2 && own[0] == Request(me) && own[1] == Grant(me)
    ensures Quiet(env) ==> OnlyMoved(start, s, me) && (waits <==> start.permits == 0)
  {
    if Quiet(env) {
      QuietRunIsOwn(start, run, s, me, env, own);
      if waits {
        SingleAction(start, Request(me));
      } else {
        TwoActions(start, own, s);
      }
    }
  }

  lemma QuietDrop(start: Pool, run: seq<Action>, s: Pool, me: Task, env: nat -> seq<Action>)
    requires Told(start, run, s, me, env, [ClearFlag(me), ReturnPermit(me)])
    requires me in start.tasks && start.tasks[me].Holding? && start.tasks[me].worker < |start.busy|
    ensures Quiet(env) ==>
              && OnlyMoved(start, s, me) && s.permits == start.permits + 1
              && s.busy == start.busy[start.tasks[me].worker := false]
  {
    if Quiet(env) {
      QuietRunIsOwn(start, run, s, me, env, [ClearFlag(me), ReturnPermit(me)]);
      TwoActions(start, [ClearFlag(me), ReturnPermit(me)], s);
    }
  }
}
