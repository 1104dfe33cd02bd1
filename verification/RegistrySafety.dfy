/** What every interleaving of registry calls keeps. */
module RegistrySafety {
  import opened Wrappers
  import opened Text
  import opened References
  import opened RegistryTables
  import opened RegistryCalls

  const LAST_VERSION: U32 := U32_RANGE - 1

  // ---------------------------------------------------------------------------------------------
  // The invariant of the tables
  // ---------------------------------------------------------------------------------------------

  ghost predicate NamesIndexed(t: Tables) {
    && (forall n | n in t.names :: t.names[n] in t.functions && t.functions[t.names[n]].name == n)
    && (forall id | id in t.functions :: t.functions[id].name in t.names && t.names[t.functions[id].name] == id)
  }

  ghost predicate ForeignKeysHold(t: Tables) {
    && (forall k | k in t.versions :: k.0 in t.functions)
    && (forall k | k in t.aliases :: (k.0, t.aliases[k].version) in t.versions)
  }

  /** The number that `v` was computed from: none for 1, and for 0 the last number before the
      32-bit wrap-around. */
  predicate PredecessorPublished(t: Tables, id: FunctionId, v: U32) {
    v != 1 ==> (id, if v == 0 then LAST_VERSION else v - 1) in t.versions
  }

  ghost predicate PredecessorsPublished(t: Tables) {
    forall id, v: U32 {:trigger PredecessorPublished(t, id, v)} ::
      (id, v) in t.versions ==> PredecessorPublished(t, id, v)
  }

  ghost predicate TablesOk(t: Tables) {
    NamesIndexed(t) && ForeignKeysHold(t) && PredecessorsPublished(t)
  }

  // ---------------------------------------------------------------------------------------------
  // The invariant of the calls in flight
  // ---------------------------------------------------------------------------------------------

  /** The version a call has seen in the table of versions, or in an alias row. */
  function SeenVersion(c: Call): Option<(FunctionId, U32)> {
    match c
    case InsertingAlias(id, _, v) => Some((id, v))
    case ReadingAlias(id, _, v, _) => Some((id, v))
    case WritingAlias(id, _, v, _) => Some((id, v))
    case ResolvingVersion(id, v, true) => Some((id, v))
    case LoadingVersion(id, v) => Some((id, v))
    case ActivatingVersion(id, _, v) => Some((id, v))
    case _ => None
  }

  /** A version once seen is there for as long as its function is. */
  ghost predicate SeenVersionStays(s: System, c: Call) {
    SeenVersion(c).Some? ==>
      var (id, v) := SeenVersion(c).value;
      id in s.issued && (id in s.tables.functions ==> (id, v) in s.tables.versions)
  }

  /** A number to be inserted continues the numbering, and an alias to be rewritten exists, for as
      long as the function is there. */
  ghost predicate LocalsStay(s: System, c: Call) {
    && (c.WritingAlias? && c.id in s.tables.functions ==> (c.id, c.alias) in s.tables.aliases)
    && (c.Numbering? || c.Inserting? || c.LoadingBase? ==> c.id in s.issued)
    && (c.Inserting? && c.id in s.tables.functions ==> PredecessorPublished(s.tables, c.id, c.version))
  }

  ghost predicate CallsOk(s: System) {
    forall c | c in s.calls :: SeenVersionStays(s, s.calls[c]) && LocalsStay(s, s.calls[c])
  }

  ghost predicate Inv(s: System) {
    TablesOk(s.tables) && s.tables.functions.Keys <= s.issued && CallsOk(s)
  }

  // ---------------------------------------------------------------------------------------------
  // One step
  // ---------------------------------------------------------------------------------------------

  /** Between `s` and `s'` no function came back, and the functions that are still there kept their
      published versions as they were, and their alias names. */
  ghost predicate Grows(s: System, s': System) {
    && s.issued <= s'.issued
    && (forall id | id in s.issued && id in s'.tables.functions :: id in s.tables.functions)
    && (forall k | k in s.tables.versions && k.0 in s'.tables.functions ::
          k in s'.tables.versions && s'.tables.versions[k] == s.tables.versions[k])
    && (forall k | k in s.tables.aliases && k.0 in s'.tables.functions :: k in s'.tables.aliases)
  }

  lemma WriteGrows(h: Host, s: System, c: Call, now: nat, uuid: FunctionId)
    requires TablesOk(s.tables) && Writes(c) && uuid !in s.issued
    ensures var t, t' := s.tables, Write(h, s.tables, c, now, uuid).0;
            && (forall id | id in s.issued && id in t'.functions :: id in t.functions)
            && (forall k | k in t.versions && k.0 in t'.functions ::
                  k in t'.versions && t'.versions[k] == t.versions[k])
            && (forall k | k in t.aliases && k.0 in t'.functions :: k in t'.aliases)
  {
  }

  lemma StepGrows(h: Host, s: System, l: Label)
    requires Inv(s) && Enabled(s, l)
    ensures Grows(s, Next(h, s, l))
  {
    if l.Go? && Writes(s.calls[l.call]) {
      WriteGrows(h, s, s.calls[l.call], l.now, l.uuid);
    }
  }

  lemma SameVersionsSamePredecessors(t: Tables, t': Tables)
    requires PredecessorsPublished(t) && t'.versions == t.versions
    ensures PredecessorsPublished(t')
  {
    forall id, v: U32 | (id, v) in t'.versions
      ensures PredecessorPublished(t', id, v)
    {
      assert PredecessorPublished(t, id, v);
    }
  }

  lemma InsertFunctionKeepsTables(t: Tables, id: FunctionId, row: FunctionRow)
    requires TablesOk(t) && InsertFunction(t, id, row).Ok?
    ensures TablesOk(InsertFunction(t, id, row).value)
  {
    SameVersionsSamePredecessors(t, InsertFunction(t, id, row).value);
  }

  lemma UpdateFunctionKeepsTables(t: Tables, id: FunctionId, description: Option<string>, settings: Settings, now: nat)
    requires TablesOk(t)
    ensures TablesOk(UpdateFunctionRow(t, id, description, settings, now))
  {
    SameVersionsSamePredecessors(t, UpdateFunctionRow(t, id, description, settings, now));
  }

  lemma DeleteFunctionKeepsTables(t: Tables, id: FunctionId)
    requires TablesOk(t)
    ensures TablesOk(DeleteFunctionRow(t, id))
  {
    if id in t.functions {
      var t' := DeleteFunctionRow(t, id);
      assert forall other | other in t'.functions :: t.functions[other].name != t.functions[id].name;
      forall other, v: U32 | (other, v) in t'.versions
        ensures PredecessorPublished(t', other, v)
      {
        assert PredecessorPublished(t, other, v);
      }
    }
  }

  lemma InsertVersionKeepsTables(t: Tables, id: FunctionId, v: U32, row: VersionRow)
    requires TablesOk(t) && InsertVersion(t, id, v, row).Ok? && PredecessorPublished(t, id, v)
    ensures TablesOk(InsertVersion(t, id, v, row).value)
  {
    var t' := InsertVersion(t, id, v, row).value;
    forall other, w: U32 | (other, w) in t'.versions
      ensures PredecessorPublished(t', other, w)
    {
      if (other, w) in t.versions {
        assert PredecessorPublished(t, other, w);
      }
    }
  }

  lemma AliasWritesKeepTables(t: Tables, id: FunctionId, alias: string, v: U32, now: nat)
    requires TablesOk(t)
    ensures InsertAlias(t, id, alias, v, now).Ok? ==> TablesOk(InsertAlias(t, id, alias, v, now).value)
    ensures UpdateAliasRow(t, id, alias, v, now).Ok? ==> TablesOk(UpdateAliasRow(t, id, alias, v, now).value)
  {
    if InsertAlias(t, id, alias, v, now).Ok? {
      SameVersionsSamePredecessors(t, InsertAlias(t, id, alias, v, now).value);
    }
    if UpdateAliasRow(t, id, alias, v, now).Ok? {
      SameVersionsSamePredecessors(t, UpdateAliasRow(t, id, alias, v, now).value);
    }
  }

  lemma WriteKeepsTables(h: Host, t: Tables, c: Call, now: nat, uuid: FunctionId)
    requires TablesOk(t) && Writes(c)
    requires c.Inserting? && c.id in t.functions ==> PredecessorPublished(t, c.id, c.version)
    ensures TablesOk(Write(h, t, c, now, uuid).0)
  {
    match c {
      case Creating(spec) =>
        if InsertFunction(t, uuid, NewRow(h, spec, now)).Ok? {
          InsertFunctionKeepsTables(t, uuid, NewRow(h, spec, now));
        }
      case Writing(id, merged) => UpdateFunctionKeepsTables(t, id, merged.description, merged.settings, now);
      case Deleting(id) => DeleteFunctionKeepsTables(t, id);
      case Inserting(id, settings, v) =>
        if InsertVersion(t, id, v, VersionRow(settings, now)).Ok? {
          InsertVersionKeepsTables(t, id, v, VersionRow(settings, now));
        }
      case InsertingAlias(id, alias, v) => AliasWritesKeepTables(t, id, alias, v, now);
      case WritingAlias(id, alias, v, _) => AliasWritesKeepTables(t, id, alias, v, now);
    }
  }

  lemma NextVersionContinues(t: Tables, id: FunctionId)
    ensures PredecessorPublished(t, id, NextVersion(SelectMaxVersion(t, id)))
  {
    if SelectMaxVersion(t, id).Some? {
      assert (id, SelectMaxVersion(t, id).value) in t.versions;
    }
  }

  lemma CallOutlastsGrowth(s: System, s': System, c: Call)
    requires Grows(s, s') && SeenVersionStays(s, c) && LocalsStay(s, c)
    ensures SeenVersionStays(s', c) && LocalsStay(s', c)
  {
  }

  lemma ReadKeepsCall(h: Host, s: System, c: Call)
    requires ForeignKeysHold(s.tables) && s.tables.functions.Keys <= s.issued
    requires !Writes(c) && !c.Done? && SeenVersionStays(s, c) && LocalsStay(s, c)
    ensures SeenVersionStays(s, Read(h, s.tables, c)) && LocalsStay(s, Read(h, s.tables, c))
  {
    if c.Numbering? {
      NextVersionContinues(s.tables, c.id);
    }
  }

  lemma WriteIsTheLastStatement(h: Host, t: Tables, c: Call, now: nat, uuid: FunctionId)
    requires Writes(c)
    ensures Write(h, t, c, now, uuid).1.Done?
  {
  }

  lemma StartedCallIsOk(h: Host, s: System, r: Request)
    ensures SeenVersionStays(s, Start(h, r)) && LocalsStay(s, Start(h, r))
  {
  }

  lemma StepKeepsCall(h: Host, s: System, l: Label, c: CallId)
    requires Inv(s) && Enabled(s, l) && c in Next(h, s, l).calls
    ensures var s' := Next(h, s, l); SeenVersionStays(s', s'.calls[c]) && LocalsStay(s', s'.calls[c])
  {
    var s' := Next(h, s, l);
    if c != l.call {
      assert s'.calls[c] == s.calls[c];
      StepGrows(h, s, l);
      CallOutlastsGrowth(s, s', s.calls[c]);
    } else if l.Begin? {
      StartedCallIsOk(h, s', l.request);
    } else if Writes(s.calls[c]) {
      WriteIsTheLastStatement(h, s.tables, s.calls[c], l.now, l.uuid);
    } else {
      assert s' == s.(calls := s'.calls);
      ReadKeepsCall(h, s, s.calls[c]);
    }
  }

  lemma StepKeepsCalls(h: Host, s: System, l: Label)
    requires Inv(s) && Enabled(s, l)
    ensures CallsOk(Next(h, s, l))
  {
    forall c | c in Next(h, s, l).calls
      ensures SeenVersionStays(Next(h, s, l), Next(h, s, l).calls[c])
      ensures LocalsStay(Next(h, s, l), Next(h, s, l).calls[c])
    {
      StepKeepsCall(h, s, l, c);
    }
  }

  lemma StepKeepsInv(h: Host, s: System, l: Label)
    requires Inv(s) && Enabled(s, l)
    ensures Inv(Next(h, s, l))
  {
    StepKeepsCalls(h, s, l);
    if l.Go? && Writes(s.calls[l.call]) {
      assert LocalsStay(s, s.calls[l.call]);
      WriteKeepsTables(h, s.tables, s.calls[l.call], l.now, l.uuid);
    }
  }

  // ---------------------------------------------------------------------------------------------
  // Whole runs
  // ---------------------------------------------------------------------------------------------

  lemma {:induction false} RunKeepsInv(h: Host, s: System, run: seq<Label>)
    requires Inv(s) && IsRun(h, s, run)
    ensures Inv(After(h, s, run)) && Grows(s, After(h, s, run))
    decreases |run|
  {
    if run != [] {
      StepKeepsInv(h, s, run[0]);
      StepGrows(h, s, run[0]);
      RunKeepsInv(h, Next(h, s, run[0]), run[1..]);
    }
  }

  lemma ReachableInv(h: Host, s: System)
    requires Reachable(h, s)
    ensures Inv(s)
  {
    var run :| IsRun(h, EMPTY_SYSTEM, run) && After(h, EMPTY_SYSTEM, run) == s;
    RunKeepsInv(h, EMPTY_SYSTEM, run);
  }

  /** A published version never changes while its function exists, goes when the function goes, and
      neither comes back. */
  lemma PublishedVersionsAreImmutable(h: Host, s: System, run: seq<Label>, id: FunctionId)
    requires Reachable(h, s) && IsRun(h, s, run)
    ensures var t, t' := s.tables, After(h, s, run).tables;
            && (forall v: U32 | (id, v) in t.versions ::
                  if id in t'.functions then (id, v) in t'.versions && t'.versions[(id, v)] == t.versions[(id, v)]
                  else (id, v) !in t'.versions)
            && (id in s.issued && id !in t.functions ==>
                  id !in t'.functions && forall v: U32 :: (id, v) !in t'.versions)
  {
    ReachableInv(h, s);
    RunKeepsInv(h, s, run);
  }

  // ---------------------------------------------------------------------------------------------
  // Version numbers
  // ---------------------------------------------------------------------------------------------

  predicate Between(lo: nat, v: U32, hi: nat) {
    lo <= v < hi
  }

  function Interval(lo: nat, hi: nat): set<U32> {
    set v: U32 | v < hi && Between(lo, v, hi)
  }

  lemma {:induction false} IntervalSize(lo: nat, hi: nat)
    requires lo <= hi <= U32_RANGE
    ensures |Interval(lo, hi)| == hi - lo
    decreases hi
  {
    if lo == hi {
      assert Interval(lo, hi) == {};
    } else {
      IntervalSize(lo, hi - 1);
      assert Interval(lo, hi) == Interval(lo, hi - 1) + {hi - 1};
    }
  }

  lemma {:induction false} NumbersBelowArePublished(t: Tables, id: FunctionId, v: U32, w: U32)
    requires PredecessorsPublished(t) && (id, v) in t.versions && 1 <= w <= v
    ensures (id, w) in t.versions
    decreases v
  {
    if w < v {
      assert PredecessorPublished(t, id, v);
      NumbersBelowArePublished(t, id, v - 1, w);
    }
  }

  /** The numbers are 1..n; all 2^32 numbers after the wrap-around. */
  ghost predicate Gapless(vs: set<U32>) {
    && |vs| <= U32_RANGE
    && forall v: U32 :: v in vs <==> |vs| == U32_RANGE || Between(1, v, |vs| + 1)
  }

  lemma IntervalIsGapless(vs: set<U32>, m: U32)
    requires m >= 1 && vs == Interval(1, m + 1)
    ensures Gapless(vs) && |vs| == m
  {
    IntervalSize(1, m + 1);
  }

  lemma FullIsGapless(vs: set<U32>)
    requires forall v: U32 :: v in vs
    ensures Gapless(vs) && |vs| == U32_RANGE
  {
    assert vs == Interval(0, U32_RANGE) by {
      forall v: U32
        ensures v in Interval(0, U32_RANGE)
      {
        assert Between(0, v, U32_RANGE);
      }
    }
    IntervalSize(0, U32_RANGE);
  }

  lemma NumbersOf(t: Tables, id: FunctionId)
    requires PredecessorsPublished(t)
    ensures Gapless(VersionsOf(t, id))
  {
    var vs := VersionsOf(t, id);
    if vs != {} {
      MaxExists(vs);
      var m: U32 :| IsMax(m, vs);
      assert (id, m) in t.versions;
      if 0 in vs {
        assert (id, 0) in t.versions && PredecessorPublished(t, id, 0);
        m := LAST_VERSION;
      }
      forall w: U32 | 1 <= w <= m
        ensures w in vs
      {
        NumbersBelowArePublished(t, id, m, w);
      }
      if 0 in vs {
        FullIsGapless(vs);
      } else {
        assert vs == Interval(1, m + 1) by {
          assert forall v: U32 :: v in vs <==> Between(1, v, m + 1);
        }
        IntervalIsGapless(vs, m);
      }
    }
  }

  /** In every interleaving the published numbers of a live function are exactly 1..n, and a deleted
      function has none. The one exception comes after 2^32 - 1 publications: the addition wraps, and
      version 0 is published once. */
  lemma VersionNumbersAreGapless(h: Host, s: System, id: FunctionId)
    requires Reachable(h, s)
    ensures var n := |VersionsOf(s.tables, id)|;
            && n <= U32_RANGE
            && (forall v: U32 :: (id, v) in s.tables.versions <==> n == U32_RANGE || 1 <= v <= n)
            && (id !in s.tables.functions ==> n == 0)
  {
    ReachableInv(h, s);
    NumbersOf(s.tables, id);
    assert forall v: U32 :: (id, v) in s.tables.versions <==> v in VersionsOf(s.tables, id);
    if id !in s.tables.functions {
      assert VersionsOf(s.tables, id) == {};
    }
  }

  lemma FreeSuccessorIsNext(vs: set<U32>, v: U32)
    requires Gapless(vs) && (v != 1 ==> (if v == 0 then LAST_VERSION else v - 1) in vs)
    ensures v !in vs <==> |vs| < U32_RANGE && v == (|vs| + 1) % U32_RANGE
  {
    var p: U32 := if v == 0 then LAST_VERSION else v - 1;
    assert p in vs <==> |vs| == U32_RANGE || Between(1, p, |vs| + 1);
    assert v in vs <==> |vs| == U32_RANGE || Between(1, v, |vs| + 1);
  }

  lemma InsertVersionIffNext(t: Tables, id: FunctionId, v: U32, row: VersionRow)
    requires PredecessorsPublished(t) && (id in t.functions ==> PredecessorPublished(t, id, v))
    ensures var n := |VersionsOf(t, id)|;
            InsertVersion(t, id, v, row).Ok? <==> id in t.functions && n < U32_RANGE && v == (n + 1) % U32_RANGE
    ensures InsertVersion(t, id, v, row).Ok? ==>
              |VersionsOf(InsertVersion(t, id, v, row).value, id)| == |VersionsOf(t, id)| + 1
  {
    NumbersOf(t, id);
    if id in t.functions {
      FreeSuccessorIsNext(VersionsOf(t, id), v);
    }
    if InsertVersion(t, id, v, row).Ok? {
      NumbersAfterInsert(t, id, v, row);
    }
  }

  lemma NumbersAfterInsert(t: Tables, id: FunctionId, v: U32, row: VersionRow)
    requires InsertVersion(t, id, v, row).Ok?
    ensures VersionsOf(InsertVersion(t, id, v, row).value, id) == VersionsOf(t, id) + {v} && v !in VersionsOf(t, id)
  {
  }

  /** A publishing call inserts its version exactly when its number is still the next one and its
      function still exists. A call that lost the race, or whose function is gone, leaves all tables
      as they were and fails. */
  lemma InsertSucceedsIffNumberIsNext(h: Host, s: System, l: Label)
    requires Reachable(h, s) && Enabled(s, l) && l.Go? && s.calls[l.call].Inserting?
    ensures var Inserting(id, settings, v) := s.calls[l.call];
            var n := |VersionsOf(s.tables, id)|;
            var s' := Next(h, s, l);
            if id in s.tables.functions && n < U32_RANGE && v == (n + 1) % U32_RANGE then
              && s'.calls[l.call] == Done(Published(v, VersionRow(settings, l.now)))
              && s'.tables == s.tables.(versions := s.tables.versions[(id, v) := VersionRow(settings, l.now)])
              && |VersionsOf(s'.tables, id)| == n + 1
            else
              && s'.calls[l.call].Done? && s'.calls[l.call].reply.Failed? && s'.calls[l.call].reply.failure.Database?
              && s'.tables == s.tables
  {
    ReachableInv(h, s);
    var Inserting(id, settings, v) := s.calls[l.call];
    assert LocalsStay(s, s.calls[l.call]);
    InsertVersionIffNext(s.tables, id, v, VersionRow(settings, l.now));
  }

  // ---------------------------------------------------------------------------------------------
  // Aliases
  // ---------------------------------------------------------------------------------------------

  /** Every alias row names an existing version of an existing function. */
  lemma AliasesNameExistingVersions(h: Host, s: System, k: AliasKey)
    requires Reachable(h, s) && k in s.tables.aliases
    ensures k.0 in s.tables.functions && (k.0, s.tables.aliases[k].version) in s.tables.versions
  {
    ReachableInv(h, s);
  }

  /** A call that found its version through an alias row misses that version at the second lookup
      exactly when the function was deleted in between. This covers the registry's, the invoker's and
      the activation's resolution. */
  lemma AliasResolutionFailsIffFunctionDeleted(h: Host, s: System, c: CallId)
    requires Reachable(h, s) && c in s.calls
    requires s.calls[c].LoadingVersion? || s.calls[c].ActivatingVersion?
          || (s.calls[c].ResolvingVersion? && s.calls[c].viaAlias)
    ensures var call := s.calls[c];
            Read(h, s.tables, call) == Fail(VersionNotFound(call.id, call.v)) <==> call.id !in s.tables.functions
    ensures s.calls[c].id in s.issued
  {
    ReachableInv(h, s);
    assert SeenVersionStays(s, s.calls[c]);
  }

  /** An alias write that reports success has set the alias exactly when the function was not deleted
      under it: an UPDATE that matches no row reports success too. */
  lemma ReportedAliasIsSetIffFunctionLives(h: Host, s: System, l: Label)
    requires Reachable(h, s) && Enabled(s, l) && l.Go?
    requires s.calls[l.call].WritingAlias? || s.calls[l.call].InsertingAlias?
    requires Next(h, s, l).calls[l.call].Done? && Next(h, s, l).calls[l.call].reply.AliasSet?
    ensures var call, t' := s.calls[l.call], Next(h, s, l).tables;
            ((call.id, call.alias) in t'.aliases && t'.aliases[(call.id, call.alias)].version == call.v)
            <==> call.id in s.tables.functions
  {
    ReachableInv(h, s);
    assert LocalsStay(s, s.calls[l.call]);
  }

  // ---------------------------------------------------------------------------------------------
  // Names
  // ---------------------------------------------------------------------------------------------

  ghost predicate NamesValid(h: Host, s: System) {
    && (forall n | n in s.tables.names :: IsValidName(n, h.beyondAscii))
    && (forall c | c in s.calls && s.calls[c].Creating? :: IsValidName(s.calls[c].spec.name, h.beyondAscii))
  }

  lemma StepKeepsNames(h: Host, s: System, l: Label)
    requires NamesValid(h, s) && Enabled(s, l)
    ensures NamesValid(h, Next(h, s, l))
  {
    if l.Go? && Writes(s.calls[l.call]) {
      WriteIsTheLastStatement(h, s.tables, s.calls[l.call], l.now, l.uuid);
    }
  }

  lemma {:induction false} RunKeepsNames(h: Host, s: System, run: seq<Label>)
    requires NamesValid(h, s) && IsRun(h, s, run)
    ensures NamesValid(h, After(h, s, run))
    decreases |run|
  {
    if run != [] {
      StepKeepsNames(h, s, run[0]);
      RunKeepsNames(h, Next(h, s, run[0]), run[1..]);
    }
  }

  /** Names are checked on creation only, and yet every function that exists at any moment of any run has
      a valid name. */
  lemma EveryNameIsValid(h: Host, s: System, id: FunctionId)
    requires Reachable(h, s) && id in s.tables.functions
    ensures IsValidName(s.tables.functions[id].name, h.beyondAscii)
  {
    var run :| IsRun(h, EMPTY_SYSTEM, run) && After(h, EMPTY_SYSTEM, run) == s;
    RunKeepsNames(h, EMPTY_SYSTEM, run);
    ReachableInv(h, s);
  }
}
