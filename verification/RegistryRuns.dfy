/** Statements about whole runs of the registry: where published code comes from, what an alias
keeps pinned, and that every stored hash is the hash of the code beside it. */
module RegistryRuns {
  import opened Wrappers
  import opened Text
  import opened References
  import opened RegistryTables
  import opened RegistryCalls
  import opened RegistrySafety

  // ---------------------------------------------------------------------------------------------
  // Traces: runs with all their states
  // ---------------------------------------------------------------------------------------------

  ghost predicate IsTrace(h: Host, states: seq<System>, labels: seq<Label>) {
    && |states| == |labels| + 1
    && states[0] == EMPTY_SYSTEM
    && forall i | 0 <= i < |labels| :: Enabled(states[i], labels[i]) && states[i + 1] == Next(h, states[i], labels[i])
  }

  lemma {:induction false} TraceKeepsInv(h: Host, states: seq<System>, labels: seq<Label>, n: nat)
    requires IsTrace(h, states, labels) && n < |states|
    ensures Inv(states[n])
  {
    if n > 0 {
      TraceKeepsInv(h, states, labels, n - 1);
      StepKeepsInv(h, states[n - 1], labels[n - 1]);
    }
  }

  // ---------------------------------------------------------------------------------------------
  // A version is a snapshot of $LATEST taken inside the call that published it
  // ---------------------------------------------------------------------------------------------

  /** The call has read the settings of `id` and still carries them towards its INSERT. */
  predicate Carries(s: System, c: CallId, id: FunctionId, settings: Settings) {
    && c in s.calls
    && (s.calls[c].Numbering? || s.calls[c].Inserting?)
    && s.calls[c].id == id
    && s.calls[c].settings == settings
  }

  predicate ReadsLatest(s: System, l: Label, c: CallId, id: FunctionId, settings: Settings) {
    && l.Go? && l.call == c
    && c in s.calls && s.calls[c] == Publishing(id)
    && id in s.tables.functions && s.tables.functions[id].settings == settings
  }

  /** Call `c` read `settings` from the row of `id` in step `i` and has carried them up to state `m`. */
  ghost predicate ReadAndCarried(
    states: seq<System>, labels: seq<Label>, i: nat, m: nat, c: CallId, id: FunctionId, settings: Settings)
    requires |states| == |labels| + 1 && m < |states|
  {
    && i < m && ReadsLatest(states[i], labels[i], c, id, settings)
    && forall k | i < k <= m :: Carries(states[k], c, id, settings)
  }

  lemma {:induction false} CarriedSettingsWereRead(h: Host, states: seq<System>, labels: seq<Label>, m: nat, c: CallId)
    requires IsTrace(h, states, labels) && m < |states|
    requires c in states[m].calls && (states[m].calls[c].Numbering? || states[m].calls[c].Inserting?)
    ensures exists i: nat :: ReadAndCarried(states, labels, i, m, c, states[m].calls[c].id, states[m].calls[c].settings)
  {
    var id, settings := states[m].calls[c].id, states[m].calls[c].settings;
    assert m > 0;
    var s, l := states[m - 1], labels[m - 1];
    if Carries(s, c, id, settings) {
      CarriedSettingsWereRead(h, states, labels, m - 1, c);
      var i: nat :| ReadAndCarried(states, labels, i, m - 1, c, id, settings);
      assert ReadAndCarried(states, labels, i, m, c, id, settings);
    } else {
      OnlyTheReadStartsCarrying(h, s, l, c, id, settings);
      assert ReadAndCarried(states, labels, m - 1, m, c, id, settings);
    }
  }

  lemma OnlyTheReadStartsCarrying(h: Host, s: System, l: Label, c: CallId, id: FunctionId, settings: Settings)
    requires Enabled(s, l)
    requires Carries(Next(h, s, l), c, id, settings) && !Carries(s, c, id, settings)
    ensures ReadsLatest(s, l, c, id, settings)
  {
    if l.Go? && l.call == c && Writes(s.calls[c]) {
      WriteIsTheLastStatement(h, s.tables, s.calls[c], l.now, l.uuid);
    }
  }

  /** Row `(id, v)` was inserted in step `j` by a call that had read exactly these settings, as the
      function's $LATEST, in an earlier step `i` and was in flight from `i` to `j`. */
  ghost predicate SnapshotTaken(
    states: seq<System>, labels: seq<Label>, i: nat, j: nat, c: CallId, id: FunctionId, v: U32, settings: Settings)
    requires |states| == |labels| + 1 && j < |labels|
  {
    && ReadAndCarried(states, labels, i, j, c, id, settings)
    && labels[j].Go? && labels[j].call == c
    && states[j].calls[c] == Inserting(id, settings, v)
    && (id, v) !in states[j].tables.versions && (id, v) in states[j + 1].tables.versions
  }

  ghost predicate IsSnapshot(
    states: seq<System>, labels: seq<Label>, n: nat, id: FunctionId, v: U32, settings: Settings)
    requires |states| == |labels| + 1 && n < |states|
  {
    exists i: nat, j: nat, c: CallId :: j < n && SnapshotTaken(states, labels, i, j, c, id, v, settings)
  }

  /** Every version row, as it stands at any moment of any run, was the function's $LATEST at some
      moment inside the call that published it. */
  lemma {:induction false} VersionsAreSnapshotsOfLatest(
    h: Host, states: seq<System>, labels: seq<Label>, n: nat, id: FunctionId, v: U32)
    requires IsTrace(h, states, labels) && n < |states| && (id, v) in states[n].tables.versions
    ensures IsSnapshot(states, labels, n, id, v, states[n].tables.versions[(id, v)].settings)
  {
    assert n > 0;
    if (id, v) in states[n - 1].tables.versions {
      RowOutlastsStep(h, states, labels, n, id, v);
      VersionsAreSnapshotsOfLatest(h, states, labels, n - 1, id, v);
      SnapshotStaysSnapshot(states, labels, n, id, v, states[n].tables.versions[(id, v)].settings);
    } else {
      InsertedRowIsSnapshot(h, states, labels, n, id, v);
    }
  }

  lemma SnapshotStaysSnapshot(
    states: seq<System>, labels: seq<Label>, n: nat, id: FunctionId, v: U32, settings: Settings)
    requires |states| == |labels| + 1 && 0 < n < |states| && IsSnapshot(states, labels, n - 1, id, v, settings)
    ensures IsSnapshot(states, labels, n, id, v, settings)
  {
    var i: nat, j: nat, c :| j < n - 1 && SnapshotTaken(states, labels, i, j, c, id, v, settings);
  }

  lemma TraceStep(h: Host, states: seq<System>, labels: seq<Label>, n: nat)
    requires IsTrace(h, states, labels) && n < |labels|
    ensures Enabled(states[n], labels[n]) && Next(h, states[n], labels[n]) == states[n + 1]
  {
  }

  lemma RowOutlastsStep(h: Host, states: seq<System>, labels: seq<Label>, n: nat, id: FunctionId, v: U32)
    requires IsTrace(h, states, labels) && 0 < n < |states|
    requires (id, v) in states[n - 1].tables.versions && (id, v) in states[n].tables.versions
    ensures states[n].tables.versions[(id, v)] == states[n - 1].tables.versions[(id, v)]
  {
    TraceKeepsInv(h, states, labels, n - 1);
    TraceStep(h, states, labels, n - 1);
    RowIsKept(h, states[n - 1], labels[n - 1], states[n], (id, v));
  }

  lemma RowIsKept(h: Host, s: System, l: Label, s': System, k: (FunctionId, U32))
    requires Inv(s) && Enabled(s, l) && Next(h, s, l) == s'
    requires k in s.tables.versions && k in s'.tables.versions
    ensures s'.tables.versions[k] == s.tables.versions[k]
  {
    StepKeepsInv(h, s, l);
    StepGrows(h, s, l);
  }

  lemma InsertedRowIsSnapshot(h: Host, states: seq<System>, labels: seq<Label>, n: nat, id: FunctionId, v: U32)
    requires IsTrace(h, states, labels) && 0 < n < |states|
    requires (id, v) !in states[n - 1].tables.versions && (id, v) in states[n].tables.versions
    ensures IsSnapshot(states, labels, n, id, v, states[n].tables.versions[(id, v)].settings)
  {
    var settings, c := states[n].tables.versions[(id, v)].settings, labels[n - 1].call;
    OnlyAnInsertAddsVersions(h, states[n - 1], labels[n - 1], id, v);
    CarriedSettingsWereRead(h, states, labels, n - 1, c);
    var i: nat :| ReadAndCarried(states, labels, i, n - 1, c, id, settings);
    assert SnapshotTaken(states, labels, i, n - 1, c, id, v, settings);
  }

  lemma OnlyAnInsertAddsVersions(h: Host, s: System, l: Label, id: FunctionId, v: U32)
    requires Enabled(s, l)
    requires (id, v) !in s.tables.versions && (id, v) in Next(h, s, l).tables.versions
    ensures l.Go? && l.call in s.calls
    ensures s.calls[l.call] == Inserting(id, Next(h, s, l).tables.versions[(id, v)].settings, v)
  {
  }

  /** Once a number is taken, a call that still carries it can never insert anything. */
  lemma TakenNumberIsNeverInsertedAgain(h: Host, s: System, run: seq<Label>, id: FunctionId, v: U32, l: Label)
    requires Reachable(h, s) && (id, v) in s.tables.versions && IsRun(h, s, run)
    requires Enabled(After(h, s, run), l) && l.Go?
    requires var c := After(h, s, run).calls[l.call]; c.Inserting? && c.id == id && c.version == v
    ensures var s1 := After(h, s, run);
            && Next(h, s1, l).tables == s1.tables
            && Next(h, s1, l).calls[l.call].Done? && Next(h, s1, l).calls[l.call].reply.Failed?
  {
    ReachableInv(h, s);
    RunKeepsInv(h, s, run);
  }

  // ---------------------------------------------------------------------------------------------
  // $LATEST is what its creation or one update made it
  // ---------------------------------------------------------------------------------------------

  ghost predicate TakesStep(states: seq<System>, labels: seq<Label>, j: nat, c: CallId, at: Call)
    requires |states| == |labels| + 1 && j < |labels|
  {
    labels[j].Go? && labels[j].call == c && c in states[j].calls && states[j].calls[c] == at
  }

  /** In step `i` call `c` read the row of `id`, and up to state `m` it carries the row merged with its
      changes. */
  ghost predicate ReadAndMerged(
    h: Host, states: seq<System>, labels: seq<Label>, i: nat, m: nat, c: CallId, id: FunctionId, changes: Changes)
    requires |states| == |labels| + 1 && m < |states|
  {
    && i < m && TakesStep(states, labels, i, c, Updating(id, changes)) && id in states[i].tables.functions
    && forall k | i < k <= m ::
         c in states[k].calls && states[k].calls[c] == Writing(id, Merge(h, states[i].tables.functions[id], changes))
  }

  lemma {:induction false} WritingWasMerged(h: Host, states: seq<System>, labels: seq<Label>, m: nat, c: CallId)
    requires IsTrace(h, states, labels) && m < |states| && c in states[m].calls && states[m].calls[c].Writing?
    ensures exists i: nat, changes :: ReadAndMerged(h, states, labels, i, m, c, states[m].calls[c].id, changes)
  {
    assert m > 0;
    var s, l, call := states[m - 1], labels[m - 1], states[m].calls[c];
    TraceStep(h, states, labels, m - 1);
    if c in s.calls && s.calls[c] == call {
      WritingWasMerged(h, states, labels, m - 1, c);
      var i: nat, changes :| ReadAndMerged(h, states, labels, i, m - 1, c, call.id, changes);
      assert ReadAndMerged(h, states, labels, i, m, c, call.id, changes);
    } else {
      OnlyTheReadMerges(h, s, l, c);
      assert ReadAndMerged(h, states, labels, m - 1, m, c, call.id, s.calls[c].changes);
    }
  }

  lemma OnlyTheReadMerges(h: Host, s: System, l: Label, c: CallId)
    requires Enabled(s, l) && c in Next(h, s, l).calls && Next(h, s, l).calls[c].Writing?
    requires !(c in s.calls && s.calls[c] == Next(h, s, l).calls[c])
    ensures l.Go? && l.call == c && c in s.calls && s.calls[c].Updating?
    ensures var Updating(id, changes) := s.calls[c];
            id in s.tables.functions && Next(h, s, l).calls[c] == Writing(id, Merge(h, s.tables.functions[id], changes))
  {
    if l.Go? && l.call == c && Writes(s.calls[c]) {
      WriteIsTheLastStatement(h, s.tables, s.calls[c], l.now, l.uuid);
    }
  }

  /** The row was inserted in step `j` by the call that created the function. */
  ghost predicate CreatedAs(
    h: Host, states: seq<System>, labels: seq<Label>, j: nat, c: CallId, spec: NewFunction, id: FunctionId,
    row: FunctionRow)
    requires |states| == |labels| + 1 && j < |labels|
  {
    TakesStep(states, labels, j, c, Creating(spec)) && labels[j].uuid == id && row == NewRow(h, spec, labels[j].now)
  }

  /** The row was written in step `j` by an update that had read its base in an earlier step `i`, and is
      that base with the changes merged in. */
  ghost predicate UpdatedAs(
    h: Host, states: seq<System>, labels: seq<Label>, i: nat, j: nat, c: CallId, id: FunctionId, changes: Changes,
    row: FunctionRow)
    requires |states| == |labels| + 1 && j < |labels|
  {
    && ReadAndMerged(h, states, labels, i, j, c, id, changes)
    && labels[j].Go? && labels[j].call == c
    && row.settings == Merge(h, states[i].tables.functions[id], changes).settings
    && row.description == Merge(h, states[i].tables.functions[id], changes).description
  }

  ghost predicate IsCreationOrUpdate(
    h: Host, states: seq<System>, labels: seq<Label>, n: nat, id: FunctionId, row: FunctionRow)
    requires |states| == |labels| + 1 && n < |states|
  {
    || (exists j: nat, c, spec :: j < n && CreatedAs(h, states, labels, j, c, spec, id, row))
    || (exists i: nat, j: nat, c, changes :: j < n && UpdatedAs(h, states, labels, i, j, c, id, changes, row))
  }

  /** At every moment of every run the row of a function is the one its creation inserted, or the merge
      of one row, read inside the last updating call, with that call's changes: updates may be lost
      to each other, but never mixed. */
  lemma {:induction false} LatestIsCreationOrUpdate(
    h: Host, states: seq<System>, labels: seq<Label>, n: nat, id: FunctionId)
    requires IsTrace(h, states, labels) && n < |states| && id in states[n].tables.functions
    ensures IsCreationOrUpdate(h, states, labels, n, id, states[n].tables.functions[id])
  {
    assert n > 0;
    var s, l, row := states[n - 1], labels[n - 1], states[n].tables.functions[id];
    TraceStep(h, states, labels, n - 1);
    if id in s.tables.functions && s.tables.functions[id] == row {
      LatestIsCreationOrUpdate(h, states, labels, n - 1, id);
      LatestStays(h, states, labels, n, id, row);
    } else {
      OnlyTwoCallsChangeRows(h, s, l, id);
      if s.calls[l.call].Creating? {
        assert CreatedAs(h, states, labels, n - 1, l.call, s.calls[l.call].spec, id, row);
      } else {
        WritingWasMerged(h, states, labels, n - 1, l.call);
        var i: nat, changes :| ReadAndMerged(h, states, labels, i, n - 1, l.call, id, changes);
        assert UpdatedAs(h, states, labels, i, n - 1, l.call, id, changes, row);
      }
    }
  }

  lemma LatestStays(h: Host, states: seq<System>, labels: seq<Label>, n: nat, id: FunctionId, row: FunctionRow)
    requires |states| == |labels| + 1 && 0 < n < |states| && IsCreationOrUpdate(h, states, labels, n - 1, id, row)
    ensures IsCreationOrUpdate(h, states, labels, n, id, row)
  {
    if j: nat, c, spec :| j < n - 1 && CreatedAs(h, states, labels, j, c, spec, id, row) {
    } else {
      var i: nat, j: nat, c, changes :| j < n - 1 && UpdatedAs(h, states, labels, i, j, c, id, changes, row);
    }
  }

  lemma OnlyTwoCallsChangeRows(h: Host, s: System, l: Label, id: FunctionId)
    requires Enabled(s, l) && id in Next(h, s, l).tables.functions
    requires !(id in s.tables.functions && s.tables.functions[id] == Next(h, s, l).tables.functions[id])
    ensures l.Go? && l.call in s.calls
    ensures var call, row := s.calls[l.call], Next(h, s, l).tables.functions[id];
            || (call.Creating? && l.uuid == id && row == NewRow(h, call.spec, l.now))
            || (call.Writing? && call.id == id && row.settings == call.merged.settings
                && row.description == call.merged.description)
  {
  }

  /** An update always reports success, and has stored what it reports exactly when the function was not
      deleted under it. */
  lemma ReportedUpdateIsStoredIffFunctionLives(h: Host, s: System, l: Label)
    requires Enabled(s, l) && l.Go? && s.calls[l.call].Writing?
    ensures var Writing(id, merged) := s.calls[l.call];
            var s' := Next(h, s, l);
            && s'.calls[l.call] == Done(Updated(merged.(updatedAt := l.now)))
            && (id in s'.tables.functions && s'.tables.functions[id].settings == merged.settings
                <==> id in s.tables.functions)
            && (id !in s.tables.functions ==> s'.tables == s.tables)
  {
  }

  // ---------------------------------------------------------------------------------------------
  // Racing upserts
  // ---------------------------------------------------------------------------------------------

  /** The stages of a call that creates an alias. */
  predicate IsCreatingAlias(c: Call) {
    c.CheckingTarget? || c.InsertingAlias? || c.Done?
  }

  predicate OnlyCreatesAlias(run: seq<Label>, c: CallId, id: FunctionId, alias: string, target: VersionRef) {
    forall i | 0 <= i < |run| :: run[i].Begin? && run[i].call == c ==> run[i].request == CreateAlias(id, alias, target)
  }

  lemma {:induction false} CreationKeepsItsStages(
    h: Host, s: System, run: seq<Label>, c: CallId, id: FunctionId, alias: string, target: VersionRef)
    requires IsRun(h, s, run) && OnlyCreatesAlias(run, c, id, alias, target)
    requires c in s.calls ==> IsCreatingAlias(s.calls[c])
    ensures c in After(h, s, run).calls ==> IsCreatingAlias(After(h, s, run).calls[c])
    decreases |run|
  {
    if run != [] {
      if run[0].Go? && run[0].call == c && Writes(s.calls[c]) {
        WriteIsTheLastStatement(h, s.tables, s.calls[c], run[0].now, run[0].uuid);
      }
      assert forall i | 0 <= i < |run[1..]| :: run[1..][i] == run[i + 1];
      CreationKeepsItsStages(h, Next(h, s, run[0]), run[1..], c, id, alias, target);
    }
  }

  /** In every run, a call begun to create an alias never changes an alias row that exists: each of its
      statements leaves all rows as they were, and adds at most one. */
  lemma CreationNeverRepoints(
    h: Host, s: System, run: seq<Label>, l: Label, id: FunctionId, alias: string, target: VersionRef)
    requires IsRun(h, s, run) && l.Go? && l.call !in s.calls && OnlyCreatesAlias(run, l.call, id, alias, target)
    requires Enabled(After(h, s, run), l)
    ensures var t, t' := After(h, s, run).tables, Next(h, After(h, s, run), l).tables;
            && (forall k | k in t.aliases :: k in t'.aliases && t'.aliases[k] == t.aliases[k])
            && t' == t.(aliases := t'.aliases)
  {
    CreationKeepsItsStages(h, s, run, l.call, id, alias, target);
  }

  lemma {:induction false} TraceGrows(h: Host, states: seq<System>, labels: seq<Label>, m: nat, n: nat)
    requires IsTrace(h, states, labels) && m <= n < |states|
    ensures Grows(states[m], states[n])
    decreases n - m
  {
    if m < n {
      TraceKeepsInv(h, states, labels, m);
      TraceStep(h, states, labels, m);
      StepGrows(h, states[m], labels[m]);
      TraceGrows(h, states, labels, m + 1, n);
      GrowsTransitive(states[m], states[m + 1], states[n]);
    }
  }

  lemma GrowsTransitive(s: System, s1: System, s2: System)
    requires Inv(s) && Grows(s, s1) && Grows(s1, s2)
    ensures Grows(s, s2)
  {
    assert forall k | k in s.tables.versions :: k.0 in s.tables.functions;
    assert forall k | k in s.tables.aliases :: (k.0, s.tables.aliases[k].version) in s.tables.versions;
  }

  /** The stages of an upsert of `alias` to version `v`, and the five ways in which it can end. */
  predicate IsUpserting(c: Call, id: FunctionId, alias: string, v: U32) {
    || c == UpsertFunction(id, alias, v) || c == UpsertVersion(id, alias, v)
    || c == CheckingUpdate(id, alias, v, CreateIt) || c == ReadingAlias(id, alias, v, CreateIt)
    || (c.WritingAlias? && c.id == id && c.alias == alias && c.v == v)
    || c == CheckingTarget(id, alias, v) || c == InsertingAlias(id, alias, v)
    || (c.Done? && c.reply.AliasSet? && c.reply.alias.version == v)
    || c == Fail(FunctionNotFound(ById(id))) || c == Fail(VersionNotFound(id, v))
    || c == Fail(AliasAlreadyExists) || c == Fail(Database(ForeignKeyFailed))
  }

  lemma ReadKeepsUpserting(h: Host, t: Tables, c: Call, id: FunctionId, alias: string, v: U32)
    requires IsUpserting(c, id, alias, v) && !Writes(c) && !c.Done?
    ensures IsUpserting(Read(h, t, c), id, alias, v)
  {
  }

  lemma WriteKeepsUpserting(
    h: Host, t: Tables, c: Call, now: nat, uuid: FunctionId, id: FunctionId, alias: string, v: U32)
    requires IsUpserting(c, id, alias, v) && Writes(c)
    ensures IsUpserting(Write(h, t, c, now, uuid).1, id, alias, v)
  {
  }

  predicate OnlyUpserts(run: seq<Label>, c: CallId, id: FunctionId, alias: string, v: U32) {
    forall i | 0 <= i < |run| ::
      run[i].Begin? && run[i].call == c ==> run[i].request == UpsertAlias(id, alias, Number(v))
  }

  /** Whatever runs in between, an upsert to a version keeps to its function, alias and version, and ends
      with that version set or in one of four failures. */
  lemma {:induction false} UpsertKeepsItsTarget(
    h: Host, s: System, run: seq<Label>, c: CallId, id: FunctionId, alias: string, v: U32)
    requires IsRun(h, s, run) && OnlyUpserts(run, c, id, alias, v)
    requires c in s.calls ==> IsUpserting(s.calls[c], id, alias, v)
    ensures c in After(h, s, run).calls ==> IsUpserting(After(h, s, run).calls[c], id, alias, v)
    decreases |run|
  {
    if run != [] {
      var s', l := Next(h, s, run[0]), run[0];
      if l.Go? && l.call == c {
        if Writes(s.calls[c]) {
          WriteKeepsUpserting(h, s.tables, s.calls[c], l.now, l.uuid, id, alias, v);
        } else {
          ReadKeepsUpserting(h, s.tables, s.calls[c], id, alias, v);
        }
      }
      assert forall i | 0 <= i < |run[1..]| :: run[1..][i] == run[i + 1];
      UpsertKeepsItsTarget(h, s', run[1..], c, id, alias, v);
    }
  }

  predicate IsInsertOf(c: Call, id: FunctionId, alias: string) {
    c.InsertingAlias? && c.id == id && c.alias == alias
  }

  /** Step `j` is another call's INSERT of the alias, and it succeeds. */
  ghost predicate CreatedByAnother(
    states: seq<System>, labels: seq<Label>, j: nat, c: CallId, id: FunctionId, alias: string)
    requires |states| == |labels| + 1 && j < |labels|
  {
    && labels[j].Go? && labels[j].call != c && labels[j].call in states[j].calls
    && IsInsertOf(states[j].calls[labels[j].call], id, alias)
    && (id, alias) !in states[j].tables.aliases && (id, alias) in states[j + 1].tables.aliases
  }

  /** Up to state `n`, call `c` is on its way to insert the alias it did not find in step `i`. */
  ghost predicate MissedAndCreating(
    states: seq<System>, labels: seq<Label>, i: nat, n: nat, c: CallId, id: FunctionId, alias: string, v: U32)
    requires |states| == |labels| + 1 && n < |states|
  {
    && i < n && TakesStep(states, labels, i, c, ReadingAlias(id, alias, v, CreateIt))
    && (id, alias) !in states[i].tables.aliases
    && forall k | i < k <= n ::
         c in states[k].calls
         && (states[k].calls[c] == CheckingTarget(id, alias, v) || states[k].calls[c] == InsertingAlias(id, alias, v))
  }

  /** Only an INSERT adds an alias, and the call that did it is done. */
  lemma AliasWasAdded(h: Host, s: System, l: Label, s': System, c: CallId, id: FunctionId, alias: string)
    requires Enabled(s, l) && Next(h, s, l) == s' && c in s'.calls && !s'.calls[c].Done?
    requires (id, alias) !in s.tables.aliases && (id, alias) in s'.tables.aliases
    ensures l.Go? && l.call in s.calls && l.call != c && IsInsertOf(s.calls[l.call], id, alias)
  {
  }

  lemma AliasWasAddedBehind(
    h: Host, states: seq<System>, labels: seq<Label>, i: nat, j: nat, n: nat, c: CallId, id: FunctionId, alias: string,
    v: U32)
    requires IsTrace(h, states, labels) && n < |states| && MissedAndCreating(states, labels, i, n, c, id, alias, v)
    requires i <= j < n && (id, alias) !in states[j].tables.aliases && (id, alias) in states[j + 1].tables.aliases
    ensures i < j && CreatedByAnother(states, labels, j, c, id, alias)
  {
    TraceStep(h, states, labels, j);
    AliasWasAdded(h, states[j], labels[j], states[j + 1], c, id, alias);
  }

  lemma {:induction false} AliasAppears(states: seq<System>, m: nat, n: nat, k: AliasKey) returns (j: nat)
    requires m <= n < |states| && k !in states[m].tables.aliases && k in states[n].tables.aliases
    ensures m <= j < n && k !in states[j].tables.aliases && k in states[j + 1].tables.aliases
    decreases n
  {
    if k in states[n - 1].tables.aliases {
      j := AliasAppears(states, m, n - 1, k);
    } else {
      j := n - 1;
    }
  }

  lemma AliasWasCreated(
    h: Host, states: seq<System>, labels: seq<Label>, i: nat, n: nat, c: CallId, id: FunctionId, alias: string, v: U32)
    requires IsTrace(h, states, labels) && n < |states| && MissedAndCreating(states, labels, i, n, c, id, alias, v)
    requires (id, alias) in states[n].tables.aliases
    ensures exists j: nat :: i < j < n && CreatedByAnother(states, labels, j, c, id, alias)
  {
    var j := AliasAppears(states, i, n, (id, alias));
    AliasWasAddedBehind(h, states, labels, i, j, n, c, id, alias, v);
  }

  /** How an upsert that goes on to create its alias ends. It loses exactly when another call created the
      alias after it had looked and the function is still there; it misses the function exactly when
      that was deleted; in all other cases it sets the alias. */
  lemma UpsertLosesIffAnotherCreated(
    h: Host, states: seq<System>, labels: seq<Label>, i: nat, n: nat, c: CallId, id: FunctionId, alias: string, v: U32)
    requires IsTrace(h, states, labels) && n < |labels| && MissedAndCreating(states, labels, i, n, c, id, alias, v)
    requires TakesStep(states, labels, n, c, InsertingAlias(id, alias, v))
    ensures var t, t' := states[n].tables, states[n + 1].tables;
            if id !in t.functions then
              states[n + 1].calls[c] == Fail(Database(ForeignKeyFailed)) && t' == t
            else if exists j: nat :: i < j < n && CreatedByAnother(states, labels, j, c, id, alias) then
              states[n + 1].calls[c] == Fail(AliasAlreadyExists) && t' == t
            else
              var row := AliasRow(v, labels[n].now, labels[n].now);
              states[n + 1].calls[c] == Done(AliasSet(row)) && t' == t.(aliases := t.aliases[(id, alias) := row])
  {
    TraceStep(h, states, labels, n);
    TraceKeepsInv(h, states, labels, n);
    AliasInsertOutcome(h, states[n], labels[n]);
    if (id, alias) in states[n].tables.aliases {
      AliasWasCreated(h, states, labels, i, n, c, id, alias, v);
    } else if j: nat :| i < j < n && CreatedByAnother(states, labels, j, c, id, alias) {
      TraceGrows(h, states, labels, j + 1, n);
    }
  }

  lemma AliasInsertOutcome(h: Host, s: System, l: Label)
    requires Inv(s) && Enabled(s, l) && l.Go? && s.calls[l.call].InsertingAlias?
    ensures var InsertingAlias(id, alias, v) := s.calls[l.call];
            var s', row := Next(h, s, l), AliasRow(v, l.now, l.now);
            if (id, alias) in s.tables.aliases then
              id in s.tables.functions && s'.calls[l.call] == Fail(AliasAlreadyExists) && s'.tables == s.tables
            else if id !in s.tables.functions then
              s'.calls[l.call] == Fail(Database(ForeignKeyFailed)) && s'.tables == s.tables
            else
              && s'.calls[l.call] == Done(AliasSet(row))
              && s'.tables == s.tables.(aliases := s.tables.aliases[(id, alias) := row])
  {
    assert SeenVersionStays(s, s.calls[l.call]);
    var InsertingAlias(id, alias, v) := s.calls[l.call];
    assert (id, v) in s.tables.versions <==> id in s.tables.functions;
  }

  // ---------------------------------------------------------------------------------------------
  // Hashes
  // ---------------------------------------------------------------------------------------------

  predicate Hashed(h: Host, s: Settings) {
    s.codeHash == h.hash(s.code)
  }

  /** The settings a call holds in its locals or has returned. */
  function HeldSettings(c: Call): Option<Settings> {
    match c
    case Writing(_, merged) => Some(merged.settings)
    case Numbering(_, settings) => Some(settings)
    case Inserting(_, settings, _) => Some(settings)
    case LoadingBase(_, _, frozen) => Some(frozen.settings)
    case ActivatingAlias(_, base, _) => Some(base.settings)
    case ActivatingVersion(_, base, _) => Some(base.settings)
    case Done(Created(_, row)) => Some(row.settings)
    case Done(Updated(row)) => Some(row.settings)
    case Done(Published(_, row)) => Some(row.settings)
    case Done(Resolved(_, settings)) => Some(settings)
    case Done(Loaded(_, _, settings)) => Some(settings)
    case _ => None
  }

  ghost predicate CallHashed(h: Host, c: Call) {
    HeldSettings(c).Some? ==> Hashed(h, HeldSettings(c).value)
  }

  ghost predicate TablesHashed(h: Host, t: Tables) {
    && (forall id | id in t.functions :: Hashed(h, t.functions[id].settings))
    && (forall k | k in t.versions :: Hashed(h, t.versions[k].settings))
  }

  ghost predicate AllHashed(h: Host, s: System) {
    TablesHashed(h, s.tables) && forall c | c in s.calls :: CallHashed(h, s.calls[c])
  }

  lemma WriteKeepsHashes(h: Host, t: Tables, c: Call, now: nat, uuid: FunctionId)
    requires TablesHashed(h, t) && CallHashed(h, c) && Writes(c)
    ensures TablesHashed(h, Write(h, t, c, now, uuid).0)
  {
  }

  lemma WriteRepliesHashed(h: Host, t: Tables, c: Call, now: nat, uuid: FunctionId)
    requires CallHashed(h, c) && Writes(c)
    ensures CallHashed(h, Write(h, t, c, now, uuid).1)
  {
  }

  lemma ReadKeepsHashes(h: Host, t: Tables, c: Call)
    requires TablesHashed(h, t) && CallHashed(h, c) && !Writes(c) && !c.Done?
    ensures CallHashed(h, Read(h, t, c))
  {
  }

  lemma StepKeepsHashes(h: Host, s: System, l: Label)
    requires AllHashed(h, s) && Enabled(s, l)
    ensures AllHashed(h, Next(h, s, l))
  {
    if l.Go? {
      assert CallHashed(h, s.calls[l.call]);
      if Writes(s.calls[l.call]) {
        WriteKeepsHashes(h, s.tables, s.calls[l.call], l.now, l.uuid);
        WriteRepliesHashed(h, s.tables, s.calls[l.call], l.now, l.uuid);
      } else {
        ReadKeepsHashes(h, s.tables, s.calls[l.call]);
      }
    } else if l.Begin? {
      assert HeldSettings(Start(h, l.request)).None?;
    }
  }

  lemma {:induction false} RunKeepsHashes(h: Host, s: System, run: seq<Label>)
    requires AllHashed(h, s) && IsRun(h, s, run)
    ensures AllHashed(h, After(h, s, run))
    decreases |run|
  {
    if run != [] {
      StepKeepsHashes(h, s, run[0]);
      RunKeepsHashes(h, Next(h, s, run[0]), run[1..]);
    }
  }

  /** Even with lost updates between the read and the write of an update, and between the read and
      the insert of a publication, every stored, carried or returned hash fits its own code. */
  lemma HashesAlwaysFitTheirCode(h: Host, s: System)
    requires Reachable(h, s)
    ensures AllHashed(h, s)
  {
    var run :| IsRun(h, EMPTY_SYSTEM, run) && After(h, EMPTY_SYSTEM, run) == s;
    RunKeepsHashes(h, EMPTY_SYSTEM, run);
  }

  // ---------------------------------------------------------------------------------------------
  // Alias pinning
  // ---------------------------------------------------------------------------------------------

  predicate Pinned(t: Tables, id: FunctionId, name: string, alias: string, v: U32, settings: Settings) {
    && id in t.functions && t.functions[id].name == name && name in t.names && t.names[name] == id
    && (id, alias) in t.aliases && t.aliases[(id, alias)].version == v
    && (id, v) in t.versions && t.versions[(id, v)].settings == settings
  }

  /** The step deletes the function, or points its alias at another version. */
  predicate Disturbs(s: System, l: Label, id: FunctionId, alias: string, v: U32) {
    && l.Go? && l.call in s.calls
    && (|| s.calls[l.call] == Deleting(id)
        || (var c := s.calls[l.call]; c.WritingAlias? && c.id == id && c.alias == alias && c.v != v))
  }

  ghost predicate Undisturbed(h: Host, s: System, run: seq<Label>, id: FunctionId, alias: string, v: U32)
    requires IsRun(h, s, run)
    decreases |run|
  {
    run != [] ==> !Disturbs(s, run[0], id, alias, v) && Undisturbed(h, Next(h, s, run[0]), run[1..], id, alias, v)
  }

  /** The stages of an invocation of `name:alias` that has met nothing but the pinned version. */
  predicate OnTrack(c: Call, id: FunctionId, name: string, alias: string, v: U32, settings: Settings) {
    || c == InvokingName(name, Some(alias))
    || c == InvokingAlias(id, alias)
    || c == LoadingVersion(id, v)
    || (c.LoadingBase? && c.id == id && c.v == v && c.frozen.settings == settings)
    || c == Done(Loaded(id, Some(v), settings))
  }

  lemma WriteKeepsPin(
    h: Host, t: Tables, c: Call, now: nat, uuid: FunctionId, id: FunctionId, name: string, alias: string, v: U32,
    settings: Settings)
    requires Writes(c) && NamesIndexed(t) && Pinned(t, id, name, alias, v, settings)
    requires c != Deleting(id) && !(c.WritingAlias? && c.id == id && c.alias == alias && c.v != v)
    ensures Pinned(Write(h, t, c, now, uuid).0, id, name, alias, v, settings)
  {
    match c {
      case Creating(spec) =>
        if InsertFunction(t, uuid, NewRow(h, spec, now)).Ok? {
          CreatingKeepsPin(t, uuid, NewRow(h, spec, now), id, name, alias, v, settings);
        }
      case Writing(other, merged) =>
      case Deleting(other) => DeletingAnotherKeepsPin(t, other, id, name, alias, v, settings);
      case Inserting(other, row, w) =>
      case InsertingAlias(other, a, w) =>
      case WritingAlias(other, a, w, current) =>
    }
  }

  lemma CreatingKeepsPin(
    t: Tables, other: FunctionId, row: FunctionRow, id: FunctionId, name: string, alias: string, v: U32,
    settings: Settings)
    requires Pinned(t, id, name, alias, v, settings) && InsertFunction(t, other, row).Ok?
    ensures Pinned(InsertFunction(t, other, row).value, id, name, alias, v, settings)
  {
  }

  lemma DeletingAnotherKeepsPin(
    t: Tables, other: FunctionId, id: FunctionId, name: string, alias: string, v: U32, settings: Settings)
    requires NamesIndexed(t) && Pinned(t, id, name, alias, v, settings) && other != id
    ensures Pinned(DeleteFunctionRow(t, other), id, name, alias, v, settings)
  {
  }

  lemma StepKeepsPin(
    h: Host, s: System, l: Label, id: FunctionId, name: string, alias: string, v: U32, settings: Settings)
    requires Inv(s) && Enabled(s, l) && Pinned(s.tables, id, name, alias, v, settings)
    requires !Disturbs(s, l, id, alias, v)
    ensures Pinned(Next(h, s, l).tables, id, name, alias, v, settings)
  {
    if l.Go? && Writes(s.calls[l.call]) {
      WriteKeepsPin(h, s.tables, s.calls[l.call], l.now, l.uuid, id, name, alias, v, settings);
    }
  }

  lemma ReadStaysOnTrack(
    h: Host, t: Tables, c: Call, id: FunctionId, name: string, alias: string, v: U32, settings: Settings)
    requires Pinned(t, id, name, alias, v, settings) && !c.Done?
    requires OnTrack(c, id, name, alias, v, settings)
    ensures OnTrack(Read(h, t, c), id, name, alias, v, settings)
  {
  }

  lemma StepStaysOnTrack(
    h: Host, s: System, l: Label, c: CallId, id: FunctionId, name: string, alias: string, v: U32, settings: Settings)
    requires Enabled(s, l) && Pinned(s.tables, id, name, alias, v, settings)
    requires Start(h, Invoke(ParseRef(name + ":" + alias))) == InvokingName(name, Some(alias))
    requires l.Begin? && l.call == c ==> l.request == Invoke(ParseRef(name + ":" + alias))
    requires c in s.calls ==> OnTrack(s.calls[c], id, name, alias, v, settings)
    ensures c in Next(h, s, l).calls ==> OnTrack(Next(h, s, l).calls[c], id, name, alias, v, settings)
  {
    if l.Go? && l.call == c {
      ReadStaysOnTrack(h, s.tables, s.calls[c], id, name, alias, v, settings);
    }
  }

  /** What the requests of call `c` within `run` must be for `c` to be an invocation of `ref`. */
  predicate OnlyInvokes(run: seq<Label>, c: CallId, ref: string) {
    forall i | 0 <= i < |run| :: run[i].Begin? && run[i].call == c ==> run[i].request == Invoke(ParseRef(ref))
  }

  lemma {:induction false} RunKeepsPin(
    h: Host, s: System, run: seq<Label>, c: CallId, id: FunctionId, name: string, alias: string, v: U32,
    settings: Settings)
    requires Inv(s) && IsRun(h, s, run) && Pinned(s.tables, id, name, alias, v, settings)
    requires Undisturbed(h, s, run, id, alias, v)
    requires Start(h, Invoke(ParseRef(name + ":" + alias))) == InvokingName(name, Some(alias))
    requires OnlyInvokes(run, c, name + ":" + alias)
    requires c in s.calls ==> OnTrack(s.calls[c], id, name, alias, v, settings)
    ensures Pinned(After(h, s, run).tables, id, name, alias, v, settings)
    ensures c in After(h, s, run).calls ==> OnTrack(After(h, s, run).calls[c], id, name, alias, v, settings)
    decreases |run|
  {
    if run != [] {
      StepKeepsInv(h, s, run[0]);
      StepKeepsPin(h, s, run[0], id, name, alias, v, settings);
      StepStaysOnTrack(h, s, run[0], c, id, name, alias, v, settings);
      assert forall i | 0 <= i < |run[1..]| :: run[1..][i] == run[i + 1];
      RunKeepsPin(h, Next(h, s, run[0]), run[1..], c, id, name, alias, v, settings);
    }
  }

  /** Alias pinning. While `alias` of a function points at version `v`, any run that neither points
      it elsewhere nor deletes the function leaves it so, whatever is updated and published meanwhile;
      and every invocation of `name:alias` begun and finished within that run, interleaved with all
      the rest, loads exactly the settings of version `v`. */
  lemma InvocationsOfPinnedAliasLoadItsVersion(
    h: Host, s: System, run: seq<Label>, c: CallId, id: FunctionId, name: string, alias: string, v: U32,
    settings: Settings)
    requires Reachable(h, s) && IsRun(h, s, run) && Pinned(s.tables, id, name, alias, v, settings)
    requires Undisturbed(h, s, run, id, alias, v)
    requires ':' !in alias
    requires c !in s.calls && OnlyInvokes(run, c, name + ":" + alias)
    ensures Pinned(After(h, s, run).tables, id, name, alias, v, settings)
    ensures c in After(h, s, run).calls && After(h, s, run).calls[c].Done? ==>
              After(h, s, run).calls[c].reply == Loaded(id, Some(v), settings)
  {
    ReachableInv(h, s);
    EveryNameIsValid(h, s, id);
    NameAliasRoundTrip(name, alias, h.beyondAscii);
    RunKeepsPin(h, s, run, c, id, name, alias, v, settings);
  }

  /** The upsert that reports success pins its alias, provided the function was not deleted under it. */
  lemma SuccessfulAliasWritePins(h: Host, s: System, l: Label)
    requires Reachable(h, s) && Enabled(s, l) && l.Go?
    requires s.calls[l.call].WritingAlias? || s.calls[l.call].InsertingAlias?
    requires Next(h, s, l).calls[l.call].Done? && Next(h, s, l).calls[l.call].reply.AliasSet?
    requires s.calls[l.call].id in s.tables.functions
    ensures var c := s.calls[l.call];
            && (c.id, c.v) in s.tables.versions
            && Pinned(Next(h, s, l).tables, c.id, s.tables.functions[c.id].name, c.alias, c.v,
                      s.tables.versions[(c.id, c.v)].settings)
  {
    ReachableInv(h, s);
    assert LocalsStay(s, s.calls[l.call]) && SeenVersionStays(s, s.calls[l.call]);
  }
}
