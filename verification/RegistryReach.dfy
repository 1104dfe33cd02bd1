/** Runs of the registry that reach the states in which its calls do not do what they say: every promise
that the other modules state with an exception is broken by some run. */
module RegistryReach {
  import opened Wrappers
  import opened Text
  import opened References
  import opened RegistryTables
  import opened RegistryCalls
  import opened RegistrySafety
  import opened RegistryRuns
  import opened RegistryResolvers
  import opened FunctionRegistry

  // ---------------------------------------------------------------------------------------------
  // Continuing runs
  // ---------------------------------------------------------------------------------------------

  lemma {:induction false} RunsCompose(h: Host, s: System, a: seq<Label>, b: seq<Label>)
    requires IsRun(h, s, a) && IsRun(h, After(h, s, a), b)
    ensures IsRun(h, s, a + b) && After(h, s, a + b) == After(h, After(h, s, a), b)
    decreases |a|
  {
    if a == [] {
      assert a + b == b;
    } else {
      assert (a + b)[0] == a[0] && (a + b)[1..] == a[1..] + b;
      RunsCompose(h, Next(h, s, a[0]), a[1..], b);
    }
  }

  lemma ReachedByRun(h: Host, s: System, run: seq<Label>)
    requires Reachable(h, s) && IsRun(h, s, run)
    ensures Reachable(h, After(h, s, run))
  {
    var before :| IsRun(h, EMPTY_SYSTEM, before) && After(h, EMPTY_SYSTEM, before) == s;
    RunsCompose(h, EMPTY_SYSTEM, before, run);
  }

  lemma ReachedByStep(h: Host, s: System, l: Label)
    requires Reachable(h, s) && Enabled(s, l)
    ensures Reachable(h, Next(h, s, l))
  {
    var s' := Next(h, s, l);
    assert [l][1..] == [] && IsRun(h, s', []) && After(h, s', []) == s';
    assert IsRun(h, s, [l]) && After(h, s, [l]) == s';
    ReachedByRun(h, s, [l]);
  }

  lemma EmptyIsReached(h: Host)
    ensures Reachable(h, EMPTY_SYSTEM)
  {
    assert IsRun(h, EMPTY_SYSTEM, []) && After(h, EMPTY_SYSTEM, []) == EMPTY_SYSTEM;
  }

  lemma FreshNumber(used: set<nat>) returns (x: nat)
    ensures x !in used
  {
    x := 0;
    var above := used;
    while x in used
      invariant forall y | y in used :: y < x || y in above
      invariant forall y | y in above :: y in used && y >= x
      decreases above
    {
      above := above - {x};
      x := x + 1;
    }
  }

  /** From every reachable state a call can run alone; the calls in flight wait. */
  lemma CallAlone(h: Host, s: System, r: Request, now: nat) returns (s': System, uuid: FunctionId)
    requires Reachable(h, s)
    ensures Reachable(h, s') && uuid !in s.issued
    ensures s'.tables == Alone(h, s.tables, Start(h, r), now, uuid).0
    ensures forall c | c in s.calls :: c in s'.calls && s'.calls[c] == s.calls[c]
  {
    uuid := FreshNumber(s.issued);
    var c := FreshNumber(s.calls.Keys);
    var run := AloneIsARun(h, s, c, r, now, uuid);
    ReachedByRun(h, s, run);
    s' := After(h, s, run);
  }

  // ---------------------------------------------------------------------------------------------
  // Every count of versions
  // ---------------------------------------------------------------------------------------------

  /** Every function that could be asked for can be created. */
  lemma CreatedIsReached(h: Host, spec: NewFunction, now: nat) returns (s: System, id: FunctionId)
    requires IsValidName(spec.name, h.beyondAscii)
    ensures Reachable(h, s) && s.tables == InsertFunction(NO_ROWS, id, NewRow(h, spec, now)).value
    ensures id in s.tables.functions && s.tables.functions[id] == NewRow(h, spec, now)
    ensures VersionsOf(s.tables, id) == {}
  {
    EmptyIsReached(h);
    s, id := CallAlone(h, EMPTY_SYSTEM, Create(spec), now);
    AfterWrite(h, NO_ROWS, Creating(spec), now, id);
  }

  lemma PublishedIsReached(h: Host, s: System, id: FunctionId, now: nat) returns (s': System)
    requires Reachable(h, s) && id in s.tables.functions && |VersionsOf(s.tables, id)| < U32_RANGE
    ensures Reachable(h, s')
    ensures var v: U32 := (|VersionsOf(s.tables, id)| + 1) % U32_RANGE;
            var row := VersionRow(s.tables.functions[id].settings, now);
            s'.tables == s.tables.(versions := s.tables.versions[(id, v) := row])
    ensures |VersionsOf(s'.tables, id)| == |VersionsOf(s.tables, id)| + 1
    ensures forall c | c in s.calls :: c in s'.calls && s'.calls[c] == s.calls[c]
  {
    var uuid;
    ReachableInv(h, s);
    s', uuid := CallAlone(h, s, Publish(id), now);
    PublishAlone(h, s.tables, id, now, uuid);
    var v: U32 := (|VersionsOf(s.tables, id)| + 1) % U32_RANGE;
    NumbersAfterInsert(s.tables, id, v, VersionRow(s.tables.functions[id].settings, now));
  }

  /** For every count up to 2^32 there is a run after which a function has exactly so many versions. */
  lemma {:induction false} EveryCountIsReached(h: Host, spec: NewFunction, now: nat, n: nat)
    returns (s: System, id: FunctionId)
    requires IsValidName(spec.name, h.beyondAscii) && n <= U32_RANGE
    ensures Reachable(h, s) && id in s.tables.functions && |VersionsOf(s.tables, id)| == n
    decreases n
  {
    if n == 0 {
      s, id := CreatedIsReached(h, spec, now);
    } else {
      s, id := EveryCountIsReached(h, spec, now, n - 1);
      s := PublishedIsReached(h, s, id, now);
    }
  }

  /** So the wrap-around happens: some run publishes version 0, and after it no publication of that
      function can ever succeed. */
  lemma VersionZeroIsReached(h: Host, spec: NewFunction, now: nat) returns (s: System, id: FunctionId)
    requires IsValidName(spec.name, h.beyondAscii)
    ensures Reachable(h, s) && id in s.tables.functions && (id, 0) in s.tables.versions
    ensures forall v: U32, row :: InsertVersion(s.tables, id, v, row) == Err(UniqueFailed)
  {
    s, id := EveryCountIsReached(h, spec, now, U32_RANGE);
    VersionNumbersAreGapless(h, s, id);
  }

  // ---------------------------------------------------------------------------------------------
  // Replies about a function deleted under the call
  // ---------------------------------------------------------------------------------------------

  lemma DeletedUnderCall(h: Host, s: System, id: FunctionId, c: CallId) returns (s': System)
    requires Reachable(h, s) && id in s.tables.functions && c in s.calls
    ensures Reachable(h, s') && c in s'.calls && s'.calls[c] == s.calls[c]
    ensures id !in s'.tables.functions
  {
    var uuid;
    ReachableInv(h, s);
    s', uuid := CallAlone(h, s, Delete(id), 0);
    AfterWrite(h, s.tables, Deleting(id), 0, uuid);
  }

  /** An update of any function can report success after the function was deleted. */
  lemma UpdateOfDeletedReportsSuccess(
    h: Host, s: System, id: FunctionId, changes: Changes)
    returns (s': System, l: Label)
    requires Reachable(h, s) && id in s.tables.functions
    ensures Reachable(h, s') && Enabled(s', l) && l.Go? && id !in s'.tables.functions
    ensures s'.calls[l.call].Writing? && s'.calls[l.call].id == id
    ensures Next(h, s', l).calls[l.call].Done? && Next(h, s', l).calls[l.call].reply.Updated?
  {
    var c := FreshNumber(s.calls.Keys);
    var begun := Next(h, s, Begin(c, Update(id, changes)));
    ReachedByStep(h, s, Begin(c, Update(id, changes)));
    var uuid := FreshNumber(begun.issued);
    ReachedByStep(h, begun, Go(c, 0, uuid));
    s' := DeletedUnderCall(h, Next(h, begun, Go(c, 0, uuid)), id, c);
    uuid := FreshNumber(s'.issued);
    l := Go(c, 0, uuid);
  }

  /** One read of a call in flight. */
  lemma ReadIsReached(h: Host, s: System, c: CallId) returns (s': System)
    requires Reachable(h, s) && c in s.calls && !s.calls[c].Done? && !Writes(s.calls[c])
    ensures Reachable(h, s') && s' == s.(calls := s.calls[c := Read(h, s.tables, s.calls[c])])
  {
    var uuid := FreshNumber(s.issued);
    ReachedByStep(h, s, Go(c, 0, uuid));
    s' := Next(h, s, Go(c, 0, uuid));
  }

  lemma CallIsBegun(h: Host, s: System, r: Request) returns (s': System, c: CallId)
    requires Reachable(h, s)
    ensures Reachable(h, s') && s' == s.(calls := s.calls[c := Start(h, r)])
  {
    c := FreshNumber(s.calls.Keys);
    ReachedByStep(h, s, Begin(c, r));
    s' := Next(h, s, Begin(c, r));
  }

  /** `s` is `base` with call `c` at `call`. */
  ghost predicate IsAt(base: System, s: System, c: CallId, call: Call) {
    s == base.(calls := base.calls[c := call])
  }

  lemma AdvancedTo(h: Host, base: System, s: System, c: CallId, call: Call, next: Call) returns (s': System)
    requires Reachable(h, s) && IsAt(base, s, c, call) && !call.Done? && !Writes(call)
    requires Read(h, base.tables, call) == next
    ensures Reachable(h, s') && IsAt(base, s', c, next)
  {
    s' := ReadIsReached(h, s, c);
    assert base.calls[c := call][c := next] == base.calls[c := next];
  }

  lemma UpdateReachesItsWrite(h: Host, s: System, id: FunctionId, alias: string, v: U32) returns (s': System, c: CallId)
    requires Reachable(h, s) && (id, v) in s.tables.versions && (id, alias) in s.tables.aliases
    ensures Reachable(h, s') && IsAt(s, s', c, WritingAlias(id, alias, v, s.tables.aliases[(id, alias)]))
  {
    var checking, reading := CheckingUpdate(id, alias, v, Report), ReadingAlias(id, alias, v, Report);
    s', c := CallIsBegun(h, s, UpdateAlias(id, alias, Number(v)));
    s' := AdvancedTo(h, s, s', c, checking, reading);
    s' := AdvancedTo(h, s, s', c, reading, WritingAlias(id, alias, v, s.tables.aliases[(id, alias)]));
  }

  lemma VersionHasFunction(h: Host, s: System, id: FunctionId, v: U32)
    requires Reachable(h, s) && (id, v) in s.tables.versions
    ensures id in s.tables.functions
  {
    ReachableInv(h, s);
  }

  lemma UpsertReachesItsUpdate(
    h: Host, s: System, id: FunctionId, alias: string, v: U32)
    returns (s': System, c: CallId)
    requires Reachable(h, s) && (id, v) in s.tables.versions
    ensures Reachable(h, s') && IsAt(s, s', c, CheckingUpdate(id, alias, v, CreateIt))
  {
    VersionHasFunction(h, s, id, v);
    s', c := CallIsBegun(h, s, UpsertAlias(id, alias, Number(v)));
    s' := AdvancedTo(h, s, s', c, UpsertFunction(id, alias, v), UpsertVersion(id, alias, v));
    s' := AdvancedTo(h, s, s', c, UpsertVersion(id, alias, v), CheckingUpdate(id, alias, v, CreateIt));
  }

  lemma UpsertReachesItsInsert(
    h: Host, s: System, id: FunctionId, alias: string, v: U32)
    returns (s': System, c: CallId)
    requires Reachable(h, s) && (id, v) in s.tables.versions && (id, alias) !in s.tables.aliases
    ensures Reachable(h, s') && IsAt(s, s', c, InsertingAlias(id, alias, v))
  {
    var checking, reading := CheckingUpdate(id, alias, v, CreateIt), ReadingAlias(id, alias, v, CreateIt);
    s', c := UpsertReachesItsUpdate(h, s, id, alias, v);
    s' := AdvancedTo(h, s, s', c, checking, reading);
    s' := AdvancedTo(h, s, s', c, reading, CheckingTarget(id, alias, v));
    s' := AdvancedTo(h, s, s', c, CheckingTarget(id, alias, v), InsertingAlias(id, alias, v));
  }

  lemma PublicationReachesItsInsert(h: Host, s: System, id: FunctionId, v: U32) returns (s': System, c: CallId)
    requires Reachable(h, s) && id in s.tables.functions && v == NextVersion(SelectMaxVersion(s.tables, id))
    ensures Reachable(h, s') && IsAt(s, s', c, Inserting(id, s.tables.functions[id].settings, v))
  {
    var settings := s.tables.functions[id].settings;
    s', c := CallIsBegun(h, s, Publish(id));
    s' := AdvancedTo(h, s, s', c, Publishing(id), Numbering(id, settings));
    s' := AdvancedTo(h, s, s', c, Numbering(id, settings), Inserting(id, settings, v));
  }

  lemma LatePublicationFails(h: Host, s: System, l: Label)
    requires Enabled(s, l) && l.Go? && s.calls[l.call].Inserting?
    requires (s.calls[l.call].id, s.calls[l.call].version) in s.tables.versions
    ensures Next(h, s, l).calls[l.call] == Fail(Database(UniqueFailed)) && Next(h, s, l).tables == s.tables
  {
  }

  /** Any two publications of a function can race, and the slower one fails and inserts nothing. */
  lemma RacingPublicationFails(h: Host, s: System, id: FunctionId) returns (s': System, l: Label)
    requires Reachable(h, s) && id in s.tables.functions && |VersionsOf(s.tables, id)| < U32_RANGE
    ensures Reachable(h, s') && Enabled(s', l) && l.Go? && s'.calls[l.call].Inserting?
    ensures Next(h, s', l).calls[l.call] == Fail(Database(UniqueFailed)) && Next(h, s', l).tables == s'.tables
  {
    var v: U32, c, before := (|VersionsOf(s.tables, id)| + 1) % U32_RANGE, 0, s;
    TablesAreOk(h, s);
    NumberIsNext(s.tables, id);
    before, c := PublicationReachesItsInsert(h, s, id, v);
    s' := PublishedIsReached(h, before, id, 0);
    var uuid := FreshNumber(s'.issued);
    l := Go(c, 0, uuid);
    LatePublicationFails(h, s', l);
  }

  lemma TablesAreOk(h: Host, s: System)
    requires Reachable(h, s)
    ensures TablesOk(s.tables)
  {
    ReachableInv(h, s);
  }

  /** Any two updates of a function can race, and all that the faster one changed is lost. */
  lemma UpdateIsLost(h: Host, s: System, id: FunctionId, slow: Changes, fast: Changes) returns (s': System, l: Label)
    requires Reachable(h, s) && id in s.tables.functions
    ensures Reachable(h, s') && Enabled(s', l) && l.Go? && s'.calls[l.call].Writing?
    ensures var base := s.tables.functions[id];
            && id in s'.tables.functions && id in Next(h, s', l).tables.functions
            && s'.tables.functions[id].settings == Merge(h, base, fast).settings
            && Next(h, s', l).tables.functions[id].settings == Merge(h, base, slow).settings
  {
    var base, c, uuid := s.tables.functions[id], 0, 0;
    s', c := CallIsBegun(h, s, Update(id, slow));
    s' := AdvancedTo(h, s, s', c, Updating(id, slow), Writing(id, Merge(h, base, slow)));
    s', uuid := CallAlone(h, s', Update(id, fast), 0);
    UpdateAlone(h, s.tables, id, fast, 0, uuid);
    uuid := FreshNumber(s'.issued);
    l := Go(c, 0, uuid);
  }

  /** The function of any alias can be deleted between the two lookups of the registry. */
  lemma ResolutionMissesDeleted(h: Host, s: System, id: FunctionId, alias: string) returns (s': System, c: CallId)
    requires Reachable(h, s) && (id, alias) in s.tables.aliases
    ensures var v := s.tables.aliases[(id, alias)].version;
            && Reachable(h, s') && c in s'.calls && s'.calls[c] == ResolvingVersion(id, v, true)
            && Read(h, s'.tables, s'.calls[c]) == Fail(VersionNotFound(id, v))
  {
    var v, before := s.tables.aliases[(id, alias)].version, s;
    before, c := ResolutionReachesItsVersion(h, s, id, alias, v);
    s' := DeletedUnderAlias(h, s, before, id, alias, c, ResolvingVersion(id, v, true));
    MissingVersionFails(h, s'.tables, id, v);
  }

  lemma ResolutionReachesItsVersion(h: Host, s: System, id: FunctionId, alias: string, v: U32)
    returns (s': System, c: CallId)
    requires Reachable(h, s) && (id, alias) in s.tables.aliases && v == s.tables.aliases[(id, alias)].version
    ensures Reachable(h, s') && IsAt(s, s', c, ResolvingVersion(id, v, true))
  {
    s', c := CallIsBegun(h, s, Resolve(id, VersionRef.Alias(alias)));
    s' := AdvancedTo(h, s, s', c, ResolvingAlias(id, alias), ResolvingVersion(id, v, true));
  }

  lemma MissingVersionFails(h: Host, t: Tables, id: FunctionId, v: U32)
    requires (id, v) !in t.versions
    ensures Read(h, t, ResolvingVersion(id, v, true)) == Fail(VersionNotFound(id, v))
    ensures Read(h, t, LoadingVersion(id, v)) == Fail(VersionNotFound(id, v))
    ensures forall base :: Read(h, t, ActivatingVersion(id, base, v)) == Fail(VersionNotFound(id, v))
  {
  }

  /** The call stays where it is while the function of the alias goes, with the version. */
  lemma DeletedUnderAlias(
    h: Host, s: System, before: System, id: FunctionId, alias: string, c: CallId, call: Call)
    returns (s': System)
    requires Reachable(h, s) && Reachable(h, before) && (id, alias) in s.tables.aliases && IsAt(s, before, c, call)
    ensures Reachable(h, s') && c in s'.calls && s'.calls[c] == call
    ensures (id, s.tables.aliases[(id, alias)].version) !in s'.tables.versions
  {
    AliasesNameExistingVersions(h, s, (id, alias));
    s' := DeletedUnderCall(h, before, id, c);
    VersionIsGone(h, s', id, s.tables.aliases[(id, alias)].version);
  }

  lemma VersionIsGone(h: Host, s: System, id: FunctionId, v: U32)
    requires Reachable(h, s) && id !in s.tables.functions
    ensures (id, v) !in s.tables.versions
  {
    ReachableInv(h, s);
  }

  /** The same for the invoker, and for the activation. */
  lemma InvocationMissesDeleted(h: Host, s: System, ref: FunctionRef, id: FunctionId, alias: string)
    returns (s': System, c: CallId)
    requires Reachable(h, s) && ref.Name? && Target(s.tables, ref) == Ok(id) && ref.Alias() == Some(alias)
    requires (id, alias) in s.tables.aliases
    ensures var v := s.tables.aliases[(id, alias)].version;
            && Reachable(h, s') && c in s'.calls && s'.calls[c] == LoadingVersion(id, v)
            && Read(h, s'.tables, s'.calls[c]) == Fail(VersionNotFound(id, v))
  {
    var v, before := s.tables.aliases[(id, alias)].version, s;
    before, c := InvocationReachesItsVersion(h, s, ref.Base().value, ref, id, alias, v);
    s' := DeletedUnderAlias(h, s, before, id, alias, c, LoadingVersion(id, v));
    MissingVersionFails(h, s'.tables, id, v);
  }

  lemma InvocationReachesItsVersion(
    h: Host, s: System, name: string, ref: FunctionRef, id: FunctionId, alias: string, v: U32)
    returns (s': System, c: CallId)
    requires Reachable(h, s) && ref.Name? && ref.Base() == Some(name) && ref.Alias() == Some(alias)
    requires SelectFunctionByName(s.tables, name) == Some(id)
    requires (id, alias) in s.tables.aliases && v == s.tables.aliases[(id, alias)].version
    ensures Reachable(h, s') && IsAt(s, s', c, LoadingVersion(id, v))
  {
    s', c := CallIsBegun(h, s, Invoke(ref));
    s' := AdvancedTo(h, s, s', c, InvokingName(name, Some(alias)), InvokingAlias(id, alias));
    s' := AdvancedTo(h, s, s', c, InvokingAlias(id, alias), LoadingVersion(id, v));
  }

  /** Or it is deleted behind the second lookup: an invocation that has its version still needs the function. */
  lemma InvocationMissesFunction(h: Host, s: System, ref: FunctionRef, id: FunctionId, alias: string)
    returns (s': System, c: CallId)
    requires Reachable(h, s) && ref.Name? && Target(s.tables, ref) == Ok(id) && ref.Alias() == Some(alias)
    requires (id, alias) in s.tables.aliases
    ensures Reachable(h, s') && c in s'.calls && s'.calls[c].LoadingBase?
    ensures Read(h, s'.tables, s'.calls[c]) == Fail(FunctionNotFound(ById(id)))
  {
    var v, before := s.tables.aliases[(id, alias)].version, s;
    AliasesNameExistingVersions(h, s, (id, alias));
    before, c := InvocationReachesItsVersion(h, s, ref.Base().value, ref, id, alias, v);
    before := VersionIsLoaded(h, s, before, c, id, v);
    s' := DeletedUnderCall(h, before, id, c);
    MissingBaseFails(h, s'.tables, id, v, s.tables.versions[(id, v)]);
  }

  lemma VersionIsLoaded(h: Host, base: System, s: System, c: CallId, id: FunctionId, v: U32) returns (s': System)
    requires Reachable(h, s) && (id, v) in base.tables.versions && IsAt(base, s, c, LoadingVersion(id, v))
    ensures Reachable(h, s') && IsAt(base, s', c, LoadingBase(id, v, base.tables.versions[(id, v)]))
  {
    s' := AdvancedTo(h, base, s, c, LoadingVersion(id, v), LoadingBase(id, v, base.tables.versions[(id, v)]));
  }

  lemma MissingBaseFails(h: Host, t: Tables, id: FunctionId, v: U32, frozen: VersionRow)
    requires id !in t.functions
    ensures Read(h, t, LoadingBase(id, v, frozen)) == Fail(FunctionNotFound(ById(id)))
  {
  }

  lemma ActivationReachesItsVersion(
    h: Host, s: System, name: string, ref: FunctionRef, id: FunctionId, alias: string, v: U32)
    returns (s': System, c: CallId)
    requires Reachable(h, s) && ref.Name? && ref.Base() == Some(name) && ref.Alias() == Some(alias)
    requires SelectFunctionByName(s.tables, name) == Some(id)
    requires (id, alias) in s.tables.aliases && v == s.tables.aliases[(id, alias)].version
    ensures Reachable(h, s') && IsAt(s, s', c, ActivatingVersion(id, s.tables.functions[id], v))
  {
    s', c := ActivationReachesItsAlias(h, s, name, ref, id, alias);
    s' := AdvancedTo(h, s, s', c, ActivatingAlias(id, s.tables.functions[id], alias),
                     ActivatingVersion(id, s.tables.functions[id], v));
  }

  lemma ActivationReachesItsAlias(
    h: Host, s: System, name: string, ref: FunctionRef, id: FunctionId, alias: string)
    returns (s': System, c: CallId)
    requires Reachable(h, s) && ref.Name? && ref.Base() == Some(name) && ref.Alias() == Some(alias)
    requires SelectFunctionByName(s.tables, name) == Some(id)
    ensures Reachable(h, s') && IsAt(s, s', c, ActivatingAlias(id, s.tables.functions[id], alias))
  {
    s', c := CallIsBegun(h, s, Activate(ref));
    s' := AdvancedTo(
      h, s, s', c, ActivatingName(name, Some(alias)), ActivatingAlias(id, s.tables.functions[id], alias));
  }

  lemma ActivationMissesDeleted(h: Host, s: System, ref: FunctionRef, id: FunctionId, alias: string)
    returns (s': System, c: CallId)
    requires Reachable(h, s) && ref.Name? && Target(s.tables, ref) == Ok(id) && ref.Alias() == Some(alias)
    requires (id, alias) in s.tables.aliases
    ensures var v := s.tables.aliases[(id, alias)].version;
            && Reachable(h, s') && c in s'.calls && s'.calls[c].ActivatingVersion? && s'.calls[c].id == id
            && Read(h, s'.tables, s'.calls[c]) == Fail(VersionNotFound(id, v))
  {
    var v, before := s.tables.aliases[(id, alias)].version, s;
    before, c := ActivationReachesItsVersion(h, s, ref.Base().value, ref, id, alias, v);
    s' := DeletedUnderAlias(h, s, before, id, alias, c, ActivatingVersion(id, s.tables.functions[id], v));
    MissingVersionFails(h, s'.tables, id, v);
  }

  lemma UpsertedIsReached(h: Host, s: System, id: FunctionId, alias: string, v: U32) returns (s': System)
    requires Reachable(h, s) && (id, v) in s.tables.versions
    ensures Reachable(h, s') && (id, alias) in s'.tables.aliases
    ensures forall c | c in s.calls :: c in s'.calls && s'.calls[c] == s.calls[c]
  {
    var uuid;
    ReachableInv(h, s);
    s', uuid := CallAlone(h, s, UpsertAlias(id, alias, Number(v)), 0);
    UpsertAlone(h, s.tables, id, alias, v, 0, uuid);
  }

  lemma LateInsertFails(h: Host, s: System, l: Label)
    requires Enabled(s, l) && l.Go? && s.calls[l.call].InsertingAlias?
    requires (s.calls[l.call].id, s.calls[l.call].alias) in s.tables.aliases
    ensures Next(h, s, l).calls[l.call] == Fail(AliasAlreadyExists)
  {
  }

  /** Any two upserts of a new alias can race, and the one that is slower fails although each of them
      alone would have succeeded. */
  lemma RacingUpsertFails(h: Host, s: System, id: FunctionId, alias: string, v: U32, w: U32)
    returns (s': System, l: Label)
    requires Reachable(h, s) && (id, v) in s.tables.versions && (id, w) in s.tables.versions
    requires (id, alias) !in s.tables.aliases
    ensures Reachable(h, s') && Enabled(s', l) && l.Go? && s'.calls[l.call] == InsertingAlias(id, alias, v)
    ensures Next(h, s', l).calls[l.call] == Fail(AliasAlreadyExists)
  {
    var c, before;
    before, c := UpsertReachesItsInsert(h, s, id, alias, v);
    s' := UpsertedIsReached(h, before, id, alias, w);
    var uuid := FreshNumber(s'.issued);
    l := Go(c, 0, uuid);
    LateInsertFails(h, s', l);
  }

  lemma AliasHasFunction(h: Host, s: System, id: FunctionId, alias: string)
    requires Reachable(h, s) && id !in s.tables.functions
    ensures (id, alias) !in s.tables.aliases
  {
    if (id, alias) in s.tables.aliases {
      AliasesNameExistingVersions(h, s, (id, alias));
    }
  }

  /** Re-pointing any existing alias can report success after the function was deleted: nothing is set. */
  lemma AliasOfDeletedReportsSuccess(h: Host, s: System, id: FunctionId, alias: string, v: U32)
    returns (s': System, l: Label)
    requires Reachable(h, s) && (id, v) in s.tables.versions && (id, alias) in s.tables.aliases
    ensures Reachable(h, s') && Enabled(s', l) && l.Go? && id !in s'.tables.functions
    ensures s'.calls[l.call].WritingAlias? && s'.calls[l.call].id == id && s'.calls[l.call].alias == alias
    ensures Next(h, s', l).calls[l.call].Done? && Next(h, s', l).calls[l.call].reply.AliasSet?
    ensures (id, alias) !in Next(h, s', l).tables.aliases
  {
    var c, before;
    VersionHasFunction(h, s, id, v);
    before, c := UpdateReachesItsWrite(h, s, id, alias, v);
    s' := DeletedUnderCall(h, before, id, c);
    AliasHasFunction(h, s', id, alias);
    var uuid := FreshNumber(s'.issued);
    l := Go(c, 0, uuid);
  }

  // ---------------------------------------------------------------------------------------------
  // A pinned alias, and an activation that drifts
  // ---------------------------------------------------------------------------------------------

  lemma FirstVersionIsReached(h: Host, spec: NewFunction, now: nat) returns (s: System, id: FunctionId)
    requires IsValidName(spec.name, h.beyondAscii)
    ensures Reachable(h, s) && id in s.tables.functions && s.tables.functions[id] == NewRow(h, spec, now)
    ensures (id, 1) in s.tables.versions && s.tables.versions[(id, 1)].settings == NewRow(h, spec, now).settings
  {
    s, id := CreatedIsReached(h, spec, now);
    s := PublishedIsReached(h, s, id, now);
  }

  lemma PinnedByUpsert(h: Host, s: System, id: FunctionId, alias: string, v: U32, now: nat) returns (s': System)
    requires Reachable(h, s) && id in s.tables.functions && (id, v) in s.tables.versions
    ensures Reachable(h, s') && s'.tables.functions == s.tables.functions
    ensures Pinned(s'.tables, id, s.tables.functions[id].name, alias, v, s.tables.versions[(id, v)].settings)
  {
    var uuid;
    TablesAreOk(h, s);
    s', uuid := CallAlone(h, s, UpsertAlias(id, alias, Number(v)), now);
    UpsertAlone(h, s.tables, id, alias, v, now, uuid);
  }

  /** Any function can be created, published and pinned by any alias. */
  lemma PinnedIsReached(h: Host, spec: NewFunction, alias: string, now: nat) returns (s: System, id: FunctionId)
    requires IsValidName(spec.name, h.beyondAscii)
    ensures Reachable(h, s) && Pinned(s.tables, id, spec.name, alias, 1, NewRow(h, spec, now).settings)
    ensures s.tables.functions[id] == NewRow(h, spec, now)
  {
    s, id := FirstVersionIsReached(h, spec, now);
    s := PinnedByUpsert(h, s, id, alias, 1, now);
  }

  /** For every function, every colon-free alias and every update there is a run that creates, publishes
      and pins the function and then updates it. After it, invoking through the alias still runs what
      was published, while activating runs the published code with the updated handler, environment
      and timeout. */
  lemma DriftIsReached(h: Host, spec: NewFunction, alias: string, changes: Changes, now: nat)
    returns (s: System, id: FunctionId)
    requires IsValidName(spec.name, h.beyondAscii) && ':' !in alias
    ensures Reachable(h, s)
    ensures var row, ref := NewRow(h, spec, now), ParseRef(spec.name + ":" + alias);
            var latest := Merge(h, row, changes).settings;
            forall uuid ::
              && Alone(h, s.tables, Start(h, Invoke(ref)), now, uuid).1 == Loaded(id, Some(1), row.settings)
              && Alone(h, s.tables, Start(h, Activate(ref)), now, uuid).1
                 == Launched(id, Some(1), LaunchOf(spec.code, latest))
  {
    var before, uuid;
    before, id := PinnedIsReached(h, spec, alias, now);
    var row := NewRow(h, spec, now);
    s, uuid := CallAlone(h, before, Update(id, changes), now);
    UpdateAlone(h, before.tables, id, changes, now, uuid);
    forall other
      ensures Alone(h, s.tables, Start(h, Invoke(ParseRef(spec.name + ":" + alias))), now, other).1
              == Loaded(id, Some(1), row.settings)
      ensures Alone(h, s.tables, Start(h, Activate(ParseRef(spec.name + ":" + alias))), now, other).1
              == Launched(id, Some(1), LaunchOf(spec.code, Merge(h, row, changes).settings))
    {
      ActivationDriftsAfterUpdate(
        h, before, id, spec.name, alias, 1, row.settings, Merge(h, row, changes), now, other);
    }
  }

  /** In particular a changed handler makes the two launches differ. */
  lemma ChangedHandlerIsNotPinned(
    h: Host, spec: NewFunction, alias: string, handler: string, now: nat, uuid: FunctionId)
    returns (s: System, id: FunctionId)
    requires IsValidName(spec.name, h.beyondAscii) && ':' !in alias && handler != spec.handler
    ensures Reachable(h, s)
    ensures var ref := ParseRef(spec.name + ":" + alias);
            var invoked := Alone(h, s.tables, Start(h, Invoke(ref)), now, uuid).1;
            var activated := Alone(h, s.tables, Start(h, Activate(ref)), now, uuid).1;
            && invoked.Loaded? && activated.Launched?
            && invoked.settings.handler == spec.handler && activated.launch.handler == handler
            && activated.launch != LaunchOf(invoked.settings.code, invoked.settings)
  {
    s, id := DriftIsReached(h, spec, alias, Changes(None, Some(handler), None, None, None, None), now);
  }
}
