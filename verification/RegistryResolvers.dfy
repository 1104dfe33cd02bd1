/** The registry's calls run without interleaving, and the three resolvers compared.

The registry, the invoker and the activation each turn a function reference into the code to run.
They are compared on the same tables, for every reference. */
module RegistryResolvers {
  import opened Wrappers
  import opened Text
  import opened References
  import opened RegistryTables
  import opened RegistryCalls
  import opened RegistrySafety
  import opened RegistryRuns

  /** An upper bound on the statements a call still executes. */
  function Remaining(c: Call): nat {
    match c
    case Done(_) => 0
    case UpsertResolving(_, _, _) => 7
    case UpsertFunction(_, _, _) => 6
    case UpsertVersion(_, _, _) => 5
    case CheckingUpdate(_, _, _, _) => 4
    case InvokingName(_, _) => 4
    case ReadingAlias(_, _, _, _) => 3
    case Publishing(_) => 3
    case InvokingAlias(_, _) => 3
    case ActivatingName(_, _) => 3
    case CheckingTarget(_, _, _) => 2
    case Updating(_, _) => 2
    case Numbering(_, _) => 2
    case ResolvingAlias(_, _) => 2
    case InvokingId(_) => 2
    case LoadingVersion(_, _) => 2
    case ActivatingAlias(_, _, _) => 2
    case _ => 1
  }

  lemma EveryStatementIsProgress(h: Host, t: Tables, c: Call, now: nat, uuid: FunctionId)
    requires !c.Done?
    ensures Remaining(Advance(h, t, c, now, uuid).1) < Remaining(c) <= 7
  {
    if Writes(c) {
      WriteIsTheLastStatement(h, t, c, now, uuid);
    }
  }

  /** The effect and the reply of a call that runs to its end with no other call in between. */
  ghost function Alone(h: Host, t: Tables, c: Call, now: nat, uuid: FunctionId): (Tables, Reply)
    decreases Remaining(c)
  {
    if c.Done? then (t, c.reply)
    else
      EveryStatementIsProgress(h, t, c, now, uuid);
      var (t', c') := Advance(h, t, c, now, uuid);
      Alone(h, t', c', now, uuid)
  }

  // ---------------------------------------------------------------------------------------------
  // What the resolvers find, without following their statements
  // ---------------------------------------------------------------------------------------------

  datatype Code = Code(version: Option<U32>, settings: Settings)

  /** What a version reference denotes. */
  function Denoted(t: Tables, id: FunctionId, target: VersionRef): Result<Code, Failure> {
    match target
    case Latest =>
      if id in t.functions then Ok(Code(None, t.functions[id].settings)) else Err(FunctionNotFound(ById(id)))
    case Number(v) => DenotedVersion(t, id, v)
    case Alias(a) =>
      if (id, a) in t.aliases then DenotedVersion(t, id, t.aliases[(id, a)].version) else Err(AliasNotFound(id, a))
  }

  function DenotedVersion(t: Tables, id: FunctionId, v: U32): Result<Code, Failure> {
    if (id, v) in t.versions then Ok(Code(Some(v), t.versions[(id, v)].settings)) else Err(VersionNotFound(id, v))
  }

  /** The function a reference names. */
  function Target(t: Tables, ref: FunctionRef): Result<FunctionId, Failure> {
    if ref.Id? then Ok(ref.id)
    else
      match SelectFunctionByName(t, ref.Base().value)
      case Some(id) => Ok(id)
      case None => Err(FunctionNotFound(ByName(ref.Base().value)))
  }

  /** The version reference a function reference implies. */
  function TargetVersion(ref: FunctionRef): VersionRef {
    if ref.Alias().Some? then VersionRef.Alias(ref.Alias().value) else Latest
  }

  /** Run alone, the call changes nothing and answers `reply`, whatever the clock and the random
      source give. */
  ghost predicate Answers(h: Host, t: Tables, c: Call, reply: Reply) {
    forall now: nat, uuid: FunctionId :: Alone(h, t, c, now, uuid) == (t, reply)
  }

  lemma AnswersAfterRead(h: Host, t: Tables, c: Call, reply: Reply)
    requires !Writes(c) && !c.Done?
    requires Answers(h, t, Read(h, t, c), reply) || Read(h, t, c) == Done(reply)
    ensures Answers(h, t, c, reply)
  {
    forall now: nat, uuid: FunctionId
      ensures Alone(h, t, c, now, uuid) == (t, reply)
    {
      assert Alone(h, t, c, now, uuid) == Alone(h, t, Read(h, t, c), now, uuid);
    }
  }

  function RegistryReply(found: Result<Code, Failure>): Reply {
    match found
    case Ok(code) => Resolved(code.version, code.settings)
    case Err(f) => Failed(f)
  }

  /** `FunctionRegistry::resolve_version` answers what the reference denotes. */
  lemma RegistryResolves(h: Host, t: Tables, id: FunctionId, target: VersionRef)
    ensures Answers(h, t, Start(h, Resolve(id, target)), RegistryReply(Denoted(t, id, target)))
  {
    var reply := RegistryReply(Denoted(t, id, target));
    if target.Alias? && (id, target.name) in t.aliases {
      AnswersAfterRead(h, t, ResolvingVersion(id, t.aliases[(id, target.name)].version, true), reply);
    }
    AnswersAfterRead(h, t, Start(h, Resolve(id, target)), reply);
  }

  function LoadReply(id: FunctionId, found: Result<Code, Failure>): Reply {
    match found
    case Ok(code) => Loaded(id, code.version, code.settings)
    case Err(f) => Failed(f)
  }

  function InvokerReply(t: Tables, ref: FunctionRef): Reply {
    match Target(t, ref)
    case Err(f) => Failed(f)
    case Ok(id) => LoadReply(id, Denoted(t, id, TargetVersion(ref)))
  }

  lemma InvokerLoadsLatest(h: Host, t: Tables, id: FunctionId)
    ensures Answers(h, t, LoadingLatest(id), LoadReply(id, Denoted(t, id, Latest)))
    ensures Answers(h, t, InvokingId(id), LoadReply(id, Denoted(t, id, Latest)))
  {
    AnswersAfterRead(h, t, LoadingLatest(id), LoadReply(id, Denoted(t, id, Latest)));
    AnswersAfterRead(h, t, InvokingId(id), LoadReply(id, Denoted(t, id, Latest)));
  }

  lemma InvokerLoadsVersion(h: Host, t: Tables, id: FunctionId, v: U32)
    requires (id, v) in t.versions ==> id in t.functions
    ensures Answers(h, t, LoadingVersion(id, v), LoadReply(id, DenotedVersion(t, id, v)))
  {
    var reply := LoadReply(id, DenotedVersion(t, id, v));
    if (id, v) in t.versions {
      AnswersAfterRead(h, t, LoadingBase(id, v, t.versions[(id, v)]), reply);
    }
    AnswersAfterRead(h, t, LoadingVersion(id, v), reply);
  }

  lemma InvokerLoadsAlias(h: Host, t: Tables, id: FunctionId, a: string)
    requires ForeignKeysHold(t)
    ensures Answers(h, t, InvokingAlias(id, a), LoadReply(id, Denoted(t, id, VersionRef.Alias(a))))
  {
    if (id, a) in t.aliases {
      InvokerLoadsVersion(h, t, id, t.aliases[(id, a)].version);
    }
    AnswersAfterRead(h, t, InvokingAlias(id, a), LoadReply(id, Denoted(t, id, VersionRef.Alias(a))));
  }

  lemma InvokerResolvesName(h: Host, t: Tables, ref: FunctionRef)
    requires ForeignKeysHold(t) && ref.Name?
    ensures Answers(h, t, InvokingName(ref.Base().value, ref.Alias()), InvokerReply(t, ref))
  {
    var c, reply := InvokingName(ref.Base().value, ref.Alias()), InvokerReply(t, ref);
    if Target(t, ref).Err? {
      assert Read(h, t, c) == Done(reply);
    } else if ref.Alias().Some? {
      InvokerLoadsAlias(h, t, Target(t, ref).value, ref.Alias().value);
      assert Answers(h, t, Read(h, t, c), reply);
    } else {
      InvokerLoadsLatest(h, t, Target(t, ref).value);
      assert Answers(h, t, Read(h, t, c), reply);
    }
    AnswersAfterRead(h, t, c, reply);
  }

  /** The invoker's resolve-then-load answers what the reference denotes. */
  lemma InvokerResolves(h: Host, t: Tables, ref: FunctionRef)
    requires ForeignKeysHold(t)
    ensures Answers(h, t, Start(h, Invoke(ref)), InvokerReply(t, ref))
  {
    if ref.Name? {
      InvokerResolvesName(h, t, ref);
    } else {
      InvokerLoadsLatest(h, t, ref.id);
    }
  }

  /** The function, version and code of the invoker, with the handler, environment and timeout that
      $LATEST has. */
  function ActivationReply(t: Tables, ref: FunctionRef): Reply {
    match InvokerReply(t, ref)
    case Loaded(id, v, settings) =>
      Launched(id, v, LaunchOf(settings.code, if id in t.functions then t.functions[id].settings else settings))
    case other => other
  }

  function ActivationOfAlias(t: Tables, id: FunctionId, a: string): Reply
    requires id in t.functions
  {
    match Denoted(t, id, VersionRef.Alias(a))
    case Ok(code) => Launched(id, code.version, LaunchOf(code.settings.code, t.functions[id].settings))
    case Err(f) => Failed(f)
  }

  lemma ActivationFollowsAlias(h: Host, t: Tables, id: FunctionId, a: string)
    requires ForeignKeysHold(t) && id in t.functions
    ensures Answers(h, t, ActivatingAlias(id, t.functions[id], a), ActivationOfAlias(t, id, a))
  {
    var c := ActivatingAlias(id, t.functions[id], a);
    if (id, a) in t.aliases {
      var v := t.aliases[(id, a)].version;
      assert (id, v) in t.versions;
      ActivationLoadsVersion(h, t, id, v);
      assert Read(h, t, c) == ActivatingVersion(id, t.functions[id], v);
      var launch := LaunchOf(t.versions[(id, v)].settings.code, t.functions[id].settings);
      AnswersAfterRead(h, t, c, Launched(id, Some(v), launch));
    } else {
      assert Read(h, t, c) == Fail(AliasNotFound(id, a));
      AnswersAfterRead(h, t, c, Failed(AliasNotFound(id, a)));
    }
  }

  lemma ActivationLoadsVersion(h: Host, t: Tables, id: FunctionId, v: U32)
    requires id in t.functions && (id, v) in t.versions
    ensures Answers(h, t, ActivatingVersion(id, t.functions[id], v),
                    Launched(id, Some(v), LaunchOf(t.versions[(id, v)].settings.code, t.functions[id].settings)))
  {
    var reply := Launched(id, Some(v), LaunchOf(t.versions[(id, v)].settings.code, t.functions[id].settings));
    AnswersAfterRead(h, t, ActivatingVersion(id, t.functions[id], v), reply);
  }

  lemma ActivationResolvesName(h: Host, t: Tables, ref: FunctionRef)
    requires ForeignKeysHold(t) && ref.Name?
    ensures Answers(h, t, ActivatingName(ref.Base().value, ref.Alias()), ActivationReply(t, ref))
  {
    if Target(t, ref).Ok? && ref.Alias().Some? {
      ActivationReplyOfAlias(t, ref);
      ActivationResolvesAlias(h, t, ref.Base().value, Target(t, ref).value, ref.Alias().value);
    } else {
      ActivationReplyOfName(t, ref);
      ActivationResolvesLatest(h, t, ref.Base().value, ref.Alias());
    }
  }

  lemma ActivationResolvesAlias(h: Host, t: Tables, name: string, id: FunctionId, a: string)
    requires ForeignKeysHold(t) && SelectFunctionByName(t, name) == Some(id)
    ensures Answers(h, t, ActivatingName(name, Some(a)), ActivationOfAlias(t, id, a))
  {
    ActivationFollowsAlias(h, t, id, a);
    AnswersAfterRead(h, t, ActivatingName(name, Some(a)), ActivationOfAlias(t, id, a));
  }

  function ActivationOfName(t: Tables, name: string): Reply {
    match SelectFunctionByName(t, name)
    case Some(id) => LaunchLatest(id, t.functions[id])
    case None => Failed(FunctionNotFound(ByName(name)))
  }

  lemma ActivationResolvesLatest(h: Host, t: Tables, name: string, suffix: Option<string>)
    requires SelectFunctionByName(t, name).None? || suffix.None?
    ensures Answers(h, t, ActivatingName(name, suffix), ActivationOfName(t, name))
  {
    AnswersAfterRead(h, t, ActivatingName(name, suffix), ActivationOfName(t, name));
  }

  lemma ActivationReplyOfName(t: Tables, ref: FunctionRef)
    requires ref.Name? && (Target(t, ref).Err? || ref.Alias().None?)
    ensures ActivationReply(t, ref) == ActivationOfName(t, ref.Base().value)
  {
  }

  lemma ActivationReplyOfAlias(t: Tables, ref: FunctionRef)
    requires ref.Name? && Target(t, ref).Ok? && ref.Alias().Some?
    ensures ActivationReply(t, ref) == ActivationOfAlias(t, Target(t, ref).value, ref.Alias().value)
  {
  }

  /** The activation answers with the denoted function, version and code, and the rest of $LATEST. */
  lemma ActivationResolves(h: Host, t: Tables, ref: FunctionRef)
    requires ForeignKeysHold(t)
    ensures Answers(h, t, Start(h, Activate(ref)), ActivationReply(t, ref))
  {
    if ref.Name? {
      ActivationResolvesName(h, t, ref);
    } else {
      assert Read(h, t, ActivatingId(ref.id)) == Done(ActivationReply(t, ref));
      AnswersAfterRead(h, t, ActivatingId(ref.id), ActivationReply(t, ref));
    }
  }

  // ---------------------------------------------------------------------------------------------
  // Agreement
  // ---------------------------------------------------------------------------------------------

  /** In every reachable state the invoker answers a reference as the registry answers the matching
      version reference: the same version, code, handler, environment, timeout and memory limit, or
      the same failure. */
  lemma InvokerAgreesWithRegistry(h: Host, s: System, ref: FunctionRef, now: nat, uuid: FunctionId)
    requires Reachable(h, s) && Target(s.tables, ref).Ok?
    ensures var id := Target(s.tables, ref).value;
            var invoked := Alone(h, s.tables, Start(h, Invoke(ref)), now, uuid).1;
            var resolved := Alone(h, s.tables, Start(h, Resolve(id, TargetVersion(ref))), now, uuid).1;
            || (invoked.Failed? && invoked == resolved)
            || (invoked.Loaded? && resolved.Resolved? && invoked.id == id
                && invoked.loaded == resolved.resolved && invoked.settings == resolved.settings)
  {
    ReachableInv(h, s);
    InvokerResolves(h, s.tables, ref);
    RegistryResolves(h, s.tables, Target(s.tables, ref).value, TargetVersion(ref));
  }

  predicate SameLaunch(a: Settings, b: Settings) {
    a.handler == b.handler && a.environment == b.environment && a.timeoutMs == b.timeoutMs
  }

  /** In every reachable state the activation and the invoker agree on function, version and code, and
      on failures. They start the handler in the same way exactly when the version's handler,
      environment and timeout still are those of $LATEST. */
  lemma ActivationAgreesIffLatestUnchanged(h: Host, s: System, ref: FunctionRef, now: nat, uuid: FunctionId)
    requires Reachable(h, s)
    ensures var invoked := Alone(h, s.tables, Start(h, Invoke(ref)), now, uuid).1;
            var activated := Alone(h, s.tables, Start(h, Activate(ref)), now, uuid).1;
            || (invoked.Failed? && invoked == activated)
            || (invoked.Loaded? && activated.Launched? && invoked.id in s.tables.functions
                && activated.id == invoked.id && activated.launched == invoked.loaded
                && activated.launch.code == invoked.settings.code
                && (activated.launch == LaunchOf(invoked.settings.code, invoked.settings)
                    <==> SameLaunch(invoked.settings, s.tables.functions[invoked.id].settings)))
  {
    ReachableInv(h, s);
    InvokerResolves(h, s.tables, ref);
    ActivationResolves(h, s.tables, ref);
  }

  /** Where they part: once the handler of a pinned function is updated, invoking through the alias
      starts the version's handler, activating through it starts the new one with the old code. */
  lemma ActivationDriftsAfterUpdate(
    h: Host, s: System, id: FunctionId, name: string, alias: string, v: U32, settings: Settings,
    latest: FunctionRow, now: nat, uuid: FunctionId)
    requires Reachable(h, s) && Pinned(s.tables, id, name, alias, v, settings)
    requires ':' !in alias
    ensures var t := UpdateFunctionRow(s.tables, id, latest.description, latest.settings, now);
            var ref := ParseRef(name + ":" + alias);
            && Alone(h, t, Start(h, Invoke(ref)), now, uuid).1 == Loaded(id, Some(v), settings)
            && Alone(h, t, Start(h, Activate(ref)), now, uuid).1
               == Launched(id, Some(v), Launch(
                    settings.code, latest.settings.handler, latest.settings.environment, latest.settings.timeoutMs))
  {
    ReachableInv(h, s);
    EveryNameIsValid(h, s, id);
    NameAliasRoundTrip(name, alias, h.beyondAscii);
    UpdateFunctionKeepsTables(s.tables, id, latest.description, latest.settings, now);
    var t := UpdateFunctionRow(s.tables, id, latest.description, latest.settings, now);
    InvokerResolves(h, t, ParseRef(name + ":" + alias));
    ActivationResolves(h, t, ParseRef(name + ":" + alias));
  }
}
