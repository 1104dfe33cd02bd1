/** The registry's calls as small machines that execute one SQL statement a step.

No call uses a transaction, so between two statements of one call any other call may run. A
`Call` is the point a call has reached together with its local variables; `Advance` executes its
next statement. `System` runs any number of calls at once in any interleaving, and drops a call
at any point, which is what dropping its future does. */
module RegistryCalls {
  import opened Wrappers
  import opened Text
  import opened References
  import opened RegistryTables

  /** The two library functions the calls use. */
  datatype Host = Host(hash: string -> string, beyondAscii: char -> bool)

  datatype NewFunction = NewFunction(
    name: string,
    description: Option<string>,
    runtime: string,
    handler: string,
    code: string,
    environment: map<string, string>,
    timeoutMs: nat,
    memoryMb: nat)

  datatype Changes = Changes(
    description: Option<string>,
    handler: Option<string>,
    code: Option<string>,
    environment: Option<map<string, string>>,
    timeoutMs: Option<nat>,
    memoryMb: Option<nat>)

  datatype Request =
    | Create(spec: NewFunction)
    | Update(id: FunctionId, changes: Changes)
    | Delete(id: FunctionId)
    | Publish(id: FunctionId)
    | CreateAlias(id: FunctionId, alias: string, target: VersionRef)
    | UpdateAlias(id: FunctionId, alias: string, target: VersionRef)
    | UpsertAlias(id: FunctionId, alias: string, target: VersionRef)
    | Resolve(id: FunctionId, target: VersionRef)
    | Invoke(ref: FunctionRef)      // FunctionInvoker: resolve the reference, then load
    | Activate(ref: FunctionRef)    // LambdaExec::invoke: resolve the reference, then choose the code

  datatype Key = ById(id: FunctionId) | ByName(name: string)

  datatype Failure =
    | FunctionNotFound(key: Key)
    | VersionNotFound(id: FunctionId, version: U32)
    | AliasNotFound(id: FunctionId, alias: string)
    | NameAlreadyExists(name: string)
    | InvalidName
    | InvalidHandler
    | AliasAlreadyExists
    | BadAliasTarget
    | Database(error: SqlError)

  /** What the handler runtime is started with. */
  datatype Launch = Launch(code: string, handler: string, environment: map<string, string>, timeoutMs: nat)

  datatype Reply =
    | Created(id: FunctionId, row: FunctionRow)
    | Updated(row: FunctionRow)
    | Deleted
    | Published(version: U32, published: VersionRow)
    | AliasSet(alias: AliasRow)
    | Resolved(resolved: Option<U32>, settings: Settings)
    | Loaded(id: FunctionId, loaded: Option<U32>, settings: Settings)
    | Launched(id: FunctionId, launched: Option<U32>, launch: Launch)
    | Failed(failure: Failure)

  /** Continuation of an alias update: report a missing alias, or go on to create it. */
  datatype OnMissing = Report | CreateIt

  datatype Call =
    | Creating(spec: NewFunction)
    | Updating(id: FunctionId, changes: Changes)
    | Writing(id: FunctionId, merged: FunctionRow)
    | Deleting(id: FunctionId)
    | Publishing(id: FunctionId)
    | Numbering(id: FunctionId, settings: Settings)
    | Inserting(id: FunctionId, settings: Settings, version: U32)
    | CheckingTarget(id: FunctionId, alias: string, v: U32)
    | InsertingAlias(id: FunctionId, alias: string, v: U32)
    | CheckingUpdate(id: FunctionId, alias: string, v: U32, onMissing: OnMissing)
    | ReadingAlias(id: FunctionId, alias: string, v: U32, onMissing: OnMissing)
    | WritingAlias(id: FunctionId, alias: string, v: U32, current: AliasRow)
    | UpsertResolving(id: FunctionId, alias: string, via: string)
    | UpsertFunction(id: FunctionId, alias: string, v: U32)
    | UpsertVersion(id: FunctionId, alias: string, v: U32)
    | ResolvingLatest(id: FunctionId)
    | ResolvingAlias(id: FunctionId, via: string)
    | ResolvingVersion(id: FunctionId, v: U32, viaAlias: bool)
    | InvokingId(id: FunctionId)
    | InvokingName(name: string, suffix: Option<string>)
    | InvokingAlias(id: FunctionId, via: string)
    | LoadingVersion(id: FunctionId, v: U32)
    | LoadingBase(id: FunctionId, v: U32, frozen: VersionRow)
    | LoadingLatest(id: FunctionId)
    | ActivatingId(id: FunctionId)
    | ActivatingName(name: string, suffix: Option<string>)
    | ActivatingAlias(id: FunctionId, base: FunctionRow, via: string)
    | ActivatingVersion(id: FunctionId, base: FunctionRow, v: U32)
    | Done(reply: Reply)

  // ---------------------------------------------------------------------------------------------
  // The calls
  // ---------------------------------------------------------------------------------------------

  function Fail(f: Failure): Call {
    Done(Failed(f))
  }

  /** What a call does before its first statement. */
  function Start(h: Host, r: Request): Call {
    match r
    case Create(spec) => if IsValidName(spec.name, h.beyondAscii) then Creating(spec) else Fail(InvalidName)
    case Update(id, changes) => Updating(id, changes)
    case Delete(id) => Deleting(id)
    case Publish(id) => Publishing(id)
    case CreateAlias(id, alias, target) =>
      if target.Number? then CheckingTarget(id, alias, target.n) else Fail(BadAliasTarget)
    case UpdateAlias(id, alias, target) =>
      if target.Number? then CheckingUpdate(id, alias, target.n, Report) else Fail(BadAliasTarget)
    case UpsertAlias(id, alias, target) =>
      (match target
       case Latest => Fail(InvalidHandler)
       case Number(v) => UpsertFunction(id, alias, v)
       case Alias(via) => UpsertResolving(id, alias, via))
    case Resolve(id, target) =>
      (match target
       case Latest => ResolvingLatest(id)
       case Number(v) => ResolvingVersion(id, v, false)
       case Alias(via) => ResolvingAlias(id, via))
    case Invoke(ref) =>
      if ref.Id? then InvokingId(ref.id) else InvokingName(ref.Base().value, ref.Alias())
    case Activate(ref) =>
      if ref.Id? then ActivatingId(ref.id) else ActivatingName(ref.Base().value, ref.Alias())
  }

  function NewRow(h: Host, spec: NewFunction, now: nat): FunctionRow {
    FunctionRow(spec.name, spec.description, spec.runtime,
                Settings(spec.code, h.hash(spec.code), spec.handler, spec.environment, spec.timeoutMs, spec.memoryMb),
                now, now)
  }

  function Or<T>(o: Option<T>, default: T): T {
    if o.Some? then o.value else default
  }

  function Merge(h: Host, current: FunctionRow, c: Changes): FunctionRow {
    var s := current.settings;
    current.(
      description := if c.description.Some? then c.description else current.description,
      settings := Settings(
        Or(c.code, s.code),
        if c.code.Some? then h.hash(c.code.value) else s.codeHash,
        Or(c.handler, s.handler),
        Or(c.environment, s.environment),
        Or(c.timeoutMs, s.timeoutMs),
        Or(c.memoryMb, s.memoryMb)))
  }

  function LaunchOf(code: string, s: Settings): Launch {
    Launch(code, s.handler, s.environment, s.timeoutMs)
  }

  function NoFunction(id: FunctionId): Call {
    Fail(FunctionNotFound(ById(id)))
  }

  /** The calls whose next statement is a write. */
  predicate Writes(c: Call) {
    c.Creating? || c.Writing? || c.Deleting? || c.Inserting? || c.InsertingAlias? || c.WritingAlias?
  }

  /** Executes a call's next statement, a write. `now` is the clock, `uuid` a random id. */
  function Write(h: Host, t: Tables, c: Call, now: nat, uuid: FunctionId): (Tables, Call)
    requires Writes(c)
  {
    match c
    case Creating(spec) =>
      var row := NewRow(h, spec, now);
      (match InsertFunction(t, uuid, row)
       case Ok(t') => (t', Done(Created(uuid, row)))
       case Err(_) => (t, Fail(NameAlreadyExists(spec.name))))
    case Writing(id, merged) =>
      (UpdateFunctionRow(t, id, merged.description, merged.settings, now), Done(Updated(merged.(updatedAt := now))))
    case Deleting(id) =>
      if id in t.functions then (DeleteFunctionRow(t, id), Done(Deleted)) else (t, NoFunction(id))
    case Inserting(id, settings, v) =>
      (match InsertVersion(t, id, v, VersionRow(settings, now))
       case Ok(t') => (t', Done(Published(v, VersionRow(settings, now))))
       case Err(e) => (t, Fail(Database(e))))
    case InsertingAlias(id, alias, v) =>
      (match InsertAlias(t, id, alias, v, now)
       case Ok(t') => (t', Done(AliasSet(AliasRow(v, now, now))))
       case Err(e) => (t, Fail(if e.UniqueFailed? then AliasAlreadyExists else Database(e))))
    case WritingAlias(id, alias, v, current) =>
      (match UpdateAliasRow(t, id, alias, v, now)
       case Ok(t') => (t', Done(AliasSet(current.(version := v, updatedAt := now))))
       case Err(e) => (t, Fail(Database(e))))
  }

  /** Executes a call's next statement, a read. */
  ghost function Read(h: Host, t: Tables, c: Call): Call
    requires !Writes(c) && !c.Done?
  {
    match c
    case Updating(id, changes) =>
      if id in t.functions then Writing(id, Merge(h, t.functions[id], changes)) else NoFunction(id)
    case Publishing(id) =>
      if id in t.functions then Numbering(id, t.functions[id].settings) else NoFunction(id)
    case Numbering(id, settings) => Inserting(id, settings, NextVersion(SelectMaxVersion(t, id)))
    case CheckingTarget(id, alias, v) =>
      if (id, v) in t.versions then InsertingAlias(id, alias, v) else Fail(VersionNotFound(id, v))
    case CheckingUpdate(id, alias, v, onMissing) =>
      if (id, v) in t.versions then ReadingAlias(id, alias, v, onMissing) else Fail(VersionNotFound(id, v))
    case ReadingAlias(id, alias, v, onMissing) =>
      if (id, alias) in t.aliases then WritingAlias(id, alias, v, t.aliases[(id, alias)])
      else if onMissing.CreateIt? then CheckingTarget(id, alias, v)
      else Fail(AliasNotFound(id, alias))
    case UpsertResolving(id, alias, via) =>
      if (id, via) in t.aliases then UpsertFunction(id, alias, t.aliases[(id, via)].version)
      else Fail(AliasNotFound(id, via))
    case UpsertFunction(id, alias, v) =>
      if id in t.functions then UpsertVersion(id, alias, v) else NoFunction(id)
    case UpsertVersion(id, alias, v) =>
      if (id, v) in t.versions then CheckingUpdate(id, alias, v, CreateIt) else Fail(VersionNotFound(id, v))
    case ResolvingLatest(id) =>
      if id in t.functions then Done(Resolved(None, t.functions[id].settings)) else NoFunction(id)
    case ResolvingAlias(id, via) =>
      if (id, via) in t.aliases then ResolvingVersion(id, t.aliases[(id, via)].version, true)
      else Fail(AliasNotFound(id, via))
    case ResolvingVersion(id, v, _) =>
      if (id, v) in t.versions then Done(Resolved(Some(v), t.versions[(id, v)].settings))
      else Fail(VersionNotFound(id, v))
    case InvokingId(id) =>
      if id in t.functions then LoadingLatest(id) else NoFunction(id)
    case InvokingName(name, suffix) =>
      (match SelectFunctionByName(t, name)
       case None => Fail(FunctionNotFound(ByName(name)))
       case Some(id) => if suffix.Some? then InvokingAlias(id, suffix.value) else LoadingLatest(id))
    case InvokingAlias(id, via) =>
      if (id, via) in t.aliases then LoadingVersion(id, t.aliases[(id, via)].version)
      else Fail(AliasNotFound(id, via))
    case LoadingVersion(id, v) =>
      if (id, v) in t.versions then LoadingBase(id, v, t.versions[(id, v)]) else Fail(VersionNotFound(id, v))
    case LoadingBase(id, v, frozen) =>
      if id in t.functions then Done(Loaded(id, Some(v), frozen.settings)) else NoFunction(id)
    case LoadingLatest(id) =>
      if id in t.functions then Done(Loaded(id, None, t.functions[id].settings)) else NoFunction(id)
    case ActivatingId(id) =>
      if id in t.functions then Done(LaunchLatest(id, t.functions[id])) else NoFunction(id)
    case ActivatingName(name, suffix) =>
      (match SelectFunctionByName(t, name)
       case None => Fail(FunctionNotFound(ByName(name)))
       case Some(id) =>
         if suffix.Some? then ActivatingAlias(id, t.functions[id], suffix.value)
         else Done(LaunchLatest(id, t.functions[id])))
    case ActivatingAlias(id, base, via) =>
      if (id, via) in t.aliases then ActivatingVersion(id, base, t.aliases[(id, via)].version)
      else Fail(AliasNotFound(id, via))
    case ActivatingVersion(id, base, v) =>
      // the code of the version, everything else of $LATEST
      if (id, v) in t.versions then
        Done(Launched(id, Some(v), LaunchOf(t.versions[(id, v)].settings.code, base.settings)))
      else Fail(VersionNotFound(id, v))
  }

  function LaunchLatest(id: FunctionId, row: FunctionRow): Reply {
    Launched(id, None, LaunchOf(row.settings.code, row.settings))
  }

  ghost function Advance(h: Host, t: Tables, c: Call, now: nat, uuid: FunctionId): (Tables, Call)
    requires !c.Done?
  {
    if Writes(c) then Write(h, t, c, now, uuid) else (t, Read(h, t, c))
  }

  // ---------------------------------------------------------------------------------------------
  // Interleaved execution
  // ---------------------------------------------------------------------------------------------

  type CallId = nat

  /** `issued` holds every function id ever generated. */
  datatype System = System(tables: Tables, issued: set<FunctionId>, calls: map<CallId, Call>)

  datatype Label =
    | Begin(call: CallId, request: Request)
    | Go(call: CallId, now: nat, uuid: FunctionId)
    | Drop(call: CallId)

  const EMPTY_SYSTEM := System(NO_ROWS, {}, map[])

  predicate Enabled(s: System, l: Label) {
    match l
    case Begin(c, _) => c !in s.calls
    case Go(c, _, uuid) => c in s.calls && !s.calls[c].Done? && uuid !in s.issued
    case Drop(c) => c in s.calls
  }

  ghost function Next(h: Host, s: System, l: Label): System
    requires Enabled(s, l)
  {
    match l
    case Begin(c, r) => s.(calls := s.calls[c := Start(h, r)])
    case Go(c, now, uuid) =>
      var (t', c') := Advance(h, s.tables, s.calls[c], now, uuid);
      System(t', if s.calls[c].Creating? then s.issued + {uuid} else s.issued, s.calls[c := c'])
    case Drop(c) => s.(calls := s.calls - {c})
  }

  ghost predicate IsRun(h: Host, s: System, run: seq<Label>)
    decreases |run|
  {
    run == [] || (Enabled(s, run[0]) && IsRun(h, Next(h, s, run[0]), run[1..]))
  }

  ghost function After(h: Host, s: System, run: seq<Label>): System
    requires IsRun(h, s, run)
    decreases |run|
  {
    if run == [] then s else After(h, Next(h, s, run[0]), run[1..])
  }

  ghost predicate Reachable(h: Host, s: System) {
    exists run :: IsRun(h, EMPTY_SYSTEM, run) && After(h, EMPTY_SYSTEM, run) == s
  }
}
