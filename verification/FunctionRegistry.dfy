/** The registry as an object over its tables.

Each method has the control flow of its source method, one statement after the other. Its contract
says that the new tables and the reply are those of the call in `RegistryCalls` run to its end, so
whatever is proved of the interleaved calls speaks about these methods. */
module FunctionRegistry {
  import opened Wrappers
  import opened Text
  import opened References
  import opened RegistryTables
  import opened RegistryCalls
  import opened RegistrySafety
  import opened RegistryResolvers

  lemma AfterRead(h: Host, t: Tables, c: Call, now: nat, uuid: FunctionId)
    requires !Writes(c) && !c.Done?
    ensures Alone(h, t, c, now, uuid) == Alone(h, t, Read(h, t, c), now, uuid)
  {
  }

  lemma AfterWrite(h: Host, t: Tables, c: Call, now: nat, uuid: FunctionId)
    requires Writes(c)
    ensures Write(h, t, c, now, uuid).1.Done?
    ensures Alone(h, t, c, now, uuid) == (Write(h, t, c, now, uuid).0, Write(h, t, c, now, uuid).1.reply)
  {
    WriteIsTheLastStatement(h, t, c, now, uuid);
  }

  /** An update that goes on to create a missing alias is an update alone, followed by a creation if
      the alias was reported missing. */
  lemma UpdateElseCreate(h: Host, t: Tables, id: FunctionId, alias: string, v: U32, now: nat, uuid: FunctionId)
    ensures var updated := Alone(h, t, CheckingUpdate(id, alias, v, Report), now, uuid);
            var created := Alone(h, t, CheckingTarget(id, alias, v), now, uuid);
            var missing := updated.1 == Failed(AliasNotFound(id, alias));
            && (missing ==> updated.0 == t)
            && Alone(h, t, CheckingUpdate(id, alias, v, CreateIt), now, uuid) == if missing then created else updated
  {
    AfterRead(h, t, CheckingUpdate(id, alias, v, Report), now, uuid);
    AfterRead(h, t, CheckingUpdate(id, alias, v, CreateIt), now, uuid);
    if (id, v) in t.versions {
      AfterRead(h, t, ReadingAlias(id, alias, v, Report), now, uuid);
      AfterRead(h, t, ReadingAlias(id, alias, v, CreateIt), now, uuid);
      if (id, alias) in t.aliases {
        AfterWrite(h, t, WritingAlias(id, alias, v, t.aliases[(id, alias)]), now, uuid);
      }
    }
  }

  lemma {:induction false} AloneKeepsTables(h: Host, t: Tables, c: Call, now: nat, uuid: FunctionId)
    requires TablesOk(t) && (c.Inserting? ==> PredecessorPublished(t, c.id, c.version))
    ensures TablesOk(Alone(h, t, c, now, uuid).0)
    decreases Remaining(c)
  {
    if Writes(c) {
      AfterWrite(h, t, c, now, uuid);
      WriteKeepsTables(h, t, c, now, uuid);
    } else if !c.Done? {
      EveryStatementIsProgress(h, t, c, now, uuid);
      AfterRead(h, t, c, now, uuid);
      if c.Numbering? {
        NextVersionContinues(t, c.id);
      }
      AloneKeepsTables(h, t, Read(h, t, c), now, uuid);
    }
  }

  /** A call that runs alone is a run of the interleaved system, from any of its states: begin, then
      one statement after the other. */
  lemma AloneIsARun(h: Host, s: System, c: CallId, r: Request, now: nat, uuid: FunctionId) returns (run: seq<Label>)
    requires c !in s.calls && uuid !in s.issued
    ensures IsRun(h, s, run)
    ensures var s', alone := After(h, s, run), Alone(h, s.tables, Start(h, r), now, uuid);
            s'.tables == alone.0 && s'.calls == s.calls[c := Done(alone.1)]
  {
    var rest := StatementsAlone(h, Next(h, s, Begin(c, r)), c, now, uuid);
    run := [Begin(c, r)] + rest;
    assert run[1..] == rest;
  }

  lemma {:induction false} StatementsAlone(
    h: Host, s: System, c: CallId, now: nat, uuid: FunctionId)
    returns (run: seq<Label>)
    requires c in s.calls && (uuid !in s.issued || s.calls[c].Done?)
    ensures IsRun(h, s, run)
    ensures var s', alone := After(h, s, run), Alone(h, s.tables, s.calls[c], now, uuid);
            s'.tables == alone.0 && s'.calls == s.calls[c := Done(alone.1)]
    decreases Remaining(s.calls[c])
  {
    if s.calls[c].Done? {
      run := [];
    } else {
      EveryStatementIsProgress(h, s.tables, s.calls[c], now, uuid);
      if Writes(s.calls[c]) {
        WriteIsTheLastStatement(h, s.tables, s.calls[c], now, uuid);
      }
      var rest := StatementsAlone(h, Next(h, s, Go(c, now, uuid)), c, now, uuid);
      run := [Go(c, now, uuid)] + rest;
      assert run[1..] == rest;
    }
  }

  class FunctionRegistry {
    const host: Host
    var functions: map<FunctionId, FunctionRow>
    var names: map<string, FunctionId>
    var versions: map<VersionKey, VersionRow>
    var aliases: map<AliasKey, AliasRow>

    function View(): Tables
      reads this
    {
      Tables(functions, names, versions, aliases)
    }

    ghost predicate Valid()
      reads this
    {
      TablesOk(View())
    }

    constructor (host: Host)
      ensures Valid() && View() == NO_ROWS && this.host == host
    {
      this.host := host;
      functions, names, versions, aliases := map[], map[], map[], map[];
    }

    method Store(t: Tables)
      modifies this
      ensures View() == t
    {
      functions, names, versions, aliases := t.functions, t.names, t.versions, t.aliases;
    }

    method CreateFunction(spec: NewFunction, now: nat, uuid: FunctionId) returns (r: Reply)
      requires Valid()
      modifies this
      ensures Valid()
      ensures (View(), r) == Alone(host, old(View()), Start(host, Create(spec)), now, uuid)
    {
      AloneKeepsTables(host, View(), Start(host, Create(spec)), now, uuid);
      if !IsValidName(spec.name, host.beyondAscii) {
        return Failed(InvalidName);
      }
      AfterWrite(host, View(), Creating(spec), now, uuid);
      var row := NewRow(host, spec, now);
      match InsertFunction(View(), uuid, row) {
        case Ok(t) =>
          Store(t);
          r := Created(uuid, row);
        case Err(_) =>
          r := Failed(NameAlreadyExists(spec.name));
      }
    }

    method UpdateFunction(id: FunctionId, changes: Changes, now: nat, uuid: FunctionId) returns (r: Reply)
      requires Valid()
      modifies this
      ensures Valid()
      ensures (View(), r) == Alone(host, old(View()), Start(host, Update(id, changes)), now, uuid)
    {
      AloneKeepsTables(host, View(), Start(host, Update(id, changes)), now, uuid);
      AfterRead(host, View(), Updating(id, changes), now, uuid);
      if id !in functions {
        return Failed(FunctionNotFound(ById(id)));
      }
      ghost var merged := Merge(host, functions[id], changes);
      var current := functions[id];
      if changes.description.Some? {
        current := current.(description := changes.description);
      }
      if changes.handler.Some? {
        current := current.(settings := current.settings.(handler := changes.handler.value));
      }
      if changes.code.Some? {
        var code := changes.code.value;
        current := current.(settings := current.settings.(code := code, codeHash := host.hash(code)));
      }
      if changes.environment.Some? {
        current := current.(settings := current.settings.(environment := changes.environment.value));
      }
      if changes.timeoutMs.Some? {
        current := current.(settings := current.settings.(timeoutMs := changes.timeoutMs.value));
      }
      if changes.memoryMb.Some? {
        current := current.(settings := current.settings.(memoryMb := changes.memoryMb.value));
      }
      assert current == merged;
      AfterWrite(host, View(), Writing(id, merged), now, uuid);
      Store(UpdateFunctionRow(View(), id, current.description, current.settings, now));
      r := Updated(current.(updatedAt := now));
    }

    method DeleteFunction(id: FunctionId, now: nat, uuid: FunctionId) returns (r: Reply)
      requires Valid()
      modifies this
      ensures Valid()
      ensures (View(), r) == Alone(host, old(View()), Start(host, Delete(id)), now, uuid)
    {
      AloneKeepsTables(host, View(), Start(host, Delete(id)), now, uuid);
      AfterWrite(host, View(), Deleting(id), now, uuid);
      if id !in functions {
        return Failed(FunctionNotFound(ById(id)));
      }
      Store(DeleteFunctionRow(View(), id));
      r := Deleted;
    }

    /** `SELECT MAX(version)`, then one more. */
    method GetNextVersionNumber(id: FunctionId) returns (next: U32)
      ensures next == NextVersion(SelectMaxVersion(View(), id))
    {
      var rows := VersionsOf(View(), id);
      var max: Option<U32> := None;
      var rest := rows;
      while rest != {}
        invariant rest <= rows
        invariant max.None? ==> rest == rows
        invariant max.Some? ==> max.value in rows && forall w: U32 | w in rows && w !in rest :: w <= max.value
      {
        var v: U32 :| v in rest;
        if max.None? || v > max.value {
          max := Some(v);
        }
        rest := rest - {v};
      }
      assert max.Some? ==> IsMax(max.value, rows);
      next := NextVersion(max);
    }

    method PublishVersion(id: FunctionId, now: nat, uuid: FunctionId) returns (r: Reply)
      requires Valid()
      modifies this
      ensures Valid()
      ensures (View(), r) == Alone(host, old(View()), Start(host, Publish(id)), now, uuid)
    {
      AloneKeepsTables(host, View(), Start(host, Publish(id)), now, uuid);
      AfterRead(host, View(), Publishing(id), now, uuid);
      if id !in functions {
        return Failed(FunctionNotFound(ById(id)));
      }
      var settings := functions[id].settings;
      AfterRead(host, View(), Numbering(id, settings), now, uuid);
      var next := GetNextVersionNumber(id);
      AfterWrite(host, View(), Inserting(id, settings, next), now, uuid);
      match InsertVersion(View(), id, next, VersionRow(settings, now)) {
        case Ok(t) =>
          Store(t);
          r := Published(next, VersionRow(settings, now));
        case Err(e) =>
          r := Failed(Database(e));
      }
    }

    method CreateAliasTo(id: FunctionId, alias: string, v: U32, now: nat, uuid: FunctionId) returns (r: Reply)
      requires Valid()
      modifies this
      ensures Valid()
      ensures (View(), r) == Alone(host, old(View()), CheckingTarget(id, alias, v), now, uuid)
    {
      AloneKeepsTables(host, View(), CheckingTarget(id, alias, v), now, uuid);
      AfterRead(host, View(), CheckingTarget(id, alias, v), now, uuid);
      if (id, v) !in versions {
        return Failed(VersionNotFound(id, v));
      }
      AfterWrite(host, View(), InsertingAlias(id, alias, v), now, uuid);
      match InsertAlias(View(), id, alias, v, now) {
        case Ok(t) =>
          Store(t);
          r := AliasSet(AliasRow(v, now, now));
        case Err(e) =>
          r := Failed(if e.UniqueFailed? then AliasAlreadyExists else Database(e));
      }
    }

    method UpdateAliasTo(id: FunctionId, alias: string, v: U32, now: nat, uuid: FunctionId) returns (r: Reply)
      requires Valid()
      modifies this
      ensures Valid()
      ensures (View(), r) == Alone(host, old(View()), CheckingUpdate(id, alias, v, Report), now, uuid)
    {
      AloneKeepsTables(host, View(), CheckingUpdate(id, alias, v, Report), now, uuid);
      AfterRead(host, View(), CheckingUpdate(id, alias, v, Report), now, uuid);
      if (id, v) !in versions {
        return Failed(VersionNotFound(id, v));
      }
      AfterRead(host, View(), ReadingAlias(id, alias, v, Report), now, uuid);
      if (id, alias) !in aliases {
        return Failed(AliasNotFound(id, alias));
      }
      var current := aliases[(id, alias)];
      AfterWrite(host, View(), WritingAlias(id, alias, v, current), now, uuid);
      match UpdateAliasRow(View(), id, alias, v, now) {
        case Ok(t) =>
          Store(t);
          r := AliasSet(current.(version := v, updatedAt := now));
        case Err(e) =>
          r := Failed(Database(e));
      }
    }

    method CreateAlias(id: FunctionId, alias: string, target: VersionRef, now: nat, uuid: FunctionId) returns (r: Reply)
      requires Valid()
      modifies this
      ensures Valid()
      ensures (View(), r)
              == Alone(host, old(View()), Start(host, RegistryCalls.CreateAlias(id, alias, target)), now, uuid)
    {
      if !target.Number? {
        return Failed(BadAliasTarget);
      }
      r := CreateAliasTo(id, alias, target.n, now, uuid);
    }

    method UpdateAlias(id: FunctionId, alias: string, target: VersionRef, now: nat, uuid: FunctionId) returns (r: Reply)
      requires Valid()
      modifies this
      ensures Valid()
      ensures (View(), r)
              == Alone(host, old(View()), Start(host, RegistryCalls.UpdateAlias(id, alias, target)), now, uuid)
    {
      if !target.Number? {
        return Failed(BadAliasTarget);
      }
      r := UpdateAliasTo(id, alias, target.n, now, uuid);
    }

    /** `VersioningManager::upsert_alias`: resolve the target, then verify, update, else create. */
    method Upsert(id: FunctionId, alias: string, target: VersionRef, now: nat, uuid: FunctionId) returns (r: Reply)
      requires Valid()
      modifies this
      ensures Valid()
      ensures (View(), r) == Alone(host, old(View()), Start(host, UpsertAlias(id, alias, target)), now, uuid)
    {
      if target.Latest? {
        return Failed(InvalidHandler);
      }
      var v: U32;
      if target.Number? {
        v := target.n;
      } else {
        AfterRead(host, View(), UpsertResolving(id, alias, target.name), now, uuid);
        if (id, target.name) !in aliases {
          return Failed(AliasNotFound(id, target.name));
        }
        v := aliases[(id, target.name)].version;
      }
      r := UpsertTo(id, alias, v, now, uuid);
    }

    method UpsertTo(id: FunctionId, alias: string, v: U32, now: nat, uuid: FunctionId) returns (r: Reply)
      requires Valid()
      modifies this
      ensures Valid()
      ensures (View(), r) == Alone(host, old(View()), UpsertFunction(id, alias, v), now, uuid)
    {
      AfterRead(host, View(), UpsertFunction(id, alias, v), now, uuid);
      if id !in functions {
        return Failed(FunctionNotFound(ById(id)));
      }
      AfterRead(host, View(), UpsertVersion(id, alias, v), now, uuid);
      if (id, v) !in versions {
        return Failed(VersionNotFound(id, v));
      }
      UpdateElseCreate(host, View(), id, alias, v, now, uuid);
      r := UpdateAliasTo(id, alias, v, now, uuid);
      if r == Failed(AliasNotFound(id, alias)) {
        r := CreateAliasTo(id, alias, v, now, uuid);
      }
    }

    method ResolveVersion(id: FunctionId, target: VersionRef) returns (r: Reply)
      ensures Answers(host, View(), Start(host, Resolve(id, target)), r)
    {
      RegistryResolves(host, View(), id, target);
      match target {
        case Latest =>
          if id !in functions {
            return Failed(FunctionNotFound(ById(id)));
          }
          r := Resolved(None, functions[id].settings);
        case Number(v) =>
          if (id, v) !in versions {
            return Failed(VersionNotFound(id, v));
          }
          r := Resolved(Some(v), versions[(id, v)].settings);
        case Alias(a) =>
          if (id, a) !in aliases {
            return Failed(AliasNotFound(id, a));
          }
          var v := aliases[(id, a)].version;
          if (id, v) !in versions {
            return Failed(VersionNotFound(id, v));
          }
          r := Resolved(Some(v), versions[(id, v)].settings);
      }
    }
  }

  // ---------------------------------------------------------------------------------------------
  // What the calls mean when nothing interferes
  // ---------------------------------------------------------------------------------------------

  /** Every reference to a version, except those that `changed` picks, denotes what it did. */
  ghost predicate SameMeaning(t: Tables, t': Tables, changed: (FunctionId, VersionRef) -> bool) {
    forall id, ref | !changed(id, ref) :: Denoted(t', id, ref) == Denoted(t, id, ref)
  }

  /** Creating fails without effect on a name that is invalid or taken. Otherwise the name leads to a
      new function with exactly the settings asked for, and nothing else changes its meaning. */
  lemma CreateThenResolve(h: Host, t: Tables, spec: NewFunction, now: nat, uuid: FunctionId)
    requires TablesOk(t) && uuid !in t.functions
    ensures var (t', r) := Alone(h, t, Start(h, Create(spec)), now, uuid);
            if !IsValidName(spec.name, h.beyondAscii) then t' == t && r == Failed(InvalidName)
            else if SelectFunctionByName(t, spec.name).Some? then t' == t && r == Failed(NameAlreadyExists(spec.name))
            else
              var settings := Settings(
                spec.code, h.hash(spec.code), spec.handler, spec.environment, spec.timeoutMs, spec.memoryMb);
              var row := FunctionRow(spec.name, spec.description, spec.runtime, settings, now, now);
              && r == Created(uuid, row) && uuid in t'.functions && t'.functions[uuid] == row
              && SelectFunctionByName(t', spec.name) == Some(uuid)
              && Denoted(t', uuid, Latest) == Ok(Code(None, settings))
              && SameMeaning(t, t', (id, ref) => id == uuid)
              && forall name | name != spec.name :: SelectFunctionByName(t', name) == SelectFunctionByName(t, name)
  {
    if IsValidName(spec.name, h.beyondAscii) {
      AfterWrite(h, t, Creating(spec), now, uuid);
    }
  }

  predicate Changed<T(==)>(change: Option<T>, before: T, after: T) {
    (change.None? ==> after == before) && (change.Some? ==> after == change.value)
  }

  /** Each setting is the one asked for, or as it was if none was asked for. */
  predicate SettingsChanged(h: Host, c: Changes, before: Settings, after: Settings) {
    && Changed(c.code, before.code, after.code)
    && after.codeHash == (if c.code.Some? then h.hash(c.code.value) else before.codeHash)
    && Changed(c.handler, before.handler, after.handler)
    && Changed(c.environment, before.environment, after.environment)
    && Changed(c.timeoutMs, before.timeoutMs, after.timeoutMs)
    && Changed(c.memoryMb, before.memoryMb, after.memoryMb)
  }

  /** The same for a whole row; a description can be set but not taken away. */
  predicate RowChanged(h: Host, c: Changes, before: FunctionRow, after: FunctionRow, now: nat) {
    && SettingsChanged(h, c, before.settings, after.settings)
    && after.description == (if c.description.Some? then Some(c.description.value) else before.description)
    && after.name == before.name && after.runtime == before.runtime
    && after.createdAt == before.createdAt && after.updatedAt == now
  }

  /** An update changes what $LATEST of its function means, setting by setting as asked, and nothing
      else: not the name, no version and no alias. Repeating it changes nothing any more. */
  lemma UpdateChangesOnlyLatest(
    h: Host, t: Tables, id: FunctionId, changes: Changes, now: nat, later: nat, uuid: FunctionId)
    requires id in t.functions
    ensures var (t1, r) := Alone(h, t, Start(h, Update(id, changes)), now, uuid);
            var (t2, again) := Alone(h, t1, Start(h, Update(id, changes)), later, uuid);
            && r.Updated? && again.Updated? && id in t1.functions && t1.functions[id] == r.row
            && Denoted(t1, id, Latest) == Ok(Code(None, r.row.settings))
            && RowChanged(h, changes, t.functions[id], r.row, now)
            && Denoted(t2, id, Latest) == Denoted(t1, id, Latest)
            && SameMeaning(t, t1, (other, ref) => other == id && ref == Latest)
            && t1.names == t.names
  {
    UpdateAlone(h, t, id, changes, now, uuid);
    UpdateAlone(h, Alone(h, t, Start(h, Update(id, changes)), now, uuid).0, id, changes, later, uuid);
  }

  /** Updating, publishing and deleting a function that does not exist fail without effect. */
  lemma MissingFunctionIsReported(h: Host, t: Tables, id: FunctionId, changes: Changes, now: nat, uuid: FunctionId)
    requires id !in t.functions
    ensures var missing := (t, Failed(FunctionNotFound(ById(id))));
            && Alone(h, t, Start(h, Update(id, changes)), now, uuid) == missing
            && Alone(h, t, Start(h, Publish(id)), now, uuid) == missing
            && Alone(h, t, Start(h, Delete(id)), now, uuid) == missing
  {
    AfterRead(h, t, Updating(id, changes), now, uuid);
    AfterRead(h, t, Publishing(id), now, uuid);
    AfterWrite(h, t, Deleting(id), now, uuid);
  }

  /** Creating an alias sets it exactly when the target is a number, that version exists and the alias does
      not: an alias that exists is never re-pointed. */
  lemma CreateAliasThenResolve(
    h: Host, t: Tables, id: FunctionId, alias: string, target: VersionRef, now: nat, uuid: FunctionId)
    requires TablesOk(t)
    ensures var (t', r) := Alone(h, t, Start(h, RegistryCalls.CreateAlias(id, alias, target)), now, uuid);
            if !target.Number? then t' == t && r == Failed(BadAliasTarget)
            else if Denoted(t, id, target).Err? then t' == t && r == Failed(VersionNotFound(id, target.n))
            else if (id, alias) in t.aliases then t' == t && r == Failed(AliasAlreadyExists)
            else
              && r == AliasSet(AliasRow(target.n, now, now))
              && t' == t.(aliases := t.aliases[(id, alias) := AliasRow(target.n, now, now)])
              && Denoted(t', id, VersionRef.Alias(alias)) == Denoted(t, id, target)
              && SameMeaning(t, t', (other, ref) => other == id && ref == VersionRef.Alias(alias))
  {
    if target.Number? {
      AfterRead(h, t, CheckingTarget(id, alias, target.n), now, uuid);
      if (id, target.n) in t.versions {
        AfterWrite(h, t, InsertingAlias(id, alias, target.n), now, uuid);
        AliasSetMeans(t, id, alias, AliasRow(target.n, now, now));
      }
    }
  }

  /** Updating an alias re-points it exactly when the target is a number, that version exists and the alias
      does too; when the alias was created is kept. */
  lemma UpdateAliasThenResolve(
    h: Host, t: Tables, id: FunctionId, alias: string, target: VersionRef, now: nat, uuid: FunctionId)
    requires TablesOk(t)
    ensures var (t', r) := Alone(h, t, Start(h, RegistryCalls.UpdateAlias(id, alias, target)), now, uuid);
            if !target.Number? then t' == t && r == Failed(BadAliasTarget)
            else if Denoted(t, id, target).Err? then t' == t && r == Failed(VersionNotFound(id, target.n))
            else if (id, alias) !in t.aliases then t' == t && r == Failed(AliasNotFound(id, alias))
            else
              var row := AliasRow(target.n, t.aliases[(id, alias)].createdAt, now);
              && r == AliasSet(row)
              && t' == t.(aliases := t.aliases[(id, alias) := row])
              && Denoted(t', id, VersionRef.Alias(alias)) == Denoted(t, id, target)
              && SameMeaning(t, t', (other, ref) => other == id && ref == VersionRef.Alias(alias))
  {
    if target.Number? {
      AfterRead(h, t, CheckingUpdate(id, alias, target.n, Report), now, uuid);
      if (id, target.n) in t.versions {
        AfterRead(h, t, ReadingAlias(id, alias, target.n, Report), now, uuid);
        if (id, alias) in t.aliases {
          AfterWrite(h, t, WritingAlias(id, alias, target.n, t.aliases[(id, alias)]), now, uuid);
          AliasSetMeans(t, id, alias, AliasRow(target.n, t.aliases[(id, alias)].createdAt, now));
        }
      }
    }
  }

  lemma UpdateAlone(h: Host, t: Tables, id: FunctionId, changes: Changes, now: nat, uuid: FunctionId)
    requires id in t.functions
    ensures var merged := Merge(h, t.functions[id], changes);
            Alone(h, t, Start(h, Update(id, changes)), now, uuid)
            == (UpdateFunctionRow(t, id, merged.description, merged.settings, now), Updated(merged.(updatedAt := now)))
  {
    AfterRead(h, t, Updating(id, changes), now, uuid);
    AfterWrite(h, t, Writing(id, Merge(h, t.functions[id], changes)), now, uuid);
  }

  /** Deleting leaves nothing that a reference to the function could denote, and nothing else changes
      its meaning. */
  lemma DeletedFunctionIsGone(h: Host, t: Tables, id: FunctionId, now: nat, uuid: FunctionId)
    requires TablesOk(t)
    ensures var (t', r) := Alone(h, t, Start(h, Delete(id)), now, uuid);
            && (r == Deleted <==> id in t.functions)
            && (forall ref :: Denoted(t', id, ref).Err?)
            && (forall name :: SelectFunctionByName(t', name) != Some(id))
            && SameMeaning(t, t', (other, ref) => other == id)
  {
    AfterWrite(h, t, Deleting(id), now, uuid);
  }

  /** The alias upsert succeeds exactly when its target is a version that can be resolved, or an alias
      that can. Then the alias denotes what the target denoted, also when the target is the alias
      itself, and nothing else changes its meaning; otherwise nothing is changed at all. */
  lemma UpsertThenResolve(
    h: Host, t: Tables, id: FunctionId, alias: string, target: VersionRef, now: nat, uuid: FunctionId)
    requires TablesOk(t)
    ensures var (t', r) := Alone(h, t, Start(h, UpsertAlias(id, alias, target)), now, uuid);
            && (r.AliasSet? <==> !target.Latest? && Denoted(t, id, target).Ok?)
            && (r.AliasSet? ==>
                  && Denoted(t', id, VersionRef.Alias(alias)) == Denoted(t, id, target)
                  && SameMeaning(t, t', (other, ref) => other == id && ref == VersionRef.Alias(alias)))
            && (!r.AliasSet? ==> t' == t && r == Failed(UpsertFailure(t, id, target)))
  {
    if target.Number? {
      UpsertAlone(h, t, id, alias, target.n, now, uuid);
    } else if target.Alias? {
      AfterRead(h, t, UpsertResolving(id, alias, target.name), now, uuid);
      if (id, target.name) in t.aliases {
        UpsertAlone(h, t, id, alias, t.aliases[(id, target.name)].version, now, uuid);
      }
    }
  }

  /** Why an upsert cannot find its target. */
  function UpsertFailure(t: Tables, id: FunctionId, target: VersionRef): Failure {
    match target
    case Latest => InvalidHandler
    case Number(v) => if id in t.functions then VersionNotFound(id, v) else FunctionNotFound(ById(id))
    case Alias(via) => AliasNotFound(id, via)
  }

  lemma UpsertAlone(h: Host, t: Tables, id: FunctionId, alias: string, v: U32, now: nat, uuid: FunctionId)
    requires TablesOk(t)
    ensures var (t', r) := Alone(h, t, UpsertFunction(id, alias, v), now, uuid);
            if DenotedVersion(t, id, v).Ok? then
              && r.AliasSet? && r.alias == UpsertedRow(t, id, alias, v, now)
              && t' == t.(aliases := t.aliases[(id, alias) := r.alias])
              && Denoted(t', id, VersionRef.Alias(alias)) == DenotedVersion(t, id, v)
              && SameMeaning(t, t', (other, ref) => other == id && ref == VersionRef.Alias(alias))
            else t' == t && r == Failed(UpsertFailure(t, id, Number(v)))
  {
    AfterRead(h, t, UpsertFunction(id, alias, v), now, uuid);
    if id in t.functions {
      AfterRead(h, t, UpsertVersion(id, alias, v), now, uuid);
      if (id, v) in t.versions {
        SetAliasAlone(h, t, id, alias, v, now, uuid);
        AliasSetMeans(t, id, alias, UpsertedRow(t, id, alias, v, now));
      }
    }
  }

  lemma AliasSetMeans(t: Tables, id: FunctionId, alias: string, row: AliasRow)
    requires (id, row.version) in t.versions
    ensures var t' := t.(aliases := t.aliases[(id, alias) := row]);
            && Denoted(t', id, VersionRef.Alias(alias)) == DenotedVersion(t, id, row.version)
            && SameMeaning(t, t', (other, ref) => other == id && ref == VersionRef.Alias(alias))
  {
  }

  function UpsertedRow(t: Tables, id: FunctionId, alias: string, v: U32, now: nat): AliasRow {
    AliasRow(v, if (id, alias) in t.aliases then t.aliases[(id, alias)].createdAt else now, now)
  }

  lemma SetAliasAlone(h: Host, t: Tables, id: FunctionId, alias: string, v: U32, now: nat, uuid: FunctionId)
    requires (id, v) in t.versions
    ensures var row := UpsertedRow(t, id, alias, v, now);
            Alone(h, t, CheckingUpdate(id, alias, v, CreateIt), now, uuid)
            == (t.(aliases := t.aliases[(id, alias) := row]), AliasSet(row))
  {
    AfterRead(h, t, CheckingUpdate(id, alias, v, CreateIt), now, uuid);
    AfterRead(h, t, ReadingAlias(id, alias, v, CreateIt), now, uuid);
    if (id, alias) in t.aliases {
      AfterWrite(h, t, WritingAlias(id, alias, v, t.aliases[(id, alias)]), now, uuid);
    } else {
      AfterRead(h, t, CheckingTarget(id, alias, v), now, uuid);
      AfterWrite(h, t, InsertingAlias(id, alias, v), now, uuid);
    }
  }

  /** Publishing alone stores $LATEST under the next number, and resolving that number gives back
      exactly what was published, now and after any later update. */
  lemma PublishThenResolve(
    h: Host, t: Tables, id: FunctionId, now: nat, uuid: FunctionId, changes: Changes, later: nat)
    requires TablesOk(t) && id in t.functions && |VersionsOf(t, id)| < U32_RANGE
    ensures var (t1, published) := Alone(h, t, Publishing(id), now, uuid);
            var v := (|VersionsOf(t, id)| + 1) % U32_RANGE;
            && published == Published(v, VersionRow(t.functions[id].settings, now))
            && Denoted(t1, id, Number(v)) == Ok(Code(Some(v), t.functions[id].settings))
            && Denoted(Alone(h, t1, Updating(id, changes), later, uuid).0, id, Number(v))
               == Ok(Code(Some(v), t.functions[id].settings))
  {
    PublishAlone(h, t, id, now, uuid);
    UpdateAlone(h, Alone(h, t, Publishing(id), now, uuid).0, id, changes, later, uuid);
  }

  lemma PublishAlone(h: Host, t: Tables, id: FunctionId, now: nat, uuid: FunctionId)
    requires TablesOk(t) && id in t.functions && |VersionsOf(t, id)| < U32_RANGE
    ensures var v, row := (|VersionsOf(t, id)| + 1) % U32_RANGE, VersionRow(t.functions[id].settings, now);
            && (id, v) !in t.versions
            && Alone(h, t, Publishing(id), now, uuid)
               == (t.(versions := t.versions[(id, v) := row]), Published(v, row))
  {
    var settings := t.functions[id].settings;
    var next := NextVersion(SelectMaxVersion(t, id));
    NumberIsNext(t, id);
    AfterRead(h, t, Publishing(id), now, uuid);
    AfterRead(h, t, Numbering(id, settings), now, uuid);
    AfterWrite(h, t, Inserting(id, settings, next), now, uuid);
  }

  /** The number a publication computes is the next one, and free. */
  lemma NumberIsNext(t: Tables, id: FunctionId)
    requires TablesOk(t) && |VersionsOf(t, id)| < U32_RANGE
    ensures NextVersion(SelectMaxVersion(t, id)) == (|VersionsOf(t, id)| + 1) % U32_RANGE
    ensures (id, NextVersion(SelectMaxVersion(t, id))) !in t.versions
  {
    var vs := VersionsOf(t, id);
    NumbersOf(t, id);
    if vs != {} {
      var m := SelectMaxVersion(t, id).value;
      assert m in vs && Between(1, m, |vs| + 1);
      assert |vs| in vs by {
        assert Between(1, |vs|, |vs| + 1);
      }
    }
    assert !Between(1, NextVersion(SelectMaxVersion(t, id)), |vs| + 1);
  }
}
