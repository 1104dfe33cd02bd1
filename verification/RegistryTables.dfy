/** The three registry tables and the SQL statements run on them, each one atomic, with the primary
keys, the unique name and the cascading foreign keys of the migrations enforced. */
module RegistryTables {
  import opened Wrappers
  import opened Text
  import opened References

  /** What a published version freezes and `$LATEST` keeps changing. */
  datatype Settings = Settings(
    code: string,
    codeHash: string,
    handler: string,
    environment: map<string, string>,
    timeoutMs: nat,
    memoryMb: nat)

  datatype FunctionRow = FunctionRow(
    name: string,
    description: Option<string>,
    runtime: string,
    settings: Settings,
    createdAt: nat,
    updatedAt: nat)

  datatype VersionRow = VersionRow(settings: Settings, publishedAt: nat)

  datatype AliasRow = AliasRow(version: U32, createdAt: nat, updatedAt: nat)

  type VersionKey = (FunctionId, U32)
  type AliasKey = (FunctionId, string)

  /** `names` is the unique index on the function names. */
  datatype Tables = Tables(
    functions: map<FunctionId, FunctionRow>,
    names: map<string, FunctionId>,
    versions: map<VersionKey, VersionRow>,
    aliases: map<AliasKey, AliasRow>)

  datatype SqlError = UniqueFailed | ForeignKeyFailed

  const NO_ROWS := Tables(map[], map[], map[], map[])

  // ---------------------------------------------------------------------------------------------
  // functions
  // ---------------------------------------------------------------------------------------------

  function InsertFunction(t: Tables, id: FunctionId, row: FunctionRow): Result<Tables, SqlError> {
    if id in t.functions || row.name in t.names then Err(UniqueFailed)
    else Ok(t.(functions := t.functions[id := row], names := t.names[row.name := id]))
  }

  function SelectFunctionByName(t: Tables, name: string): Option<FunctionId> {
    if name in t.names && t.names[name] in t.functions then Some(t.names[name]) else None
  }

  function UpdateFunctionRow(
    t: Tables, id: FunctionId, description: Option<string>, settings: Settings, now: nat): Tables
  {
    if id in t.functions then
      var row := t.functions[id].(description := description, settings := settings, updatedAt := now);
      t.(functions := t.functions[id := row])
    else t
  }

  /** Deleting a function row deletes its version rows, and those delete the alias rows that
      reference them. */
  function DeleteFunctionRow(t: Tables, id: FunctionId): Tables {
    if id in t.functions then
      Tables(
        t.functions - {id},
        t.names - {t.functions[id].name},
        map k | k in t.versions && k.0 != id :: t.versions[k],
        map k | k in t.aliases && !(k.0 == id && (id, t.aliases[k].version) in t.versions) :: t.aliases[k])
    else t
  }

  // ---------------------------------------------------------------------------------------------
  // function_versions
  // ---------------------------------------------------------------------------------------------

  function VersionsOf(t: Tables, id: FunctionId): (vs: set<U32>)
    ensures forall v: U32 :: v in vs <==> (id, v) in t.versions
  {
    set k | k in t.versions && k.0 == id :: k.1
  }

  ghost predicate IsMax(m: U32, s: set<U32>) {
    m in s && forall v | v in s :: v <= m
  }

  lemma {:induction false} MaxExists(s: set<U32>)
    requires s != {}
    ensures exists m :: IsMax(m, s)
    decreases s
  {
    var x :| x in s;
    if s == {x} {
      assert IsMax(x, s);
    } else {
      MaxExists(s - {x});
      var m :| IsMax(m, s - {x});
      assert s == (s - {x}) + {x};
      assert IsMax(if x > m then x else m, s);
    }
  }

  /** `SELECT MAX(version)`; no row gives NULL. */
  ghost function SelectMaxVersion(t: Tables, id: FunctionId): (max: Option<U32>)
    ensures max.None? <==> VersionsOf(t, id) == {}
    ensures max.Some? ==> IsMax(max.value, VersionsOf(t, id))
  {
    if VersionsOf(t, id) == {} then None
    else
      MaxExists(VersionsOf(t, id));
      var m :| IsMax(m, VersionsOf(t, id));
      Some(m)
  }

  /** The next version number, with the wrap-around of the source's 32-bit addition. */
  function NextVersion(max: Option<U32>): U32 {
    match max
    case None => 1
    case Some(m) => (m + 1) % U32_RANGE
  }

  function InsertVersion(t: Tables, id: FunctionId, v: U32, row: VersionRow): Result<Tables, SqlError> {
    if (id, v) in t.versions then Err(UniqueFailed)
    else if id !in t.functions then Err(ForeignKeyFailed)
    else Ok(t.(versions := t.versions[(id, v) := row]))
  }

  // ---------------------------------------------------------------------------------------------
  // function_aliases
  // ---------------------------------------------------------------------------------------------

  function InsertAlias(t: Tables, id: FunctionId, alias: string, v: U32, now: nat): Result<Tables, SqlError> {
    if (id, alias) in t.aliases then Err(UniqueFailed)
    else if (id, v) !in t.versions then Err(ForeignKeyFailed)
    else Ok(t.(aliases := t.aliases[(id, alias) := AliasRow(v, now, now)]))
  }

  /** An UPDATE that matches no row succeeds and changes nothing. */
  function UpdateAliasRow(t: Tables, id: FunctionId, alias: string, v: U32, now: nat): Result<Tables, SqlError> {
    if (id, alias) !in t.aliases then Ok(t)
    else if (id, v) !in t.versions then Err(ForeignKeyFailed)
    else Ok(t.(aliases := t.aliases[(id, alias) := t.aliases[(id, alias)].(version := v, updatedAt := now)]))
  }
}
