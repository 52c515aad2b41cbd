/** migrate_melhorias_corrigido_v3.py, schema part: temporary-table cleanup, the
    copy-and-swap rebuild of `users`, the column additions to `categorias` and
    `despesas`, and the tables created when absent. Unlike the post-migration script,
    an ALTER the engine refuses here raises and aborts the run. */
module MigrateSchema {
  import opened Store

  /** A CREATE TABLE statement: its column list and the DEFAULTs it declares. */
  datatype TableDef = TableDef(name: string, columns: seq<string>, defaults: map<string, Value>)

  /** What a migration step did to its table. */
  datatype Outcome = Created | UpToDate | Rebuilt | Extended(added: seq<string>)

  /** The state a step leaves and what it returns or raises. */
  datatype Step<T> = Step(tables: Tables, result: Result<T>)

  function Empty(def: TableDef): Table {
    Table(def.columns, def.defaults, [])
  }

  const TempTables: seq<string> := ["users_new", "despesas_new", "categorias_new"]

  const UserColumns: seq<string> :=
    ["id", "username", "password_hash", "perfil", "nome_completo", "email", "ativo", "created_at", "updated_at"]

  const UserDefaults: map<string, Value> := map["perfil" := Text("usuario"), "ativo" := Int(1)]

  const UsersDef := TableDef("users", UserColumns, UserDefaults)

  const UsersNewDef := TableDef("users_new", UserColumns, UserDefaults)

  /** The columns whose absence triggers the rebuild of `users`. */
  const NewUserColumns: seq<string> := ["nome_completo", "email", "ativo", "created_at", "updated_at"]

  const CategoriasDef := TableDef("categorias",
    ["id", "nome", "descricao", "cor", "icone", "ativo", "created_at"],
    map["cor" := Text("#667eea"), "icone" := Text("fas fa-tag"), "ativo" := Int(1)])

  const CategoriasAdditions: seq<ColumnSpec> := [
    ColumnSpec("descricao", TextType, None),
    ColumnSpec("cor", TextType, Some(Text("#667eea"))),
    ColumnSpec("icone", TextType, Some(Text("fas fa-tag"))),
    ColumnSpec("ativo", BooleanType, Some(Int(1))),
    ColumnSpec("created_at", TextType, None)]

  const GruposDef := TableDef("grupos",
    ["id", "nome", "descricao", "tipo", "criado_por", "ativo", "created_at"],
    map["tipo" := Text("familia"), "ativo" := Int(1)])

  const GrupoMembrosDef := TableDef("grupo_membros",
    ["id", "grupo_id", "user_id", "papel", "adicionado_por", "created_at"],
    map["papel" := Text("membro")])

  const CartoesDef := TableDef("cartoes",
    ["id", "nome", "descricao", "dia_vencimento", "dia_fechamento", "limite_credito", "bandeira", "user_id", "ativo", "created_at"],
    map["limite_credito" := Int(0), "ativo" := Int(1)])

  const DespesasFixasDef := TableDef("despesas_fixas",
    ["id", "descricao", "valor", "dia_vencimento", "categoria_id", "pagador", "forma_pagamento", "observacoes",
     "user_id", "grupo_id", "ativo", "created_at"],
    map["ativo" := Int(1)])

  const DespesasDef := TableDef("despesas",
    ["id", "descricao", "valor", "data", "pagador", "forma_pagamento", "categoria_id", "cartao_id", "grupo_id",
     "despesa_fixa_id", "parcela_atual", "total_parcelas", "grupo_parcela", "tipo", "observacoes", "user_id", "created_at"],
    map["parcela_atual" := Int(1), "total_parcelas" := Int(1), "tipo" := Text("individual")])

  const DespesasAdditions: seq<ColumnSpec> := [
    ColumnSpec("cartao_id", IntegerType, None),
    ColumnSpec("grupo_id", IntegerType, None),
    ColumnSpec("despesa_fixa_id", IntegerType, None),
    ColumnSpec("observacoes", TextType, None),
    ColumnSpec("created_at", TextType, None)]

  // ---------------------------------------------------------------------------
  // cleanup_temp_tables

  /** The database without any of the temporary tables; every other table as it was. */
  function WithoutTemp(db: Tables): (r: Tables)
    ensures forall t :: t in r <==> t in db && t !in TempTables
    ensures forall t :: t in r ==> r[t] == db[t]
  {
    map t | t in db && t !in TempTables :: db[t]
  }

  method CleanupTempTables(db: Database)
    modifies db
    ensures db.tables == WithoutTemp(old(db.tables))
  {
    var i := 0;
    while i < |TempTables|
      invariant 0 <= i <= |TempTables|
      invariant db.tables == map t | t in old(db.tables) && t !in TempTables[..i] :: old(db.tables)[t]
    {
      var present := db.TableExists(TempTables[i]);
      if present {
        db.DropTable(TempTables[i]);
      }
      assert forall t :: t in TempTables[..i + 1] <==> t in TempTables[..i] || t == TempTables[i];
      i := i + 1;
    }
    assert TempTables[..i] == TempTables;
  }

  // ---------------------------------------------------------------------------
  // The rebuild of `users`

  /** The CASE on `username` that fills `nome_completo`. */
  function DisplayName(username: Value): Value {
    if username == Text("master") then Text("Administrador Master")
    else if username == Text("daniela") then Text("Daniela Silva")
    else if username == Text("paulo") then Text("Paulo Santos")
    else username
  }

  /** The CASE on `username` that fills `email`. */
  function ContactEmail(username: Value): Value {
    if username == Text("master") then Text("admin@portal.com")
    else if username == Text("daniela") then Text("daniela@email.com")
    else if username == Text("paulo") then Text("paulo@email.com")
    else Null
  }

  /** One row of the `INSERT INTO users_new ... SELECT ... FROM users`. */
  function CopiedUser(r: Row, now: string): Row {
    map[
      "id" := Cell(r, "id"),
      "username" := Cell(r, "username"),
      "password_hash" := Cell(r, "password_hash"),
      "perfil" := Coalesce(Cell(r, "perfil"), Text("usuario")),
      "nome_completo" := DisplayName(Cell(r, "username")),
      "email" := ContactEmail(Cell(r, "username")),
      "ativo" := Int(1),
      "created_at" := Text(now),
      "updated_at" := Text(now)]
  }

  function CopiedUsers(rows: seq<Row>, now: string): seq<Row> {
    seq(|rows|, k requires 0 <= k < |rows| => CopiedUser(rows[k], now))
  }

  /** Why the `INSERT ... SELECT` raises, if it does: a column the SELECT names is
      missing from the old table, or a row breaks `users_new`'s NOT NULL or UNIQUE
      constraint on `username` / `password_hash`. The `id INTEGER PRIMARY KEY` is not
      checked: the copy keeps `id` as it is. */
  function CopyFailure(t: Table): Option<Failure> {
    if "id" !in t.columns then Some(NoSuchColumn("users", "id"))
    else if "username" !in t.columns then Some(NoSuchColumn("users", "username"))
    else if "password_hash" !in t.columns then Some(NoSuchColumn("users", "password_hash"))
    else if "perfil" !in t.columns then Some(NoSuchColumn("users", "perfil"))
    else if exists k :: 0 <= k < |t.rows| && (Cell(t.rows[k], "username") == Null || Cell(t.rows[k], "password_hash") == Null)
    then Some(ConstraintFailed("users_new"))
    else if exists i, j :: 0 <= i < j < |t.rows| && Cell(t.rows[i], "username") == Cell(t.rows[j], "username")
    then Some(ConstraintFailed("users_new"))
    else None
  }

  /** The table `users` becomes after a successful rebuild. */
  function RebuiltUsers(t: Table, now: string): Table {
    Table(UserColumns, UserDefaults, CopiedUsers(t.rows, now))
  }

  predicate UsersUpToDate(t: Table) {
    forall c :: c in NewUserColumns ==> c in t.columns
  }

  /** `migrate_users_table` as a value. */
  function UsersMigration(db: Tables, now: string): Step<Outcome> {
    var clean := WithoutTemp(db);
    if "users" !in clean then Step(clean["users" := Empty(UsersDef)], Ok(Created))
    else if UsersUpToDate(clean["users"]) then Step(clean, Ok(UpToDate))
    else match CopyFailure(clean["users"])
      case Some(f) => Step(clean["users_new" := Empty(UsersNewDef)], Err(f))
      case None => Step(clean["users" := RebuiltUsers(clean["users"], now)], Ok(Rebuilt))
  }

  /** The `INSERT INTO users_new ... SELECT ... FROM users` statement. */
  method CopyUsers(db: Database, now: string) returns (r: Result<()>)
    requires "users" in db.tables && "users_new" in db.tables
    modifies db
    ensures var f := CopyFailure(old(db.tables)["users"]);
      && (f.Some? ==> r == Err(f.value) && db.tables == old(db.tables))
      && (f.None? ==> r == Ok(()) && db.tables == old(db.tables)["users_new" :=
            old(db.tables)["users_new"].(rows := old(db.tables)["users_new"].rows + CopiedUsers(old(db.tables)["users"].rows, now))])
  {
    var f := CopyFailure(db.tables["users"]);
    if f.Some? {
      return Err(f.value);
    }
    db.AppendRows("users_new", CopiedUsers(db.tables["users"].rows, now));
    return Ok(());
  }

  /** The row-count guard before the destructive swap: `original` is dropped and `copy`
      renamed in its place only when both hold the same number of rows; otherwise the
      step raises and nothing has been dropped. */
  method ReplaceWithCopy(db: Database, original: string, copy: string) returns (r: Result<()>)
    requires original in db.tables && copy in db.tables && original != copy
    modifies db
    ensures var o := |old(db.tables)[original].rows|;
      var c := |old(db.tables)[copy].rows|;
      && (o != c ==> r == Err(DataLost(o, c)) && db.tables == old(db.tables))
      && (o == c ==> r == Ok(()) && db.tables == (old(db.tables) - {copy})[original := old(db.tables)[copy]])
  {
    var oldCount := db.CountRows(original);
    var newCount := db.CountRows(copy);
    if oldCount != newCount {
      return Err(DataLost(oldCount, newCount));
    }
    db.DropTable(original);
    db.RenameTable(copy, original);
    assert db.tables == (old(db.tables) - {copy})[original := old(db.tables)[copy]];
    return Ok(());
  }

  method MigrateUsersTable(db: Database, now: string) returns (r: Result<Outcome>)
    modifies db
    ensures Step(db.tables, r) == UsersMigration(old(db.tables), now)
  {
    CleanupTempTables(db);
    var present := db.TableExists("users");
    if !present {
      db.CreateTable("users", UsersDef.columns, UsersDef.defaults);
      return Ok(Created);
    }

    var needsMigration := false;
    var i := 0;
    while i < |NewUserColumns|
      invariant 0 <= i <= |NewUserColumns|
      invariant db.tables == WithoutTemp(old(db.tables)) && "users" in db.tables
      invariant !needsMigration
      invariant forall j :: 0 <= j < i ==> NewUserColumns[j] in db.tables["users"].columns
    {
      var has := db.ColumnExists("users", NewUserColumns[i]);
      if !has {
        needsMigration := true;
        break;
      }
      i := i + 1;
    }
    if !needsMigration {
      return Ok(UpToDate);
    }

    ghost var clean := db.tables;
    assert !UsersUpToDate(clean["users"]);
    assert "users_new" in TempTables;
    db.CreateTable("users_new", UsersNewDef.columns, UsersNewDef.defaults);
    var copied := CopyUsers(db, now);
    if copied.Err? {
      return Err(copied.failure);
    }
    ghost var copy := db.tables["users_new"];
    assert copy == RebuiltUsers(clean["users"], now) by {
      assert [] + CopiedUsers(clean["users"].rows, now) == CopiedUsers(clean["users"].rows, now);
    }
    assert db.tables - {"users_new"} == clean;
    var swapped := ReplaceWithCopy(db, "users", "users_new");
    assert db.tables == clean["users" := RebuiltUsers(clean["users"], now)];
    r := swapped.Replace(Rebuilt);
  }

  /** A copied row has exactly the new table's columns. */
  lemma CopiedUserFits(r: Row, now: string)
    ensures RowFits(CopiedUser(r, now), UserColumns)
  {
  }

  /** A copied row keeps the row's identity and fills the rest as the copy promises. */
  lemma CopiedUserFacts(r: Row, now: string)
    ensures var c := CopiedUser(r, now);
      && Cell(c, "id") == Cell(r, "id")
      && Cell(c, "username") == Cell(r, "username")
      && Cell(c, "password_hash") == Cell(r, "password_hash")
      && (Cell(r, "perfil") != Null ==> Cell(c, "perfil") == Cell(r, "perfil"))
      && (Cell(r, "perfil") == Null ==> Cell(c, "perfil") == Text("usuario"))
      && (Cell(r, "username") != Null ==> Cell(c, "nome_completo") != Null)
      && Cell(c, "ativo") == Int(1)
      && (Cell(c, "email") != Null <==> Cell(r, "username") in [Text("master"), Text("daniela"), Text("paulo")])
  {
  }

  /** What the copy promises about the rebuilt table: the same rows in the same order,
      each keeping its `id`, `username` and `password_hash`; `perfil` kept when set and
      `'usuario'` otherwise; a display name always set; an e-mail exactly for the three
      known accounts; every account active; and usernames still present and distinct. */
  lemma RebuiltUsersFacts(t: Table, now: string)
    requires CopyFailure(t).None?
    ensures var r := RebuiltUsers(t, now);
      && WellFormed(r)
      && |r.rows| == |t.rows|
      && (forall k :: 0 <= k < |t.rows| ==> r.rows[k] == CopiedUser(t.rows[k], now))
      && (forall k :: 0 <= k < |r.rows| ==> Cell(r.rows[k], "username") != Null && Cell(r.rows[k], "nome_completo") != Null)
      && (forall i, j :: 0 <= i < j < |r.rows| ==> Cell(r.rows[i], "username") != Cell(r.rows[j], "username"))
  {
    var r := RebuiltUsers(t, now);
    assert Distinct(UserColumns) by {
      forall i, j | 0 <= i < j < |UserColumns| ensures UserColumns[i] != UserColumns[j] {
        DistinctNames(i, j);
      }
    }
    forall k | 0 <= k < |t.rows|
      ensures RowFits(r.rows[k], r.columns)
      ensures Cell(r.rows[k], "username") != Null && Cell(r.rows[k], "nome_completo") != Null
    {
      CopiedUserFits(t.rows[k], now);
      CopiedUserFacts(t.rows[k], now);
    }
    forall i, j | 0 <= i < j < |r.rows| ensures Cell(r.rows[i], "username") != Cell(r.rows[j], "username") {
      CopiedUserFacts(t.rows[i], now);
      CopiedUserFacts(t.rows[j], now);
    }
  }

  lemma DistinctNames(i: int, j: int)
    requires 0 <= i < j < |UserColumns|
    ensures UserColumns[i] != UserColumns[j]
  {
    var c := UserColumns;
    assert c[i][0] != c[j][0] || c[i][1] != c[j][1] || |c[i]| != |c[j]|;
  }

  /** A successful `migrate_users_table` leaves no temporary table, a `users` table that
      has every new column, and every other table as it was; when it raises, `users`
      has not been dropped. An absent `users` is created empty with the nine columns, an
      up-to-date one is left as it is, and an outdated one is replaced by its copy. */
  lemma UsersMigrationFacts(db: Tables, now: string)
    ensures var s := UsersMigration(db, now);
      && (s.result.Ok? ==>
            && (forall t :: t in TempTables ==> t !in s.tables)
            && "users" in s.tables && UsersUpToDate(s.tables["users"])
            && (forall t :: t in s.tables <==> t in WithoutTemp(db) || t == "users")
            && (forall t :: t in db && t !in TempTables && t != "users" ==> s.tables[t] == db[t]))
      && (s.result.Err? ==> "users" in db && s.tables["users"] == db["users"])
      && (s.result == Ok(Created) <==> "users" !in db)
      && ("users" !in db ==> s.tables["users"] == Empty(UsersDef) && |UsersDef.columns| == 9)
      && (s.result == Ok(UpToDate) <==> "users" in db && UsersUpToDate(db["users"]))
      && (s.result == Ok(UpToDate) ==> s.tables["users"] == db["users"])
      && (s.result == Ok(Rebuilt) <==> "users" in db && !UsersUpToDate(db["users"]) && CopyFailure(db["users"]).None?)
      && (s.result == Ok(Rebuilt) ==> s.tables["users"] == RebuiltUsers(db["users"], now))
  {
  }

  /** Running `migrate_users_table` again after it succeeded finds `users` up to date and
      changes nothing. */
  lemma UsersMigrationIdempotent(db: Tables, now: string, later: string)
    requires UsersMigration(db, now).result.Ok?
    ensures var s := UsersMigration(db, now);
      UsersMigration(s.tables, later) == Step(s.tables, Ok(UpToDate))
  {
    var s := UsersMigration(db, now);
    UsersMigrationFacts(db, now);
    assert WithoutTemp(s.tables) == s.tables;
  }

  // ---------------------------------------------------------------------------
  // safe_add_column and the column lists of categorias and despesas

  /** `safe_add_column` of this script: the refusal of an ALTER is not caught. */
  method SafeAddColumn(db: Database, table: string, spec: ColumnSpec, now: string) returns (r: Result<bool>)
    modifies db
    ensures var a := AddIfMissing(old(db.tables), db.rejects, table, spec, now);
      && (a.Ok? ==> r == Ok(a.value.1) && db.tables == a.value.0)
      && (a.Err? ==> r == Err(a.failure) && db.tables == old(db.tables))
  {
    var present := db.ColumnExists(table, spec.name);
    if present {
      return Ok(false);
    }
    var ok := db.AlterTableAddColumn(table, spec);
    if !ok {
      return Err(AlterRefused(table, spec.name));
    }
    if spec.name == "created_at" && spec.default.None? {
      db.UpdateNulls(table, "created_at", Text(now));
    }
    return Ok(true);
  }

  /** `safe_add_column` for each column in turn, collecting those it added; the first
      exception stops the loop. */
  function AddColumns(db: Tables, rejects: set<(string, string)>, table: string, specs: seq<ColumnSpec>, now: string): Step<seq<string>>
    decreases |specs|
  {
    if specs == [] then Step(db, Ok([]))
    else
      var p := AddColumns(db, rejects, table, specs[..|specs| - 1], now);
      if p.result.Err? then p
      else match AddIfMissing(p.tables, rejects, table, specs[|specs| - 1], now)
        case Err(f) => Step(p.tables, Err(f))
        case Ok((next, added)) => Step(next, Ok(p.result.value + Added(added, specs[|specs| - 1].name)))
  }

  function Added(added: bool, name: string): seq<string> {
    if added then [name] else []
  }

  lemma {:induction false} AddColumnsStopsAtFailure(db: Tables, rejects: set<(string, string)>, table: string, specs: seq<ColumnSpec>, now: string, i: nat)
    requires i <= |specs| && AddColumns(db, rejects, table, specs[..i], now).result.Err?
    ensures AddColumns(db, rejects, table, specs, now) == AddColumns(db, rejects, table, specs[..i], now)
    decreases |specs|
  {
    if i < |specs| {
      assert specs[..|specs| - 1][..i] == specs[..i];
      AddColumnsStopsAtFailure(db, rejects, table, specs[..|specs| - 1], now, i);
    } else {
      assert specs[..i] == specs;
    }
  }

  method AddMissingColumns(db: Database, table: string, specs: seq<ColumnSpec>, now: string) returns (r: Result<seq<string>>)
    modifies db
    ensures Step(db.tables, r) == AddColumns(old(db.tables), db.rejects, table, specs, now)
  {
    var added: seq<string> := [];
    var i := 0;
    while i < |specs|
      invariant 0 <= i <= |specs|
      invariant Step(db.tables, Ok(added)) == AddColumns(old(db.tables), db.rejects, table, specs[..i], now)
    {
      assert specs[..i + 1][..i] == specs[..i];
      var one := SafeAddColumn(db, table, specs[i], now);
      if one.Err? {
        AddColumnsStopsAtFailure(old(db.tables), db.rejects, table, specs, now, i + 1);
        return Err(one.failure);
      }
      added := added + Added(one.value, specs[i].name);
      i := i + 1;
    }
    assert specs[..i] == specs;
    return Ok(added);
  }

  /** One successful `safe_add_column` appends what it added, and the column is there. */
  lemma AddOneFacts(db: Tables, rejects: set<(string, string)>, table: string, spec: ColumnSpec, now: string)
    requires AddIfMissing(db, rejects, table, spec, now).Ok?
    ensures var a := AddIfMissing(db, rejects, table, spec, now).value;
      && table in db && table in a.0
      && a.0[table].columns == db[table].columns + Added(a.1, spec.name)
      && spec.name in a.0[table].columns
      && (a.1 ==> spec.name !in db[table].columns)
  {
  }

  /** One `safe_add_column` that does not raise keeps every value. */
  lemma AddOneKeepsData(db: Tables, rejects: set<(string, string)>, table: string, spec: ColumnSpec, now: string)
    requires AddIfMissing(db, rejects, table, spec, now).Ok?
    ensures KeepsData(db, AddIfMissing(db, rejects, table, spec, now).value.0)
  {
    AddIfMissingFacts(db, rejects, table, spec, now);
    var a := AddIfMissing(db, rejects, table, spec, now).value;
    if a.1 {
      assert TableKeepsData(db[table], a.0[table]);
    }
  }

  /** The column-adding loop raises only when the table is missing or the engine
      refuses one of the columns, and it never changes a value. */
  lemma {:induction false} AddColumnsFailure(db: Tables, rejects: set<(string, string)>, table: string, specs: seq<ColumnSpec>, now: string)
    ensures var s := AddColumns(db, rejects, table, specs, now);
      && KeepsData(db, s.tables)
      && (s.result.Err? ==> table !in db || exists k :: 0 <= k < |specs| && (table, specs[k].name) in rejects)
    decreases |specs|
  {
    if specs != [] {
      var init := specs[..|specs| - 1];
      var last := specs[|specs| - 1];
      AddColumnsFailure(db, rejects, table, init, now);
      var p := AddColumns(db, rejects, table, init, now);
      if p.result.Err? {
        if table in db {
          var k :| 0 <= k < |init| && (table, init[k].name) in rejects;
          assert specs[k] == init[k];
        }
      } else {
        var a := AddIfMissing(p.tables, rejects, table, last, now);
        if a.Ok? {
          AddOneKeepsData(p.tables, rejects, table, last, now);
          KeepsDataTransitive(db, p.tables, a.value.0);
        }
      }
    }
  }

  function Names(specs: seq<ColumnSpec>): seq<string> {
    seq(|specs|, k requires 0 <= k < |specs| => specs[k].name)
  }

  lemma NamesSnoc(specs: seq<ColumnSpec>)
    requires specs != []
    ensures Names(specs) == Names(specs[..|specs| - 1]) + [specs[|specs| - 1].name]
  {
    var init := specs[..|specs| - 1];
    assert forall k :: 0 <= k < |init| ==> Names(specs)[k] == Names(init)[k];
  }

  /** When the column-adding loop does not raise, every listed column is there, the
      table's columns are the old ones followed by the added ones in list order, and each
      added column is a listed one that was missing before. */
  lemma {:induction false} AddColumnsExtends(db: Tables, rejects: set<(string, string)>, table: string, specs: seq<ColumnSpec>, now: string)
    requires table in db
    ensures var s := AddColumns(db, rejects, table, specs, now);
      s.result.Ok? ==>
        && table in s.tables
        && s.tables[table].columns == db[table].columns + s.result.value
        && Covers(s.tables[table].columns, Names(specs))
        && NewlyAdded(s.result.value, db[table].columns, Names(specs))
    decreases |specs|
  {
    var s := AddColumns(db, rejects, table, specs, now);
    if specs != [] && s.result.Ok? {
      var init := specs[..|specs| - 1];
      var last := specs[|specs| - 1];
      AddColumnsExtends(db, rejects, table, init, now);
      var p := AddColumns(db, rejects, table, init, now);
      AddColumnsLast(db, rejects, table, specs, now);
      AddOneFacts(p.tables, rejects, table, last, now);
      var a := AddIfMissing(p.tables, rejects, table, last, now).value;
      NamesSnoc(specs);
      ExtendOne(db[table].columns, p.result.value, Names(init), Added(a.1, last.name), last.name);
    }
  }

  /** A successful loop is a successful loop over all but the last column followed
      by a successful `safe_add_column` of the last one. */
  lemma AddColumnsLast(db: Tables, rejects: set<(string, string)>, table: string, specs: seq<ColumnSpec>, now: string)
    requires specs != [] && AddColumns(db, rejects, table, specs, now).result.Ok?
    ensures var p := AddColumns(db, rejects, table, specs[..|specs| - 1], now);
      && p.result.Ok?
      && AddIfMissing(p.tables, rejects, table, specs[|specs| - 1], now).Ok?
      && var a := AddIfMissing(p.tables, rejects, table, specs[|specs| - 1], now).value;
         AddColumns(db, rejects, table, specs, now) == Step(a.0, Ok(p.result.value + Added(a.1, specs[|specs| - 1].name)))
  {
  }

  /** Every name of the list is a column. */
  predicate Covers(columns: seq<string>, names: seq<string>) {
    forall c :: c in names ==> c in columns
  }

  /** Every added column is one of the listed names and was not a column before. */
  predicate NewlyAdded(added: seq<string>, before: seq<string>, names: seq<string>) {
    forall c :: c in added ==> c !in before && c in names
  }

  lemma ExtendOne(before: seq<string>, added: seq<string>, names: seq<string>, more: seq<string>, name: string)
    requires Covers(before + added, names) && NewlyAdded(added, before, names)
    requires name in before + added + more
    requires more == [] || (more == [name] && name !in before + added)
    ensures Covers(before + (added + more), names + [name])
    ensures NewlyAdded(added + more, before, names + [name])
  {
    assert before + (added + more) == before + added + more;
  }

  /** The column-adding loop touches no table but its own. */
  lemma {:induction false} AddColumnsOther(db: Tables, rejects: set<(string, string)>, table: string, specs: seq<ColumnSpec>, now: string, other: string)
    requires other != table
    ensures var s := AddColumns(db, rejects, table, specs, now);
      && (other in s.tables <==> other in db)
      && (other in db ==> s.tables[other] == db[other])
    decreases |specs|
  {
    if specs != [] {
      AddColumnsOther(db, rejects, table, specs[..|specs| - 1], now, other);
    }
  }

  /** Adding the columns again right after it succeeded adds nothing and changes nothing. */
  lemma {:induction false} AddColumnsIdempotent(db: Tables, rejects: set<(string, string)>, table: string, specs: seq<ColumnSpec>, now: string, later: string)
    requires table in db && AddColumns(db, rejects, table, specs, now).result.Ok?
    ensures var s := AddColumns(db, rejects, table, specs, now);
      AddColumns(s.tables, rejects, table, specs, later) == Step(s.tables, Ok([]))
  {
    var s := AddColumns(db, rejects, table, specs, now);
    AddColumnsExtends(db, rejects, table, specs, now);
    forall k | 0 <= k < |specs| ensures specs[k].name in s.tables[table].columns {
      assert Names(specs)[k] == specs[k].name;
    }
    AddColumnsPresentNoop(s.tables, rejects, table, specs, later);
  }

  lemma {:induction false} AddColumnsPresentNoop(db: Tables, rejects: set<(string, string)>, table: string, specs: seq<ColumnSpec>, now: string)
    requires table in db && forall k :: 0 <= k < |specs| ==> specs[k].name in db[table].columns
    ensures AddColumns(db, rejects, table, specs, now) == Step(db, Ok([]))
    decreases |specs|
  {
    if specs != [] {
      var init := specs[..|specs| - 1];
      assert forall k :: 0 <= k < |init| ==> init[k] == specs[k];
      AddColumnsPresentNoop(db, rejects, table, init, now);
      var none: seq<string> := [];
      assert none + Added(false, specs[|specs| - 1].name) == none;
    }
  }

  /** `migrate_categorias_table`, and the `despesas` block of `migrate_database`: create
      the table when it is absent, otherwise add its missing columns. */
  function CreateOrExtend(db: Tables, rejects: set<(string, string)>, def: TableDef, additions: seq<ColumnSpec>, now: string): Step<Outcome> {
    if def.name !in db then Step(db[def.name := Empty(def)], Ok(Created))
    else
      var s := AddColumns(db, rejects, def.name, additions, now);
      Step(s.tables, if s.result.Ok? then Ok(Extended(s.result.value)) else Err(s.result.failure))
  }

  /** A create-or-extend step touches no table but its own. */
  lemma CreateOrExtendOther(db: Tables, rejects: set<(string, string)>, def: TableDef, additions: seq<ColumnSpec>, now: string, other: string)
    requires other != def.name
    ensures var s := CreateOrExtend(db, rejects, def, additions, now);
      && (other in s.tables <==> other in db)
      && (other in db ==> s.tables[other] == db[other])
  {
    if def.name in db {
      AddColumnsOther(db, rejects, def.name, additions, now, other);
    }
  }

  /** When the CREATE statement already declares every column of the list (as it does
      for `categorias` and `despesas`), a successful step leaves the table with every
      listed column, and a second run adds nothing and changes nothing. */
  lemma CreateOrExtendIdempotent(db: Tables, rejects: set<(string, string)>, def: TableDef, additions: seq<ColumnSpec>, now: string, later: string)
    requires forall c :: c in Names(additions) ==> c in def.columns
    requires CreateOrExtend(db, rejects, def, additions, now).result.Ok?
    ensures var s := CreateOrExtend(db, rejects, def, additions, now);
      && def.name in s.tables
      && (forall c :: c in Names(additions) ==> c in s.tables[def.name].columns)
      && CreateOrExtend(s.tables, rejects, def, additions, later) == Step(s.tables, Ok(Extended([])))
  {
    var s := CreateOrExtend(db, rejects, def, additions, now);
    if def.name in db {
      AddColumnsExtends(db, rejects, def.name, additions, now);
    }
    forall k | 0 <= k < |additions| ensures additions[k].name in s.tables[def.name].columns {
      assert Names(additions)[k] == additions[k].name;
    }
    AddColumnsPresentNoop(s.tables, rejects, def.name, additions, later);
  }

  lemma AdditionsDeclared()
    ensures forall c :: c in Names(CategoriasAdditions) ==> c in CategoriasDef.columns
    ensures forall c :: c in Names(DespesasAdditions) ==> c in DespesasDef.columns
  {
    assert Names(CategoriasAdditions) == ["descricao", "cor", "icone", "ativo", "created_at"];
    assert Names(DespesasAdditions) == ["cartao_id", "grupo_id", "despesa_fixa_id", "observacoes", "created_at"];
  }

  method MigrateTableColumns(db: Database, def: TableDef, additions: seq<ColumnSpec>, now: string) returns (r: Result<Outcome>)
    modifies db
    ensures Step(db.tables, r) == CreateOrExtend(old(db.tables), db.rejects, def, additions, now)
  {
    var present := db.TableExists(def.name);
    if !present {
      db.CreateTable(def.name, def.columns, def.defaults);
      return Ok(Created);
    }
    var added := AddMissingColumns(db, def.name, additions, now);
    if added.Err? {
      return Err(added.failure);
    }
    return Ok(Extended(added.value));
  }

  /** One of the `if not table_exists(...): CREATE TABLE ...` blocks as a value. */
  function CreateIfMissing(db: Tables, def: TableDef): Tables {
    if def.name in db then db else db[def.name := Empty(def)]
  }

  method CreateIfAbsent(db: Database, def: TableDef) returns (created: bool)
    modifies db
    ensures created <==> def.name !in old(db.tables)
    ensures db.tables == CreateIfMissing(old(db.tables), def)
  {
    var present := db.TableExists(def.name);
    created := !present;
    if created {
      db.CreateTable(def.name, def.columns, def.defaults);
    }
  }
}
