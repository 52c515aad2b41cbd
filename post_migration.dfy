/** correcao_pos_migracao.py: bring every table that exists up to its expected column
    list, one column at a time and without aborting on a refused ALTER, then fill the
    required fields that are still NULL. Running it twice changes nothing the second
    time. */
module PostMigration {
  import opened Store

  /** The expected structure, in the dictionary's insertion order. */
  const Expected: seq<(string, seq<ColumnSpec>)> := [
    ("users", [
      ColumnSpec("perfil", TextType, Some(Text("usuario"))),
      ColumnSpec("nome_completo", TextType, None),
      ColumnSpec("email", TextType, None),
      ColumnSpec("ativo", BooleanType, Some(Int(1))),
      ColumnSpec("created_at", TextType, None),
      ColumnSpec("updated_at", TextType, None)]),
    ("categorias", [
      ColumnSpec("descricao", TextType, None),
      ColumnSpec("cor", TextType, Some(Text("#667eea"))),
      ColumnSpec("icone", TextType, Some(Text("fas fa-tag"))),
      ColumnSpec("ativo", BooleanType, Some(Int(1))),
      ColumnSpec("created_at", TextType, None)]),
    ("despesas", [
      ColumnSpec("cartao_id", IntegerType, None),
      ColumnSpec("grupo_id", IntegerType, None),
      ColumnSpec("despesa_fixa_id", IntegerType, None),
      ColumnSpec("parcela_atual", IntegerType, Some(Int(1))),
      ColumnSpec("total_parcelas", IntegerType, Some(Int(1))),
      ColumnSpec("grupo_parcela", TextType, None),
      ColumnSpec("tipo", TextType, Some(Text("individual"))),
      ColumnSpec("observacoes", TextType, None),
      ColumnSpec("user_id", IntegerType, None),
      ColumnSpec("created_at", TextType, None)]),
    ("despesas_fixas", [
      ColumnSpec("observacoes", TextType, None),
      ColumnSpec("user_id", IntegerType, None),
      ColumnSpec("grupo_id", IntegerType, None),
      ColumnSpec("ativo", BooleanType, Some(Int(1))),
      ColumnSpec("created_at", TextType, None)]),
    ("grupos", [
      ColumnSpec("descricao", TextType, None),
      ColumnSpec("tipo", TextType, Some(Text("familia"))),
      ColumnSpec("criado_por", IntegerType, None),
      ColumnSpec("ativo", BooleanType, Some(Int(1))),
      ColumnSpec("created_at", TextType, None)]),
    ("grupo_membros", [
      ColumnSpec("papel", TextType, Some(Text("membro"))),
      ColumnSpec("adicionado_por", IntegerType, None),
      ColumnSpec("created_at", TextType, None)]),
    ("cartoes", [
      ColumnSpec("descricao", TextType, None),
      ColumnSpec("limite_credito", RealType, Some(Int(0))),
      ColumnSpec("bandeira", TextType, None),
      ColumnSpec("user_id", IntegerType, None),
      ColumnSpec("ativo", BooleanType, Some(Int(1))),
      ColumnSpec("created_at", TextType, None)])
  ]

  /** The tables whose `created_at` the last loop fills. */
  const CreatedAtTables: seq<string> :=
    ["users", "categorias", "despesas", "despesas_fixas", "grupos", "grupo_membros", "cartoes"]

  /** One progress message of the run. */
  datatype Event =
    | ColumnAdded(table: string, column: string)
    | ColumnPresent(table: string, column: string)
    | ColumnFailed(table: string, column: string)
    | TableMissing(table: string)
    | RowsFilled(table: string, column: string, count: nat)

  /** The state a stretch of the run leaves and the messages it reports. */
  datatype Pass = Pass(tables: Tables, events: seq<Event>)

  /** A run changed nothing: no column added, no row filled. */
  predicate Quiet(events: seq<Event>) {
    forall k :: 0 <= k < |events| ==> !events[k].ColumnAdded? && !events[k].RowsFilled?
  }

  // ---------------------------------------------------------------------------
  // The structure loop

  /** One call of `safe_add_column`; a refused ALTER is caught and leaves the database
      as it was. */
  function AddStep(db: Tables, rejects: set<(string, string)>, table: string, spec: ColumnSpec, now: string): Pass {
    if HasColumn(db, table, spec.name) then Pass(db, [ColumnPresent(table, spec.name)])
    else if !AlterAccepted(db, rejects, table, spec) then Pass(db, [ColumnFailed(table, spec.name)])
    else Pass(db[table := AddColumnAndStamp(db[table], spec, now)], [ColumnAdded(table, spec.name)])
  }

  /** `safe_add_column` for each expected column of one table, in order. */
  function ColumnsPass(db: Tables, rejects: set<(string, string)>, table: string, specs: seq<ColumnSpec>, now: string): Pass
    decreases |specs|
  {
    if specs == [] then Pass(db, [])
    else
      var p := ColumnsPass(db, rejects, table, specs[..|specs| - 1], now);
      var q := AddStep(p.tables, rejects, table, specs[|specs| - 1], now);
      Pass(q.tables, p.events + q.events)
  }

  /** The loop over the expected structure: a missing table is reported and skipped. */
  function TablesPass(db: Tables, rejects: set<(string, string)>, expected: seq<(string, seq<ColumnSpec>)>, now: string): Pass
    decreases |expected|
  {
    if expected == [] then Pass(db, [])
    else
      var p := TablesPass(db, rejects, expected[..|expected| - 1], now);
      var table := expected[|expected| - 1].0;
      if table in p.tables then
        var q := ColumnsPass(p.tables, rejects, table, expected[|expected| - 1].1, now);
        Pass(q.tables, p.events + q.events)
      else
        Pass(p.tables, p.events + [TableMissing(table)])
  }

  // ---------------------------------------------------------------------------
  // The consistency pass

  /** `SELECT COUNT(*) FROM table WHERE column IS NULL`, then the UPDATE to `v` when the
      count is positive. */
  function FillStep(db: Tables, table: string, column: string, v: Value): Pass
    requires table in db
  {
    var n := NullCount(db[table].rows, column);
    if n > 0 then Pass(db[table := FillNulls(db[table], column, v)], [RowsFilled(table, column, n)])
    else Pass(db, [])
  }

  /** The same, where the engine raises when the table or the column is missing. */
  function CheckedFill(db: Tables, table: string, column: string, v: Value): Result<Pass> {
    if table !in db then Err(NoSuchTable(table))
    else if column !in db[table].columns then Err(NoSuchColumn(table, column))
    else Ok(FillStep(db, table, column, v))
  }

  /** The two `categorias` fixes, run when that table exists. */
  function CategoriasFill(db: Tables): Result<Pass> {
    var a :- CheckedFill(db, "categorias", "ativo", Int(1));
    var c :- CheckedFill(a.tables, "categorias", "cor", Text("#667eea"));
    Ok(Pass(c.tables, a.events + c.events))
  }

  /** The last loop: `created_at` of every listed table that has that column. */
  function StampPass(db: Tables, names: seq<string>, now: string): Pass
    decreases |names|
  {
    if names == [] then Pass(db, [])
    else
      var p := StampPass(db, names[..|names| - 1], now);
      var table := names[|names| - 1];
      if HasColumn(p.tables, table, "created_at") then
        var q := FillStep(p.tables, table, "created_at", Text(now));
        Pass(q.tables, p.events + q.events)
      else p
  }

  function OptionalCategorias(db: Tables): Result<Pass> {
    if "categorias" in db then CategoriasFill(db) else Ok(Pass(db, []))
  }

  function OptionalFixas(db: Tables): Result<Pass> {
    if "despesas_fixas" in db then CheckedFill(db, "despesas_fixas", "ativo", Int(1)) else Ok(Pass(db, []))
  }

  /** The consistency pass: `users.ativo`, then `categorias` and `despesas_fixas` when
      those tables exist, then `created_at` everywhere. */
  function BackfillPass(db: Tables, now: string): Result<Pass> {
    var u :- CheckedFill(db, "users", "ativo", Int(1));
    var c :- OptionalCategorias(u.tables);
    var f :- OptionalFixas(c.tables);
    var s := StampPass(f.tables, CreatedAtTables, now);
    Ok(Pass(s.tables, u.events + c.events + f.events + s.events))
  }

  /** `verificar_e_corrigir_estrutura` on a database, as a value: the structure loop and
      then the consistency pass; `Err` when the engine raised. */
  function Run(db: Tables, rejects: set<(string, string)>, now: string): Result<Pass> {
    var s := TablesPass(db, rejects, Expected, now);
    var b :- BackfillPass(s.tables, now);
    Ok(Pass(b.tables, s.events + b.events))
  }

  // ---------------------------------------------------------------------------
  // What the structure loop guarantees

  /** Every expected column of `table` is there, or the environment refuses to add it;
      a table that does not exist is settled by default. */
  predicate Settled(db: Tables, rejects: set<(string, string)>, table: string, specs: seq<ColumnSpec>) {
    table in db ==> forall k :: 0 <= k < |specs| ==> specs[k].name in db[table].columns || (table, specs[k].name) in rejects
  }

  predicate AllSettled(db: Tables, rejects: set<(string, string)>, expected: seq<(string, seq<ColumnSpec>)>) {
    forall i :: 0 <= i < |expected| ==> Settled(db, rejects, expected[i].0, expected[i].1)
  }

  lemma SettledKept(db1: Tables, db2: Tables, rejects: set<(string, string)>, expected: seq<(string, seq<ColumnSpec>)>)
    requires KeepsData(db1, db2) && AllSettled(db1, rejects, expected)
    ensures AllSettled(db2, rejects, expected)
  {
    forall i | 0 <= i < |expected| ensures Settled(db2, rejects, expected[i].0, expected[i].1) {
      var table := expected[i].0;
      if table in db2 {
        assert Settled(db1, rejects, table, expected[i].1);
        assert TableKeepsData(db1[table], db2[table]);
      }
    }
  }

  /** One `safe_add_column` keeps every value, and afterwards the column is there unless
      the environment refused it; the event says which of the three outcomes happened. */
  lemma AddStepFacts(db: Tables, rejects: set<(string, string)>, table: string, spec: ColumnSpec, now: string)
    ensures var p := AddStep(db, rejects, table, spec, now);
      && KeepsData(db, p.tables)
      && (table in db ==> spec.name in p.tables[table].columns || (table, spec.name) in rejects)
      && (p.events == [ColumnAdded(table, spec.name)] <==> p.tables != db)
      && (p.events == [ColumnAdded(table, spec.name)] <==> AlterAccepted(db, rejects, table, spec))
  {
    var p := AddStep(db, rejects, table, spec, now);
    if AlterAccepted(db, rejects, table, spec) {
      var t := db[table];
      var r := p.tables[table];
      assert r.columns == t.columns + [spec.name];
      assert spec.name in r.columns && spec.name !in t.columns;
      assert TableKeepsData(t, r) by {
        forall k, c | 0 <= k < |t.rows| && c in t.columns && Cell(t.rows[k], c) != Null
          ensures Cell(r.rows[k], c) == Cell(t.rows[k], c)
        {
          assert c != spec.name;
          var added := AddColumn(t, spec);
          assert added.rows[k] == t.rows[k][spec.name := DefaultOf(spec)];
          assert Cell(added.rows[k], c) == Cell(t.rows[k], c);
        }
      }
      assert p.tables[table] != db[table];
    }
  }

  /** The post-migration `safe_add_column` is the plain check-then-add with the engine's
      exception caught: a refusal leaves the database as it was and is reported as a
      failed column, and the other two outcomes are those of the plain version. */
  lemma AddStepIsolatesFailure(db: Tables, rejects: set<(string, string)>, table: string, spec: ColumnSpec, now: string)
    ensures var r := AddIfMissing(db, rejects, table, spec, now);
      var p := AddStep(db, rejects, table, spec, now);
      && (r.Err? <==> p == Pass(db, [ColumnFailed(table, spec.name)]))
      && (r.Ok? ==> p.tables == r.value.0)
      && (r == Ok((p.tables, true)) <==> p.events == [ColumnAdded(table, spec.name)])
  {
    AddIfMissingFacts(db, rejects, table, spec, now);
  }

  /** The inner loop settles every expected column of the table and keeps every value. */
  lemma {:induction false} ColumnsPassSettles(db: Tables, rejects: set<(string, string)>, table: string, specs: seq<ColumnSpec>, now: string)
    ensures var p := ColumnsPass(db, rejects, table, specs, now);
      KeepsData(db, p.tables) && Settled(p.tables, rejects, table, specs)
    decreases |specs|
  {
    if specs != [] {
      var init := specs[..|specs| - 1];
      var last := specs[|specs| - 1];
      ColumnsPassSettles(db, rejects, table, init, now);
      var p := ColumnsPass(db, rejects, table, init, now);
      AddStepFacts(p.tables, rejects, table, last, now);
      var q := AddStep(p.tables, rejects, table, last, now);
      KeepsDataTransitive(db, p.tables, q.tables);
      if table in q.tables {
        assert TableKeepsData(p.tables[table], q.tables[table]);
        forall k | 0 <= k < |specs|
          ensures specs[k].name in q.tables[table].columns || (table, specs[k].name) in rejects
        {
          if k < |init| {
            assert specs[k] == init[k];
          }
        }
      }
    }
  }

  /** After the structure loop every expected table that exists is settled, and no
      value has been lost. */
  lemma {:induction false} TablesPassSettles(db: Tables, rejects: set<(string, string)>, expected: seq<(string, seq<ColumnSpec>)>, now: string)
    ensures var p := TablesPass(db, rejects, expected, now);
      KeepsData(db, p.tables) && AllSettled(p.tables, rejects, expected)
    decreases |expected|
  {
    if expected != [] {
      var init := expected[..|expected| - 1];
      var (table, specs) := expected[|expected| - 1];
      TablesPassSettles(db, rejects, init, now);
      var p := TablesPass(db, rejects, init, now);
      if table in p.tables {
        ColumnsPassSettles(p.tables, rejects, table, specs, now);
        var q := ColumnsPass(p.tables, rejects, table, specs, now);
        KeepsDataTransitive(db, p.tables, q.tables);
        SettledKept(p.tables, q.tables, rejects, init);
        forall i | 0 <= i < |expected| ensures Settled(q.tables, rejects, expected[i].0, expected[i].1) {
          if i < |init| {
            assert expected[i] == init[i];
          }
        }
      } else {
        forall i | 0 <= i < |expected| ensures Settled(p.tables, rejects, expected[i].0, expected[i].1) {
          if i < |init| {
            assert expected[i] == init[i];
          }
        }
      }
    }
  }

  /** A table the database does not have is reported once as missing and stays absent:
      no column is added to it. */
  lemma {:induction false} TablesPassSkipsMissing(db: Tables, rejects: set<(string, string)>, expected: seq<(string, seq<ColumnSpec>)>, now: string, i: nat)
    requires i < |expected| && expected[i].0 !in db
    ensures var p := TablesPass(db, rejects, expected, now);
      expected[i].0 !in p.tables && TableMissing(expected[i].0) in p.events
    decreases |expected|
  {
    TablesPassSettles(db, rejects, expected, now);
    var init := expected[..|expected| - 1];
    var p := TablesPass(db, rejects, init, now);
    TablesPassSettles(db, rejects, init, now);
    if i < |init| {
      assert init[i] == expected[i];
      TablesPassSkipsMissing(db, rejects, init, now, i);
    }
    if expected[|expected| - 1].0 in p.tables {
      var q := ColumnsPass(p.tables, rejects, expected[|expected| - 1].0, expected[|expected| - 1].1, now);
      assert TablesPass(db, rejects, expected, now).events == p.events + q.events;
    }
  }

  /** On a settled table the inner loop changes nothing and reports nothing added. */
  lemma {:induction false} ColumnsPassStable(db: Tables, rejects: set<(string, string)>, table: string, specs: seq<ColumnSpec>, now: string)
    requires table in db && Settled(db, rejects, table, specs)
    ensures var p := ColumnsPass(db, rejects, table, specs, now);
      p.tables == db && Quiet(p.events) && |p.events| == |specs|
    decreases |specs|
  {
    if specs != [] {
      var init := specs[..|specs| - 1];
      assert Settled(db, rejects, table, init) by {
        forall k | 0 <= k < |init| ensures init[k].name in db[table].columns || (table, init[k].name) in rejects {
          assert init[k] == specs[k];
        }
      }
      ColumnsPassStable(db, rejects, table, init, now);
    }
  }

  /** When every expected table is settled, the structure loop changes nothing. */
  lemma {:induction false} TablesPassStable(db: Tables, rejects: set<(string, string)>, expected: seq<(string, seq<ColumnSpec>)>, now: string)
    requires AllSettled(db, rejects, expected)
    ensures var p := TablesPass(db, rejects, expected, now);
      p.tables == db && Quiet(p.events)
    decreases |expected|
  {
    if expected != [] {
      var init := expected[..|expected| - 1];
      assert AllSettled(db, rejects, init) by {
        forall i | 0 <= i < |init| ensures Settled(db, rejects, init[i].0, init[i].1) {
          assert init[i] == expected[i];
        }
      }
      TablesPassStable(db, rejects, init, now);
      var (table, specs) := expected[|expected| - 1];
      if table in db {
        assert Settled(db, rejects, table, specs);
        ColumnsPassStable(db, rejects, table, specs, now);
      }
    }
  }

  // ---------------------------------------------------------------------------
  // What the consistency pass guarantees

  /** No row of the table holds NULL in the column (vacuous when the table is absent). */
  predicate Clean(db: Tables, table: string, column: string) {
    table in db ==> NullCount(db[table].rows, column) == 0
  }

  /** The columns the consistency pass reads are all there, so it raises nothing. */
  predicate BackfillReady(db: Tables) {
    && HasColumn(db, "users", "ativo")
    && BackfillReadyCategorias(db)
    && BackfillReadyFixas(db)
  }

  predicate BackfillReadyCategorias(db: Tables) {
    "categorias" in db ==> HasColumn(db, "categorias", "ativo") && HasColumn(db, "categorias", "cor")
  }

  predicate BackfillReadyFixas(db: Tables) {
    "despesas_fixas" in db ==> HasColumn(db, "despesas_fixas", "ativo")
  }

  /** Every field the consistency pass fills holds a value in every row. */
  predicate BackfillClean(db: Tables) {
    && Clean(db, "users", "ativo")
    && Clean(db, "categorias", "ativo")
    && Clean(db, "categorias", "cor")
    && Clean(db, "despesas_fixas", "ativo")
    && Stamped(db, CreatedAtTables)
  }

  /** Every listed table that has `created_at` holds a value there in every row. */
  predicate Stamped(db: Tables, names: seq<string>) {
    forall k :: 0 <= k < |names| && HasColumn(db, names[k], "created_at") ==> Clean(db, names[k], "created_at")
  }

  /** `db2` is `db1` with some NULL cells filled: same schema, every value kept, and
      every column that was clean still clean. */
  ghost predicate Improves(db1: Tables, db2: Tables) {
    && SameSchema(db1, db2) && KeepsData(db1, db2)
    && forall t, c :: Clean(db1, t, c) ==> Clean(db2, t, c)
  }

  lemma ImprovesTransitive(db1: Tables, db2: Tables, db3: Tables)
    requires Improves(db1, db2) && Improves(db2, db3)
    ensures Improves(db1, db3)
  {
    KeepsDataTransitive(db1, db2, db3);
  }

  /** One count-and-fill cleans its column, only fills NULL cells, and on a clean
      column is a no-op. */
  lemma FillStepFacts(db: Tables, table: string, column: string, v: Value)
    requires table in db && v != Null
    ensures var q := FillStep(db, table, column, v);
      && Improves(db, q.tables)
      && Clean(q.tables, table, column)
      && (Clean(db, table, column) <==> q == Pass(db, []))
  {
    var q := FillStep(db, table, column, v);
    var rows := db[table].rows;
    FillRowsClears(rows, column, v);
    FillRowsChangesNullRows(rows, column, v);
    forall t, c | Clean(db, t, c) ensures Clean(q.tables, t, c) {
      if t == table && c != column && NullCount(rows, column) > 0 {
        FillRowsKeepsOtherCounts(rows, column, v, c);
      }
    }
    assert TableKeepsData(db[table], q.tables[table]);
  }

  /** The count a fill reports is the number of rows the UPDATE changes. */
  lemma FillStepReportsChanges(db: Tables, table: string, column: string, v: Value)
    requires table in db && v != Null
    ensures var q := FillStep(db, table, column, v);
      && |q.tables[table].rows| == |db[table].rows|
      && Changed(db[table].rows, q.tables[table].rows) == NullCount(db[table].rows, column)
      && (q.events == [] || q.events == [RowsFilled(table, column, Changed(db[table].rows, q.tables[table].rows))])
  {
    FillRowsChangesNullRows(db[table].rows, column, v);
    if NullCount(db[table].rows, column) == 0 {
      FillRowsNoop(db[table].rows, column, v);
      ChangedSelf(db[table].rows);
    }
  }

  /** The checked count-and-fill raises exactly when the table or the column is missing. */
  lemma CheckedFillFacts(db: Tables, table: string, column: string, v: Value)
    requires v != Null
    ensures var r := CheckedFill(db, table, column, v);
      && (r.Ok? <==> HasColumn(db, table, column))
      && (r.Ok? ==> Improves(db, r.value.tables) && Clean(r.value.tables, table, column))
      && (r.Ok? && Clean(db, table, column) ==> r.value == Pass(db, []))
  {
    if HasColumn(db, table, column) {
      FillStepFacts(db, table, column, v);
    }
  }

  lemma CategoriasFillFacts(db: Tables)
    ensures var r := CategoriasFill(db);
      && (r.Ok? <==> HasColumn(db, "categorias", "ativo") && HasColumn(db, "categorias", "cor"))
      && (r.Ok? ==> Improves(db, r.value.tables)
                    && Clean(r.value.tables, "categorias", "ativo") && Clean(r.value.tables, "categorias", "cor"))
      && (r.Ok? && Clean(db, "categorias", "ativo") && Clean(db, "categorias", "cor") ==> r.value == Pass(db, []))
  {
    CheckedFillFacts(db, "categorias", "ativo", Int(1));
    var a := CheckedFill(db, "categorias", "ativo", Int(1));
    if a.Ok? {
      CheckedFillFacts(a.value.tables, "categorias", "cor", Text("#667eea"));
      var c := CheckedFill(a.value.tables, "categorias", "cor", Text("#667eea"));
      if c.Ok? {
        ImprovesTransitive(db, a.value.tables, c.value.tables);
      }
    }
  }

  /** The `created_at` loop only writes `now` into NULL `created_at` cells of the listed
      tables, leaves every listed `created_at` clean, and is a no-op when they already are. */
  lemma StampPassFacts(db: Tables, names: seq<string>, now: string)
    ensures var s := StampPass(db, names, now);
      && Improves(db, s.tables)
      && Stamped(s.tables, names)
      && FillsOnly(db, s.tables, StampFills(names, now))
      && (Stamped(db, names) ==> s == Pass(db, []))
  {
    StampPassCleans(db, names, now);
    StampPassFills(db, names, now);
  }

  lemma {:induction false} StampPassCleans(db: Tables, names: seq<string>, now: string)
    ensures var s := StampPass(db, names, now);
      && Improves(db, s.tables)
      && Stamped(s.tables, names)
      && (Stamped(db, names) ==> s == Pass(db, []))
    decreases |names|
  {
    if names != [] {
      var init := names[..|names| - 1];
      var table := names[|names| - 1];
      assert names == init + [table];
      StampPassCleans(db, init, now);
      var p := StampPass(db, init, now);
      if Stamped(db, names) {
        StampedInit(db, init, table);
      }
      if HasColumn(p.tables, table, "created_at") {
        FillStepFacts(p.tables, table, "created_at", Text(now));
        var q := FillStep(p.tables, table, "created_at", Text(now));
        ImprovesTransitive(db, p.tables, q.tables);
        StampedSnoc(p.tables, q.tables, init, table);
        assert StampPass(db, names, now) == Pass(q.tables, p.events + q.events);
      } else {
        StampedSnoc(p.tables, p.tables, init, table);
        assert StampPass(db, names, now) == p;
      }
    }
  }

  lemma StampedSnoc(a: Tables, b: Tables, init: seq<string>, table: string)
    requires Improves(a, b) && Stamped(a, init)
    requires HasColumn(b, table, "created_at") ==> Clean(b, table, "created_at")
    ensures Stamped(b, init + [table])
  {
    var names := init + [table];
    forall k | 0 <= k < |names| && HasColumn(b, names[k], "created_at")
      ensures Clean(b, names[k], "created_at")
    {
      if k < |init| {
        assert names[k] == init[k];
        assert HasColumn(a, init[k], "created_at");
      }
    }
  }

  lemma StampedInit(db: Tables, init: seq<string>, table: string)
    requires Stamped(db, init + [table])
    ensures Stamped(db, init)
    ensures HasColumn(db, table, "created_at") ==> Clean(db, table, "created_at")
  {
    var names := init + [table];
    assert names[|init|] == table;
    forall k | 0 <= k < |init| && HasColumn(db, init[k], "created_at")
      ensures Clean(db, init[k], "created_at")
    {
      assert names[k] == init[k];
    }
  }

  lemma OptionalCategoriasFacts(db: Tables)
    ensures var r := OptionalCategorias(db);
      && (r.Ok? <==> BackfillReadyCategorias(db))
      && (r.Ok? ==> Improves(db, r.value.tables)
                    && Clean(r.value.tables, "categorias", "ativo") && Clean(r.value.tables, "categorias", "cor"))
      && (r.Ok? && Clean(db, "categorias", "ativo") && Clean(db, "categorias", "cor") ==> r.value == Pass(db, []))
  {
    if "categorias" in db {
      CategoriasFillFacts(db);
    }
  }

  lemma OptionalFixasFacts(db: Tables)
    ensures var r := OptionalFixas(db);
      && (r.Ok? <==> BackfillReadyFixas(db))
      && (r.Ok? ==> Improves(db, r.value.tables) && Clean(r.value.tables, "despesas_fixas", "ativo"))
      && (r.Ok? && Clean(db, "despesas_fixas", "ativo") ==> r.value == Pass(db, []))
  {
    if "despesas_fixas" in db {
      CheckedFillFacts(db, "despesas_fixas", "ativo", Int(1));
    }
  }

  lemma ReadyDependsOnSchema(db1: Tables, db2: Tables)
    requires SameSchema(db1, db2)
    ensures HasColumn(db1, "users", "ativo") <==> HasColumn(db2, "users", "ativo")
    ensures BackfillReadyCategorias(db1) <==> BackfillReadyCategorias(db2)
    ensures BackfillReadyFixas(db1) <==> BackfillReadyFixas(db2)
  {
  }

  lemma ImprovedClean(db1: Tables, db2: Tables, table: string, column: string)
    requires Improves(db1, db2) && Clean(db1, table, column)
    ensures Clean(db2, table, column)
  {
  }

  /** The consistency pass raises exactly when a column it reads is missing. */
  lemma BackfillPassReady(db: Tables, now: string)
    ensures BackfillPass(db, now).Ok? <==> BackfillReady(db)
  {
    CheckedFillFacts(db, "users", "ativo", Int(1));
    var u := CheckedFill(db, "users", "ativo", Int(1));
    if u.Ok? {
      OptionalCategoriasFacts(u.value.tables);
      ReadyDependsOnSchema(db, u.value.tables);
      var c := OptionalCategorias(u.value.tables);
      if c.Ok? {
        OptionalFixasFacts(c.value.tables);
        ReadyDependsOnSchema(u.value.tables, c.value.tables);
      }
    }
  }

  /** When the consistency pass does not raise, it only fills NULL cells and leaves every
      field it fills clean. */
  lemma BackfillPassCleans(db: Tables, now: string)
    requires BackfillPass(db, now).Ok?
    ensures Improves(db, BackfillPass(db, now).value.tables)
    ensures BackfillClean(BackfillPass(db, now).value.tables)
    ensures FillsOnly(db, BackfillPass(db, now).value.tables, BackfillFills(now))
  {
    BackfillPassFills(db, now);
    CheckedFillFacts(db, "users", "ativo", Int(1));
    var u := CheckedFill(db, "users", "ativo", Int(1)).value;
    OptionalCategoriasFacts(u.tables);
    var c := OptionalCategorias(u.tables).value;
    OptionalFixasFacts(c.tables);
    var f := OptionalFixas(c.tables).value;
    StampPassFacts(f.tables, CreatedAtTables, now);
    var s := StampPass(f.tables, CreatedAtTables, now);
    assert BackfillPass(db, now).value.tables == s.tables;
    ImprovesTransitive(db, u.tables, c.tables);
    ImprovesTransitive(db, c.tables, f.tables);
    ImprovesTransitive(db, f.tables, s.tables);
    ImprovesTransitive(c.tables, f.tables, s.tables);
    ImprovesTransitive(u.tables, c.tables, s.tables);
    ImprovedClean(u.tables, s.tables, "users", "ativo");
    ImprovedClean(c.tables, s.tables, "categorias", "ativo");
    ImprovedClean(c.tables, s.tables, "categorias", "cor");
    ImprovedClean(f.tables, s.tables, "despesas_fixas", "ativo");
  }

  /** On a database the consistency pass has already cleaned it changes nothing and
      reports nothing. */
  lemma BackfillPassStable(db: Tables, now: string)
    requires BackfillReady(db) && BackfillClean(db)
    ensures BackfillPass(db, now) == Ok(Pass(db, []))
  {
    CheckedFillFacts(db, "users", "ativo", Int(1));
    OptionalCategoriasFacts(db);
    OptionalFixasFacts(db);
    StampPassFacts(db, CreatedAtTables, now);
    var none: seq<Event> := [];
    assert none + none + none + none == none;
  }

  // ---------------------------------------------------------------------------
  // Which cells a run may change

  /** `db2` keeps every table, row and column of `db1`, and a cell of an old column
      differs only where it was NULL and `fills` lists its table and column; it then
      holds the listed value. Columns added on the way are not constrained. */
  ghost predicate FillsOnly(db1: Tables, db2: Tables, fills: map<(string, string), Value>) {
    && db2.Keys == db1.Keys
    && forall t :: t in db1 ==> TableFillsOnly(t, db1[t], db2[t], fills)
  }

  ghost predicate TableFillsOnly(name: string, t1: Table, t2: Table, fills: map<(string, string), Value>) {
    && (forall c :: c in t1.columns ==> c in t2.columns)
    && |t2.rows| == |t1.rows|
    && forall k, c :: 0 <= k < |t1.rows| && c in t1.columns && Cell(t2.rows[k], c) != Cell(t1.rows[k], c) ==>
         (name, c) in fills && Cell(t1.rows[k], c) == Null && Cell(t2.rows[k], c) == fills[(name, c)]
  }

  predicate NonNullFills(fills: map<(string, string), Value>) {
    forall p :: p in fills ==> fills[p] != Null
  }

  /** The `created_at` fills of the last loop: every listed table, stamped with `now`. */
  function StampFills(names: seq<string>, now: string): (r: map<(string, string), Value>)
    ensures forall k :: 0 <= k < |names| ==> (names[k], "created_at") in r
    ensures forall p :: p in r ==> p.0 in names && p.1 == "created_at" && r[p] == Text(now)
    decreases |names|
  {
    if names == [] then map[]
    else StampFills(names[..|names| - 1], now)[(names[|names| - 1], "created_at") := Text(now)]
  }

  /** Every fill of the consistency pass: `ativo` to 1 in `users`, `categorias` and
      `despesas_fixas`, the default colour in `categorias.cor`, and `created_at` to `now`
      in every listed table. */
  function BackfillFills(now: string): map<(string, string), Value> {
    StampFills(CreatedAtTables, now) + RequiredFills
  }

  const RequiredFills: map<(string, string), Value> :=
    map[("users", "ativo") := Int(1), ("categorias", "ativo") := Int(1),
        ("categorias", "cor") := Text("#667eea"), ("despesas_fixas", "ativo") := Int(1)]

  lemma FillsOnlySelf(db: Tables, fills: map<(string, string), Value>)
    ensures FillsOnly(db, db, fills)
  {
  }

  lemma FillsOnlyTransitive(a: Tables, b: Tables, c: Tables, fills: map<(string, string), Value>)
    requires FillsOnly(a, b, fills) && FillsOnly(b, c, fills) && NonNullFills(fills)
    ensures FillsOnly(a, c, fills)
  {
    forall t | t in a ensures TableFillsOnly(t, a[t], c[t], fills) {
      var x, y, z := a[t], b[t], c[t];
      forall k, col | 0 <= k < |x.rows| && col in x.columns && Cell(z.rows[k], col) != Cell(x.rows[k], col)
        ensures (t, col) in fills && Cell(x.rows[k], col) == Null && Cell(z.rows[k], col) == fills[(t, col)]
      {
        assert col in y.columns;
        if Cell(y.rows[k], col) != Cell(x.rows[k], col) {
          assert Cell(y.rows[k], col) != Null;
        }
      }
    }
  }

  lemma FillsOnlyWiden(a: Tables, b: Tables, fills: map<(string, string), Value>, more: map<(string, string), Value>)
    requires FillsOnly(a, b, fills)
    requires forall p :: p in fills ==> p in more && more[p] == fills[p]
    ensures FillsOnly(a, b, more)
  {
  }

  /** One count-and-fill changes only NULL cells of its column, to its value. */
  lemma FillStepFills(db: Tables, table: string, column: string, v: Value)
    requires table in db
    ensures FillsOnly(db, FillStep(db, table, column, v).tables, map[(table, column) := v])
  {
    var q := FillStep(db, table, column, v);
    var t1 := db[table];
    if NullCount(t1.rows, column) > 0 {
      var t2 := q.tables[table];
      forall k, c | 0 <= k < |t1.rows| && c in t1.columns && Cell(t2.rows[k], c) != Cell(t1.rows[k], c)
        ensures c == column && Cell(t1.rows[k], c) == Null && Cell(t2.rows[k], c) == v
      {
        assert t2.rows[k] == FillRow(t1.rows[k], column, v);
      }
    }
  }

  /** One `safe_add_column` changes no cell of an existing column. */
  lemma AddStepFills(db: Tables, rejects: set<(string, string)>, table: string, spec: ColumnSpec, now: string)
    ensures FillsOnly(db, AddStep(db, rejects, table, spec, now).tables, map[])
  {
    if AlterAccepted(db, rejects, table, spec) {
      var t1 := db[table];
      var added := AddColumn(t1, spec);
      var t2 := AddColumnAndStamp(t1, spec, now);
      forall k, c | 0 <= k < |t1.rows| && c in t1.columns
        ensures Cell(t2.rows[k], c) == Cell(t1.rows[k], c)
      {
        assert c != spec.name;
        assert added.rows[k] == t1.rows[k][spec.name := DefaultOf(spec)];
        if t2 != added {
          assert t2.rows[k] == FillRow(added.rows[k], "created_at", Text(now));
        }
      }
    }
  }

  lemma {:induction false} ColumnsPassFills(db: Tables, rejects: set<(string, string)>, table: string, specs: seq<ColumnSpec>, now: string)
    ensures FillsOnly(db, ColumnsPass(db, rejects, table, specs, now).tables, map[])
    decreases |specs|
  {
    if specs == [] {
      FillsOnlySelf(db, map[]);
    } else {
      var init := specs[..|specs| - 1];
      ColumnsPassFills(db, rejects, table, init, now);
      var p := ColumnsPass(db, rejects, table, init, now);
      AddStepFills(p.tables, rejects, table, specs[|specs| - 1], now);
      FillsOnlyTransitive(db, p.tables, AddStep(p.tables, rejects, table, specs[|specs| - 1], now).tables, map[]);
    }
  }

  /** The structure loop changes no cell of a column that was already there. */
  lemma {:induction false} TablesPassFills(db: Tables, rejects: set<(string, string)>, expected: seq<(string, seq<ColumnSpec>)>, now: string)
    ensures FillsOnly(db, TablesPass(db, rejects, expected, now).tables, map[])
    decreases |expected|
  {
    if expected == [] {
      FillsOnlySelf(db, map[]);
    } else {
      var init := expected[..|expected| - 1];
      var (table, specs) := expected[|expected| - 1];
      TablesPassFills(db, rejects, init, now);
      var p := TablesPass(db, rejects, init, now);
      if table in p.tables {
        ColumnsPassFills(p.tables, rejects, table, specs, now);
        FillsOnlyTransitive(db, p.tables, ColumnsPass(p.tables, rejects, table, specs, now).tables, map[]);
      }
    }
  }

  /** The `created_at` loop changes only NULL `created_at` cells of the listed tables,
      and writes `now` into them. */
  lemma {:induction false} StampPassFills(db: Tables, names: seq<string>, now: string)
    ensures FillsOnly(db, StampPass(db, names, now).tables, StampFills(names, now))
    decreases |names|
  {
    if names == [] {
      FillsOnlySelf(db, map[]);
    } else {
      var init := names[..|names| - 1];
      var table := names[|names| - 1];
      var fills := StampFills(names, now);
      StampPassFills(db, init, now);
      var p := StampPass(db, init, now);
      FillsOnlyWiden(db, p.tables, StampFills(init, now), fills);
      if HasColumn(p.tables, table, "created_at") {
        FillStepFills(p.tables, table, "created_at", Text(now));
        var q := FillStep(p.tables, table, "created_at", Text(now));
        FillsOnlyWiden(p.tables, q.tables, map[(table, "created_at") := Text(now)], fills);
        FillsOnlyTransitive(db, p.tables, q.tables, fills);
      }
    }
  }

  lemma CheckedFillFills(db: Tables, table: string, column: string, v: Value, fills: map<(string, string), Value>)
    requires (table, column) in fills && fills[(table, column)] == v
    ensures var r := CheckedFill(db, table, column, v);
      r.Ok? ==> FillsOnly(db, r.value.tables, fills)
  {
    if HasColumn(db, table, column) {
      FillStepFills(db, table, column, v);
      FillsOnlyWiden(db, FillStep(db, table, column, v).tables, map[(table, column) := v], fills);
    }
  }

  lemma OptionalCategoriasFills(db: Tables, fills: map<(string, string), Value>)
    requires NonNullFills(fills)
    requires ("categorias", "ativo") in fills && fills[("categorias", "ativo")] == Int(1)
    requires ("categorias", "cor") in fills && fills[("categorias", "cor")] == Text("#667eea")
    ensures var r := OptionalCategorias(db);
      r.Ok? ==> FillsOnly(db, r.value.tables, fills)
  {
    var r := OptionalCategorias(db);
    if "categorias" in db {
      CheckedFillFills(db, "categorias", "ativo", Int(1), fills);
      var a := CheckedFill(db, "categorias", "ativo", Int(1));
      if a.Ok? {
        CheckedFillFills(a.value.tables, "categorias", "cor", Text("#667eea"), fills);
        if r.Ok? {
          FillsOnlyTransitive(db, a.value.tables, r.value.tables, fills);
        }
      }
    } else {
      FillsOnlySelf(db, fills);
    }
  }

  lemma OptionalFixasFills(db: Tables, fills: map<(string, string), Value>)
    requires ("despesas_fixas", "ativo") in fills && fills[("despesas_fixas", "ativo")] == Int(1)
    ensures var r := OptionalFixas(db);
      r.Ok? ==> FillsOnly(db, r.value.tables, fills)
  {
    if "despesas_fixas" in db {
      CheckedFillFills(db, "despesas_fixas", "ativo", Int(1), fills);
    } else {
      FillsOnlySelf(db, fills);
    }
  }

  /** The fill list holds no NULL, and it extends the `created_at` fills. */
  lemma BackfillFillsFacts(names: seq<string>, now: string)
    ensures NonNullFills(StampFills(names, now) + RequiredFills)
    ensures var fills := StampFills(names, now) + RequiredFills;
      && ("users", "ativo") in fills && fills[("users", "ativo")] == Int(1)
      && ("categorias", "ativo") in fills && fills[("categorias", "ativo")] == Int(1)
      && ("categorias", "cor") in fills && fills[("categorias", "cor")] == Text("#667eea")
      && ("despesas_fixas", "ativo") in fills && fills[("despesas_fixas", "ativo")] == Int(1)
    ensures var stamps := StampFills(names, now);
      forall p :: p in stamps ==> p in stamps + RequiredFills && (stamps + RequiredFills)[p] == stamps[p]
  {
    forall p | p in RequiredFills ensures p.1 != "created_at" && RequiredFills[p] != Null {
      assert p.1 in {"ativo", "cor"};
    }
  }

  lemma StampsWiden(a: Tables, b: Tables, names: seq<string>, now: string)
    requires FillsOnly(a, b, StampFills(names, now))
    ensures FillsOnly(a, b, StampFills(names, now) + RequiredFills)
  {
    BackfillFillsFacts(names, now);
    FillsOnlyWiden(a, b, StampFills(names, now), StampFills(names, now) + RequiredFills);
  }

  /** The consistency pass changes only NULL cells that it lists, to the listed value. */
  lemma BackfillPassFills(db: Tables, now: string)
    requires BackfillPass(db, now).Ok?
    ensures FillsOnly(db, BackfillPass(db, now).value.tables, BackfillFills(now))
  {
    var fills := BackfillFills(now);
    BackfillFillsFacts(CreatedAtTables, now);
    CheckedFillFills(db, "users", "ativo", Int(1), fills);
    var u := CheckedFill(db, "users", "ativo", Int(1)).value;
    OptionalCategoriasFills(u.tables, fills);
    var c := OptionalCategorias(u.tables).value;
    OptionalFixasFills(c.tables, fills);
    var f := OptionalFixas(c.tables).value;
    StampPassFills(f.tables, CreatedAtTables, now);
    var s := StampPass(f.tables, CreatedAtTables, now);
    StampsWiden(f.tables, s.tables, CreatedAtTables, now);
    BackfillPassUnfolds(db, now);
    FillsOnlyTransitive(db, u.tables, c.tables, fills);
    FillsOnlyTransitive(db, c.tables, f.tables, fills);
    FillsOnlyTransitive(db, f.tables, s.tables, fills);
  }

  /** The consistency pass is its four stages in order. */
  lemma BackfillPassUnfolds(db: Tables, now: string)
    requires BackfillPass(db, now).Ok?
    ensures var u := CheckedFill(db, "users", "ativo", Int(1));
      && u.Ok? && OptionalCategorias(u.value.tables).Ok?
      && var c := OptionalCategorias(u.value.tables).value;
         && OptionalFixas(c.tables).Ok?
         && BackfillPass(db, now).value.tables == StampPass(OptionalFixas(c.tables).value.tables, CreatedAtTables, now).tables
  {
  }

  // ---------------------------------------------------------------------------
  // The whole run

  /** A run that succeeds loses no value, changes a cell of an existing column only where
      it was NULL and the consistency pass fills that column, and leaves every expected
      column settled and every required field filled. */
  lemma RunKeepsData(db: Tables, rejects: set<(string, string)>, now: string)
    requires Run(db, rejects, now).Ok?
    ensures var p := Run(db, rejects, now).value;
      && KeepsData(db, p.tables)
      && FillsOnly(db, p.tables, BackfillFills(now))
      && AllSettled(p.tables, rejects, Expected)
      && BackfillClean(p.tables)
  {
    TablesPassSettles(db, rejects, Expected, now);
    TablesPassFills(db, rejects, Expected, now);
    var s := TablesPass(db, rejects, Expected, now);
    BackfillPassCleans(s.tables, now);
    var b := BackfillPass(s.tables, now).value;
    FillsOnlyWiden(db, s.tables, map[], BackfillFills(now));
    BackfillFillsFacts(CreatedAtTables, now);
    FillsOnlyTransitive(db, s.tables, b.tables, BackfillFills(now));
    KeepsDataTransitive(db, s.tables, b.tables);
    SettledKept(s.tables, b.tables, rejects, Expected);
  }

  /** Running the script a second time succeeds, changes nothing and reports no column
      added and no row filled. */
  lemma RunIdempotent(db: Tables, rejects: set<(string, string)>, now: string, later: string)
    requires Run(db, rejects, now).Ok?
    ensures var p := Run(db, rejects, now).value;
      var again := Run(p.tables, rejects, later);
      again.Ok? && again.value.tables == p.tables && Quiet(again.value.events)
  {
    TablesPassSettles(db, rejects, Expected, now);
    var s := TablesPass(db, rejects, Expected, now);
    BackfillPassCleans(s.tables, now);
    var b := BackfillPass(s.tables, now).value;
    BackfillPassReady(s.tables, now);
    ReadyDependsOnSchema(s.tables, b.tables);
    SettledKept(s.tables, b.tables, rejects, Expected);
    TablesPassStable(b.tables, rejects, Expected, later);
    assert BackfillReady(b.tables);
    BackfillPassStable(b.tables, later);
  }

  // ---------------------------------------------------------------------------
  // The script's operations on the cursor

  method SafeAddColumn(db: Database, table: string, spec: ColumnSpec, now: string) returns (added: bool, event: Event)
    modifies db
    ensures var p := AddStep(old(db.tables), db.rejects, table, spec, now);
      db.tables == p.tables && [event] == p.events
    ensures added <==> event.ColumnAdded?
  {
    var present := db.ColumnExists(table, spec.name);
    if present {
      return false, ColumnPresent(table, spec.name);
    }
    var ok := db.AlterTableAddColumn(table, spec);
    if !ok {
      return false, ColumnFailed(table, spec.name);
    }
    if spec.name == "created_at" && spec.default.None? {
      db.UpdateNulls(table, "created_at", Text(now));
    }
    return true, ColumnAdded(table, spec.name);
  }

  method ReconcileTable(db: Database, table: string, specs: seq<ColumnSpec>, now: string) returns (events: seq<Event>)
    modifies db
    ensures Pass(db.tables, events) == ColumnsPass(old(db.tables), db.rejects, table, specs, now)
  {
    events := [];
    var j := 0;
    while j < |specs|
      invariant 0 <= j <= |specs|
      invariant Pass(db.tables, events) == ColumnsPass(old(db.tables), db.rejects, table, specs[..j], now)
    {
      var _, event := SafeAddColumn(db, table, specs[j], now);
      events := events + [event];
      assert specs[..j + 1][..j] == specs[..j];
      j := j + 1;
    }
    assert specs[..j] == specs;
  }

  method ReconcileStructure(db: Database, expected: seq<(string, seq<ColumnSpec>)>, now: string) returns (events: seq<Event>)
    modifies db
    ensures Pass(db.tables, events) == TablesPass(old(db.tables), db.rejects, expected, now)
  {
    events := [];
    var i := 0;
    while i < |expected|
      invariant 0 <= i <= |expected|
      invariant Pass(db.tables, events) == TablesPass(old(db.tables), db.rejects, expected[..i], now)
    {
      TablesPassSnoc(old(db.tables), db.rejects, expected, i, now, Pass(db.tables, events));
      var (table, specs) := expected[i];
      var present := db.TableExists(table);
      if present {
        var more := ReconcileTable(db, table, specs, now);
        events := events + more;
      } else {
        events := events + [TableMissing(table)];
      }
      i := i + 1;
    }
    assert expected[..i] == expected;
  }

  lemma TablesPassSnoc(db: Tables, rejects: set<(string, string)>, expected: seq<(string, seq<ColumnSpec>)>, i: nat, now: string, p: Pass)
    requires i < |expected| && TablesPass(db, rejects, expected[..i], now) == p
    ensures TablesPass(db, rejects, expected[..i + 1], now) ==
      if expected[i].0 in p.tables then
        var q := ColumnsPass(p.tables, rejects, expected[i].0, expected[i].1, now);
        Pass(q.tables, p.events + q.events)
      else Pass(p.tables, p.events + [TableMissing(expected[i].0)])
  {
    assert expected[..i + 1][..i] == expected[..i];
  }

  /** A COUNT(*) of NULLs followed, when positive, by the UPDATE that fills them. */
  method FillRequired(db: Database, table: string, column: string, v: Value) returns (r: Result<seq<Event>>)
    modifies db
    ensures var c := CheckedFill(old(db.tables), table, column, v);
      && (c.Ok? ==> r == Ok(c.value.events) && db.tables == c.value.tables)
      && (c.Err? ==> r.Err? && db.tables == old(db.tables))
  {
    var count := db.CountNulls(table, column);
    if count.Err? {
      return Err(count.failure);
    }
    if count.value > 0 {
      db.UpdateNulls(table, column, v);
      return Ok([RowsFilled(table, column, count.value)]);
    }
    return Ok([]);
  }

  method StampCreatedAt(db: Database, now: string) returns (events: seq<Event>)
    modifies db
    ensures Pass(db.tables, events) == StampPass(old(db.tables), CreatedAtTables, now)
  {
    events := [];
    var i := 0;
    while i < |CreatedAtTables|
      invariant 0 <= i <= |CreatedAtTables|
      invariant Pass(db.tables, events) == StampPass(old(db.tables), CreatedAtTables[..i], now)
    {
      var table := CreatedAtTables[i];
      var present := db.TableExists(table);
      var hasColumn := false;
      if present {
        hasColumn := db.ColumnExists(table, "created_at");
      }
      if hasColumn {
        var more := FillRequired(db, table, "created_at", Text(now));
        events := events + more.value;
      }
      assert CreatedAtTables[..i + 1][..i] == CreatedAtTables[..i];
      i := i + 1;
    }
    assert CreatedAtTables[..i] == CreatedAtTables;
  }

  /** `verificar_e_corrigir_estrutura`: on any engine error the transaction is rolled back
      and the result is false. */
  method VerifyAndFixStructure(db: Database, now: string) returns (ok: bool, events: seq<Event>)
    modifies db
    ensures var r := Run(old(db.tables), db.rejects, now);
      && ok == r.Ok?
      && (ok ==> db.tables == r.value.tables && events == r.value.events)
      && (!ok ==> db.tables == old(db.tables) && events == TablesPass(old(db.tables), db.rejects, Expected, now).events)
  {
    var snapshot := db.tables;
    events := ReconcileStructure(db, Expected, now);
    ghost var structured := db.tables;

    var users := FillRequired(db, "users", "ativo", Int(1));
    if users.Err? {
      db.Restore(snapshot);
      return false, events;
    }
    ghost var afterUsers := db.tables;

    var categorias: seq<Event> := [];
    var hasCategorias := db.TableExists("categorias");
    if hasCategorias {
      var ativo := FillRequired(db, "categorias", "ativo", Int(1));
      if ativo.Err? {
        db.Restore(snapshot);
        return false, events;
      }
      var cor := FillRequired(db, "categorias", "cor", Text("#667eea"));
      if cor.Err? {
        db.Restore(snapshot);
        return false, events;
      }
      categorias := ativo.value + cor.value;
    }
    ghost var afterCategorias := db.tables;

    var fixas: seq<Event> := [];
    var hasFixas := db.TableExists("despesas_fixas");
    if hasFixas {
      var ativo := FillRequired(db, "despesas_fixas", "ativo", Int(1));
      if ativo.Err? {
        db.Restore(snapshot);
        return false, events;
      }
      fixas := ativo.value;
    }

    var stamps := StampCreatedAt(db, now);
    events := events + (users.value + categorias + fixas + stamps);
    ok := true;
  }
}
