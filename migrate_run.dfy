/** `migrate_database` of migrate_melhorias_corrigido_v3.py: the eight steps in order inside
    one transaction; when a step raises, the transaction is rolled back and the temporary
    tables are removed. */
module MigrateRun {
  import opened Store
  import opened MigrateSchema
  import opened MigrateSeed

  /** Steps 2 and 3: `grupos`, `grupo_membros` and `cartoes`, each created when absent. */
  function Groups(db: Tables): Tables {
    CreateIfMissing(CreateIfMissing(CreateIfMissing(db, GruposDef), GrupoMembrosDef), CartoesDef)
  }

  /** Steps 1 to 6, the schema part, as a value: the tables they leave, or `None` when
      one raised. `now` stands for `datetime('now')`. */
  function Schema(db: Tables, rejects: set<(string, string)>, now: string): Option<Tables> {
    var users := UsersMigration(db, now);
    if users.result.Err? then None else Extensions(Groups(users.tables), rejects, now)
  }

  /** Steps 4 to 6: `categorias` created or extended, `despesas_fixas` created when
      absent, `despesas` created or extended. */
  function Extensions(db: Tables, rejects: set<(string, string)>, now: string): Option<Tables> {
    var categorias := CreateOrExtend(db, rejects, CategoriasDef, CategoriasAdditions, now);
    if categorias.result.Err? then None
    else
      var despesas := CreateOrExtend(CreateIfMissing(categorias.tables, DespesasFixasDef), rejects, DespesasDef, DespesasAdditions, now);
      if despesas.result.Err? then None else Some(despesas.tables)
  }

  /** Steps 1 to 8 as a value. `iso` stands for `datetime.now().isoformat()` and `hash`
      for `hash_password`. */
  function Migrate(db: Tables, rejects: set<(string, string)>, now: string, iso: string, hash: string -> string): Option<Tables> {
    match Schema(db, rejects, now)
    case None => None
    case Some(schema) =>
      match Seed(schema, now, iso, hash)
      case None => None
      case Some(seeded) => if Indexable(seeded, Indexes) then Some(seeded) else None
  }

  /** Step 8: the table and column of each `CREATE INDEX IF NOT EXISTS`, in order. */
  const Indexes: seq<(string, string)> := [
    ("despesas", "data"), ("despesas", "user_id"), ("despesas", "grupo_id"), ("despesas", "cartao_id"),
    ("grupo_membros", "grupo_id"), ("grupo_membros", "user_id"), ("cartoes", "user_id"), ("despesas_fixas", "user_id")]

  /** Every indexed column exists, so none of the CREATE INDEX statements raises. */
  predicate Indexable(d: Tables, indexes: seq<(string, string)>) {
    forall k :: 0 <= k < |indexes| ==> HasColumn(d, indexes[k].0, indexes[k].1)
  }

  /** Step 7: users, then categories, then the family group. */
  function Seed(db: Tables, now: string, iso: string, hash: string -> string): Option<Tables> {
    match SeedUsers(db, DefaultUsers, hash, now)
    case None => None
    case Some(withUsers) =>
      match InsertCategories(withUsers, DefaultCategories, iso)
      case None => None
      case Some(withCategories) => SeedFamily(withCategories, now)
  }

  method RunSteps(db: Database, now: string, iso: string, hash: string -> string) returns (r: Result<()>)
    modifies db
    ensures r.Ok? <==> Migrate(old(db.tables), db.rejects, now, iso, hash).Some?
    ensures r.Ok? ==> db.tables == Migrate(old(db.tables), db.rejects, now, iso, hash).value
  {
    r := SchemaSteps(db, now);
    if r.Err? {
      return;
    }
    r := SeedSteps(db, now, iso, hash);
    if r.Err? {
      return;
    }
    r := CreateIndexes(db, Indexes);
  }

  /** Steps 1 to 6. */
  method SchemaSteps(db: Database, now: string) returns (r: Result<()>)
    modifies db
    ensures r.Ok? <==> Schema(old(db.tables), db.rejects, now).Some?
    ensures r.Ok? ==> db.tables == Schema(old(db.tables), db.rejects, now).value
  {
    var users := MigrateUsersTable(db, now);
    if users.Err? {
      return Err(users.failure);
    }
    var created := CreateIfAbsent(db, GruposDef);
    created := CreateIfAbsent(db, GrupoMembrosDef);
    created := CreateIfAbsent(db, CartoesDef);
    var categorias := MigrateTableColumns(db, CategoriasDef, CategoriasAdditions, now);
    if categorias.Err? {
      return Err(categorias.failure);
    }
    created := CreateIfAbsent(db, DespesasFixasDef);
    var despesas := MigrateTableColumns(db, DespesasDef, DespesasAdditions, now);
    if despesas.Err? {
      return Err(despesas.failure);
    }
    return Ok(());
  }

  /** The index loop: it stops at the first statement that raises. */
  method CreateIndexes(db: Database, indexes: seq<(string, string)>) returns (r: Result<()>)
    ensures r.Ok? <==> Indexable(db.tables, indexes)
  {
    var i := 0;
    while i < |indexes|
      invariant 0 <= i <= |indexes|
      invariant Indexable(db.tables, indexes[..i])
    {
      r := db.CreateIndex(indexes[i].0, indexes[i].1);
      if r.Err? {
        return;
      }
      i := i + 1;
    }
    assert indexes[..i] == indexes;
    return Ok(());
  }

  method SeedSteps(db: Database, now: string, iso: string, hash: string -> string) returns (r: Result<()>)
    modifies db
    ensures r.Ok? <==> Seed(old(db.tables), now, iso, hash).Some?
    ensures r.Ok? ==> db.tables == Seed(old(db.tables), now, iso, hash).value
  {
    r := SeedUserList(db, DefaultUsers, hash, now);
    if r.Err? {
      return;
    }
    r := SeedCategoryList(db, DefaultCategories, iso);
    if r.Err? {
      return;
    }
    r := SeedFamilyGroup(db, now);
  }

  /** `migrate_database`: true and the migrated tables, or false with the tables as they
      were before the run minus any temporary table. */
  method MigrateDatabase(db: Database, now: string, iso: string, hash: string -> string) returns (ok: bool)
    modifies db
    ensures ok <==> Migrate(old(db.tables), db.rejects, now, iso, hash).Some?
    ensures ok ==> db.tables == Migrate(old(db.tables), db.rejects, now, iso, hash).value
    ensures !ok ==> db.tables == WithoutTemp(old(db.tables))
  {
    var snapshot := db.tables;
    var r := RunSteps(db, now, iso, hash);
    if r.Err? {
      db.Restore(snapshot);
      CleanupTempTables(db);
      return false;
    }
    return true;
  }

  // ---------------------------------------------------------------------------
  // What a successful run leaves

  /** Every table of `db1` is in `db2`, with at least its columns. */
  predicate SchemaGrows(db1: Tables, db2: Tables) {
    forall t :: t in db1 ==> t in db2 && forall c :: c in db1[t].columns ==> c in db2[t].columns
  }

  lemma SchemaGrowsTransitive(db1: Tables, db2: Tables, db3: Tables)
    requires SchemaGrows(db1, db2) && SchemaGrows(db2, db3)
    ensures SchemaGrows(db1, db3)
  {
  }

  /** The schema facts a successful run establishes: no temporary table, every table in
      `names` present, and `users` with every new column. */
  predicate Base(d: Tables, names: set<string>) {
    && (forall t :: t in TempTables ==> t !in d)
    && (forall n :: n in names ==> n in d)
    && "users" in d && UsersUpToDate(d["users"])
  }

  /** The full list: `Base` over the seven tables, and the column lists of `categorias`
      and `despesas` present. */
  predicate Ready(d: Tables) {
    && Base(d, {"users", "grupos", "grupo_membros", "cartoes", "categorias", "despesas_fixas", "despesas"})
    && HasAll(d, "categorias", Names(CategoriasAdditions))
    && HasAll(d, "despesas", Names(DespesasAdditions))
  }

  /** The table exists and has every column of the list. */
  predicate HasAll(d: Tables, name: string, columns: seq<string>) {
    name in d && forall c :: c in columns ==> c in d[name].columns
  }

  lemma HasAllGrows(a: Tables, b: Tables, name: string, columns: seq<string>)
    requires HasAll(a, name, columns) && SchemaGrows(a, b)
    ensures HasAll(b, name, columns)
  {
  }

  /** `b` has every table and column of `a`, and at most the one table `name` besides. */
  predicate Extends(a: Tables, b: Tables, name: string) {
    && SchemaGrows(a, b)
    && name in b
    && forall t :: t in b ==> t in a || t == name
  }

  lemma BaseStep(a: Tables, b: Tables, name: string, names: set<string>)
    requires Base(a, names) && Extends(a, b, name) && name !in TempTables
    ensures Base(b, names + {name})
  {
  }

  lemma CreateIfMissingExtends(db: Tables, def: TableDef)
    ensures Extends(db, CreateIfMissing(db, def), def.name)
  {
  }

  /** A successful CREATE-or-extend step adds the table and loses no table or column. */
  lemma CreateOrExtendExtends(db: Tables, rejects: set<(string, string)>, def: TableDef, additions: seq<ColumnSpec>, now: string)
    requires CreateOrExtend(db, rejects, def, additions, now).result.Ok?
    ensures Extends(db, CreateOrExtend(db, rejects, def, additions, now).tables, def.name)
  {
    if def.name in db {
      AddColumnsFailure(db, rejects, def.name, additions, now);
      AddColumnsExtends(db, rejects, def.name, additions, now);
    }
  }

  /** Steps 2 and 3 add their three tables. */
  lemma GroupsBase(db: Tables, names: set<string>)
    requires Base(db, names)
    ensures Base(Groups(db), names + {"grupos", "grupo_membros", "cartoes"})
  {
    var g1 := CreateIfMissing(db, GruposDef);
    var g2 := CreateIfMissing(g1, GrupoMembrosDef);
    CreateIfMissingExtends(db, GruposDef);
    BaseStep(db, g1, "grupos", names);
    CreateIfMissingExtends(g1, GrupoMembrosDef);
    BaseStep(g1, g2, "grupo_membros", names + {"grupos"});
    CreateIfMissingExtends(g2, CartoesDef);
    BaseStep(g2, Groups(db), "cartoes", names + {"grupos", "grupo_membros"});
    assert names + {"grupos"} + {"grupo_membros"} + {"cartoes"} == names + {"grupos", "grupo_membros", "cartoes"};
  }

  /** Step 4: `categorias` is there with every column of its list. */
  lemma CategoriasReady(db: Tables, rejects: set<(string, string)>, now: string, names: set<string>)
    requires Base(db, names)
    requires CreateOrExtend(db, rejects, CategoriasDef, CategoriasAdditions, now).result.Ok?
    ensures var d := CreateOrExtend(db, rejects, CategoriasDef, CategoriasAdditions, now).tables;
      && Base(d, names + {"categorias"})
      && HasAll(d, "categorias", Names(CategoriasAdditions))
  {
    AdditionsDeclared();
    var d := CreateOrExtend(db, rejects, CategoriasDef, CategoriasAdditions, now).tables;
    CreateOrExtendExtends(db, rejects, CategoriasDef, CategoriasAdditions, now);
    CreateOrExtendIdempotent(db, rejects, CategoriasDef, CategoriasAdditions, now, now);
    BaseStep(db, d, "categorias", names);
  }

  /** Step 6: `despesas` is there with every column of its list, and nothing is lost. */
  lemma DespesasReady(db: Tables, rejects: set<(string, string)>, now: string, names: set<string>)
    requires Base(db, names)
    requires CreateOrExtend(db, rejects, DespesasDef, DespesasAdditions, now).result.Ok?
    ensures var d := CreateOrExtend(db, rejects, DespesasDef, DespesasAdditions, now).tables;
      && Base(d, names + {"despesas"})
      && HasAll(d, "despesas", Names(DespesasAdditions))
      && SchemaGrows(db, d)
  {
    AdditionsDeclared();
    var d := CreateOrExtend(db, rejects, DespesasDef, DespesasAdditions, now).tables;
    CreateOrExtendExtends(db, rejects, DespesasDef, DespesasAdditions, now);
    CreateOrExtendIdempotent(db, rejects, DespesasDef, DespesasAdditions, now, now);
    BaseStep(db, d, "despesas", names);
  }

  /** Steps 4 to 6 add their three tables and leave every listed column present. */
  lemma ExtensionsReady(db: Tables, rejects: set<(string, string)>, now: string, names: set<string>)
    requires Base(db, names)
    requires Extensions(db, rejects, now).Some?
    ensures var d := Extensions(db, rejects, now).value;
      && Base(d, names + {"categorias", "despesas_fixas", "despesas"})
      && HasAll(d, "categorias", Names(CategoriasAdditions))
      && HasAll(d, "despesas", Names(DespesasAdditions))
  {
    var categorias := CreateOrExtend(db, rejects, CategoriasDef, CategoriasAdditions, now).tables;
    CategoriasReady(db, rejects, now, names);
    var fixas := CreateIfMissing(categorias, DespesasFixasDef);
    CreateIfMissingExtends(categorias, DespesasFixasDef);
    BaseStep(categorias, fixas, "despesas_fixas", names + {"categorias"});
    HasAllGrows(categorias, fixas, "categorias", Names(CategoriasAdditions));
    var despesas := CreateOrExtend(fixas, rejects, DespesasDef, DespesasAdditions, now).tables;
    DespesasReady(fixas, rejects, now, names + {"categorias"} + {"despesas_fixas"});
    HasAllGrows(fixas, despesas, "categorias", Names(CategoriasAdditions));
    assert names + {"categorias"} + {"despesas_fixas"} + {"despesas"} == names + {"categorias", "despesas_fixas", "despesas"};
  }

  /** After steps 1 to 6 every table the application uses exists with every column the
      scripts add, and no temporary table remains. */
  lemma SchemaReady(db: Tables, rejects: set<(string, string)>, now: string)
    requires Schema(db, rejects, now).Some?
    ensures Ready(Schema(db, rejects, now).value)
  {
    var users := UsersMigration(db, now);
    UsersMigrationFacts(db, now);
    assert Base(users.tables, {"users"});
    GroupsBase(users.tables, {"users"});
    ExtensionsReady(Groups(users.tables), rejects, now, {"users"} + {"grupos", "grupo_membros", "cartoes"});
    assert {"users"} + {"grupos", "grupo_membros", "cartoes"} + {"categorias", "despesas_fixas", "despesas"}
      == {"users", "grupos", "grupo_membros", "cartoes", "categorias", "despesas_fixas", "despesas"};
  }

  /** Seeding users changes no schema and no table but `users`. */
  lemma {:induction false} SeedUsersShape(db: Tables, users: seq<SeedUser>, hash: string -> string, now: string)
    requires SeedUsers(db, users, hash, now).Some?
    ensures var d := SeedUsers(db, users, hash, now).value;
      SameSchema(db, d) && forall t :: t in db && t != "users" ==> d[t] == db[t]
    decreases |users|
  {
    if users != [] {
      SeedUsersShape(db, users[..|users| - 1], hash, now);
    }
  }

  /** Seeding categories changes no schema and no table but `categorias`. */
  lemma {:induction false} InsertCategoriesShape(db: Tables, cs: seq<SeedCategory>, iso: string)
    requires InsertCategories(db, cs, iso).Some?
    ensures var d := InsertCategories(db, cs, iso).value;
      SameSchema(db, d) && forall t :: t in db && t != "categorias" ==> d[t] == db[t]
    decreases |cs|
  {
    if cs != [] {
      InsertCategoriesShape(db, cs[..|cs| - 1], iso);
      var d := InsertCategories(db, cs[..|cs| - 1], iso).value;
      InsertCategoryShape(d, cs[|cs| - 1], iso);
    }
  }

  /** Seeding the family group changes no schema and leaves every table but `grupos`
      and `grupo_membros`. */
  lemma SeedFamilyShape(db: Tables, now: string)
    requires SeedFamily(db, now).Some?
    ensures var d := SeedFamily(db, now).value;
      && SameSchema(db, d)
      && (forall t :: t in db && t != "grupos" && t != "grupo_membros" ==> d[t] == db[t])
  {
    if FirstId(db["grupos"].rows, "nome", Text(FamilyName)).None? && FirstId(db["users"].rows, "username", Text("master")).Some? {
      var master := FirstId(db["users"].rows, "username", Text("master")).value;
      var g := db["grupos"];
      var fields := GroupFields(master, now);
      var created := db["grupos" := InsertInto(g, fields)];
      SeedFamilyUnfolds(db, now);
      if "grupo_membros" in created {
        AddMembersShape(created, UserIds(db["users"]), InsertedId(g, fields), master, now);
      } else {
        AddMembersAbsent(created, UserIds(db["users"]), InsertedId(g, fields), master, now);
      }
    }
  }

  /** Without `grupo_membros`, the loop succeeds only over no users. */
  lemma {:induction false} AddMembersAbsent(db: Tables, ids: seq<Value>, group: Value, master: Value, now: string)
    requires "grupo_membros" !in db
    requires AddMembers(db, ids, group, master, now).Some?
    ensures AddMembers(db, ids, group, master, now) == Some(db)
    decreases |ids|
  {
    if ids != [] {
      AddMembersAbsent(db, ids[..|ids| - 1], group, master, now);
    }
  }

  /** Step 7 changes no schema. */
  lemma SeedShape(db: Tables, now: string, iso: string, hash: string -> string)
    requires Seed(db, now, iso, hash).Some?
    ensures SameSchema(db, Seed(db, now, iso, hash).value)
  {
    SeedUsersShape(db, DefaultUsers, hash, now);
    var withUsers := SeedUsers(db, DefaultUsers, hash, now).value;
    InsertCategoriesShape(withUsers, DefaultCategories, iso);
    var withCategories := InsertCategories(withUsers, DefaultCategories, iso).value;
    SeedFamilyShape(withCategories, now);
  }

  lemma ReadyKept(a: Tables, b: Tables)
    requires Ready(a) && SameSchema(a, b)
    ensures Ready(b)
  {
  }

  /** After a successful run every table the application uses exists, no temporary table
      remains, `users` has every new column, and `categorias` and `despesas` have every
      column of their lists. */
  lemma MigrateReady(db: Tables, rejects: set<(string, string)>, now: string, iso: string, hash: string -> string)
    requires Migrate(db, rejects, now, iso, hash).Some?
    ensures Ready(Migrate(db, rejects, now, iso, hash).value)
  {
    SchemaReady(db, rejects, now);
    var schema := Schema(db, rejects, now).value;
    SeedShape(schema, now, iso, hash);
    ReadyKept(schema, Seed(schema, now, iso, hash).value);
  }

  /** After a successful run each default user and each default category is present. */
  lemma MigrateSeeded(db: Tables, rejects: set<(string, string)>, now: string, iso: string, hash: string -> string)
    requires Migrate(db, rejects, now, iso, hash).Some?
    ensures var d := Migrate(db, rejects, now, iso, hash).value;
      && AllPresent(d, "users", "username", Usernames(DefaultUsers))
      && AllPresent(d, "categorias", "nome", CategoryNames(DefaultCategories))
  {
    SchemaReady(db, rejects, now);
    SeedCounts(Schema(db, rejects, now).value, now, iso, hash);
  }

  /** Each key of the list occurs at least once in the column. */
  predicate AllPresent(d: Tables, table: string, column: string, keys: seq<string>) {
    table in d && forall k :: 0 <= k < |keys| ==> KeyCount(d, table, column, keys[k]) >= 1
  }

  lemma PresentKept(a: Tables, b: Tables, table: string, column: string, keys: seq<string>)
    requires AllPresent(a, table, column, keys) && table in b && b[table] == a[table]
    ensures AllPresent(b, table, column, keys)
  {
    forall k | 0 <= k < |keys| ensures KeyCount(b, table, column, keys[k]) >= 1 {
      assert KeyCount(b, table, column, keys[k]) == KeyCount(a, table, column, keys[k]);
    }
  }

  /** The users loop leaves every listed username present. */
  lemma SeedUsersPresent(db: Tables, users: seq<SeedUser>, hash: string -> string, now: string)
    requires Distinct(Usernames(users)) && "users" in db
    requires SeedUsers(db, users, hash, now).Some?
    ensures AllPresent(SeedUsers(db, users, hash, now).value, "users", "username", Usernames(users))
  {
    var names := Usernames(users);
    forall k | 0 <= k < |names|
      ensures KeyCount(SeedUsers(db, users, hash, now).value, "users", "username", names[k]) >= 1
    {
      SeedUsersCounts(db, users, hash, now, names[k]);
    }
    SeedUsersCounts(db, users, hash, now, "");
  }

  /** The categories loop leaves every listed category name present. */
  lemma CategoriesPresent(db: Tables, cs: seq<SeedCategory>, iso: string)
    requires Distinct(CategoryNames(cs)) && "categorias" in db
    requires InsertCategories(db, cs, iso).Some?
    ensures AllPresent(InsertCategories(db, cs, iso).value, "categorias", "nome", CategoryNames(cs))
  {
    var names := CategoryNames(cs);
    forall k | 0 <= k < |names|
      ensures KeyCount(InsertCategories(db, cs, iso).value, "categorias", "nome", names[k]) >= 1
    {
      InsertCategoriesCounts(db, cs, iso, names[k]);
    }
    InsertCategoriesCounts(db, cs, iso, "");
  }

  lemma SeedCounts(db: Tables, now: string, iso: string, hash: string -> string)
    requires "users" in db && "categorias" in db
    requires Seed(db, now, iso, hash).Some?
    ensures var d := Seed(db, now, iso, hash).value;
      && AllPresent(d, "users", "username", Usernames(DefaultUsers))
      && AllPresent(d, "categorias", "nome", CategoryNames(DefaultCategories))
  {
    var withUsers := SeedUsers(db, DefaultUsers, hash, now).value;
    var withCategories := InsertCategories(withUsers, DefaultCategories, iso).value;
    var d := SeedFamily(withCategories, now).value;
    SeedUsersShape(db, DefaultUsers, hash, now);
    InsertCategoriesShape(withUsers, DefaultCategories, iso);
    SeedFamilyShape(withCategories, now);
    DefaultUsernames();
    DefaultCategoryNames();
    SeedUsersPresent(db, DefaultUsers, hash, now);
    PresentKept(withUsers, withCategories, "users", "username", Usernames(DefaultUsers));
    PresentKept(withCategories, d, "users", "username", Usernames(DefaultUsers));
    CategoriesPresent(withUsers, DefaultCategories, iso);
    PresentKept(withCategories, d, "categorias", "nome", CategoryNames(DefaultCategories));
  }

  // ---------------------------------------------------------------------------
  // Step 8

  lemma IndexableKept(a: Tables, b: Tables, indexes: seq<(string, string)>)
    requires SameSchema(a, b)
    ensures Indexable(a, indexes) <==> Indexable(b, indexes)
  {
  }

  /** Seeding changes no schema, so step 8 succeeds exactly when the indexed columns
      exist after step 6. */
  lemma MigrateIndexes(db: Tables, rejects: set<(string, string)>, now: string, iso: string, hash: string -> string)
    ensures Migrate(db, rejects, now, iso, hash).Some? <==>
      && Schema(db, rejects, now).Some?
      && Seed(Schema(db, rejects, now).value, now, iso, hash).Some?
      && Indexable(Schema(db, rejects, now).value, Indexes)
  {
    var schema := Schema(db, rejects, now);
    if schema.Some? && Seed(schema.value, now, iso, hash).Some? {
      SeedShape(schema.value, now, iso, hash);
      IndexableKept(schema.value, Seed(schema.value, now, iso, hash).value, Indexes);
    }
  }

  /** Steps 4 to 6 give an existing `despesas` no column outside its list. */
  lemma ExtensionsDespesas(db: Tables, rejects: set<(string, string)>, now: string)
    requires "despesas" in db && Extensions(db, rejects, now).Some?
    ensures var d := Extensions(db, rejects, now).value;
      && "despesas" in d
      && forall c :: c in d["despesas"].columns ==> c in db["despesas"].columns || c in Names(DespesasAdditions)
  {
    var categorias := CreateOrExtend(db, rejects, CategoriasDef, CategoriasAdditions, now);
    CreateOrExtendOther(db, rejects, CategoriasDef, CategoriasAdditions, now, "despesas");
    var fixas := CreateIfMissing(categorias.tables, DespesasFixasDef);
    assert fixas["despesas"] == db["despesas"];
    AddColumnsExtends(fixas, rejects, "despesas", DespesasAdditions, now);
  }

  /** A `despesas` table that exists before the run keeps its columns, plus some of the
      listed additions. */
  lemma SchemaDespesas(db: Tables, rejects: set<(string, string)>, now: string)
    requires "despesas" in db && Schema(db, rejects, now).Some?
    ensures var s := Schema(db, rejects, now).value;
      && "despesas" in s
      && forall c :: c in s["despesas"].columns ==> c in db["despesas"].columns || c in Names(DespesasAdditions)
  {
    var users := UsersMigration(db, now);
    UsersMigrationFacts(db, now);
    assert users.tables["despesas"] == db["despesas"];
    var g := Groups(users.tables);
    assert g["despesas"] == db["despesas"];
    ExtensionsDespesas(g, rejects, now);
  }

  /** A `despesas` with no column outside `before`'s and the list lacks the indexed
      column that `before` lacks. */
  lemma MissingColumnNotIndexable(before: Table, d: Tables, column: string)
    requires "despesas" in d && column in ["data", "user_id"] && column !in before.columns
    requires forall c :: c in d["despesas"].columns ==> c in before.columns || c in Names(DespesasAdditions)
    ensures !Indexable(d, Indexes)
  {
    assert Names(DespesasAdditions) == ["cartao_id", "grupo_id", "despesa_fixa_id", "observacoes", "created_at"];
    var k := if column == "data" then 0 else 1;
    assert Indexes[k] == ("despesas", column);
  }

  /** When `despesas` exists before the run without `data` or `user_id`, step 6 does not
      add that column and step 8's CREATE INDEX on it raises: the run fails and is rolled
      back. */
  lemma MissingIndexedColumnAborts(db: Tables, rejects: set<(string, string)>, now: string, iso: string, hash: string -> string, column: string)
    requires "despesas" in db && column in ["data", "user_id"] && column !in db["despesas"].columns
    ensures Migrate(db, rejects, now, iso, hash).None?
  {
    MigrateIndexes(db, rejects, now, iso, hash);
    var schema := Schema(db, rejects, now);
    if schema.Some? {
      SchemaDespesas(db, rejects, now);
      MissingColumnNotIndexable(db["despesas"], schema.value, column);
    }
  }

  /** Steps 4 to 6 on tables where `despesas` and `despesas_fixas` are absent and the
      group tables were just created leave every indexed column in place. */
  lemma ExtensionsFresh(db: Tables, rejects: set<(string, string)>, now: string)
    requires "despesas" !in db && "despesas_fixas" !in db
    requires "grupo_membros" in db && db["grupo_membros"].columns == GrupoMembrosDef.columns
    requires "cartoes" in db && db["cartoes"].columns == CartoesDef.columns
    requires Extensions(db, rejects, now).Some?
    ensures Indexable(Extensions(db, rejects, now).value, Indexes)
  {
    var categorias := CreateOrExtend(db, rejects, CategoriasDef, CategoriasAdditions, now);
    CreateOrExtendOther(db, rejects, CategoriasDef, CategoriasAdditions, now, "grupo_membros");
    CreateOrExtendOther(db, rejects, CategoriasDef, CategoriasAdditions, now, "cartoes");
    CreateOrExtendOther(db, rejects, CategoriasDef, CategoriasAdditions, now, "despesas_fixas");
    CreateOrExtendOther(db, rejects, CategoriasDef, CategoriasAdditions, now, "despesas");
    var fixas := CreateIfMissing(categorias.tables, DespesasFixasDef);
    var d := Extensions(db, rejects, now).value;
    assert d == fixas["despesas" := Empty(DespesasDef)];
    forall k | 0 <= k < |Indexes| ensures HasColumn(d, Indexes[k].0, Indexes[k].1) {
      assert Indexes[k].1 in d[Indexes[k].0].columns;
    }
  }

  /** Steps 1 to 3 on a database without the four tables create the two group tables
      with their declared columns and leave the other two absent. */
  lemma GroupsFresh(db: Tables, now: string)
    requires "despesas" !in db && "despesas_fixas" !in db && "grupo_membros" !in db && "cartoes" !in db
    requires UsersMigration(db, now).result.Ok?
    ensures var g := Groups(UsersMigration(db, now).tables);
      && "despesas" !in g && "despesas_fixas" !in g
      && "grupo_membros" in g && g["grupo_membros"].columns == GrupoMembrosDef.columns
      && "cartoes" in g && g["cartoes"].columns == CartoesDef.columns
  {
    var users := UsersMigration(db, now);
    UsersMigrationFacts(db, now);
    assert "despesas" !in users.tables && "despesas_fixas" !in users.tables;
    assert "grupo_membros" !in users.tables && "cartoes" !in users.tables;
  }

  /** On a database without `despesas`, `despesas_fixas`, `grupo_membros` and `cartoes`
      the run creates them with every indexed column, so step 8 never raises: the run
      succeeds exactly when steps 1 to 7 do. */
  lemma FreshTablesIndexable(db: Tables, rejects: set<(string, string)>, now: string, iso: string, hash: string -> string)
    requires "despesas" !in db && "despesas_fixas" !in db && "grupo_membros" !in db && "cartoes" !in db
    ensures Migrate(db, rejects, now, iso, hash).Some? <==>
      Schema(db, rejects, now).Some? && Seed(Schema(db, rejects, now).value, now, iso, hash).Some?
  {
    MigrateIndexes(db, rejects, now, iso, hash);
    var users := UsersMigration(db, now);
    if users.result.Ok? {
      GroupsFresh(db, now);
      if Extensions(Groups(users.tables), rejects, now).Some? {
        ExtensionsFresh(Groups(users.tables), rejects, now);
      }
    }
  }
}
