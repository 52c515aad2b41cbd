/** Step 7 of migrate_database in migrate_melhorias_corrigido_v3.py: the default data.
    Each seed is "insert if absent": the three default users (updated in place when
    present), the ten default categories through insert_categoria_safe, and the default
    family group with one membership per user. A seed's meaning is a pure function on
    the tables that is `None` when one of its statements raises; the methods issue the
    statements through the cursor and are proved against those functions. */
module MigrateSeed {
  import opened Store
  import opened SqlText

  /** `SELECT id FROM name WHERE column = ?` resolves. */
  predicate Lookup(db: Tables, name: string, column: string) {
    name in db && "id" in db[name].columns && column in db[name].columns
  }

  /** An INSERT naming these columns resolves. */
  predicate Accepts(t: Table, fields: map<string, Value>) {
    forall c :: c in fields ==> c in t.columns
  }

  /** The number of rows of `table` whose `column` holds the text `key`. */
  function KeyCount(db: Tables, table: string, column: string, key: string): nat
    requires table in db
  {
    Occurrences(db[table].rows, column, Text(key))
  }

  /** What an "insert if absent" leaves: one row where there was none, else as many as before. */
  function Once(n: nat): nat {
    if n == 0 then 1 else n
  }

  // ---------------------------------------------------------------------------
  // Default users

  datatype SeedUser = SeedUser(username: string, password: string, perfil: string, name: string, email: string)

  const DefaultUsers: seq<SeedUser> := [
    SeedUser("master", "Admin@Mhd051121", "Master", "Administrador Master", "admin@portal.com"),
    SeedUser("daniela", "senha123", "usuario", "Daniela Silva", "daniela@email.com"),
    SeedUser("paulo", "senha123", "usuario", "Paulo Santos", "paulo@email.com")
  ]

  function Usernames(users: seq<SeedUser>): seq<string> {
    seq(|users|, k requires 0 <= k < |users| => users[k].username)
  }

  /** The INSERT for a user that is absent; `hash` is `hash_password`. */
  function UserFields(u: SeedUser, hash: string -> string, now: string): map<string, Value> {
    map["username" := Text(u.username), "password_hash" := Text(hash(u.password)),
        "perfil" := Text(u.perfil), "nome_completo" := Text(u.name), "email" := Text(u.email),
        "ativo" := Int(1), "created_at" := Text(now), "updated_at" := Text(now)]
  }

  /** The UPDATE for a user that is present: the password and profile are overwritten... */
  function UserAssign(u: SeedUser, hash: string -> string, now: string): map<string, Value> {
    map["password_hash" := Text(hash(u.password)), "perfil" := Text(u.perfil), "updated_at" := Text(now)]
  }

  /** ...while the full name and e-mail are only filled in when null. */
  function UserCoalesce(u: SeedUser): map<string, Value> {
    map["nome_completo" := Text(u.name), "email" := Text(u.email)]
  }

  function SeedUserStep(db: Tables, u: SeedUser, hash: string -> string, now: string): Option<Tables> {
    if !Lookup(db, "users", "username") then None
    else
      var t := db["users"];
      var key := Text(u.username);
      if FirstId(t.rows, "username", key).None? then
        if Accepts(t, UserFields(u, hash, now)) then Some(db["users" := InsertInto(t, UserFields(u, hash, now))])
        else None
      else if UpdateResolves(t, "username", UserAssign(u, hash, now), UserCoalesce(u)) then
        Some(db["users" := t.(rows := UpdateRows(t.rows, "username", key, UserAssign(u, hash, now), UserCoalesce(u)))])
      else None
  }

  function SeedUsers(db: Tables, users: seq<SeedUser>, hash: string -> string, now: string): Option<Tables>
    decreases |users|
  {
    if users == [] then Some(db)
    else match SeedUsers(db, users[..|users| - 1], hash, now)
      case None => None
      case Some(d) => SeedUserStep(d, users[|users| - 1], hash, now)
  }

  method SeedOneUser(db: Database, u: SeedUser, hash: string -> string, now: string) returns (r: Result<()>)
    modifies db
    ensures r.Ok? <==> SeedUserStep(old(db.tables), u, hash, now).Some?
    ensures r.Ok? ==> db.tables == SeedUserStep(old(db.tables), u, hash, now).value
  {
    var existing := db.SelectId("users", "username", Text(u.username));
    if existing.Err? {
      return Err(existing.failure);
    }
    if existing.value.None? {
      var id := db.Insert("users", UserFields(u, hash, now));
      r := id.Replace(());
    } else {
      var updated := db.Update("users", "username", Text(u.username), UserAssign(u, hash, now), UserCoalesce(u));
      r := updated.Replace(());
    }
  }

  lemma {:induction false} SeedUsersStopsAtFailure(db: Tables, users: seq<SeedUser>, hash: string -> string, now: string, i: nat)
    requires i <= |users| && SeedUsers(db, users[..i], hash, now).None?
    ensures SeedUsers(db, users, hash, now).None?
    decreases |users| - i
  {
    if i < |users| {
      assert users[..i + 1][..i] == users[..i];
      assert SeedUsers(db, users[..i + 1], hash, now).None?;
      SeedUsersStopsAtFailure(db, users, hash, now, i + 1);
    } else {
      assert users[..i] == users;
    }
  }

  /** The users loop of step 7, over the list it is given (`DefaultUsers` in the script). */
  method SeedUserList(db: Database, users: seq<SeedUser>, hash: string -> string, now: string) returns (r: Result<()>)
    modifies db
    ensures r.Ok? <==> SeedUsers(old(db.tables), users, hash, now).Some?
    ensures r.Ok? ==> db.tables == SeedUsers(old(db.tables), users, hash, now).value
  {
    var i := 0;
    while i < |users|
      invariant 0 <= i <= |users|
      invariant SeedUsers(old(db.tables), users[..i], hash, now) == Some(db.tables)
    {
      r := SeedOneUser(db, users[i], hash, now);
      assert users[..i + 1][..i] == users[..i];
      if r.Err? {
        SeedUsersStopsAtFailure(old(db.tables), users, hash, now, i + 1);
        return;
      }
      i := i + 1;
    }
    assert users[..i] == users;
    r := Ok(());
  }

  /** Seeding one user leaves exactly one row with its username where there was none,
      keeps the number of rows with it otherwise, and keeps the number of rows with any
      other username. */
  lemma SeedUserCounts(db: Tables, u: SeedUser, hash: string -> string, now: string, v: string)
    requires SeedUserStep(db, u, hash, now).Some?
    ensures var d := SeedUserStep(db, u, hash, now).value;
      && "users" in d && Lookup(d, "users", "username")
      && KeyCount(d, "users", "username", v)
         == if v == u.username then Once(KeyCount(db, "users", "username", v)) else KeyCount(db, "users", "username", v)
  {
    var t := db["users"];
    var key := Text(u.username);
    FirstIdFindsOccurrence(t.rows, "username", key);
    var d := SeedUserStep(db, u, hash, now).value;
    if FirstId(t.rows, "username", key).None? {
      var row := NewRow(t, UserFields(u, hash, now));
      assert Cell(row, "username") == key;
      OccurrencesAppend(t.rows, row, "username", Text(v));
    } else {
      var rows := UpdateRows(t.rows, "username", key, UserAssign(u, hash, now), UserCoalesce(u));
      OccurrencesPointwise(t.rows, rows, "username", Text(v));
    }
  }

  /** After the users loop each seeded username occurs once where it was absent and as
      often as before otherwise; no other username's count changes. */
  lemma {:induction false} SeedUsersCounts(db: Tables, users: seq<SeedUser>, hash: string -> string, now: string, v: string)
    requires Distinct(Usernames(users))
    requires "users" in db
    requires SeedUsers(db, users, hash, now).Some?
    ensures var d := SeedUsers(db, users, hash, now).value;
      && "users" in d
      && KeyCount(d, "users", "username", v)
         == if v in Usernames(users) then Once(KeyCount(db, "users", "username", v)) else KeyCount(db, "users", "username", v)
    decreases |users|
  {
    if users != [] {
      var init := users[..|users| - 1];
      var u := users[|users| - 1];
      var names := Usernames(users);
      assert Usernames(init) == names[..|users| - 1];
      assert names == Usernames(init) + [u.username];
      assert Distinct(Usernames(init));
      SeedUsersCounts(db, init, hash, now, v);
      var d := SeedUsers(db, init, hash, now).value;
      assert SeedUsers(db, users, hash, now) == SeedUserStep(d, u, hash, now);
      SeedUserCounts(d, u, hash, now, v);
      if v == u.username {
        assert v !in Usernames(init) by {
          forall k | 0 <= k < |init| ensures Usernames(init)[k] != v {
            assert names[k] != names[|users| - 1];
          }
        }
      }
    }
  }

  lemma DefaultUsernames()
    ensures Usernames(DefaultUsers) == ["master", "daniela", "paulo"]
    ensures Distinct(Usernames(DefaultUsers))
  {
  }

  /** With usernames unique beforehand (the column is UNIQUE), each default user exists
      exactly once after the users loop. */
  lemma DefaultUsersOnce(db: Tables, hash: string -> string, now: string, k: nat)
    requires "users" in db && k < |DefaultUsers|
    requires KeyCount(db, "users", "username", DefaultUsers[k].username) <= 1
    requires SeedUsers(db, DefaultUsers, hash, now).Some?
    ensures var d := SeedUsers(db, DefaultUsers, hash, now).value;
      "users" in d && KeyCount(d, "users", "username", DefaultUsers[k].username) == 1
  {
    DefaultUsernames();
    assert Usernames(DefaultUsers)[k] == DefaultUsers[k].username;
    SeedUsersCounts(db, DefaultUsers, hash, now, DefaultUsers[k].username);
  }

  /** A user that is present keeps its row count; its rows get the new password hash,
      profile and `updated_at`, keep a non-null full name and e-mail and otherwise take
      the seeded ones, and keep every other column (`id`, `ativo`, `created_at`, ...);
      every other row is unchanged. */
  lemma SeedUserUpdates(db: Tables, u: SeedUser, hash: string -> string, now: string)
    requires Lookup(db, "users", "username") && FirstId(db["users"].rows, "username", Text(u.username)).Some?
    requires SeedUserStep(db, u, hash, now).Some?
    ensures var before := db["users"].rows;
      var after := SeedUserStep(db, u, hash, now).value["users"].rows;
      && |after| == |before|
      && forall k :: 0 <= k < |before| ==>
           if Cell(before[k], "username") == Text(u.username) then
             && Cell(after[k], "password_hash") == Text(hash(u.password))
             && Cell(after[k], "perfil") == Text(u.perfil)
             && Cell(after[k], "nome_completo") == Coalesce(Cell(before[k], "nome_completo"), Text(u.name))
             && Cell(after[k], "email") == Coalesce(Cell(before[k], "email"), Text(u.email))
             && Cell(after[k], "username") == Text(u.username)
             && Cell(after[k], "updated_at") == Text(now)
             && forall c :: c !in UserUpdated ==> Cell(after[k], c) == Cell(before[k], c)
           else after[k] == before[k]
  {
    var before := db["users"].rows;
    var assign := UserAssign(u, hash, now);
    var coalesce := UserCoalesce(u);
    var after := UpdateRows(before, "username", Text(u.username), assign, coalesce);
    assert SeedUserStep(db, u, hash, now).value["users"].rows == after;
    forall k, c | 0 <= k < |before| && Cell(before[k], "username") == Text(u.username) && c !in UserUpdated
      ensures Cell(after[k], c) == Cell(before[k], c)
    {
      SetRowKeeps(before[k], assign, coalesce, c);
    }
  }

  /** The columns the UPDATE of a present user writes. */
  const UserUpdated: set<string> := {"password_hash", "perfil", "nome_completo", "email", "updated_at"}

  /** A user that is absent gets one new row holding the seeded values, active. */
  lemma SeedUserInserts(db: Tables, u: SeedUser, hash: string -> string, now: string)
    requires Lookup(db, "users", "username") && FirstId(db["users"].rows, "username", Text(u.username)).None?
    requires SeedUserStep(db, u, hash, now).Some?
    ensures var before := db["users"].rows;
      var after := SeedUserStep(db, u, hash, now).value["users"].rows;
      && after[..|before|] == before
      && |after| == |before| + 1
      && Cell(after[|before|], "username") == Text(u.username)
      && Cell(after[|before|], "password_hash") == Text(hash(u.password))
      && Cell(after[|before|], "perfil") == Text(u.perfil)
      && Cell(after[|before|], "nome_completo") == Text(u.name)
      && Cell(after[|before|], "email") == Text(u.email)
      && Cell(after[|before|], "ativo") == Int(1)
  {
    var t := db["users"];
    var fields := UserFields(u, hash, now);
    assert SeedUserStep(db, u, hash, now).value["users"] == InsertInto(t, fields);
    var row := NewRow(t, fields);
    assert (t.rows + [row])[..|t.rows|] == t.rows;
    NewRowCell(t, fields, "username");
    NewRowCell(t, fields, "password_hash");
    NewRowCell(t, fields, "perfil");
    NewRowCell(t, fields, "nome_completo");
    NewRowCell(t, fields, "email");
    NewRowCell(t, fields, "ativo");
  }

  // ---------------------------------------------------------------------------
  // insert_categoria_safe and the default categories

  datatype SeedCategory = SeedCategory(name: string, description: string, color: string, icon: string)

  const DefaultCategories: seq<SeedCategory> := [
    SeedCategory("Alimentação", "Gastos com comida e bebidas", "#28a745", "fas fa-utensils"),
    SeedCategory("Transporte", "Combustível, transporte público, etc.", "#007bff", "fas fa-car"),
    SeedCategory("Moradia", "Aluguel, condomínio, IPTU, etc.", "#6f42c1", "fas fa-home"),
    SeedCategory("Saúde", "Médicos, medicamentos, planos", "#dc3545", "fas fa-heartbeat"),
    SeedCategory("Educação", "Cursos, livros, material escolar", "#fd7e14", "fas fa-graduation-cap"),
    SeedCategory("Lazer", "Cinema, restaurantes, viagens", "#e83e8c", "fas fa-gamepad"),
    SeedCategory("Vestuário", "Roupas, calçados, acessórios", "#20c997", "fas fa-tshirt"),
    SeedCategory("Tecnologia", "Eletrônicos, internet, telefone", "#6c757d", "fas fa-laptop"),
    SeedCategory("Casa em Ordem", "Despesas familiares compartilhadas", "#667eea", "fas fa-users"),
    SeedCategory("Cartão de Crédito", "Despesas no cartão de crédito", "#ffc107", "fas fa-credit-card")
  ]

  /** The optional columns, in the order insert_categoria_safe tests them. */
  const OptionalCategoryColumns: seq<string> := ["descricao", "cor", "icone", "ativo", "created_at"]

  /** The value insert_categoria_safe binds to a column it lists; `iso` stands for the
      `datetime.now().isoformat()` text. */
  function CategoryValue(c: SeedCategory, iso: string, column: string): Value {
    if column == "nome" then Text(c.name)
    else if column == "descricao" then Text(c.description)
    else if column == "cor" then Text(c.color)
    else if column == "icone" then Text(c.icon)
    else if column == "ativo" then Int(1)
    else Text(iso)
  }

  /** The three lists built in step: columns, values and placeholders. */
  datatype InsertLists = InsertLists(columns: seq<string>, values: seq<Value>, marks: seq<string>)

  /** One `if column in columns:` block: the column, its value and a `?` are appended together. */
  function Extend(l: InsertLists, present: seq<string>, column: string, v: Value): InsertLists {
    if column in present then InsertLists(l.columns + [column], l.values + [v], l.marks + ["?"]) else l
  }

  /** The lists after the first `n` blocks. */
  function ListsFor(present: seq<string>, c: SeedCategory, iso: string, n: nat): (l: InsertLists)
    requires n <= |OptionalCategoryColumns|
    ensures |l.values| == |l.columns| && |l.marks| == |l.columns|
  {
    if n == 0 then InsertLists(["nome"], [Text(c.name)], ["?"])
    else
      var column := OptionalCategoryColumns[n - 1];
      Extend(ListsFor(present, c, iso, n - 1), present, column, CategoryValue(c, iso, column))
  }

  function CategoryLists(present: seq<string>, c: SeedCategory, iso: string): (l: InsertLists)
    ensures |l.values| == |l.columns| && |l.marks| == |l.columns|
  {
    ListsFor(present, c, iso, |OptionalCategoryColumns|)
  }

  function CategoryQuery(l: InsertLists): string {
    "INSERT INTO categorias (" + Join(l.columns, ", ") + ") VALUES (" + Join(l.marks, ", ") + ")"
  }

  /** The members of `wanted` that are in `present`, in the order of `wanted`. */
  function Present(wanted: seq<string>, present: seq<string>): seq<string>
    decreases |wanted|
  {
    if wanted == [] then []
    else
      var last := wanted[|wanted| - 1];
      Present(wanted[..|wanted| - 1], present) + if last in present then [last] else []
  }

  lemma {:induction false} PresentIn(wanted: seq<string>, present: seq<string>, x: string)
    ensures x in Present(wanted, present) <==> x in wanted && x in present
    decreases |wanted|
  {
    if wanted != [] {
      PresentIn(wanted[..|wanted| - 1], present, x);
      assert wanted == wanted[..|wanted| - 1] + [wanted[|wanted| - 1]];
    }
  }

  /** Every column the lists can name, and none of them holds a `?`. */
  lemma CategoryColumnNames()
    ensures Distinct(["nome"] + OptionalCategoryColumns)
    ensures forall x :: x in ["nome"] + OptionalCategoryColumns ==> '?' !in x
  {
  }

  /** After the first `n` blocks the lists stay in step: the columns are `nome` followed by
      the first `n` optional columns the table has, in order, each bound to its own value
      and given one `?`. */
  lemma {:induction false} ListsForFacts(present: seq<string>, c: SeedCategory, iso: string, n: nat)
    requires n <= |OptionalCategoryColumns|
    ensures var l := ListsFor(present, c, iso, n);
      && l.columns == ["nome"] + Present(OptionalCategoryColumns[..n], present)
      && |l.values| == |l.columns| && |l.marks| == |l.columns|
      && (forall k :: 0 <= k < |l.columns| ==> l.values[k] == CategoryValue(c, iso, l.columns[k]) && l.marks[k] == "?")
    decreases n
  {
    if n > 0 {
      ListsForFacts(present, c, iso, n - 1);
      assert OptionalCategoryColumns[..n][..n - 1] == OptionalCategoryColumns[..n - 1];
    }
  }

  lemma {:induction false} ListsForDistinct(present: seq<string>, c: SeedCategory, iso: string, n: nat)
    requires n <= |OptionalCategoryColumns|
    ensures var l := ListsFor(present, c, iso, n);
      && Distinct(l.columns)
      && forall k :: 0 <= k < |l.columns| ==> l.columns[k] in ["nome"] + OptionalCategoryColumns[..n]
    decreases n
  {
    CategoryColumnNames();
    if n > 0 {
      ListsForDistinct(present, c, iso, n - 1);
      var w := OptionalCategoryColumns;
      var prior := ListsFor(present, c, iso, n - 1).columns;
      assert w[n - 1] !in ["nome"] + w[..n - 1] by {
        var all := ["nome"] + w;
        assert forall k :: 0 <= k < n ==> (["nome"] + w[..n - 1])[k] == all[k];
        assert w[n - 1] == all[n];
      }
      assert forall x :: x in ["nome"] + w[..n - 1] ==> x in ["nome"] + w[..n];
    }
  }

  lemma CategoryListsFacts(present: seq<string>, c: SeedCategory, iso: string)
    ensures var l := CategoryLists(present, c, iso);
      && l.columns == ["nome"] + Present(OptionalCategoryColumns, present)
      && |l.values| == |l.columns| && |l.marks| == |l.columns|
      && (forall k :: 0 <= k < |l.columns| ==> l.values[k] == CategoryValue(c, iso, l.columns[k]) && l.marks[k] == "?")
      && Distinct(l.columns)
      && (forall k :: 0 <= k < |l.columns| ==> '?' !in l.columns[k])
  {
    var n := |OptionalCategoryColumns|;
    ListsForFacts(present, c, iso, n);
    ListsForDistinct(present, c, iso, n);
    CategoryColumnNames();
    assert OptionalCategoryColumns[..n] == OptionalCategoryColumns;
  }

  /** `?` characters counted over a text without any. */
  lemma {:induction false} PlaceholdersFree(s: string)
    requires '?' !in s
    ensures Placeholders(s) == 0
    decreases |s|
  {
    if s != [] {
      PlaceholdersFree(s[1..]);
    }
  }

  /** Joined with ", ", names without `?` contribute no placeholder and `?` marks one each. */
  lemma {:induction false} PlaceholdersJoin(parts: seq<string>, marks: bool)
    requires forall k :: 0 <= k < |parts| ==> if marks then parts[k] == "?" else '?' !in parts[k]
    ensures Placeholders(Join(parts, ", ")) == if marks then |parts| else 0
    decreases |parts|
  {
    if |parts| == 1 {
      if !marks {
        PlaceholdersFree(parts[0]);
      }
    } else if |parts| > 1 {
      PlaceholdersJoin(parts[1..], marks);
      PlaceholdersAppend(parts[0] + ", ", Join(parts[1..], ", "));
      PlaceholdersAppend(parts[0], ", ");
      PlaceholdersFree(", ");
      if !marks {
        PlaceholdersFree(parts[0]);
      }
    }
  }

  lemma PlaceholdersAround(a: string, x: string, b: string, y: string, e: string)
    requires '?' !in a && '?' !in b && '?' !in e
    ensures Placeholders(a + x + b + y + e) == Placeholders(x) + Placeholders(y)
  {
    PlaceholdersFree(a);
    PlaceholdersFree(b);
    PlaceholdersFree(e);
    PlaceholdersAppend(a, x);
    PlaceholdersAppend(a + x, b);
    PlaceholdersAppend(a + x + b, y);
    PlaceholdersAppend(a + x + b + y, e);
  }

  /** Lists in step whose columns hold no `?`: the statement's text has exactly one `?`
      per value, so the engine binds it. */
  lemma QueryBinds(l: InsertLists)
    requires |l.values| == |l.columns| == |l.marks|
    requires forall k :: 0 <= k < |l.columns| ==> '?' !in l.columns[k] && l.marks[k] == "?"
    ensures Placeholders(CategoryQuery(l)) == |l.values|
  {
    PlaceholdersJoin(l.columns, false);
    PlaceholdersJoin(l.marks, true);
    PlaceholdersAround("INSERT INTO categorias (", Join(l.columns, ", "), ") VALUES (", Join(l.marks, ", "), ")");
  }

  /** insert_categoria_safe: nothing when the name is present, else one row. */
  function InsertCategory(db: Tables, c: SeedCategory, iso: string): Option<Tables> {
    if !Lookup(db, "categorias", "nome") then None
    else
      var t := db["categorias"];
      if FirstId(t.rows, "nome", Text(c.name)).Some? then Some(db)
      else
        var l := CategoryLists(t.columns, c, iso);
        Some(db["categorias" := InsertInto(t, Bind(l.columns, l.values))])
  }

  /** The lists of insert_categoria_safe, built in step from the table's columns. */
  method CategoryInsertLists(columns: seq<string>, c: SeedCategory, iso: string)
    returns (insertColumns: seq<string>, insertValues: seq<Value>, placeholders: seq<string>)
    ensures InsertLists(insertColumns, insertValues, placeholders) == CategoryLists(columns, c, iso)
  {
    insertColumns := ["nome"];
    insertValues := [Text(c.name)];
    placeholders := ["?"];
    assert InsertLists(insertColumns, insertValues, placeholders) == ListsFor(columns, c, iso, 0);
    if "descricao" in columns {
      insertColumns := insertColumns + ["descricao"];
      insertValues := insertValues + [Text(c.description)];
      placeholders := placeholders + ["?"];
    }
    assert InsertLists(insertColumns, insertValues, placeholders) == ListsFor(columns, c, iso, 1);
    if "cor" in columns {
      insertColumns := insertColumns + ["cor"];
      insertValues := insertValues + [Text(c.color)];
      placeholders := placeholders + ["?"];
    }
    assert InsertLists(insertColumns, insertValues, placeholders) == ListsFor(columns, c, iso, 2);
    if "icone" in columns {
      insertColumns := insertColumns + ["icone"];
      insertValues := insertValues + [Text(c.icon)];
      placeholders := placeholders + ["?"];
    }
    assert InsertLists(insertColumns, insertValues, placeholders) == ListsFor(columns, c, iso, 3);
    if "ativo" in columns {
      insertColumns := insertColumns + ["ativo"];
      insertValues := insertValues + [Int(1)];
      placeholders := placeholders + ["?"];
    }
    assert InsertLists(insertColumns, insertValues, placeholders) == ListsFor(columns, c, iso, 4);
    if "created_at" in columns {
      insertColumns := insertColumns + ["created_at"];
      insertValues := insertValues + [Text(iso)];
      placeholders := placeholders + ["?"];
    }
  }

  method InsertCategoriaSafe(db: Database, c: SeedCategory, iso: string) returns (r: Result<()>)
    modifies db
    ensures r.Ok? <==> InsertCategory(old(db.tables), c, iso).Some?
    ensures db.tables == if r.Ok? then InsertCategory(old(db.tables), c, iso).value else old(db.tables)
  {
    var existing := db.SelectId("categorias", "nome", Text(c.name));
    if existing.Err? {
      return Err(existing.failure);
    }
    if existing.value.Some? {
      return Ok(());
    }
    var columns := db.GetTableColumns("categorias");
    var insertColumns, insertValues, placeholders := CategoryInsertLists(columns, c, iso);
    var query := "INSERT INTO categorias (" + Join(insertColumns, ", ") + ") VALUES (" + Join(placeholders, ", ") + ")";
    CategoryListsFacts(columns, c, iso);
    QueryBinds(CategoryLists(columns, c, iso));
    forall k | 0 <= k < |insertColumns| ensures insertColumns[k] in columns {
      PresentIn(OptionalCategoryColumns, columns, insertColumns[k]);
    }
    var id := db.ExecuteInsert(query, "categorias", insertColumns, insertValues);
    r := id.Replace(());
  }

  /** A category whose name is present leaves the tables as they were; otherwise one row
      is appended to `categorias` and nothing else changes. */
  lemma InsertCategoryShape(db: Tables, c: SeedCategory, iso: string)
    requires InsertCategory(db, c, iso).Some?
    ensures var d := InsertCategory(db, c, iso).value;
      var t := db["categorias"];
      if FirstId(t.rows, "nome", Text(c.name)).Some? then d == db
      else
        && d.Keys == db.Keys
        && (forall n :: n in db && n != "categorias" ==> d[n] == db[n])
        && d["categorias"].columns == t.columns
        && |d["categorias"].rows| == |t.rows| + 1
        && d["categorias"].rows[..|t.rows|] == t.rows
  {
    var t := db["categorias"];
    if FirstId(t.rows, "nome", Text(c.name)).None? {
      var l := CategoryLists(t.columns, c, iso);
      var row := NewRow(t, Bind(l.columns, l.values));
      assert (t.rows + [row])[..|t.rows|] == t.rows;
    }
  }

  /** An INSERT through lists in step, naming distinct columns of the table, gives each
      listed column its own value. */
  lemma InsertedCell(t: Table, l: InsertLists, k: nat)
    requires |l.values| == |l.columns| && Distinct(l.columns) && k < |l.columns|
    requires l.columns[k] in t.columns
    ensures Cell(NewRow(t, Bind(l.columns, l.values)), l.columns[k]) == l.values[k]
  {
    BindAt(l.columns, l.values, k);
    NewRowCell(t, Bind(l.columns, l.values), l.columns[k]);
  }

  /** The row a new category gets holds its name and, in each optional column the table
      has, that column's value. */
  lemma InsertCategoryRow(db: Tables, c: SeedCategory, iso: string, column: string)
    requires InsertCategory(db, c, iso).Some?
    requires FirstId(db["categorias"].rows, "nome", Text(c.name)).None?
    requires column == "nome" || (column in OptionalCategoryColumns && column in db["categorias"].columns)
    ensures var t := db["categorias"];
      var rows := InsertCategory(db, c, iso).value["categorias"].rows;
      |rows| == |t.rows| + 1 && Cell(rows[|t.rows|], column) == CategoryValue(c, iso, column)
  {
    var t := db["categorias"];
    var l := CategoryLists(t.columns, c, iso);
    CategoryListsFacts(t.columns, c, iso);
    PresentIn(OptionalCategoryColumns, t.columns, column);
    var k :| 0 <= k < |l.columns| && l.columns[k] == column;
    InsertedCell(t, l, k);
  }

  /** Inserting a category leaves exactly one row with its name where there was none and
      keeps every other count. */
  lemma InsertCategoryCounts(db: Tables, c: SeedCategory, iso: string, v: string)
    requires InsertCategory(db, c, iso).Some?
    ensures var d := InsertCategory(db, c, iso).value;
      && Lookup(d, "categorias", "nome")
      && KeyCount(d, "categorias", "nome", v)
         == if v == c.name then Once(KeyCount(db, "categorias", "nome", v)) else KeyCount(db, "categorias", "nome", v)
  {
    var t := db["categorias"];
    FirstIdFindsOccurrence(t.rows, "nome", Text(c.name));
    if FirstId(t.rows, "nome", Text(c.name)).None? {
      InsertCategoryShape(db, c, iso);
      InsertCategoryRow(db, c, iso, "nome");
      var l := CategoryLists(t.columns, c, iso);
      OccurrencesAppend(t.rows, NewRow(t, Bind(l.columns, l.values)), "nome", Text(v));
    }
  }

  function InsertCategories(db: Tables, cs: seq<SeedCategory>, iso: string): Option<Tables>
    decreases |cs|
  {
    if cs == [] then Some(db)
    else match InsertCategories(db, cs[..|cs| - 1], iso)
      case None => None
      case Some(d) => InsertCategory(d, cs[|cs| - 1], iso)
  }

  lemma {:induction false} InsertCategoriesStopsAtFailure(db: Tables, cs: seq<SeedCategory>, iso: string, i: nat)
    requires i <= |cs| && InsertCategories(db, cs[..i], iso).None?
    ensures InsertCategories(db, cs, iso).None?
    decreases |cs| - i
  {
    if i < |cs| {
      assert cs[..i + 1][..i] == cs[..i];
      assert InsertCategories(db, cs[..i + 1], iso).None?;
      InsertCategoriesStopsAtFailure(db, cs, iso, i + 1);
    } else {
      assert cs[..i] == cs;
    }
  }

  /** One more turn of the categories loop inserts the next category. */
  lemma InsertCategoriesSnoc(db: Tables, cs: seq<SeedCategory>, iso: string, i: nat, d: Tables)
    requires i < |cs| && InsertCategories(db, cs[..i], iso) == Some(d)
    ensures InsertCategories(db, cs[..i + 1], iso) == InsertCategory(d, cs[i], iso)
  {
    assert cs[..i + 1][..i] == cs[..i];
  }

  /** The categories loop of step 7, over the list it is given (`DefaultCategories` in the script). */
  method SeedCategoryList(db: Database, cs: seq<SeedCategory>, iso: string) returns (r: Result<()>)
    modifies db
    ensures r.Ok? <==> InsertCategories(old(db.tables), cs, iso).Some?
    ensures r.Ok? ==> db.tables == InsertCategories(old(db.tables), cs, iso).value
  {
    var i := 0;
    while i < |cs|
      invariant 0 <= i <= |cs|
      invariant InsertCategories(old(db.tables), cs[..i], iso) == Some(db.tables)
    {
      InsertCategoriesSnoc(old(db.tables), cs, iso, i, db.tables);
      r := InsertCategoriaSafe(db, cs[i], iso);
      if r.Err? {
        InsertCategoriesStopsAtFailure(old(db.tables), cs, iso, i + 1);
        return;
      }
      i := i + 1;
    }
    assert cs[..i] == cs;
    r := Ok(());
  }

  function CategoryNames(cs: seq<SeedCategory>): seq<string> {
    seq(|cs|, k requires 0 <= k < |cs| => cs[k].name)
  }

  lemma DefaultCategoryNames()
    ensures CategoryNames(DefaultCategories)
      == ["Alimentação", "Transporte", "Moradia", "Saúde", "Educação", "Lazer", "Vestuário", "Tecnologia", "Casa em Ordem", "Cartão de Crédito"]
    ensures Distinct(CategoryNames(DefaultCategories))
  {
  }

  /** After the categories loop each seeded name occurs once where it was absent and as
      often as before otherwise; no other name's count changes. */
  lemma {:induction false} InsertCategoriesCounts(db: Tables, cs: seq<SeedCategory>, iso: string, v: string)
    requires Distinct(CategoryNames(cs))
    requires "categorias" in db
    requires InsertCategories(db, cs, iso).Some?
    ensures var d := InsertCategories(db, cs, iso).value;
      && "categorias" in d
      && KeyCount(d, "categorias", "nome", v)
         == if v in CategoryNames(cs) then Once(KeyCount(db, "categorias", "nome", v)) else KeyCount(db, "categorias", "nome", v)
    decreases |cs|
  {
    if cs != [] {
      var init := cs[..|cs| - 1];
      var c := cs[|cs| - 1];
      var names := CategoryNames(cs);
      assert CategoryNames(init) == names[..|cs| - 1];
      assert names == CategoryNames(init) + [c.name];
      assert Distinct(CategoryNames(init));
      InsertCategoriesCounts(db, init, iso, v);
      var d := InsertCategories(db, init, iso).value;
      assert InsertCategories(db, cs, iso) == InsertCategory(d, c, iso);
      InsertCategoryCounts(d, c, iso, v);
      if v == c.name {
        assert v !in CategoryNames(init) by {
          forall k | 0 <= k < |init| ensures CategoryNames(init)[k] != v {
            assert names[k] != names[|cs| - 1];
          }
        }
      }
    }
  }

  // ---------------------------------------------------------------------------
  // The default family group

  const FamilyName := "Família"

  /** The INSERT of the group, created by the master user. */
  function GroupFields(master: Value, now: string): map<string, Value> {
    map["nome" := Text(FamilyName), "descricao" := Text("Grupo familiar para despesas compartilhadas"),
        "tipo" := Text("familia"), "criado_por" := master, "ativo" := Int(1), "created_at" := Text(now)]
  }

  /** The INSERT of one membership, added by the master user. */
  function MemberFields(group: Value, user: Value, master: Value, now: string): map<string, Value> {
    map["grupo_id" := group, "user_id" := user, "papel" := Text("membro"),
        "adicionado_por" := master, "created_at" := Text(now)]
  }

  /** `SELECT id FROM users` and `fetchall()`. The query has no ORDER BY; the model takes
      rowid order, which the engine does not promise. */
  function UserIds(t: Table): (ids: seq<Value>)
    ensures |ids| == |t.rows|
  {
    seq(|t.rows|, k requires 0 <= k < |t.rows| => Cell(t.rows[k], "id"))
  }

  /** The memberships loop: one INSERT per listed user. */
  function AddMembers(db: Tables, ids: seq<Value>, group: Value, master: Value, now: string): Option<Tables>
    decreases |ids|
  {
    if ids == [] then Some(db)
    else match AddMembers(db, ids[..|ids| - 1], group, master, now)
      case None => None
      case Some(d) => MemberStep(d, group, ids[|ids| - 1], master, now)
  }

  /** One turn of the membership loop: the INSERT into `grupo_membros`. */
  function MemberStep(db: Tables, group: Value, user: Value, master: Value, now: string): Option<Tables> {
    var fields := MemberFields(group, user, master, now);
    if "grupo_membros" in db && Accepts(db["grupo_membros"], fields) then
      Some(db["grupo_membros" := InsertInto(db["grupo_membros"], fields)])
    else None
  }

  /** The group is created only when no group has its name and the master user exists;
      every user then becomes a member. */
  function SeedFamily(db: Tables, now: string): Option<Tables> {
    if !Lookup(db, "grupos", "nome") then None
    else if FirstId(db["grupos"].rows, "nome", Text(FamilyName)).Some? then Some(db)
    else if !Lookup(db, "users", "username") then None
    else match FirstId(db["users"].rows, "username", Text("master"))
      case None => Some(db)
      case Some(master) =>
        var g := db["grupos"];
        var fields := GroupFields(master, now);
        if !Accepts(g, fields) then None
        else
          var created := db["grupos" := InsertInto(g, fields)];
          AddMembers(created, UserIds(db["users"]), InsertedId(g, fields), master, now)
  }

  lemma {:induction false} AddMembersStopsAtFailure(db: Tables, ids: seq<Value>, group: Value, master: Value, now: string, i: nat)
    requires i <= |ids| && AddMembers(db, ids[..i], group, master, now).None?
    ensures AddMembers(db, ids, group, master, now).None?
    decreases |ids| - i
  {
    if i < |ids| {
      assert ids[..i + 1][..i] == ids[..i];
      AddMembersStopsAtFailure(db, ids, group, master, now, i + 1);
    } else {
      assert ids[..i] == ids;
    }
  }

  method AddOneMember(db: Database, group: Value, user: Value, master: Value, now: string) returns (r: Result<Value>)
    modifies db
    ensures r.Ok? <==> MemberStep(old(db.tables), group, user, master, now).Some?
    ensures r.Ok? ==> db.tables == MemberStep(old(db.tables), group, user, master, now).value
  {
    r := db.Insert("grupo_membros", MemberFields(group, user, master, now));
  }

  method AddGroupMembers(db: Database, ids: seq<Value>, group: Value, master: Value, now: string) returns (r: Result<()>)
    modifies db
    ensures r.Ok? <==> AddMembers(old(db.tables), ids, group, master, now).Some?
    ensures r.Ok? ==> db.tables == AddMembers(old(db.tables), ids, group, master, now).value
  {
    var i := 0;
    while i < |ids|
      invariant 0 <= i <= |ids|
      invariant AddMembers(old(db.tables), ids[..i], group, master, now) == Some(db.tables)
    {
      var added := AddOneMember(db, group, ids[i], master, now);
      assert ids[..i + 1][..i] == ids[..i];
      if added.Err? {
        AddMembersStopsAtFailure(old(db.tables), ids, group, master, now, i + 1);
        return Err(added.failure);
      }
      i := i + 1;
    }
    assert ids[..i] == ids;
    r := Ok(());
  }

  /** The family-group block of step 7. */
  method SeedFamilyGroup(db: Database, now: string) returns (r: Result<()>)
    modifies db
    ensures r.Ok? <==> SeedFamily(old(db.tables), now).Some?
    ensures r.Ok? ==> db.tables == SeedFamily(old(db.tables), now).value
  {
    var group := db.SelectId("grupos", "nome", Text(FamilyName));
    if group.Err? {
      return Err(group.failure);
    }
    if group.value.Some? {
      return Ok(());
    }
    var master := db.SelectId("users", "username", Text("master"));
    if master.Err? {
      return Err(master.failure);
    }
    if master.value.None? {
      return Ok(());
    }
    var masterId := master.value.value;
    var groupId := db.Insert("grupos", GroupFields(masterId, now));
    if groupId.Err? {
      return Err(groupId.failure);
    }
    var users := db.SelectColumn("users", "id");
    var ids := users.value;
    assert ids == UserIds(old(db.tables)["users"]);
    r := AddGroupMembers(db, ids, groupId.value, masterId, now);
  }

  /** A membership loop that succeeds appends one row per listed user and changes no
      other table. */
  lemma {:induction false} AddMembersShape(db: Tables, ids: seq<Value>, group: Value, master: Value, now: string)
    requires "grupo_membros" in db
    requires AddMembers(db, ids, group, master, now).Some?
    ensures var d := AddMembers(db, ids, group, master, now).value;
      var before := db["grupo_membros"].rows;
      && d.Keys == db.Keys
      && (forall n :: n in db && n != "grupo_membros" ==> d[n] == db[n])
      && d["grupo_membros"].columns == db["grupo_membros"].columns
      && |d["grupo_membros"].rows| == |before| + |ids|
      && d["grupo_membros"].rows[..|before|] == before
    decreases |ids|
  {
    if ids != [] {
      var init := ids[..|ids| - 1];
      AddMembersShape(db, init, group, master, now);
      var d := AddMembers(db, init, group, master, now).value;
      var t := d["grupo_membros"];
      var row := NewRow(t, MemberFields(group, ids[|ids| - 1], master, now));
      var before := db["grupo_membros"].rows;
      assert (t.rows + [row])[..|before|] == t.rows[..|before|];
    }
  }

  /** The rows it appends are, in order, one membership of the group per listed user,
      added by the master user. */
  lemma {:induction false} AddMembersRows(db: Tables, ids: seq<Value>, group: Value, master: Value, now: string, d: Tables)
    requires "grupo_membros" in db
    requires AddMembers(db, ids, group, master, now) == Some(d)
    ensures "grupo_membros" in d
    ensures |d["grupo_membros"].rows| == |db["grupo_membros"].rows| + |ids|
    ensures MembersAt(d["grupo_membros"].rows, |db["grupo_membros"].rows|, ids, group, master)
    decreases |ids|
  {
    if ids == [] {
      assert d == db;
    } else {
      var init := ids[..|ids| - 1];
      var prev, row := AddMembersLast(db, ids, group, master, now);
      AddMembersRows(db, init, group, master, now, AddMembers(db, init, group, master, now).value);
      MembershipsExtend(db["grupo_membros"].rows, prev, row, init, ids, group, master);
    }
  }

  /** Appending the membership of the next user extends a run of memberships by one. */
  lemma MembershipsExtend(before: seq<Row>, prev: seq<Row>, row: Row, init: seq<Value>, ids: seq<Value>, group: Value, master: Value)
    requires ids != [] && init == ids[..|ids| - 1]
    requires |prev| == |before| + |init|
    requires MembersAt(prev, |before|, init, group, master)
    requires Membership(row, group, ids[|ids| - 1], master)
    ensures |prev + [row]| == |before| + |ids|
    ensures MembersAt(prev + [row], |before|, ids, group, master)
  {
    forall k | 0 <= k < |ids|
      ensures Membership((prev + [row])[|before| + k], group, ids[k], master)
    {
      if k < |init| {
        assert (prev + [row])[|before| + k] == prev[|before| + k];
        assert ids[k] == init[k];
      }
    }
  }

  /** The last turn of the membership loop appends the membership of the last user. */
  lemma AddMembersLast(db: Tables, ids: seq<Value>, group: Value, master: Value, now: string)
    returns (prev: seq<Row>, row: Row)
    requires ids != []
    requires AddMembers(db, ids, group, master, now).Some?
    ensures var d := AddMembers(db, ids[..|ids| - 1], group, master, now);
      && d.Some? && "grupo_membros" in d.value
      && prev == d.value["grupo_membros"].rows
    ensures var d := AddMembers(db, ids, group, master, now).value;
      "grupo_membros" in d && d["grupo_membros"].rows == prev + [row]
    ensures Membership(row, group, ids[|ids| - 1], master)
  {
    var d := AddMembers(db, ids[..|ids| - 1], group, master, now).value;
    var t := d["grupo_membros"];
    MemberRow(t, group, ids[|ids| - 1], master, now);
    prev := t.rows;
    row := NewRow(t, MemberFields(group, ids[|ids| - 1], master, now));
  }

  lemma MemberRow(t: Table, group: Value, user: Value, master: Value, now: string)
    requires Accepts(t, MemberFields(group, user, master, now))
    ensures Membership(NewRow(t, MemberFields(group, user, master, now)), group, user, master)
  {
    var fields := MemberFields(group, user, master, now);
    NewRowCell(t, fields, "grupo_id");
    NewRowCell(t, fields, "user_id");
    NewRowCell(t, fields, "adicionado_por");
    NewRowCell(t, fields, "papel");
  }

  /** From position `start` on, `rows` holds one membership of the group per listed user, in order. */
  predicate MembersAt(rows: seq<Row>, start: nat, ids: seq<Value>, group: Value, master: Value) {
    start + |ids| <= |rows| && forall k :: 0 <= k < |ids| ==> Membership(rows[start + k], group, ids[k], master)
  }

  /** A membership row: of this group, for this user, added by the master user. */
  predicate Membership(r: Row, group: Value, user: Value, master: Value) {
    && Cell(r, "grupo_id") == group
    && Cell(r, "user_id") == user
    && Cell(r, "papel") == Text("membro")
    && Cell(r, "adicionado_por") == master
  }

  /** Where a family group already exists, or the master user does not, nothing changes. */
  lemma SeedFamilySkips(db: Tables, now: string)
    requires Lookup(db, "grupos", "nome") && Lookup(db, "users", "username")
    requires || FirstId(db["grupos"].rows, "nome", Text(FamilyName)).Some?
             || FirstId(db["users"].rows, "username", Text("master")).None?
    ensures SeedFamily(db, now) == Some(db)
  {
  }

  /** Where it is absent and the master user exists, the group is inserted by the master
      user and the membership loop runs over every user id, in rowid order. */
  lemma SeedFamilyUnfolds(db: Tables, now: string)
    requires Lookup(db, "grupos", "nome") && Lookup(db, "users", "username")
    requires FirstId(db["grupos"].rows, "nome", Text(FamilyName)).None?
    requires FirstId(db["users"].rows, "username", Text("master")).Some?
    requires SeedFamily(db, now).Some?
    ensures var master := FirstId(db["users"].rows, "username", Text("master")).value;
      var g := db["grupos"];
      && Accepts(g, GroupFields(master, now))
      && SeedFamily(db, now)
         == AddMembers(db["grupos" := InsertInto(g, GroupFields(master, now))], UserIds(db["users"]),
                       InsertedId(g, GroupFields(master, now)), master, now)
  {
  }

  /** The group is created by the master user: one row appended to `grupos`. */
  lemma SeedFamilyGroupRow(db: Tables, now: string)
    requires Lookup(db, "grupos", "nome") && Lookup(db, "users", "username") && "grupo_membros" in db
    requires FirstId(db["grupos"].rows, "nome", Text(FamilyName)).None?
    requires FirstId(db["users"].rows, "username", Text("master")).Some?
    requires SeedFamily(db, now).Some?
    ensures var d := SeedFamily(db, now).value;
      var master := FirstId(db["users"].rows, "username", Text("master")).value;
      var g := db["grupos"];
      && d.Keys == db.Keys
      && d["users"] == db["users"]
      && |d["grupos"].rows| == |g.rows| + 1
      && d["grupos"].rows[..|g.rows|] == g.rows
      && Cell(d["grupos"].rows[|g.rows|], "nome") == Text(FamilyName)
      && Cell(d["grupos"].rows[|g.rows|], "criado_por") == master
  {
    var master := FirstId(db["users"].rows, "username", Text("master")).value;
    var g := db["grupos"];
    var fields := GroupFields(master, now);
    var created := db["grupos" := InsertInto(g, fields)];
    SeedFamilyUnfolds(db, now);
    AddMembersShape(created, UserIds(db["users"]), InsertedId(g, fields), master, now);
    var row := NewRow(g, fields);
    NewRowCell(g, fields, "nome");
    NewRowCell(g, fields, "criado_por");
    assert (g.rows + [row])[..|g.rows|] == g.rows;
  }

  /** Every user, in rowid order, gets one membership of the new group (its id is the
      INSERT's rowid) added by the master user; the rows already there stay. */
  lemma SeedFamilyMembers(db: Tables, now: string, d: Tables)
    requires Lookup(db, "grupos", "nome") && Lookup(db, "users", "username") && "grupo_membros" in db
    requires FirstId(db["grupos"].rows, "nome", Text(FamilyName)).None?
    requires FirstId(db["users"].rows, "username", Text("master")).Some?
    requires SeedFamily(db, now) == Some(d)
    ensures var master := FirstId(db["users"].rows, "username", Text("master")).value;
      var group := InsertedId(db["grupos"], GroupFields(master, now));
      var users := db["users"].rows;
      var before := db["grupo_membros"].rows;
      && "grupo_membros" in d
      && |d["grupo_membros"].rows| == |before| + |users|
      && d["grupo_membros"].rows[..|before|] == before
      && forall k :: 0 <= k < |users| ==> Membership(d["grupo_membros"].rows[|before| + k], group, Cell(users[k], "id"), master)
  {
    var master := FirstId(db["users"].rows, "username", Text("master")).value;
    var g := db["grupos"];
    var fields := GroupFields(master, now);
    var created := db["grupos" := InsertInto(g, fields)];
    var ids := UserIds(db["users"]);
    var group := InsertedId(g, fields);
    SeedFamilyUnfolds(db, now);
    assert created["grupo_membros"] == db["grupo_membros"];
    MembersOfUsers(created, db["users"], group, master, now, d);
  }

  lemma MembersOfUsers(db: Tables, users: Table, group: Value, master: Value, now: string, d: Tables)
    requires "grupo_membros" in db
    requires AddMembers(db, UserIds(users), group, master, now) == Some(d)
    ensures var before := db["grupo_membros"].rows;
      && "grupo_membros" in d
      && |d["grupo_membros"].rows| == |before| + |users.rows|
      && d["grupo_membros"].rows[..|before|] == before
      && forall k :: 0 <= k < |users.rows| ==> Membership(d["grupo_membros"].rows[|before| + k], group, Cell(users.rows[k], "id"), master)
  {
    var ids := UserIds(users);
    AddMembersShape(db, ids, group, master, now);
    AddMembersRows(db, ids, group, master, now, d);
    forall k | 0 <= k < |users.rows|
      ensures Membership(d["grupo_membros"].rows[|db["grupo_membros"].rows| + k], group, Cell(users.rows[k], "id"), master)
    {
      assert ids[k] == Cell(users.rows[k], "id");
    }
  }
}
