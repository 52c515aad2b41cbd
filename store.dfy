/** An abstract, in-memory model of the SQLite database that the maintenance scripts
    work on. A database is a map from table name to a table; a table is an ordered
    column list, the DEFAULT of each column that has one, and its rows in rowid order.
    The engine's statements the scripts issue (ALTER TABLE ... ADD COLUMN, UPDATE ...
    WHERE ... IS NULL, INSERT, DROP, RENAME, SELECT) are given their meaning here, once,
    as functions on tables; class Database is the cursor through which the scripts
    issue them. */
module Store {

  datatype Option<T> = None | Some(value: T)

  /** A cell. `Null` is SQL NULL. */
  datatype Value = Null | Int(i: int) | Text(s: string)

  /** What the engine raises to the scripts. */
  datatype Failure =
    | NoSuchTable(table: string)
    | NoSuchColumn(table: string, column: string)
    | AlterRefused(table: string, column: string)
    | ConstraintFailed(table: string)
    | BindingMismatch(placeholders: nat, values: nat)
    | DataLost(expected: nat, actual: nat)

  datatype Result<T> = Ok(value: T) | Err(failure: Failure) {
    predicate IsFailure() { Err? }
    function PropagateFailure<U>(): Result<U> requires Err? { Err(failure) }
    function Extract(): T requires Ok? { value }
    /** The same outcome carrying `u` in place of the value. */
    function Replace<U>(u: U): Result<U> { if Ok? then Ok(u) else Err(failure) }
  }

  type Row = map<string, Value>

  datatype Table = Table(columns: seq<string>, defaults: map<string, Value>, rows: seq<Row>)

  type Tables = map<string, Table>

  /** Declared column types; no arithmetic is done on them, so they are tags. */
  datatype ColumnType = TextType | IntegerType | RealType | BooleanType

  /** One `(name, type, default)` triple of the scripts' column lists. */
  datatype ColumnSpec = ColumnSpec(name: string, kind: ColumnType, default: Option<Value>)

  function Cell(r: Row, c: string): Value {
    if c in r then r[c] else Null
  }

  function Coalesce(v: Value, w: Value): Value {
    if v != Null then v else w
  }

  function Default(t: Table, c: string): Value {
    if c in t.defaults then t.defaults[c] else Null
  }

  function DefaultOf(spec: ColumnSpec): Value {
    if spec.default.Some? then spec.default.value else Null
  }

  predicate Distinct(xs: seq<string>) {
    forall i, j :: 0 <= i < j < |xs| ==> xs[i] != xs[j]
  }

  ghost predicate RowFits(r: Row, columns: seq<string>) {
    forall c :: c in r <==> c in columns
  }

  /** Column names are distinct and every row has exactly the table's columns. */
  ghost predicate WellFormed(t: Table) {
    Distinct(t.columns) && forall k :: 0 <= k < |t.rows| ==> RowFits(t.rows[k], t.columns)
  }

  /** `PRAGMA table_info(name)` as a name list: empty for a table that does not exist. */
  function ColumnsOf(db: Tables, name: string): seq<string> {
    if name in db then db[name].columns else []
  }

  predicate HasColumn(db: Tables, name: string, column: string) {
    column in ColumnsOf(db, name)
  }

  /** `db2` has the same tables as `db1`, every column of `db1` is still there, no row
      was added or removed, and no value that was not NULL in one of those columns was
      changed: only new columns and NULL cells may differ. */
  ghost predicate KeepsData(db1: Tables, db2: Tables) {
    && db2.Keys == db1.Keys
    && forall t :: t in db1 ==> TableKeepsData(db1[t], db2[t])
  }

  ghost predicate TableKeepsData(t1: Table, t2: Table) {
    && (forall c :: c in t1.columns ==> c in t2.columns)
    && |t2.rows| == |t1.rows|
    && forall k, c :: 0 <= k < |t1.rows| && c in t1.columns && Cell(t1.rows[k], c) != Null ==>
         Cell(t2.rows[k], c) == Cell(t1.rows[k], c)
  }

  lemma KeepsDataTransitive(db1: Tables, db2: Tables, db3: Tables)
    requires KeepsData(db1, db2) && KeepsData(db2, db3)
    ensures KeepsData(db1, db3)
  {
    forall t | t in db1 ensures TableKeepsData(db1[t], db3[t]) {
      assert TableKeepsData(db1[t], db2[t]) && TableKeepsData(db2[t], db3[t]);
    }
  }

  /** Same tables, same column lists (rows may differ). */
  ghost predicate SameSchema(db1: Tables, db2: Tables) {
    && db2.Keys == db1.Keys
    && forall t :: t in db1 ==> db2[t].columns == db1[t].columns
  }

  // ---------------------------------------------------------------------------
  // ALTER TABLE ... ADD COLUMN

  /** Engine assumption: the new column goes last, and every existing row holds the
      column's DEFAULT, or NULL when it has none. */
  function AddColumn(t: Table, spec: ColumnSpec): Table {
    Table(t.columns + [spec.name], t.defaults[spec.name := DefaultOf(spec)],
          seq(|t.rows|, k requires 0 <= k < |t.rows| => t.rows[k][spec.name := DefaultOf(spec)]))
  }

  /** When the engine carries out an ALTER TABLE ... ADD COLUMN: the table exists, the
      column does not, and the environment does not refuse this pair. */
  predicate AlterAccepted(db: Tables, rejects: set<(string, string)>, name: string, spec: ColumnSpec) {
    name in db && spec.name !in db[name].columns && (name, spec.name) !in rejects
  }

  /** What `safe_add_column` does to a table once its ALTER went through: the column is
      added and, when it is `created_at` without a DEFAULT, every row still NULL there is
      stamped with the current time. */
  function AddColumnAndStamp(t: Table, spec: ColumnSpec, now: string): Table {
    var added := AddColumn(t, spec);
    if spec.name == "created_at" && spec.default.None? then FillNulls(added, "created_at", Text(now)) else added
  }

  /** `safe_add_column` without error isolation: nothing to do when the column is
      there (`Ok` with false), the column added and `created_at` stamped when the ALTER
      goes through (`Ok` with true), and the engine's exception otherwise. */
  function AddIfMissing(db: Tables, rejects: set<(string, string)>, name: string, spec: ColumnSpec, now: string): Result<(Tables, bool)> {
    if HasColumn(db, name, spec.name) then Ok((db, false))
    else if !AlterAccepted(db, rejects, name, spec) then Err(AlterRefused(name, spec.name))
    else Ok((db[name := AddColumnAndStamp(db[name], spec, now)], true))
  }

  /** What `safe_add_column` promises: on a present column it reports false and changes
      nothing; otherwise, when it does not raise, it reports true, the column is appended
      to that table alone, no row is added or lost, no value of another column changes,
      and the new column holds the current time when it is a `created_at` without
      DEFAULT and the column's DEFAULT (or NULL) otherwise. It raises exactly when the
      column is missing and the engine refuses the ALTER. */
  lemma AddIfMissingFacts(db: Tables, rejects: set<(string, string)>, name: string, spec: ColumnSpec, now: string)
    ensures var r := AddIfMissing(db, rejects, name, spec, now);
      && (r.Err? <==> !HasColumn(db, name, spec.name) && !AlterAccepted(db, rejects, name, spec))
      && (r.Ok? && !r.value.1 <==> HasColumn(db, name, spec.name))
      && (r.Ok? && !r.value.1 ==> r.value.0 == db)
      && (r.Ok? && r.value.1 ==>
            var t := db[name];
            var u := r.value.0[name];
            && name in db
            && r.value.0.Keys == db.Keys
            && (forall other :: other in db && other != name ==> r.value.0[other] == db[other])
            && u.columns == t.columns + [spec.name]
            && |u.rows| == |t.rows|
            && (forall k, c :: 0 <= k < |t.rows| && c != spec.name ==> Cell(u.rows[k], c) == Cell(t.rows[k], c))
            && (forall k :: 0 <= k < |t.rows| ==>
                  Cell(u.rows[k], spec.name) == if spec.name == "created_at" && spec.default.None? then Text(now) else DefaultOf(spec)))
  {
    var r := AddIfMissing(db, rejects, name, spec, now);
    if r.Ok? && r.value.1 {
      var t := db[name];
      var added := AddColumn(t, spec);
      var u := r.value.0[name];
      assert |added.rows| == |t.rows|;
      forall k | 0 <= k < |t.rows|
        ensures Cell(u.rows[k], spec.name) == if spec.name == "created_at" && spec.default.None? then Text(now) else DefaultOf(spec)
        ensures forall c :: c != spec.name ==> Cell(u.rows[k], c) == Cell(t.rows[k], c)
      {
        assert added.rows[k] == t.rows[k][spec.name := DefaultOf(spec)];
      }
    }
  }

  /** Calling `safe_add_column` again right after it succeeded finds the column. */
  lemma AddIfMissingIdempotent(db: Tables, rejects: set<(string, string)>, name: string, spec: ColumnSpec, now: string)
    requires AddIfMissing(db, rejects, name, spec, now).Ok?
    ensures var db2 := AddIfMissing(db, rejects, name, spec, now).value.0;
      AddIfMissing(db2, rejects, name, spec, now) == Ok((db2, false))
  {
    var r := AddIfMissing(db, rejects, name, spec, now);
    if r.value.1 {
      assert r.value.0[name].columns == db[name].columns + [spec.name];
    }
  }

  lemma AddColumnKeepsData(t: Table, spec: ColumnSpec)
    requires WellFormed(t) && spec.name !in t.columns
    ensures var r := AddColumn(t, spec);
      && WellFormed(r)
      && r.columns == t.columns + [spec.name]
      && |r.rows| == |t.rows|
      && (forall k, c :: 0 <= k < |t.rows| && c in t.rows[k] ==> r.rows[k][c] == t.rows[k][c])
      && (forall k :: 0 <= k < |t.rows| ==> r.rows[k][spec.name] == DefaultOf(spec))
  {
    var r := AddColumn(t, spec);
    forall i, j | 0 <= i < j < |r.columns| ensures r.columns[i] != r.columns[j] {
      if j == |t.columns| {
        assert r.columns[i] == t.columns[i];
      }
    }
  }

  // ---------------------------------------------------------------------------
  // UPDATE t SET c = v WHERE c IS NULL, and SELECT COUNT(*) FROM t WHERE c IS NULL

  function FillRow(r: Row, c: string, v: Value): Row {
    if Cell(r, c) == Null then r[c := v] else r
  }

  function FillRows(rows: seq<Row>, c: string, v: Value): (out: seq<Row>)
    ensures |out| == |rows|
    ensures forall k :: 0 <= k < |rows| ==> out[k] == FillRow(rows[k], c, v)
  {
    if rows == [] then [] else [FillRow(rows[0], c, v)] + FillRows(rows[1..], c, v)
  }

  function FillNulls(t: Table, c: string, v: Value): Table {
    t.(rows := FillRows(t.rows, c, v))
  }

  function NullCount(rows: seq<Row>, c: string): nat {
    if rows == [] then 0 else (if Cell(rows[0], c) == Null then 1 else 0) + NullCount(rows[1..], c)
  }

  /** The number of positions at which two row sequences differ. */
  function Changed(a: seq<Row>, b: seq<Row>): nat
    requires |a| == |b|
  {
    if a == [] then 0 else (if a[0] != b[0] then 1 else 0) + Changed(a[1..], b[1..])
  }

  lemma {:induction false} ChangedSelf(a: seq<Row>)
    ensures Changed(a, a) == 0
  {
    if a != [] {
      ChangedSelf(a[1..]);
    }
  }

  /** After the UPDATE no row holds NULL in the column. */
  lemma {:induction false} FillRowsClears(rows: seq<Row>, c: string, v: Value)
    requires v != Null
    ensures NullCount(FillRows(rows, c, v), c) == 0
  {
    if rows != [] {
      FillRowsClears(rows[1..], c, v);
      assert FillRows(rows, c, v)[1..] == FillRows(rows[1..], c, v);
    }
  }

  /** The UPDATE leaves the NULL count of every other column as it was. */
  lemma {:induction false} FillRowsKeepsOtherCounts(rows: seq<Row>, c: string, v: Value, other: string)
    requires other != c
    ensures NullCount(FillRows(rows, c, v), other) == NullCount(rows, other)
  {
    if rows != [] {
      FillRowsKeepsOtherCounts(rows[1..], c, v, other);
      assert FillRows(rows, c, v)[1..] == FillRows(rows[1..], c, v);
    }
  }

  /** With no NULL in the column the UPDATE changes nothing. */
  lemma {:induction false} FillRowsNoop(rows: seq<Row>, c: string, v: Value)
    requires NullCount(rows, c) == 0
    ensures FillRows(rows, c, v) == rows
  {
    if rows != [] {
      FillRowsNoop(rows[1..], c, v);
    }
  }

  /** The UPDATE changes exactly the rows the COUNT(*) counted, and in them only the
      target column. */
  lemma {:induction false} FillRowsChangesNullRows(rows: seq<Row>, c: string, v: Value)
    requires v != Null
    ensures Changed(rows, FillRows(rows, c, v)) == NullCount(rows, c)
    ensures forall k, d :: 0 <= k < |rows| && d != c ==> Cell(FillRows(rows, c, v)[k], d) == Cell(rows[k], d)
    ensures forall k :: 0 <= k < |rows| && Cell(rows[k], c) != Null ==> FillRows(rows, c, v)[k] == rows[k]
  {
    if rows != [] {
      FillRowsChangesNullRows(rows[1..], c, v);
      var out := FillRows(rows, c, v);
      assert out[1..] == FillRows(rows[1..], c, v);
      if Cell(rows[0], c) == Null {
        assert Cell(out[0], c) == v;
      }
    }
  }

  // ---------------------------------------------------------------------------
  // INSERT and UPDATE ... WHERE key = ?

  /** The largest integer `id` among the rows, 0 when there is none. */
  function MaxId(rows: seq<Row>): int {
    if rows == [] then 0
    else
      var rest := MaxId(rows[1..]);
      match Cell(rows[0], "id")
      case Int(i) => if i > rest then i else rest
      case _ => rest
  }

  /** Engine assumption for `id INTEGER PRIMARY KEY AUTOINCREMENT`: a fresh id one above
      the largest present. */
  function NextId(t: Table): int {
    MaxId(t.rows) + 1
  }

  /** The row an INSERT adds: the given values, a fresh `id` when it is not given, and
      every other column's DEFAULT (or NULL). */
  function NewRow(t: Table, fields: map<string, Value>): Row {
    map c | c in t.columns :: if c in fields then fields[c] else if c == "id" then Int(NextId(t)) else Default(t, c)
  }

  /** A listed column of the table holds the value the INSERT gives it. */
  lemma NewRowCell(t: Table, fields: map<string, Value>, c: string)
    requires c in fields && c in t.columns
    ensures Cell(NewRow(t, fields), c) == fields[c]
  {
  }

  function InsertInto(t: Table, fields: map<string, Value>): Table {
    t.(rows := t.rows + [NewRow(t, fields)])
  }

  /** The rowid an INSERT reports (`cursor.lastrowid`). */
  function InsertedId(t: Table, fields: map<string, Value>): Value {
    if "id" in fields then fields["id"] else Int(NextId(t))
  }

  /** `SET x = ?` for the keys of `assign`, `SET y = COALESCE(y, ?)` for those of `coalesce`. */
  function SetRow(r: Row, assign: map<string, Value>, coalesce: map<string, Value>): Row {
    map c | c in r.Keys + assign.Keys + coalesce.Keys ::
      if c in assign then assign[c] else if c in coalesce then Coalesce(Cell(r, c), coalesce[c]) else r[c]
  }

  /** A column outside both lists keeps its value. */
  lemma SetRowKeeps(r: Row, assign: map<string, Value>, coalesce: map<string, Value>, c: string)
    requires c !in assign && c !in coalesce
    ensures Cell(SetRow(r, assign, coalesce), c) == Cell(r, c)
  {
  }

  function UpdateRows(rows: seq<Row>, keyColumn: string, key: Value, assign: map<string, Value>, coalesce: map<string, Value>): (out: seq<Row>)
    ensures |out| == |rows|
    ensures forall k :: 0 <= k < |rows| ==> out[k] == if Cell(rows[k], keyColumn) == key then SetRow(rows[k], assign, coalesce) else rows[k]
  {
    if rows == [] then []
    else [if Cell(rows[0], keyColumn) == key then SetRow(rows[0], assign, coalesce) else rows[0]]
         + UpdateRows(rows[1..], keyColumn, key, assign, coalesce)
  }

  /** `SELECT id FROM t WHERE column = key` followed by `fetchone()`. */
  function FirstId(rows: seq<Row>, column: string, key: Value): Option<Value> {
    if rows == [] then None
    else if Cell(rows[0], column) == key then Some(Cell(rows[0], "id"))
    else FirstId(rows[1..], column, key)
  }

  /** The number of rows whose `column` holds `v`. */
  function Occurrences(rows: seq<Row>, column: string, v: Value): nat
    decreases |rows|
  {
    if rows == [] then 0
    else Occurrences(rows[..|rows| - 1], column, v) + (if Cell(rows[|rows| - 1], column) == v then 1 else 0)
  }

  /** `SELECT ... WHERE column = v` finds a row exactly when some row holds `v`. */
  lemma {:induction false} FirstIdFindsOccurrence(rows: seq<Row>, column: string, v: Value)
    ensures FirstId(rows, column, v).None? <==> Occurrences(rows, column, v) == 0
    decreases |rows|
  {
    if rows != [] {
      OccurrencesCons(rows, column, v);
      FirstIdFindsOccurrence(rows[1..], column, v);
    }
  }

  lemma {:induction false} OccurrencesCons(rows: seq<Row>, column: string, v: Value)
    requires rows != []
    ensures Occurrences(rows, column, v) == (if Cell(rows[0], column) == v then 1 else 0) + Occurrences(rows[1..], column, v)
    decreases |rows|
  {
    if |rows| > 1 {
      OccurrencesCons(rows[..|rows| - 1], column, v);
      assert rows[..|rows| - 1][1..] == rows[1..][..|rows[1..]| - 1];
    }
  }

  lemma OccurrencesAppend(rows: seq<Row>, r: Row, column: string, v: Value)
    ensures Occurrences(rows + [r], column, v) == Occurrences(rows, column, v) + (if Cell(r, column) == v then 1 else 0)
  {
    assert (rows + [r])[..|rows|] == rows;
  }

  /** Two row sequences that agree on a column, row by row, have the same counts in it. */
  lemma {:induction false} OccurrencesPointwise(a: seq<Row>, b: seq<Row>, column: string, v: Value)
    requires |a| == |b|
    requires forall k :: 0 <= k < |a| ==> Cell(a[k], column) == Cell(b[k], column)
    ensures Occurrences(a, column, v) == Occurrences(b, column, v)
    decreases |a|
  {
    if a != [] {
      OccurrencesPointwise(a[..|a| - 1], b[..|b| - 1], column, v);
    }
  }

  /** The number of `?` characters in a statement's text. */
  function Placeholders(s: string): nat {
    if s == [] then 0 else (if s[0] == '?' then 1 else 0) + Placeholders(s[1..])
  }

  lemma {:induction false} PlaceholdersAppend(a: string, b: string)
    ensures Placeholders(a + b) == Placeholders(a) + Placeholders(b)
    decreases |a|
  {
    if a != [] {
      PlaceholdersAppend(a[1..], b);
      assert (a + b)[1..] == a[1..] + b;
    } else {
      assert a + b == b;
    }
  }

  /** The map from column to value that parallel column and value lists bind (a column
      listed twice keeps its last value; the scripts never list one twice). */
  function Bind(columns: seq<string>, values: seq<Value>): (m: map<string, Value>)
    requires |columns| == |values|
    ensures forall c :: c in m <==> c in columns
  {
    if columns == [] then map[]
    else Bind(columns[..|columns| - 1], values[..|values| - 1])[columns[|columns| - 1] := values[|values| - 1]]
  }

  /** With distinct columns, each column is bound to the value in its position. */
  lemma {:induction false} BindAt(columns: seq<string>, values: seq<Value>, k: nat)
    requires |columns| == |values| && Distinct(columns) && k < |columns|
    ensures Bind(columns, values)[columns[k]] == values[k]
    decreases |columns|
  {
    if k < |columns| - 1 {
      assert Distinct(columns[..|columns| - 1]);
      assert columns[k] != columns[|columns| - 1];
      BindAt(columns[..|columns| - 1], values[..|values| - 1], k);
    }
  }

  // ---------------------------------------------------------------------------
  // The cursor

  class Database {
    var tables: Tables

    /** The (table, column) pairs for which the engine refuses ALTER TABLE ... ADD COLUMN:
        an environment fact that stands for every cause of refusal the model does not see. */
    const rejects: set<(string, string)>

    constructor (initial: Tables, rejects: set<(string, string)>)
      ensures tables == initial && this.rejects == rejects
    {
      tables := initial;
      this.rejects := rejects;
    }

    /** `table_exists`: a lookup of `sqlite_master`. */
    method TableExists(name: string) returns (b: bool)
      ensures b <==> name in tables
    {
      b := name in tables;
    }

    /** `get_table_columns`: the table's column names in declaration order. */
    method GetTableColumns(name: string) returns (columns: seq<string>)
      ensures name in tables ==> columns == tables[name].columns
      ensures name !in tables ==> columns == []
    {
      columns := if name in tables then tables[name].columns else [];
    }

    /** `column_exists`: false for a table that does not exist. */
    method ColumnExists(name: string, column: string) returns (b: bool)
      ensures b <==> name in tables && column in tables[name].columns
    {
      var columns := GetTableColumns(name);
      b := column in columns;
    }

    /** `CREATE INDEX IF NOT EXISTS ... ON name(column)`. Indexes are not part of the
        state, so the statement changes no table; it raises when the table or the column
        is missing. */
    method CreateIndex(name: string, column: string) returns (r: Result<()>)
      ensures r.Ok? <==> HasColumn(tables, name, column)
      ensures r.Err? ==> r.failure == if name in tables then NoSuchColumn(name, column) else NoSuchTable(name)
    {
      var present := TableExists(name);
      if !present {
        return Err(NoSuchTable(name));
      }
      var has := ColumnExists(name, column);
      if !has {
        return Err(NoSuchColumn(name, column));
      }
      return Ok(());
    }

    method AlterTableAddColumn(name: string, spec: ColumnSpec) returns (ok: bool)
      modifies this
      ensures ok == AlterAccepted(old(tables), rejects, name, spec)
      ensures tables == if ok then old(tables)[name := AddColumn(old(tables)[name], spec)] else old(tables)
    {
      ok := AlterAccepted(tables, rejects, name, spec);
      if ok {
        tables := tables[name := AddColumn(tables[name], spec)];
      }
    }

    /** `SELECT COUNT(*) FROM name WHERE column IS NULL`. */
    method CountNulls(name: string, column: string) returns (r: Result<nat>)
      ensures HasColumn(tables, name, column) ==> r == Ok(NullCount(tables[name].rows, column))
      ensures !HasColumn(tables, name, column) ==> r.Err?
    {
      if name !in tables {
        r := Err(NoSuchTable(name));
      } else if column !in tables[name].columns {
        r := Err(NoSuchColumn(name, column));
      } else {
        r := Ok(NullCount(tables[name].rows, column));
      }
    }

    /** `UPDATE name SET column = v WHERE column IS NULL`. */
    method UpdateNulls(name: string, column: string, v: Value)
      requires HasColumn(tables, name, column)
      modifies this
      ensures tables == old(tables)[name := FillNulls(old(tables)[name], column, v)]
    {
      tables := tables[name := FillNulls(tables[name], column, v)];
    }

    method CreateTable(name: string, columns: seq<string>, defaults: map<string, Value>)
      requires name !in tables
      modifies this
      ensures tables == old(tables)[name := Table(columns, defaults, [])]
    {
      tables := tables[name := Table(columns, defaults, [])];
    }

    method DropTable(name: string)
      requires name in tables
      modifies this
      ensures tables == old(tables) - {name}
    {
      tables := tables - {name};
    }

    /** `ALTER TABLE source RENAME TO target`. */
    method RenameTable(source: string, target: string)
      requires source in tables && target !in tables
      modifies this
      ensures tables == (old(tables) - {source})[target := old(tables)[source]]
    {
      tables := (tables - {source})[target := tables[source]];
    }

    /** `INSERT INTO name ... SELECT ...`: the selected rows are appended. */
    method AppendRows(name: string, rows: seq<Row>)
      requires name in tables
      modifies this
      ensures tables == old(tables)[name := old(tables)[name].(rows := old(tables)[name].rows + rows)]
    {
      tables := tables[name := tables[name].(rows := tables[name].rows + rows)];
    }

    /** `SELECT COUNT(*) FROM name`. */
    method CountRows(name: string) returns (n: nat)
      requires name in tables
      ensures n == |tables[name].rows|
    {
      n := |tables[name].rows|;
    }

    /** An INSERT with a fixed column list; reports the new rowid. */
    method Insert(name: string, fields: map<string, Value>) returns (r: Result<Value>)
      modifies this
      ensures name !in old(tables) ==> r == Err(NoSuchTable(name)) && tables == old(tables)
      ensures name in old(tables) && !(forall c :: c in fields ==> c in old(tables)[name].columns) ==>
        r.Err? && tables == old(tables)
      ensures name in old(tables) && (forall c :: c in fields ==> c in old(tables)[name].columns) ==>
        && r == Ok(InsertedId(old(tables)[name], fields))
        && tables == old(tables)[name := InsertInto(old(tables)[name], fields)]
    {
      if name !in tables {
        return Err(NoSuchTable(name));
      }
      var t := tables[name];
      if c :| c in fields && c !in t.columns {
        return Err(NoSuchColumn(name, c));
      }
      r := Ok(InsertedId(t, fields));
      tables := tables[name := InsertInto(t, fields)];
    }

    /** `cursor.execute(query, values)` for an INSERT whose text was built at run time:
        the engine binds one value per `?` in the text and one per listed column. */
    method ExecuteInsert(query: string, name: string, columns: seq<string>, values: seq<Value>) returns (r: Result<Value>)
      modifies this
      ensures Placeholders(query) != |values| ==> r == Err(BindingMismatch(Placeholders(query), |values|)) && tables == old(tables)
      ensures Placeholders(query) == |values| && |columns| != |values| ==> r.Err? && tables == old(tables)
      ensures Placeholders(query) == |values| == |columns| ==>
        && (name !in old(tables) ==> r.Err? && tables == old(tables))
        && (name in old(tables) && !(forall c :: c in columns ==> c in old(tables)[name].columns) ==>
              r.Err? && tables == old(tables))
        && (name in old(tables) && (forall c :: c in columns ==> c in old(tables)[name].columns) ==>
              && r == Ok(InsertedId(old(tables)[name], Bind(columns, values)))
              && tables == old(tables)[name := InsertInto(old(tables)[name], Bind(columns, values))])
    {
      if Placeholders(query) != |values| {
        return Err(BindingMismatch(Placeholders(query), |values|));
      }
      if |columns| != |values| {
        return Err(ConstraintFailed(name));
      }
      r := Insert(name, Bind(columns, values));
    }

    /** `UPDATE name SET ... WHERE keyColumn = key`. */
    method Update(name: string, keyColumn: string, key: Value, assign: map<string, Value>, coalesce: map<string, Value>)
      returns (r: Result<bool>)
      modifies this
      ensures name !in old(tables) ==> r.Err? && tables == old(tables)
      ensures name in old(tables) && !UpdateResolves(old(tables)[name], keyColumn, assign, coalesce) ==>
        && r.Err? && tables == old(tables)
        && r.failure.NoSuchColumn? && r.failure.table == name
        && r.failure.column !in old(tables)[name].columns
        && r.failure.column in {keyColumn} + assign.Keys + coalesce.Keys
      ensures name in old(tables) && UpdateResolves(old(tables)[name], keyColumn, assign, coalesce) ==>
        && r == Ok(true)
        && tables == old(tables)[name := old(tables)[name].(rows := UpdateRows(old(tables)[name].rows, keyColumn, key, assign, coalesce))]
    {
      if name !in tables {
        return Err(NoSuchTable(name));
      }
      var t := tables[name];
      if keyColumn !in t.columns {
        return Err(NoSuchColumn(name, keyColumn));
      }
      if c :| c in assign && c !in t.columns {
        return Err(NoSuchColumn(name, c));
      }
      if c :| c in coalesce && c !in t.columns {
        return Err(NoSuchColumn(name, c));
      }
      tables := tables[name := t.(rows := UpdateRows(t.rows, keyColumn, key, assign, coalesce))];
      r := Ok(true);
    }

    /** `SELECT id FROM name WHERE column = key` and `fetchone()`. */
    method SelectId(name: string, column: string, key: Value) returns (r: Result<Option<Value>>)
      ensures name !in tables ==> r.Err?
      ensures name in tables && !("id" in tables[name].columns && column in tables[name].columns) ==> r.Err?
      ensures name in tables && "id" in tables[name].columns && column in tables[name].columns ==>
        r == Ok(FirstId(tables[name].rows, column, key))
    {
      if name !in tables {
        return Err(NoSuchTable(name));
      }
      if "id" !in tables[name].columns {
        return Err(NoSuchColumn(name, "id"));
      }
      if column !in tables[name].columns {
        return Err(NoSuchColumn(name, column));
      }
      r := Ok(FirstId(tables[name].rows, column, key));
    }

    /** `SELECT column FROM name` and `fetchall()`, taken in rowid order; without ORDER BY
        the engine does not promise an order. */
    method SelectColumn(name: string, column: string) returns (r: Result<seq<Value>>)
      ensures name !in tables ==> r.Err?
      ensures name in tables && column !in tables[name].columns ==> r.Err?
      ensures name in tables && column in tables[name].columns ==>
        r.Ok? && |r.value| == |tables[name].rows|
        && forall k :: 0 <= k < |r.value| ==> r.value[k] == Cell(tables[name].rows[k], column)
    {
      if name !in tables {
        return Err(NoSuchTable(name));
      }
      if column !in tables[name].columns {
        return Err(NoSuchColumn(name, column));
      }
      var rows := tables[name].rows;
      r := Ok(seq(|rows|, k requires 0 <= k < |rows| => Cell(rows[k], column)));
    }

    /** `ROLLBACK`. Engine assumption: it restores the state the transaction began in. */
    method Restore(snapshot: Tables)
      modifies this
      ensures tables == snapshot
    {
      tables := snapshot;
    }
  }

  /** An UPDATE resolves when every column it names exists in the table. */
  predicate UpdateResolves(t: Table, keyColumn: string, assign: map<string, Value>, coalesce: map<string, Value>) {
    && keyColumn in t.columns
    && (forall c :: c in assign ==> c in t.columns)
    && (forall c :: c in coalesce ==> c in t.columns)
  }
}
