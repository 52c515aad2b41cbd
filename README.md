# Expense portal maintenance scripts, modelled in Dafny

The expense portal keeps its data in one SQLite database. Three one-shot maintenance scripts
keep that database and the application's SQL up to date:

- `migrate_melhorias_corrigido_v3.py` runs `migrate_database`. Inside one transaction it:
  - rebuilds `users` by copy and swap when any of five columns is missing;
  - creates `grupos`, `grupo_membros`, `cartoes` and `despesas_fixas` when they are absent;
  - creates `categorias` and `despesas`, or adds their missing columns;
  - seeds the three default users, the ten default categories and the "Família" group with
    every user as a member;
  - creates eight indexes, which raises when an indexed column is missing.

  When any step raises, it rolls back and drops the temporary tables.
- `correcao_pos_migracao.py` runs `verificar_e_corrigir_estrutura`:
  - It adds every expected column that a present table lacks. A refused `ALTER TABLE` is
    caught, and the run goes on.
  - It then fills the required fields that are still NULL.
- `correcao_sql_v2.py` rewrites ambiguous column references in the application's source text:
  - A first pass replaces seven known fragments everywhere.
  - A second pass prefixes the join columns of lines that look like part of a JOIN.
  - `corrigir_arquivo_main` chains the two passes.

The database is modelled abstractly in `store.dfy`. A database maps table names to tables. A
table has an ordered column list, its column DEFAULTs and its rows in rowid order. A row maps
column names to values (`Null`, `Int`, `Text`). Each engine statement the scripts issue is
given its meaning once, as a function on tables. Class `Store.Database` is the cursor: the
scripts' statements are its methods, and they change its `tables` field.

The engine assumptions are stated where they are used:

- `ALTER TABLE ... ADD COLUMN` appends the column, and every existing row holds the column's
  DEFAULT, or NULL when it has none (`Store.AddColumn`).
- An INSERT that does not give `id` gets one above the largest present (`Store.NextId`).
- `ROLLBACK` restores the state the transaction began in (`Store.Database.Restore`).
- Whether the engine refuses an `ALTER TABLE` is an environment fact. The constant
  `Database.rejects` records it as a set of (table, column) pairs.

Some inputs are parameters of the model:

- `now` stands for `datetime('now')`.
- `iso` stands for `datetime.now().isoformat()`.
- `hash` stands for `hash_password`. It is any function from text to text, and nothing is
  assumed about it.

Each script follows the same pattern:

- Its steps are specified by pure functions. Each one returns the resulting tables, or
  `None`/`Err` when a statement raises.
- Methods with the script's own loops are proved equal to those functions.
- Lemmas state what the functions promise:
  - idempotence;
  - "nothing else changes";
  - the exact counts of the seeded rows;
  - the shape of the rewritten text.

| file | module | models |
|---|---|---|
| store.dfy | Store | the database, the engine's statements, the cursor |
| migrate_schema.dfy | MigrateSchema | `cleanup_temp_tables`, `migrate_users_table`, `safe_add_column`, `migrate_categorias_table`, the `despesas` block, the CREATE-if-absent blocks |
| migrate_seed.dfy | MigrateSeed | the default users, `insert_categoria_safe` and the default categories, the "Família" group |
| migrate_run.dfy | MigrateRun | `migrate_database`: the steps in order, the indexes, rollback and cleanup |
| post_migration.dfy | PostMigration | `correcao_pos_migracao.py` |
| sql_text.dfy | SqlText | Python's `in`, `count`, `replace`, `split`, `join` and an ASCII `upper` on text |
| sql_fix.dfy | SqlFix | `corrigir_consultas_especificas`, `adicionar_prefixos_tabela`, lines 143-156 of `corrigir_arquivo_main` |

## Model

| member | source | states |
|---|---|---|
| Store.Database.TableExists | correcao_pos_migracao.py:13-16 | true exactly when the table is in the database (the same helper in migrate_melhorias_corrigido_v3.py:19-22) |
| Store.Database.GetTableColumns | migrate_melhorias_corrigido_v3.py:30-33 | the table's column names in declaration order, and no names for a missing table |
| Store.Database.ColumnExists | migrate_melhorias_corrigido_v3.py:24-28 | true exactly when the table exists and the column is in its column list |
| Store.Database.AlterTableAddColumn | migrate_melhorias_corrigido_v3.py:150-153 | the ALTER goes through exactly when the table exists, the column does not and the engine accepts it; the column is then appended with its DEFAULT in every row |
| Store.Database.CountNulls | correcao_pos_migracao.py:141 | the number of rows with NULL in the column, and an error when the table or the column is missing |
| Store.Database.UpdateNulls | correcao_pos_migracao.py:143 | every NULL cell of the column gets the value; nothing else changes |
| Store.Database.CreateTable | migrate_melhorias_corrigido_v3.py:52-64 | a new empty table with the declared columns and DEFAULTs |
| Store.Database.DropTable | migrate_melhorias_corrigido_v3.py:137 | the table is gone and every other table is kept |
| Store.Database.RenameTable | migrate_melhorias_corrigido_v3.py:138 | the table moves to the new name and every other table is kept |
| Store.Database.AppendRows | migrate_melhorias_corrigido_v3.py:104-127 | the selected rows are appended to the target table in order |
| Store.Database.CountRows | migrate_melhorias_corrigido_v3.py:130-131 | the number of rows of the table |
| Store.Database.Insert | migrate_melhorias_corrigido_v3.py:410-413 | an error and no change for a missing table or an unknown column; otherwise one row appended with the given values and DEFAULTs, and the new rowid reported |
| Store.Database.ExecuteInsert | migrate_melhorias_corrigido_v3.py:237-238 | an error and no change unless the text has one `?` per value and there is one value per column; otherwise the INSERT of the bound values |
| Store.Database.Update | migrate_melhorias_corrigido_v3.py:416-424 | an error naming one of the missing columns, and no change, when a named column is missing; otherwise each row whose key matches gets the assigned values and the COALESCEd ones, and every other row is unchanged |
| Store.Database.SelectId | migrate_melhorias_corrigido_v3.py:199 | the `id` of the first row holding the key, none when no row holds it, and an error when a named column is missing |
| Store.Database.SelectColumn | migrate_melhorias_corrigido_v3.py:459 | the column's value of every row, one per row, in the model's row order (an engine assumption, see "## Left out") |
| Store.Database.Restore | migrate_melhorias_corrigido_v3.py:512 | after ROLLBACK the tables are those of the snapshot |
| Store.Database.CreateIndex | migrate_melhorias_corrigido_v3.py:481-483 | `CREATE INDEX IF NOT EXISTS` raises exactly when the table or the indexed column is missing, naming which |
| Store.AddColumn | migrate_melhorias_corrigido_v3.py:150-153 | definition of ADD COLUMN on one table: the column appended, each row given the DEFAULT; its properties are `Store.AddColumnKeepsData` |
| Store.AddIfMissing | migrate_melhorias_corrigido_v3.py:147-161 | definition of `safe_add_column` on the tables; its properties are `Store.AddIfMissingFacts` and `Store.AddIfMissingIdempotent` |
| Store.FillRows | correcao_pos_migracao.py:143 | `UPDATE ... SET c = v WHERE c IS NULL` on the rows: the row count is kept and each row is filled on its own |
| Store.InsertInto | migrate_melhorias_corrigido_v3.py:410-413 | definition of one INSERT on a table; `Store.Database.Insert` states its effect |
| Store.UpdateRows | migrate_melhorias_corrigido_v3.py:416-424 | `UPDATE ... WHERE key = ?` on the rows: the row count is kept, a matching row gets the assignments and the COALESCEd values, any other row is kept |
| Store.FirstId | migrate_melhorias_corrigido_v3.py:199 | definition of `SELECT id ... WHERE column = ?` with `fetchone`; its property is `Store.FirstIdFindsOccurrence` |
| Store.AddIfMissingFacts | migrate_melhorias_corrigido_v3.py:147-161 | `safe_add_column` reports false and changes nothing on a present column; otherwise, unless it raises, it reports true, the column is appended to that table alone, no row is added or lost, no other cell changes, and the new column holds `now` for a `created_at` without DEFAULT and its DEFAULT (or NULL) otherwise; it raises exactly when the column is missing and the ALTER is refused |
| Store.AddIfMissingIdempotent | migrate_melhorias_corrigido_v3.py:149-161 | a second `safe_add_column` right after a successful one reports false and changes nothing |
| Store.AddColumnKeepsData | migrate_melhorias_corrigido_v3.py:150-153 | ADD COLUMN on a well-formed table keeps it well-formed, appends the column last, keeps the row count and every cell, and gives each row the DEFAULT |
| Store.FillRowsClears | correcao_pos_migracao.py:143 | after `UPDATE ... WHERE c IS NULL` with a non-NULL value no row holds NULL in `c` |
| Store.FillRowsKeepsOtherCounts | correcao_pos_migracao.py:141-172 | the UPDATE leaves the NULL count of every other column unchanged |
| Store.FillRowsNoop | correcao_pos_migracao.py:142-143 | when no row holds NULL the UPDATE changes nothing |
| Store.FillRowsChangesNullRows | correcao_pos_migracao.py:141-144 | the UPDATE changes exactly as many rows as the COUNT(*) counted, only in the target column, and leaves every non-NULL row unchanged |
| Store.FirstIdFindsOccurrence | migrate_melhorias_corrigido_v3.py:199-201 | `SELECT id ... WHERE column = ?` finds a row exactly when some row holds the value |
| Store.BindAt | migrate_melhorias_corrigido_v3.py:237-238 | with distinct columns, binding the parallel lists gives each column the value in its own position |
| PostMigration.SafeAddColumn | correcao_pos_migracao.py:29-49 | the method equals one structure step: it reports true exactly when it added the column |
| PostMigration.AddStep | correcao_pos_migracao.py:29-49 | definition of one `adicionar_coluna_segura` call as a value; its properties are `PostMigration.AddStepFacts` and `PostMigration.AddStepIsolatesFailure` |
| PostMigration.AddStepFills | correcao_pos_migracao.py:29-49 | one call changes no existing cell: every value of an old column of an old row is kept |
| PostMigration.AddStepFacts | correcao_pos_migracao.py:29-49 | one call keeps every value; afterwards the column is there unless the engine refused it; the database changes exactly when the column is reported added, which happens exactly when the ALTER is accepted |
| PostMigration.AddStepIsolatesFailure | correcao_pos_migracao.py:32-46 | this version is the plain check-then-add with the engine's exception caught: where the plain one raises, this one reports a failure and leaves the database unchanged; the other outcomes coincide |
| PostMigration.ColumnsPassSettles | correcao_pos_migracao.py:132-133 | the column loop keeps every value and leaves each expected column present or refused |
| PostMigration.ColumnsPassFills | correcao_pos_migracao.py:132-133 | the column loop changes no existing cell |
| PostMigration.TablesPassSettles | correcao_pos_migracao.py:122-135 | after the structure loop every expected column of every present table is there or refused, and no value is lost |
| PostMigration.TablesPassSkipsMissing | correcao_pos_migracao.py:123-135 | an expected table the database lacks is reported missing and stays absent |
| PostMigration.ColumnsPassStable | correcao_pos_migracao.py:132-133 | on a settled table the column loop changes nothing and reports no column added |
| PostMigration.TablesPassStable | correcao_pos_migracao.py:122-135 | when every expected table is settled the structure loop changes nothing |
| PostMigration.TablesPass | correcao_pos_migracao.py:122-135 | definition of the structure loop as a value; its properties are `PostMigration.TablesPassSettles`, `PostMigration.TablesPassSkipsMissing`, `PostMigration.TablesPassStable` and `PostMigration.TablesPassFills` |
| PostMigration.TablesPassFills | correcao_pos_migracao.py:122-135 | the structure loop changes no existing cell, in any table |
| PostMigration.ReconcileTable | correcao_pos_migracao.py:132-133 | the inner loop leaves the tables and the messages of the column pass |
| PostMigration.ReconcileStructure | correcao_pos_migracao.py:122-135 | the outer loop leaves the tables and the messages of the structure pass |
| PostMigration.FillStepFacts | correcao_pos_migracao.py:141-144 | a count-and-fill only fills NULL cells, leaves the column without NULL, and changes nothing when it has none |
| PostMigration.FillStepReportsChanges | correcao_pos_migracao.py:141-144 | the count a fill reports is the number of rows it changes |
| PostMigration.FillStepFills | correcao_pos_migracao.py:141-144 | a count-and-fill changes no cell but NULL cells of its own column, and each of those now holds the fill value |
| PostMigration.CheckedFillFills | correcao_pos_migracao.py:141-144 | the checked fill, when it does not raise, changes only NULL cells of its own (table, column) pair, to the listed value |
| PostMigration.CheckedFillFacts | correcao_pos_migracao.py:141-144 | the fill raises exactly when the table or the column is missing |
| PostMigration.FillRequired | correcao_pos_migracao.py:141-144 | the COUNT and the UPDATE together leave the tables and the messages of the checked fill, and change nothing when they raise |
| PostMigration.CategoriasFillFacts | correcao_pos_migracao.py:147-156 | the two `categorias` fixes raise exactly when `ativo` or `cor` is missing; otherwise they leave both without NULL and only fill NULL cells |
| PostMigration.OptionalCategoriasFacts | correcao_pos_migracao.py:147-156 | the same behind the `table_exists` guard: nothing is done when `categorias` is absent |
| PostMigration.OptionalCategoriasFills | correcao_pos_migracao.py:147-156 | the `categorias` fixes change only NULL cells of `ativo` (to 1) and `cor` (to '#667eea') |
| PostMigration.OptionalFixasFacts | correcao_pos_migracao.py:159-163 | the `despesas_fixas` fix behind its guard raises only when `ativo` is missing and leaves it without NULL |
| PostMigration.OptionalFixasFills | correcao_pos_migracao.py:159-163 | the `despesas_fixas` fix changes only NULL cells of `ativo`, to 1 |
| PostMigration.StampPassFacts | correcao_pos_migracao.py:166-173 | the `created_at` loop loses no value, changes no cell but NULL `created_at` cells of the listed tables, each to `now`, leaves every listed table that has `created_at` without NULL there, and changes nothing when they already are |
| PostMigration.StampPassCleans | correcao_pos_migracao.py:166-173 | the `created_at` loop loses no value, leaves every listed table that has `created_at` without NULL there, and changes nothing when they already are |
| PostMigration.StampPassFills | correcao_pos_migracao.py:166-173 | the `created_at` loop changes no cell but NULL `created_at` cells of the listed tables, and each of those now holds `now` |
| PostMigration.StampCreatedAt | correcao_pos_migracao.py:166-173 | the loop leaves the tables and the messages of the `created_at` pass |
| PostMigration.BackfillPassReady | correcao_pos_migracao.py:140-173 | the consistency pass raises exactly when a column it reads is missing |
| PostMigration.BackfillPass | correcao_pos_migracao.py:140-173 | definition of the consistency pass as a value; its properties are `PostMigration.BackfillPassReady`, `PostMigration.BackfillPassCleans`, `PostMigration.BackfillPassFills` and `PostMigration.BackfillPassStable` |
| PostMigration.BackfillPassCleans | correcao_pos_migracao.py:140-173 | when it does not raise, the consistency pass only fills NULL cells, changes no cell outside its list of (table, column, value) fills, and leaves every field it fills without NULL |
| PostMigration.BackfillPassFills | correcao_pos_migracao.py:140-173 | when it does not raise, the consistency pass changes only NULL cells, and only those of `users.ativo`, `categorias.ativo`, `categorias.cor`, `despesas_fixas.ativo` and the listed `created_at` columns, each to its fixed value |
| PostMigration.BackfillPassStable | correcao_pos_migracao.py:140-173 | on a database it has already cleaned the consistency pass changes nothing and reports nothing |
| PostMigration.Run | correcao_pos_migracao.py:122-175 | definition of the structure loop followed by the consistency pass; its properties are `PostMigration.RunKeepsData` and `PostMigration.RunIdempotent` |
| PostMigration.RunKeepsData | correcao_pos_migracao.py:122-175 | a successful run loses no value, changes no existing cell but the NULL cells of the filled fields (each to its fixed value), settles every expected column and fills every required field |
| PostMigration.RunIdempotent | correcao_pos_migracao.py:122-175 | a second run succeeds, adds no column, fills no row and changes nothing |
| PostMigration.VerifyAndFixStructure | correcao_pos_migracao.py:61-191 | the script returns true with the run's tables and messages, or false with the database rolled back to where it started |
| MigrateSchema.WithoutTemp | migrate_melhorias_corrigido_v3.py:35-42 | none of `users_new`, `despesas_new`, `categorias_new` is left, and every other table is as it was |
| MigrateSchema.CleanupTempTables | migrate_melhorias_corrigido_v3.py:35-42 | the loop over the temporary names leaves the database without them and with every other table as it was |
| MigrateSchema.CopyUsers | migrate_melhorias_corrigido_v3.py:104-127 | the `INSERT ... SELECT` raises and changes nothing when a selected column is missing or a row breaks a constraint of `users_new`; otherwise it appends one transformed row per `users` row, in order |
| MigrateSchema.CopiedUser | migrate_melhorias_corrigido_v3.py:104-127 | definition of one row of the `INSERT ... SELECT`; its properties are `MigrateSchema.CopiedUserFits` and `MigrateSchema.CopiedUserFacts` |
| MigrateSchema.CopyFailure | migrate_melhorias_corrigido_v3.py:104-127 | definition of when the copy raises: a selected column missing, a NULL `username` or `password_hash`, or a repeated `username` |
| MigrateSchema.ReplaceWithCopy | migrate_melhorias_corrigido_v3.py:129-138 | the old table is dropped only when the row counts agree, and the copy then takes its name; otherwise the method raises and nothing is dropped |
| MigrateSchema.MigrateUsersTable | migrate_melhorias_corrigido_v3.py:44-145 | the method leaves the tables and outcome of `migrate_users_table` as a value |
| MigrateSchema.CopiedUserFits | migrate_melhorias_corrigido_v3.py:104-127 | a copied row has exactly the nine columns of the new `users` |
| MigrateSchema.CopiedUserFacts | migrate_melhorias_corrigido_v3.py:104-127 | a copied row keeps `id`, `username` and `password_hash`; `perfil` is the old value, or 'usuario' when NULL; `nome_completo` is never NULL for a user with a name; `email` is set exactly for master, daniela and paulo; `ativo` is 1 |
| MigrateSchema.RebuiltUsersFacts | migrate_melhorias_corrigido_v3.py:89-127 | the rebuilt table is well-formed, has the same rows in the same order, each the copy of the old row, with distinct non-NULL usernames and non-NULL display names |
| MigrateSchema.UsersMigration | migrate_melhorias_corrigido_v3.py:44-145 | definition of `migrate_users_table` as a value; its properties are `MigrateSchema.UsersMigrationFacts` and `MigrateSchema.UsersMigrationIdempotent` |
| MigrateSchema.UsersMigrationFacts | migrate_melhorias_corrigido_v3.py:44-145 | on success no temporary table is left, `users` has the five new columns, and every other table is as it was; on failure `users` is untouched; an absent `users` is created empty with nine columns, an up-to-date one is left as it was, and an outdated one is rebuilt by the copy exactly when the copy does not raise |
| MigrateSchema.UsersMigrationIdempotent | migrate_melhorias_corrigido_v3.py:68-77 | right after a successful migration, a second one finds `users` up to date and changes nothing |
| MigrateSchema.SafeAddColumn | migrate_melhorias_corrigido_v3.py:147-161 | the method is `safe_add_column` as a value, and it does not catch a refused ALTER |
| MigrateSchema.AddMissingColumns | migrate_melhorias_corrigido_v3.py:386-389 | the loop leaves the tables of the column list and reports the columns it added, in order |
| MigrateSchema.AddColumnsStopsAtFailure | migrate_melhorias_corrigido_v3.py:190-191 | once a call raises, the rest of the list does not run |
| MigrateSchema.AddColumns | migrate_melhorias_corrigido_v3.py:386-389 | definition of the loop of `safe_add_column` calls as a value; its properties are the `MigrateSchema.AddColumns...` lemmas |
| MigrateSchema.AddColumnsOther | migrate_melhorias_corrigido_v3.py:386-389 | the loop adds and removes no table and leaves every table but its own as it was |
| MigrateSchema.AddOneFacts | migrate_melhorias_corrigido_v3.py:147-161 | a call that does not raise leaves the column present, appended when it was added, and added only when it was missing |
| MigrateSchema.AddOneKeepsData | migrate_melhorias_corrigido_v3.py:147-161 | a call that does not raise keeps every value |
| MigrateSchema.AddColumnsFailure | migrate_melhorias_corrigido_v3.py:386-389 | the loop never changes a value, and it raises only when the table is missing or the engine refuses a listed column |
| MigrateSchema.AddColumnsExtends | migrate_melhorias_corrigido_v3.py:386-389 | on success every listed column is present; the columns are the old ones followed by the added ones; each added column was listed and missing |
| MigrateSchema.AddColumnsIdempotent | migrate_melhorias_corrigido_v3.py:386-389 | a second loop right after a successful one adds nothing and changes nothing |
| MigrateSchema.AddColumnsPresentNoop | migrate_melhorias_corrigido_v3.py:149 | with every listed column present the loop adds nothing and changes nothing |
| MigrateSchema.CreateOrExtend | migrate_melhorias_corrigido_v3.py:163-193 | definition of create-or-extend as a value: the table created when absent, its listed columns added otherwise |
| MigrateSchema.CreateOrExtendOther | migrate_melhorias_corrigido_v3.py:163-193 | a create-or-extend step adds and removes no other table and leaves every other table as it was |
| MigrateSchema.CreateOrExtendIdempotent | migrate_melhorias_corrigido_v3.py:163-193 | when the CREATE already declares every listed column, a successful step leaves the table with each one, and a second step adds nothing |
| MigrateSchema.AdditionsDeclared | migrate_melhorias_corrigido_v3.py:167-188 | the CREATE statements of `categorias` and `despesas` declare every column of their lists |
| MigrateSchema.MigrateTableColumns | migrate_melhorias_corrigido_v3.py:163-193 | the method creates the absent table or adds its missing columns, as the value `CreateOrExtend` says |
| MigrateSchema.CreateIfAbsent | migrate_melhorias_corrigido_v3.py:263-275 | the table is created, empty, exactly when it was absent; otherwise nothing changes |
| MigrateSchema.CreateIfMissing | migrate_melhorias_corrigido_v3.py:263-275 | definition of `CREATE TABLE IF NOT EXISTS` as a value; `MigrateSchema.CreateIfAbsent` states it |
| MigrateSeed.SeedOneUser | migrate_melhorias_corrigido_v3.py:406-424 | one user: UPDATE when the username is found, INSERT otherwise |
| MigrateSeed.SeedUserStep | migrate_melhorias_corrigido_v3.py:406-424 | definition of one user's upsert as a value; its properties are `MigrateSeed.SeedUserCounts`, `MigrateSeed.SeedUserUpdates` and `MigrateSeed.SeedUserInserts` |
| MigrateSeed.SeedUserList | migrate_melhorias_corrigido_v3.py:406-424 | the loop over the default users, one upsert per user, stopping at the first error |
| MigrateSeed.SeedUserCounts | migrate_melhorias_corrigido_v3.py:406-424 | after one user's step that username occurs once when it was absent, as often as before otherwise, and no other username's count changes |
| MigrateSeed.SeedUsersCounts | migrate_melhorias_corrigido_v3.py:406-424 | the same over a list of distinct usernames |
| MigrateSeed.DefaultUsernames | migrate_melhorias_corrigido_v3.py:400-404 | the default usernames are master, daniela and paulo, all different |
| MigrateSeed.DefaultUsersOnce | migrate_melhorias_corrigido_v3.py:400-424 | with usernames unique beforehand, each default user exists exactly once afterwards |
| MigrateSeed.SeedUserUpdates | migrate_melhorias_corrigido_v3.py:414-424 | for an existing user, `password_hash` and `perfil` are overwritten, `updated_at` is `now`, a non-NULL `nome_completo` or `email` is kept (COALESCE) and every other column is kept; every other row is unchanged |
| MigrateSeed.SeedUserInserts | migrate_melhorias_corrigido_v3.py:409-413 | for a new user, one row is appended with the given username, hash, profile, name, email and `ativo` 1, and the old rows are kept |
| MigrateSeed.CategoryColumnNames | migrate_melhorias_corrigido_v3.py:207-234 | the candidate column names are distinct and contain no `?` |
| MigrateSeed.ListsFor | migrate_melhorias_corrigido_v3.py:207-234 | the three lists after the first `n` tests have equal lengths; their content is stated by `MigrateSeed.ListsForFacts` |
| MigrateSeed.ListsForFacts | migrate_melhorias_corrigido_v3.py:207-234 | after each `if`, the columns are `nome` followed by the tested columns that exist, in test order; the three lists have equal lengths; each value matches its column; each placeholder is `?` |
| MigrateSeed.ListsForDistinct | migrate_melhorias_corrigido_v3.py:207-234 | the listed columns are distinct and each is `nome` or a tested column |
| MigrateSeed.CategoryListsFacts | migrate_melhorias_corrigido_v3.py:203-234 | the final lists satisfy all of the above over the five optional columns |
| MigrateSeed.QueryBinds | migrate_melhorias_corrigido_v3.py:237-238 | the INSERT text built from the lists has exactly one `?` per value |
| MigrateSeed.CategoryInsertLists | migrate_melhorias_corrigido_v3.py:207-234 | the five `if`s append to the three lists exactly what the specification lists say |
| MigrateSeed.InsertCategoriaSafe | migrate_melhorias_corrigido_v3.py:195-238 | the function succeeds exactly when `InsertCategory` does, leaves its tables, and changes nothing when it raises |
| MigrateSeed.InsertCategory | migrate_melhorias_corrigido_v3.py:195-238 | definition of `insert_categoria_safe` as a value; its properties are `MigrateSeed.InsertCategoryShape`, `MigrateSeed.InsertCategoryRow` and `MigrateSeed.InsertCategoryCounts` |
| MigrateSeed.InsertCategoryShape | migrate_melhorias_corrigido_v3.py:199-238 | nothing changes when the name exists; otherwise exactly one row is appended to `categorias` and nothing else changes |
| MigrateSeed.InsertCategoryRow | migrate_melhorias_corrigido_v3.py:207-238 | the new row holds the name, and each optional column that exists holds its value (description, colour, icon, 1, the timestamp) |
| MigrateSeed.InsertCategoryCounts | migrate_melhorias_corrigido_v3.py:199-238 | after the call the name occurs once when it was absent, as often as before otherwise, and no other name's count changes |
| MigrateSeed.SeedCategoryList | migrate_melhorias_corrigido_v3.py:440-441 | the loop over the default categories, one `insert_categoria_safe` per category, stopping at the first error |
| MigrateSeed.DefaultCategoryNames | migrate_melhorias_corrigido_v3.py:427-438 | the ten default category names, all different |
| MigrateSeed.InsertCategoriesCounts | migrate_melhorias_corrigido_v3.py:440-441 | after the loop each listed name occurs once where it was absent, as often as before otherwise, and no other name's count changes |
| MigrateSeed.AddGroupMembers | migrate_melhorias_corrigido_v3.py:459-464 | the loop inserts one membership per user id, in order |
| MigrateSeed.AddOneMember | migrate_melhorias_corrigido_v3.py:461-464 | one INSERT into `grupo_membros`: it succeeds exactly when the table exists and accepts the row, and then the new row is appended |
| MigrateSeed.SeedFamilyGroup | migrate_melhorias_corrigido_v3.py:443-464 | the method leaves the tables of the family-group step as a value |
| MigrateSeed.SeedFamily | migrate_melhorias_corrigido_v3.py:443-464 | definition of the family-group step as a value; its properties are `MigrateSeed.SeedFamilySkips`, `MigrateSeed.SeedFamilyGroupRow` and `MigrateSeed.SeedFamilyMembers` |
| MigrateSeed.AddMembersShape | migrate_melhorias_corrigido_v3.py:460-464 | the membership loop appends exactly one row per user to `grupo_membros` and changes nothing else |
| MigrateSeed.AddMembersRows | migrate_melhorias_corrigido_v3.py:460-464 | the k-th new row is the membership of the k-th user in the group, with role 'membro' and added by master |
| MigrateSeed.MemberRow | migrate_melhorias_corrigido_v3.py:461-464 | one INSERT into `grupo_membros` is that membership |
| MigrateSeed.SeedFamilySkips | migrate_melhorias_corrigido_v3.py:444-448 | nothing happens when "Família" exists or master does not |
| MigrateSeed.SeedFamilyGroupRow | migrate_melhorias_corrigido_v3.py:447-456 | otherwise one group row named "Família" and created by master is appended, and `users` is unchanged |
| MigrateSeed.SeedFamilyMembers | migrate_melhorias_corrigido_v3.py:455-464 | every user gets exactly one new membership of the new group, added by master; the memberships are appended in the order `SELECT id FROM users` returns, taken to be rowid order |
| MigrateRun.Migrate | migrate_melhorias_corrigido_v3.py:256-483 | definition of steps 1 to 8 as a value; its properties are the `MigrateRun` lemmas below |
| MigrateRun.Schema | migrate_melhorias_corrigido_v3.py:256-394 | definition of steps 1 to 6 as a value; `MigrateRun.SchemaReady` states what they establish |
| MigrateRun.Seed | migrate_melhorias_corrigido_v3.py:396-464 | definition of step 7 as a value; `MigrateRun.SeedShape` and `MigrateRun.SeedCounts` state what it does |
| MigrateRun.RunSteps | migrate_melhorias_corrigido_v3.py:256-483 | the eight steps in order, stopping at the first that raises, leave the tables of `Migrate` |
| MigrateRun.SchemaSteps | migrate_melhorias_corrigido_v3.py:256-394 | steps 1 to 6 in order, stopping at the first that raises, leave the tables of `Schema` |
| MigrateRun.CreateIndexes | migrate_melhorias_corrigido_v3.py:470-483 | the index loop succeeds exactly when every indexed table has its indexed column |
| MigrateRun.SeedSteps | migrate_melhorias_corrigido_v3.py:396-464 | users, then categories, then the family group, stopping at the first error |
| MigrateRun.MigrateDatabase | migrate_melhorias_corrigido_v3.py:250-522 | true with the migrated tables, exactly when every step including the indexes succeeds; or false with the tables from before the run, minus any temporary table |
| MigrateRun.CreateOrExtendExtends | migrate_melhorias_corrigido_v3.py:163-193 | a successful create-or-extend step loses no table and no column, and adds at most its own table |
| MigrateRun.GroupsBase | migrate_melhorias_corrigido_v3.py:260-314 | steps 2 and 3 leave `grupos`, `grupo_membros` and `cartoes` present and keep what was established |
| MigrateRun.ExtensionsReady | migrate_melhorias_corrigido_v3.py:316-394 | steps 4 to 6 leave `categorias`, `despesas_fixas` and `despesas` present, with every listed column of `categorias` and `despesas` |
| MigrateRun.CategoriasReady | migrate_melhorias_corrigido_v3.py:316-319 | after step 4 `categorias` exists with every column of its list, and every table established before is still there |
| MigrateRun.DespesasReady | migrate_melhorias_corrigido_v3.py:348-394 | after step 6 `despesas` exists with every column of its list, and no table or column is lost |
| MigrateRun.SchemaReady | migrate_melhorias_corrigido_v3.py:256-394 | after steps 1 to 6 the seven tables exist, no temporary table remains, and `users`, `categorias` and `despesas` have all their new columns |
| MigrateRun.SeedUsersShape | migrate_melhorias_corrigido_v3.py:406-424 | seeding users changes no schema and no table but `users` |
| MigrateRun.InsertCategoriesShape | migrate_melhorias_corrigido_v3.py:440-441 | seeding categories changes no schema and no table but `categorias` |
| MigrateRun.SeedFamilyShape | migrate_melhorias_corrigido_v3.py:443-464 | the family step changes no schema and no table but `grupos` and `grupo_membros` |
| MigrateRun.SeedShape | migrate_melhorias_corrigido_v3.py:396-464 | step 7 changes no schema |
| MigrateRun.MigrateReady | migrate_melhorias_corrigido_v3.py:256-464 | after a successful run the seven tables exist, no temporary table remains, and every column the script adds is present |
| MigrateRun.SeedCounts | migrate_melhorias_corrigido_v3.py:396-441 | after step 7 every default username and every default category name is present |
| MigrateRun.SeedUsersPresent | migrate_melhorias_corrigido_v3.py:406-424 | with distinct usernames, every listed username occurs in `users` after the loop |
| MigrateRun.CategoriesPresent | migrate_melhorias_corrigido_v3.py:440-441 | with distinct names, every listed category name occurs in `categorias` after the loop |
| MigrateRun.MigrateSeeded | migrate_melhorias_corrigido_v3.py:396-464 | after a successful run every default user and every default category is present |
| MigrateRun.MigrateIndexes | migrate_melhorias_corrigido_v3.py:396-483 | seeding changes no schema, so the run succeeds exactly when steps 1 to 7 do and the columns the indexes name exist after step 6 |
| MigrateRun.ExtensionsDespesas | migrate_melhorias_corrigido_v3.py:348-394 | steps 4 to 6 give an existing `despesas` no column outside its old ones and its list |
| MigrateRun.SchemaDespesas | migrate_melhorias_corrigido_v3.py:256-394 | after steps 1 to 6 an existing `despesas` has no column outside its old ones and its list |
| MigrateRun.MissingColumnNotIndexable | migrate_melhorias_corrigido_v3.py:471-472 | a `despesas` lacking `data` or `user_id` fails the index on that column |
| MigrateRun.MissingIndexedColumnAborts | migrate_melhorias_corrigido_v3.py:348-483 | an existing `despesas` without `data` or `user_id` makes the run fail: step 6 does not add them and step 8 raises |
| MigrateRun.GroupsFresh | migrate_melhorias_corrigido_v3.py:256-314 | on a database without the group tables, steps 1 to 3 create `grupo_membros` and `cartoes` with their declared columns |
| MigrateRun.ExtensionsFresh | migrate_melhorias_corrigido_v3.py:316-394 | when `despesas` and `despesas_fixas` are absent and the group tables were just created, steps 4 to 6 leave every indexed column in place |
| MigrateRun.FreshTablesIndexable | migrate_melhorias_corrigido_v3.py:256-483 | on a database without `despesas`, `despesas_fixas`, `grupo_membros` and `cartoes`, step 8 never raises: the run succeeds exactly when steps 1 to 7 do |
| SqlText.CountPositiveIffContains | correcao_sql_v2.py:73-75 | `count` finds an occurrence exactly when `in` does |
| SqlText.Contains | correcao_sql_v2.py:73 | definition of Python's `in` on text; related to `count` by `SqlText.CountPositiveIffContains` |
| SqlText.Count | correcao_sql_v2.py:75 | definition of `str.count`: non-overlapping occurrences from the left |
| SqlText.Replace | correcao_sql_v2.py:76 | definition of `str.replace` of every non-overlapping occurrence from the left; its properties are the `SqlText.Replace...` lemmas |
| SqlText.Join | correcao_sql_v2.py:114 | definition of `str.join`; `SqlText.JoinSplit` and `SqlText.SplitJoin` relate it to `split` |
| SqlText.ReplaceAbsent | correcao_sql_v2.py:73-76 | replacing a fragment that does not occur changes nothing |
| SqlText.ReplaceLength | correcao_sql_v2.py:75-76 | replacing with a longer text adds at least one character per counted occurrence |
| SqlText.ReplaceChangesIffContains | correcao_sql_v2.py:107-110 | replacing with a longer text changes the line exactly when the fragment occurs, and then lengthens it |
| SqlText.ReplaceKeepsOut | correcao_sql_v2.py:108 | a replacement introduces no character that neither the text nor the replacement holds (no new line break) |
| SqlText.Split | correcao_sql_v2.py:88 | `split` gives at least one part, and no part holds the separator |
| SqlText.JoinSplit | correcao_sql_v2.py:88-114 | joining the parts of a split gives the text back |
| SqlText.SplitJoin | correcao_sql_v2.py:88-114 | splitting the join of separator-free parts gives the parts back |
| SqlText.Upper | correcao_sql_v2.py:95-96 | `upper` keeps the length |
| SqlFix.ConstantsLengthen | correcao_sql_v2.py:26-104 | every fragment of both passes is non-empty, and its replacement is longer and holds no line break |
| SqlFix.FixSpecificQueries | correcao_sql_v2.py:22-82 | the loop over the seven fixes returns the text and the report of the specific pass |
| SqlFix.ApplyFixes | correcao_sql_v2.py:67-82 | definition of the loop over the seven fixes as a value; its properties are `SqlFix.ApplyFixesFacts` and `SqlFix.ApplyFixesNoneIff` |
| SqlFix.ApplyFixesFacts | correcao_sql_v2.py:65-82 | with nothing reported the text is unchanged; otherwise it is longer; there is at most one entry per fix, each with a positive count |
| SqlFix.ApplyFixesNoneIff | correcao_sql_v2.py:73-82 | nothing is reported exactly when no fragment occurs in the input |
| SqlFix.AddTablePrefixes | correcao_sql_v2.py:84-119 | the nested loops return the text and report of the prefix pass |
| SqlFix.Selected | correcao_sql_v2.py:95-96 | definition of the test that picks a line: it has FROM and JOIN in upper case, or follows a JOIN line and names a join column |
| SqlFix.RewriteLine | correcao_sql_v2.py:98-110 | definition of the substitutions on one line; its properties are `SqlFix.RewriteLineFacts` |
| SqlFix.Fired | correcao_sql_v2.py:106-108 | the substitutions that fire on a line, in order: those whose fragment occurs in the line as the earlier ones left it; there are at most as many as substitutions, each one of them |
| SqlFix.AddPrefixes | correcao_sql_v2.py:84-119 | definition of the prefix pass as a value; its properties are `SqlFix.AddPrefixesNone` and `SqlFix.AddPrefixesLines` |
| SqlFix.RewriteLineFacts | correcao_sql_v2.py:98-110 | a line is reported exactly when it changes; a changed line is longer; every substitution that fires gives exactly one entry, in order, carrying the 1-based line number and that substitution; no line break is introduced |
| SqlFix.RewriteOneLine | correcao_sql_v2.py:98-110 | the inner loop over the substitutions computes the rewritten line and the corrections of `RewriteLine` |
| SqlFix.LineAtFired | correcao_sql_v2.py:106-110 | one turn of the line loop reports exactly one entry per substitution that fires on the line, in order, tagged with its 1-based number, and none for an unselected line |
| SqlFix.LineAtFacts | correcao_sql_v2.py:98-110 | one turn of the line loop reports something exactly when the line changes, never shortens it, touches only selected lines, and tags each entry with the 1-based line number |
| SqlFix.RewriteLinesShape | correcao_sql_v2.py:91-112 | the pass keeps the number of lines, leaves every unselected line as it was and no line shorter |
| SqlFix.RewriteLinesQuiet | correcao_sql_v2.py:91-112 | nothing is reported exactly when every line is unchanged |
| SqlFix.RewriteLinesReport | correcao_sql_v2.py:106-110 | each entry names a selected line by its 1-based number and is one of the entries the rewrite of that line reported |
| SqlFix.RewriteLinesGrow | correcao_sql_v2.py:106-112 | with something reported, some line got longer |
| SqlFix.AddPrefixesNone | correcao_sql_v2.py:88-119 | the pass returns `(None, [])` exactly when nothing is reported, and then joining the split lines gives the input back |
| SqlFix.AddPrefixesLines | correcao_sql_v2.py:88-119 | a returned text has as many lines as the input, keeps every unselected line, and is longer than the input |
| SqlFix.FixMainContent | correcao_sql_v2.py:143-156 | definition of the two passes chained as in `corrigir_arquivo_main`; its properties are `SqlFix.FixMainFacts` |
| SqlFix.FixMainFacts | correcao_sql_v2.py:143-159 | the specific pass runs first and the prefix pass on its output; the report is the first pass's entries followed by the second's; the text changes exactly when something is reported |

## Left out

- File and OS I/O is not modelled: the database file check, `os.makedirs`, connect and close, the backup copy, and reading and writing `src/main.py`. `corrigir_arquivo_main` is modelled from the text it reads to the text it would write (lines 143-156).
- Printed messages are modelled as values: `PostMigration.Event` and `SqlFix.Correction` hold the data each message is built from, not its wording. The tracebacks are left out.
- Indexes are not part of the modelled state. Step 8 (migrate_melhorias_corrigido_v3.py:470-483) is modelled only by whether each `CREATE INDEX IF NOT EXISTS` raises, which is when its table or column is missing. An index that already exists makes the statement a no-op in SQLite. That agrees with the model: the index was created over a column that still exists, because no step drops columns.
- `PRAGMA foreign_keys` and foreign keys are not modelled. No statement the scripts issue is refused by a foreign-key check in this model.
- `BEGIN`, `COMMIT` and `ROLLBACK` are modelled only as "rollback restores the snapshot taken before the first step". The model does not capture a `ROLLBACK` that itself raises, nor the swallowed errors of the cleanup at lines 515-520.
- PostMigration.VerifyAndFixStructure: correcao_pos_migracao.py never issues `BEGIN`, and Python's `sqlite3` opens a transaction only before the first INSERT, UPDATE or DELETE. So an `ALTER TABLE` that runs before the first UPDATE is committed at once, and the script's `conn.rollback()` (line 190) does not undo it. The model restores the snapshot, which removes those columns too.
- `hash_password` (SHA-256) is a function parameter. Nothing about its output is assumed.
- `datetime('now')` and `datetime.now().isoformat()` are the parameters `now` and `iso`. One value stands for all calls in a run, whereas the script reads the clock at each call.
- SQLite type affinity, `REAL` values and `NOT NULL`/`UNIQUE` checks on INSERT are not modelled. Column types are tags. The copy of `users` raises on a NULL or duplicate `username` and on a NULL `password_hash`, the constraints of the new table.
- MigrateSchema.CopyFailure: the `id INTEGER PRIMARY KEY` of `users_new` is not checked. In SQLite a repeated `id` makes the copy raise, a NULL `id` gets a fresh rowid, and a non-integer `id` raises. The model copies `id` unchanged in all three cases.
- MigrateSeed.SeedFamilyMembers: `SELECT id FROM users` (migrate_melhorias_corrigido_v3.py:459) has no ORDER BY, so SQL promises no order. The model assumes rowid order, as does `Store.Database.SelectColumn`. SQLite may instead scan the index behind `username UNIQUE` and return the ids in username order. The `grupo_membros` rows would then be appended in that order. The set of memberships is the same either way.
- `AUTOINCREMENT` is approximated by "one above the largest `id` present". SQLite's `sqlite_sequence` can give a larger id after deletions.
- SqlFix.Selected: `str.upper()` is ASCII-only in the model. It maps `a`-`z` to `A`-`Z` and leaves every other character as it is. Python's `upper` also maps non-ASCII letters, and some of them change the test for "FROM" and "JOIN". The dotless `ı` (U+0131) becomes `I`, so `'joın'.upper()` is `'JOIN'`. The ligature `ﬀ` (U+FB00) becomes `FF`, so `'ﬀrom'.upper()` is `'FFROM'`. On a line holding such characters the script may select a line the model does not. Letters such as `ç` make no difference to the test.
- `.strip()` on the fragments (correcao_sql_v2.py:69-70) is the identity on the constant fragments, so it is not modelled.
- The redundant check for `users_new` inside `migrate_users_table` (migrate_melhorias_corrigido_v3.py:81-83) is covered by the cleanup that starts that function.
- `verificar_portal_funcionando`, `mostrar_exemplo_correcao`, `mostrar_instrucoes_manuais` and `fazer_backup_arquivo` are left out: they only print or copy files.
- MigrateSeed.SeedOneUser: when a statement raises, the resulting tables are not stated (the specification returns `None`). The same holds for MigrateSeed.SeedUserList, MigrateSeed.SeedCategoryList, MigrateSeed.AddOneMember, MigrateSeed.AddGroupMembers, MigrateSeed.SeedFamilyGroup, MigrateRun.SeedSteps, MigrateRun.SchemaSteps and MigrateRun.RunSteps. `MigrateRun.MigrateDatabase` rolls back in that case, so its contract is complete.
- Store.Database.Insert: for a column the table lacks, the contract says only that an error is raised and nothing changes. It does not say which column the error names.
- SqlText.ReplaceLength: states a lower bound on the length of the result, not the exact length.
- SqlText.Upper: states only that the length is kept. Its letters are given by `UpperChar` position by position.
- Statements that raise because the database is malformed, such as a missing `users` table in the users loop or a `categorias` table without `nome`, are modelled only as failure: the specification returns `None` and `MigrateDatabase` rolls back. Which error is raised is not stated.
