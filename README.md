# knight-pg-migration: the version table and the database reset, in Dafny

This project models the core of the `PostgresMigration` base class of
knight-pg-migration. That class keeps the applied schema version of a PostgreSQL
database in a one-column table (`version` by default). It bootstraps that table on
demand, reads, writes and increments the version, lists the catalog, and drops every
base table of the public schema before running the caller's `migrate()`.

The repository has two copies of the class. `src/PgMigration.ts` is the one the tests
import. `src/PostgresMigration.ts` is the same protocol without `getColumns` and the
ALTER helpers. One Dafny class, `PgMigration.PostgresMigration`, models both. In the
table below, the class methods cite `src/PgMigration.ts`. The functions and lemmas that
state the protocol on values cite the identical lines of `src/PostgresMigration.ts`.

## How the model is built

- **The database** is abstract state (`Database.Db`). It holds the base tables of the
  public schema in catalog order, the rows of the version table, and the column names the
  catalog lists per table. `Database.WellFormed` is the invariant: the version table's
  name is a plain identifier, table names are unique, an
  absent version table has no rows, only existing tables have columns, and every stored
  version fits PostgreSQL's `INTEGER` (int4).
- **Each `pool.query`** is one `Query*` method of the class. Each statement that changes
  the database is also one function of module `Database`: `CreateTableIfAbsent`,
  `InsertZero`, `UpdateAll`, `IncrementAll` and `RunDropBatch`, and its `Query*` method
  applies that function to the object's fields. The three SELECTs read the fields. `UPDATE` without `WHERE` rewrites every row. A value outside int4 is refused
  with a storage error and changes nothing.
- **The drop batch** is real text: `DropQuery.DropBatch` concatenates
  `DROP TABLE t CASCADE;` per table. The database executes the batch by reading it back
  with `ParseDropBatch`, which inverts `DropBatch` on plain identifiers. A multi-statement
  query runs as one implicit transaction, so a failing batch changes nothing. A batch
  fails when a piece is not a cascading drop of a plain identifier, or when it names a
  missing table or names a table twice. A cascade is modelled as removing only the named
  table.
- **The protocol** is stated on values in module `VersionStore`: `Bootstrap`,
  `GetVersion`, `SetVersion` and `IncreaseVersion`. Each returns the new state and the
  caller's result. The class methods do what the source does, step by step, and their
  `ensures` equate their effect with these functions. The lemmas beside the functions
  prove the properties: idempotent bootstrap, the set/get round trip, increment by one,
  and the exact-one-row error condition.
- **`clearDatabase`** keeps the source's shape. It lists the tables, builds the batch in a
  loop, runs it, lists again, and then loops on `remaining := ClearDatabase()`. The
  recursive call returns the list that call found on entry, not what it left behind, so
  the loop stops only once some call finds no tables on entry. The loop invariant
  `remaining == tables || tables == []` captures this. Termination uses
  `decreases |tables|`: each successful pass drops at least one table. That holds only
  because no other session creates tables in the meantime.
- **`migrate()`** is abstract in the source, so it is a parameter `migrate: Db -> Db`.
  `ResetDatabase` is `ClearDatabase` followed by `migrate`. Its result is
  `migrate(Empty)`, whatever the database held before.
- Module `Scenarios` contains client code proved from the contracts alone. It covers
  the repository's test situations: clearing tables `a` and `b`, version 0 on a fresh
  database, `setVersion(5)` read back as 5, the first increase giving 1, and recovery of
  a deleted row. Beyond them, it shows `getVersion` failing on a version table with two
  rows.

Two behaviours of the code deserve a note, and the model keeps both:

- Bootstrap does not repair a version table with two or more rows
  (src/PgMigration.ts:36-52): it leaves such a table untouched, so `getVersion` then
  fails. `VersionStore.Bootstrap` and `VersionStore.GetVersion` say so.
- `increaseVersion` increments every row of the version table and returns the first
  updated row (src/PgMigration.ts:82-88). `VersionStore.IncreaseVersion` models exactly
  that.

## Model

| member | source | states |
|---|---|---|
| PgMigration.PostgresMigration.constructor | src/PgMigration.ts:7-11 | the migration holds the given database state and version-table name, `version` when none is given |
| PgMigration.PostgresMigration.QueryTables | src/PgMigration.ts:93 | the catalog query yields one row per base table, in catalog order, carrying its name |
| PgMigration.PostgresMigration.QueryColumns | src/PgMigration.ts:111 | the column query yields one row per column of the named table, and no rows for an unknown table |
| PgMigration.PostgresMigration.QueryCreateVersionTable | src/PgMigration.ts:23 | CREATE TABLE IF NOT EXISTS adds the version table (with its one column) only when absent |
| PgMigration.PostgresMigration.QueryInsertZero | src/PgMigration.ts:30 | the INSERT (also at line 46) appends one row holding 0 |
| PgMigration.PostgresMigration.QuerySelectVersion | src/PgMigration.ts:38 | SELECT * returns all rows of the version table |
| PgMigration.PostgresMigration.QueryUpdateVersion | src/PgMigration.ts:71 | the unscoped UPDATE sets every row to v, or fails and changes nothing when v is outside int4 |
| PgMigration.PostgresMigration.QueryIncrementVersion | src/PgMigration.ts:82 | the increment adds one to every row and returns the updated rows, or fails and changes nothing at the top of int4 |
| PgMigration.PostgresMigration.QueryDropBatch | src/PgMigration.ts:134 | the batch applies as a whole (drops exactly the tables it names) or fails and changes nothing |
| PgMigration.PostgresMigration.GetTables | src/PgMigration.ts:91-105 | returns the table names, one per catalog row, in order, same count |
| PgMigration.PostgresMigration.GetColumns | src/PgMigration.ts:107-123 | returns the table's column names in catalog order; an unknown table gives an empty list, not an error |
| PgMigration.PostgresMigration.VersionTableExists | src/PgMigration.ts:15-18 | true iff the configured name occurs exactly in the table list |
| PgMigration.PostgresMigration.CreateVersionTable | src/PgMigration.ts:20-53 | the new state is Bootstrap of the old one (absent: create and insert 0; empty: insert 0; otherwise unchanged) |
| PgMigration.PostgresMigration.GetVersion | src/PgMigration.ts:55-65 | bootstraps, then returns the sole row or fails with the row-count error, as VersionStore.GetVersion |
| PgMigration.PostgresMigration.SetVersion | src/PgMigration.ts:67-76 | bootstraps, then overwrites every row with the given version, as VersionStore.SetVersion |
| PgMigration.PostgresMigration.IncreaseVersion | src/PgMigration.ts:78-89 | bootstraps, increments every row, returns the first row's new value, as VersionStore.IncreaseVersion |
| PgMigration.PostgresMigration.ClearDatabase | src/PgMigration.ts:125-146 | on success returns the table list found on entry and leaves the database empty; succeeds whenever all names are plain identifiers; never adds a table |
| PgMigration.PostgresMigration.ResetDatabase | src/PgMigration.ts:148-151 | clears, then migrates: on success the state is what migrate builds from an empty database, independent of the prior state |
| DropQuery.BuildDropQuery | src/PgMigration.ts:128-131 | the accumulating loop produces exactly DropBatch of the listed tables |
| Seqs.IndexOf | src/PgMigration.ts:17 | indexOf gives the first position of the element, or -1 exactly when it is absent |
| DropQuery.DropBatch | src/PostgresMigration.ts:109-112 | the batch is empty exactly when there are no tables |
| DropQuery.DropBatchAppend | src/PostgresMigration.ts:109-112 | the batch of a concatenation is the concatenation of the batches (statement per table, in order) |
| DropQuery.ParseDropStatement | src/PostgresMigration.ts:111 | a statement read back is the drop statement of a plain identifier |
| DropQuery.ParseDropBatchSound | src/PostgresMigration.ts:114-115 | whatever the database reads out of a batch is a list of identifiers whose batch is exactly that text |
| DropQuery.ParseDropBatchInverts | src/PostgresMigration.ts:109-115 | reading back the batch built from plain identifiers gives the same list |
| DropQuery.ParseDropBatchExact | src/PostgresMigration.ts:109-115 | reading a batch succeeds with list ts iff the text is DropBatch(ts) and ts are plain identifiers |
| Database.NoTablesIsEmpty | src/PostgresMigration.ts:121-126 | a well-formed database with no tables has no version rows and no columns |
| Database.CreateTableIfAbsent | src/PostgresMigration.ts:23 | the version table exists afterwards; it is appended with its column only if absent; rows and the other tables' columns untouched |
| Database.InsertZero | src/PostgresMigration.ts:30 | appends one row holding 0, nothing else changes |
| Database.UpdateAll | src/PostgresMigration.ts:70 | succeeds iff the value fits int4, and then every row holds it |
| Database.IncrementAll | src/PostgresMigration.ts:81 | succeeds iff no row is at the int4 maximum, and then every row is one larger |
| Seqs.WithoutAppend | src/PostgresMigration.ts:110-111 | removing named tables keeps catalog order: the survivors of a prefix precede those of the rest |
| Database.DropTables | src/PostgresMigration.ts:111 | a table survives iff it is not named, and survivors keep their catalog order and their columns; the version rows go iff the version table is named; naming an existing table shrinks the catalog; naming all of them empties it |
| Database.RunDropBatch | src/PostgresMigration.ts:114-119 | the batch succeeds iff it parses into distinct existing tables, and then drops exactly those |
| Database.DropEveryTable | src/PostgresMigration.ts:106-115 | one pass of the batch built from the whole catalog of plain identifiers leaves the database empty |
| VersionStore.Bootstrap | src/PostgresMigration.ts:20-53 | afterwards the version table exists with at least one row; an empty or absent table gets exactly [0]; a table with rows is left as it was; other tables, their order and their columns are untouched, an absent version table being appended |
| VersionStore.BootstrapIdempotent | src/PostgresMigration.ts:36-52 | a second bootstrap changes nothing |
| VersionStore.BootstrapRepeated | src/PostgresMigration.ts:20-53 | n >= 1 bootstraps in a row leave what one leaves (no value drift) |
| VersionStore.ReadVersion | src/PostgresMigration.ts:58-64 | the read succeeds iff there is exactly one row, returns that row, and otherwise raises the row-count error |
| VersionStore.GetVersion | src/PostgresMigration.ts:55-65 | getVersion fails iff the table held two or more rows beforehand; otherwise returns the stored version, 0 when there was none |
| VersionStore.SetVersion | src/PostgresMigration.ts:67-75 | succeeds iff the version fits int4; every row then holds it and the bootstrapped tables and columns are kept; on failure the bootstrap still took effect |
| VersionStore.IncreaseVersion | src/PostgresMigration.ts:77-88 | succeeds iff no row is at the int4 maximum; then every row is incremented, the bootstrapped tables and columns are kept, and the first row's new value is returned |
| VersionStore.SetThenGet | src/PostgresMigration.ts:55-75 | setVersion(v) then getVersion() returns v iff the table held at most one row |
| VersionStore.IncreaseThenGet | src/PostgresMigration.ts:77-88 | increaseVersion returns the stored version plus one and a following getVersion reads the same value |
| VersionStore.FreshDatabase | src/PostgresMigration.ts:20-88 | without a version table: getVersion gives 0, increaseVersion gives 1 then getVersion 1, setVersion(v) then getVersion gives v |

## Left out

- The `pg` pool, the SQL driver and the text of every statement except the drop batch are not modelled. Each statement is its effect on the abstract state. The constructor's read of `pool.options.database` (src/PgMigration.ts:8) is not modelled because nothing in the core uses it.
- Failures of the connection (network, cancellation, timeouts) are not modelled. Only failures that the state determines are: a malformed or stale drop batch, int4 overflow, and the row-count check. The `try/catch` that rethrows as `new Error(e)` is the `Err` result.
- The single-statement helpers `addColumn`, `dropTable`, `renameTable`, `dropColumn`, `renameColumn` and `changeColumnType` (src/PgMigration.ts:153-200) are not modelled. They forward one statement and keep no invariant.
- Concurrent sessions are not modelled; there is one sequential caller. With another session creating tables, `clearDatabase` can loop forever, and its termination measure no longer holds.
- The catalog's order is unspecified in PostgreSQL. The model keeps a fixed order and appends a created version table at the end. Rows returned by `RETURNING` come back in stored order.
- Identifiers are modelled as plain lower-case names (`[a-z_][a-z0-9_]*`). Names that PostgreSQL accepts beyond these (non-ASCII letters, `$`, quoted names) make the modelled drop batch fail. Reserved words are not rejected. Quoting inside `getColumns`'s string literal is not modelled.
- PgMigration.PostgresMigration.constructor: requires the version-table name to be a plain identifier. The source interpolates it unquoted, and with any other name the statements fail or act on a case-folded table.
- PgMigration.PostgresMigration.ClearDatabase: guarantees success only when every table name is a plain identifier. On failure it promises only that no table was added. A failure after the first pass can leave the database partly cleared, as in the source.
- PgMigration.PostgresMigration.ClearDatabase: its success whenever every name is a plain identifier rests on a model in which `DROP TABLE t CASCADE` removes table `t` only (with its columns and, for the version table, its rows). In PostgreSQL the cascade also drops inheritance children and the partitions of a partitioned table, and `information_schema.tables` lists both as base tables. When such a child is listed after its parent, its own drop later in the same batch fails, the batch rolls back, and the source throws (src/PgMigration.ts:133-137). The model reports success there. Inheritance and partitioning are not modelled.
- PgMigration.PostgresMigration.ResetDatabase: `migrate` is a total function of the state. A migration that fails part way (leaving its partial state, with no rollback) is not represented.
- JavaScript numbers are modelled as mathematical integers. Passing a fractional or non-numeric value to `setVersion` is not modelled.
- Only the version table's own column is created by the core. Columns of other tables come from the initial state given to the constructor, or from the state `migrate` builds in `ResetDatabase`.
