/** The database the migration talks to, as an abstract state, and the effect of
    every statement the core sends to it. */
module Database {
  import opened Seqs
  import opened Outcomes
  import opened DropQuery

  /** PostgreSQL INTEGER (int4), the type of the version column. */
  const IntMin: int := -0x8000_0000
  const IntMax: int := 0x7FFF_FFFF
  const OutOfRangeMessage: string := "integer out of range"
  const SyntaxErrorMessage: string := "syntax error"
  const MissingTableMessage: string := "table does not exist"

  /** Name of the single column of the version table. */
  const VersionColumn: string := "version"

  predicate InInt32(v: int)
  {
    IntMin <= v <= IntMax
  }

  /** The base tables of the public schema in catalog order, the rows of the version
      table, and the column names the catalog lists for each table. */
  datatype Db = Db(tables: seq<string>, versionRows: seq<int>, columns: map<string, seq<string>>)

  const Empty: Db := Db([], [], map[])

  /** States the model admits, for version table vt: catalog names are unique, a version
      table that is absent has no rows, only existing tables have columns, and every
      stored version fits the int4 column. */
  predicate WellFormed(d: Db, vt: string)
  {
    && IsIdentifier(vt)
    && NoDup(d.tables)
    && (vt !in d.tables ==> d.versionRows == [])
    && (forall t :: t in d.columns ==> t in d.tables)
    && (forall i :: 0 <= i < |d.versionRows| ==> InInt32(d.versionRows[i]))
  }

  /** A well-formed state with no tables holds nothing at all. */
  lemma NoTablesIsEmpty(d: Db, vt: string)
    requires WellFormed(d, vt) && d.tables == []
    ensures d == Empty
  {
    assert d.columns.Keys == {};
  }

  // ---- CREATE TABLE IF NOT EXISTS vt ( version INTEGER ) ----

  function CreateTableIfAbsent(d: Db, vt: string): (r: Db)
    requires WellFormed(d, vt)
    ensures WellFormed(r, vt)
    ensures vt in r.tables && r.versionRows == d.versionRows
    ensures vt in d.tables ==> r == d
    ensures vt !in d.tables ==> (r.tables == d.tables + [vt]
                                 && vt in r.columns && r.columns[vt] == [VersionColumn])
    ensures forall t :: t != vt ==> (t in r.columns <==> t in d.columns)
    ensures forall t :: t != vt && t in d.columns ==> r.columns[t] == d.columns[t]
  {
    if vt in d.tables then d
    else Db(d.tables + [vt], d.versionRows, d.columns[vt := [VersionColumn]])
  }

  // ---- INSERT INTO vt (version) VALUES (0) ----

  function InsertZero(d: Db, vt: string): (r: Db)
    requires WellFormed(d, vt) && vt in d.tables
    ensures WellFormed(r, vt)
    ensures r.tables == d.tables && r.columns == d.columns
    ensures r.versionRows == d.versionRows + [0]
  {
    d.(versionRows := d.versionRows + [0])
  }

  // ---- UPDATE vt SET version = v ----

  /** Every row of rows replaced by v. */
  function Overwrite(rows: seq<int>, v: int): (r: seq<int>)
    ensures |r| == |rows| && forall i :: 0 <= i < |r| ==> r[i] == v
  {
    seq(|rows|, i => v)
  }

  /** The unscoped UPDATE rewrites every row; a literal outside int4 is refused and
      nothing changes. */
  function UpdateAll(d: Db, vt: string, v: int): (r: Result<Db>)
    requires WellFormed(d, vt) && vt in d.tables
    ensures r.Ok? <==> InInt32(v)
    ensures r.Ok? ==> (WellFormed(r.value, vt) && r.value.tables == d.tables
                       && r.value.columns == d.columns && r.value.versionRows == Overwrite(d.versionRows, v))
  {
    if InInt32(v) then Ok(d.(versionRows := Overwrite(d.versionRows, v)))
    else Err(StorageError(OutOfRangeMessage))
  }

  // ---- UPDATE vt SET version = version + 1 RETURNING * ----

  predicate CanIncrement(rows: seq<int>)
  {
    forall i :: 0 <= i < |rows| ==> rows[i] < IntMax
  }

  /** Every row of rows plus one. */
  function Incremented(rows: seq<int>): (r: seq<int>)
    ensures |r| == |rows| && forall i :: 0 <= i < |r| ==> r[i] == rows[i] + 1
  {
    seq(|rows|, i requires 0 <= i < |rows| => rows[i] + 1)
  }

  /** The increment is one statement: it applies to every row, or, when some row
      would leave int4, to none. On success it returns the updated rows. */
  function IncrementAll(d: Db, vt: string): (r: Result<Db>)
    requires WellFormed(d, vt) && vt in d.tables
    ensures r.Ok? <==> CanIncrement(d.versionRows)
    ensures r.Ok? ==> (WellFormed(r.value, vt) && r.value.tables == d.tables
                       && r.value.columns == d.columns && r.value.versionRows == Incremented(d.versionRows))
  {
    if CanIncrement(d.versionRows) then Ok(d.(versionRows := Incremented(d.versionRows)))
    else Err(StorageError(OutOfRangeMessage))
  }

  // ---- DROP TABLE t1 CASCADE;DROP TABLE t2 CASCADE;... ----

  /** The state after dropping every table of ts; the cascade removes what depends on
      a dropped table (its columns, the version rows when it is the version table)
      but no other table. */
  function DropTables(d: Db, vt: string, ts: seq<string>): (r: Db)
    requires WellFormed(d, vt)
    ensures WellFormed(r, vt)
    ensures forall t :: t in r.tables <==> t in d.tables && t !in ts
    ensures |r.tables| <= |d.tables|
    ensures (exists i :: 0 <= i < |ts| && ts[i] in d.tables) ==> |r.tables| < |d.tables|
    ensures (forall i :: 0 <= i < |d.tables| ==> d.tables[i] in ts) ==> r.tables == []
    ensures r.tables == Without(d.tables, ts)
    ensures vt in ts ==> r.versionRows == []
    ensures vt !in ts ==> r.versionRows == d.versionRows
    ensures forall t :: t in r.columns <==> t in d.columns && t !in ts
    ensures forall t :: t in r.columns ==> r.columns[t] == d.columns[t]
  {
    var r := Db(Without(d.tables, ts),
                if vt in ts then [] else d.versionRows,
                map t | t in d.columns && t !in ts :: d.columns[t]);
    assert forall i :: 0 <= i < |ts| && ts[i] in d.tables ==> exists j :: 0 <= j < |d.tables| && d.tables[j] in ts;
    r
  }

  /** A multi-statement query runs as one implicit transaction: it either applies in
      full or fails and leaves the state unchanged. It fails when the text is not a
      sequence of cascading drops of plain identifiers, or when it names a table that
      does not exist (also a table named twice: the second drop finds it gone). */
  function RunDropBatch(d: Db, vt: string, q: string): (r: Result<Db>)
    requires WellFormed(d, vt)
    ensures r.Ok? ==> WellFormed(r.value, vt)
    ensures r.Ok? <==> (ParseDropBatch(q).Some? && NoDup(ParseDropBatch(q).value)
                        && forall i :: 0 <= i < |ParseDropBatch(q).value| ==> ParseDropBatch(q).value[i] in d.tables)
    ensures r.Ok? ==> (q == DropBatch(ParseDropBatch(q).value)
                       && r.value == DropTables(d, vt, ParseDropBatch(q).value))
  {
    ParseDropBatchSound(q);
    match ParseDropBatch(q)
    case None => Err(StorageError(SyntaxErrorMessage))
    case Some(ts) =>
      if NoDup(ts) && forall i :: 0 <= i < |ts| ==> ts[i] in d.tables then Ok(DropTables(d, vt, ts))
      else Err(StorageError(MissingTableMessage))
  }

  /** Dropping, in one pass, the batch built from the whole catalog empties the catalog
      when every name is a plain identifier. */
  lemma {:induction false} DropEveryTable(d: Db, vt: string)
    requires WellFormed(d, vt) && AllIdentifiers(d.tables)
    ensures RunDropBatch(d, vt, DropBatch(d.tables)) == Ok(Empty)
  {
    ParseDropBatchInverts(d.tables);
    var r := DropTables(d, vt, d.tables);
    NoTablesIsEmpty(r, vt);
  }
}
