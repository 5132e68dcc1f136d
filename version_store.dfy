/** The version-table protocol as functions of the database state: what bootstrap,
    getVersion, setVersion and increaseVersion leave behind and what they return. The
    methods of PgMigration.PostgresMigration are proved to behave as these say. */
module VersionStore {
  import opened Outcomes
  import opened Database

  /** The state an operation leaves and the value (or error) it gives its caller. */
  datatype Step<+T> = Step(db: Db, result: Result<T>)

  /** createVersionTable: create the table and insert 0 when the table is absent;
      insert 0 when it is present and empty; otherwise change nothing. */
  function Bootstrap(d: Db, vt: string): (r: Db)
    requires WellFormed(d, vt)
    ensures WellFormed(r, vt)
    ensures vt in r.tables && |r.versionRows| >= 1
    ensures d.versionRows == [] ==> r.versionRows == [0]
    ensures d.versionRows != [] ==> r == d
    ensures forall t :: t in r.tables <==> t in d.tables || t == vt
    ensures vt in d.tables ==> r.tables == d.tables && r.columns == d.columns
    ensures vt !in d.tables ==> r.tables == d.tables + [vt]
    ensures forall t :: t != vt ==> (t in r.columns <==> t in d.columns)
    ensures forall t :: t != vt && t in d.columns ==> r.columns[t] == d.columns[t]
  {
    if vt !in d.tables then InsertZero(CreateTableIfAbsent(d, vt), vt)
    else if |d.versionRows| == 0 then InsertZero(d, vt)
    else d
  }

  /** A second bootstrap finds the rows the first one left and does nothing. */
  lemma BootstrapIdempotent(d: Db, vt: string)
    requires WellFormed(d, vt)
    ensures Bootstrap(Bootstrap(d, vt), vt) == Bootstrap(d, vt)
  {
  }

  /** Bootstrap run n times in a row. */
  function BootstrapTimes(d: Db, vt: string, n: nat): (r: Db)
    requires WellFormed(d, vt)
    ensures WellFormed(r, vt)
  {
    if n == 0 then d else Bootstrap(BootstrapTimes(d, vt, n - 1), vt)
  }

  /** However often it is repeated, bootstrap leaves what one call leaves: no drift. */
  lemma {:induction false} BootstrapRepeated(d: Db, vt: string, n: nat)
    requires WellFormed(d, vt) && n >= 1
    ensures BootstrapTimes(d, vt, n) == Bootstrap(d, vt)
  {
    if n > 1 {
      BootstrapRepeated(d, vt, n - 1);
      BootstrapIdempotent(d, vt);
    }
  }

  /** SELECT * FROM vt, expecting exactly one row. */
  function ReadVersion(d: Db): (r: Result<int>)
    ensures r.Ok? <==> |d.versionRows| == 1
    ensures r.Ok? ==> r.value == d.versionRows[0]
    ensures r.Err? ==> r.error == InvariantViolation(RowCountMessage)
  {
    if |d.versionRows| == 1 then Ok(d.versionRows[0])
    else Err(InvariantViolation(RowCountMessage))
  }

  /** getVersion: bootstrap, then read the single row. It fails exactly when the table
      holds two or more rows beforehand (bootstrap fills an empty one); otherwise it
      returns the stored version, or 0 when there was none. */
  function GetVersion(d: Db, vt: string): (s: Step<int>)
    requires WellFormed(d, vt)
    ensures s.db == Bootstrap(d, vt)
    ensures s.result.Err? <==> |d.versionRows| >= 2
    ensures s.result.Err? ==> s.result.error == InvariantViolation(RowCountMessage)
    ensures s.result.Ok? ==> s.result.value == (if d.versionRows == [] then 0 else d.versionRows[0])
  {
    var b := Bootstrap(d, vt);
    Step(b, ReadVersion(b))
  }

  /** setVersion(v): bootstrap, then overwrite every row with v. A literal outside int4
      fails after the bootstrap has taken effect. */
  function SetVersion(d: Db, vt: string, v: int): (s: Step<()>)
    requires WellFormed(d, vt)
    ensures WellFormed(s.db, vt)
    ensures s.result.Ok? <==> InInt32(v)
    ensures s.result.Err? ==> s.db == Bootstrap(d, vt)
    ensures s.result.Ok? ==> (s.db.tables == Bootstrap(d, vt).tables
                              && |s.db.versionRows| == |Bootstrap(d, vt).versionRows|
                              && s.db.columns == Bootstrap(d, vt).columns
                              && forall i :: 0 <= i < |s.db.versionRows| ==> s.db.versionRows[i] == v)
  {
    var b := Bootstrap(d, vt);
    match UpdateAll(b, vt, v)
    case Ok(u) => Step(u, Ok(()))
    case Err(e) => Step(b, Err(e))
  }

  /** increaseVersion: bootstrap, then add one to every row in a single statement and
      return the first updated row. At the top of int4 nothing is updated and it fails. */
  function IncreaseVersion(d: Db, vt: string): (s: Step<int>)
    requires WellFormed(d, vt)
    ensures WellFormed(s.db, vt)
    ensures s.result.Ok? <==> CanIncrement(Bootstrap(d, vt).versionRows)
    ensures s.result.Err? ==> s.db == Bootstrap(d, vt)
    ensures s.result.Ok? ==> (s.db.tables == Bootstrap(d, vt).tables
                              && s.db.columns == Bootstrap(d, vt).columns
                              && s.db.versionRows == Incremented(Bootstrap(d, vt).versionRows)
                              && s.result.value == Bootstrap(d, vt).versionRows[0] + 1)
  {
    var b := Bootstrap(d, vt);
    match IncrementAll(b, vt)
    case Ok(u) => Step(u, Ok(u.versionRows[0]))
    case Err(e) => Step(b, Err(e))
  }

  /** setVersion(v) then getVersion() gives v back, unless the table held several
      rows: then setVersion rewrites all of them and getVersion still fails. */
  lemma SetThenGet(d: Db, vt: string, v: int)
    requires WellFormed(d, vt) && InInt32(v)
    ensures GetVersion(SetVersion(d, vt, v).db, vt).result == Ok(v) <==> |d.versionRows| <= 1
  {
    var s := SetVersion(d, vt, v).db;
    assert s.versionRows != [];
    if |d.versionRows| <= 1 {
      assert |s.versionRows| == 1;
      assert s.versionRows[0] == v;
    }
  }

  /** increaseVersion() returns the stored version plus one, and a following
      getVersion() reads the same value. */
  lemma IncreaseThenGet(d: Db, vt: string)
    requires WellFormed(d, vt) && |d.versionRows| <= 1
    requires GetVersion(d, vt).result.value < IntMax
    ensures IncreaseVersion(d, vt).result == Ok(GetVersion(d, vt).result.value + 1)
    ensures GetVersion(IncreaseVersion(d, vt).db, vt).result == Ok(GetVersion(d, vt).result.value + 1)
  {
    var b := Bootstrap(d, vt);
    assert |b.versionRows| == 1;
    assert CanIncrement(b.versionRows);
  }

  /** On a database without the version table, the first getVersion() reads 0, the
      first increaseVersion() returns 1, and setVersion(v) is read back as v. */
  lemma FreshDatabase(d: Db, vt: string, v: int)
    requires WellFormed(d, vt) && vt !in d.tables && InInt32(v)
    ensures GetVersion(d, vt).result == Ok(0)
    ensures IncreaseVersion(d, vt).result == Ok(1)
    ensures GetVersion(IncreaseVersion(d, vt).db, vt).result == Ok(1)
    ensures GetVersion(SetVersion(d, vt, v).db, vt).result == Ok(v)
  {
    IncreaseThenGet(d, vt);
    SetThenGet(d, vt, v);
  }
}
