/** The migration base class: the version-table protocol and the database reset, run
    against the database it holds. The database is the object's own mutable state
    (tables, version rows, catalog columns). Each statement the class sends becomes one
    Query* method: a query that changes the database applies the matching function of
    module Database, and a SELECT reads the fields. */
module PgMigration {
  import opened Seqs
  import opened Outcomes
  import opened DropQuery
  import opened Database
  import VersionStore

  const DefaultVersionTable: string := "version"

  /** One row of the catalog's table list, and of its column list. */
  datatype TableRow = TableRow(tableName: string)
  datatype ColumnRow = ColumnRow(columnName: string)

  class PostgresMigration {
    const versionTable: string
    var tables: seq<string>
    var versionRows: seq<int>
    var columns: map<string, seq<string>>

    function State(): Db
      reads this
    {
      Db(tables, versionRows, columns)
    }

    predicate Valid()
      reads this
    {
      WellFormed(State(), versionTable)
    }

    /** A migration over a database in state initial, keeping its version in table
        versionTable (DefaultVersionTable unless the caller names another). */
    constructor (initial: Db, versionTable: string := DefaultVersionTable)
      requires WellFormed(initial, versionTable)
      ensures Valid() && State() == initial && this.versionTable == versionTable
    {
      this.versionTable := versionTable;
      tables, versionRows, columns := initial.tables, initial.versionRows, initial.columns;
    }

    // ---------------- statements sent to the database ----------------

    /** SELECT table_name FROM information_schema.tables (public base tables). */
    method QueryTables() returns (rows: seq<TableRow>)
      ensures |rows| == |tables|
      ensures forall i :: 0 <= i < |rows| ==> rows[i].tableName == tables[i]
    {
      var ts := tables;
      rows := seq(|ts|, i requires 0 <= i < |ts| => TableRow(ts[i]));
    }

    /** SELECT * FROM information_schema.columns WHERE table_name = table. */
    method QueryColumns(table: string) returns (rows: seq<ColumnRow>)
      ensures table !in columns ==> rows == []
      ensures table in columns ==> |rows| == |columns[table]|
      ensures table in columns ==> forall i :: 0 <= i < |rows| ==> rows[i].columnName == columns[table][i]
    {
      if table in columns {
        var cs := columns[table];
        rows := seq(|cs|, i requires 0 <= i < |cs| => ColumnRow(cs[i]));
      } else {
        rows := [];
      }
    }

    /** CREATE TABLE IF NOT EXISTS versionTable ( version INTEGER ) */
    method QueryCreateVersionTable()
      requires Valid()
      modifies this
      ensures Valid() && State() == Database.CreateTableIfAbsent(old(State()), versionTable)
    {
      var d := Database.CreateTableIfAbsent(State(), versionTable);
      tables, versionRows, columns := d.tables, d.versionRows, d.columns;
    }

    /** INSERT INTO versionTable (version) VALUES (0) */
    method QueryInsertZero()
      requires Valid() && versionTable in tables
      modifies this
      ensures Valid() && State() == InsertZero(old(State()), versionTable)
    {
      versionRows := versionRows + [0];
    }

    /** SELECT * FROM versionTable */
    method QuerySelectVersion() returns (rows: seq<int>)
      requires versionTable in tables
      ensures rows == versionRows
    {
      rows := versionRows;
    }

    /** UPDATE versionTable SET version = v */
    method QueryUpdateVersion(v: int) returns (r: Result<()>)
      requires Valid() && versionTable in tables
      modifies this
      ensures Valid()
      ensures var u := UpdateAll(old(State()), versionTable, v);
              r == (if u.Ok? then Ok(()) else Err(u.error))
              && State() == (if u.Ok? then u.value else old(State()))
    {
      var u := UpdateAll(State(), versionTable, v);
      if u.Ok? {
        versionRows := u.value.versionRows;
        r := Ok(());
      } else {
        r := Err(u.error);
      }
    }

    /** UPDATE versionTable SET version = version + 1 RETURNING * */
    method QueryIncrementVersion() returns (r: Result<seq<int>>)
      requires Valid() && versionTable in tables
      modifies this
      ensures Valid()
      ensures var u := IncrementAll(old(State()), versionTable);
              r == (if u.Ok? then Ok(u.value.versionRows) else Err(u.error))
              && State() == (if u.Ok? then u.value else old(State()))
    {
      var u := IncrementAll(State(), versionTable);
      if u.Ok? {
        versionRows := u.value.versionRows;
        r := Ok(versionRows);
      } else {
        r := Err(u.error);
      }
    }

    /** Sends a batch of drop statements as one query. */
    method QueryDropBatch(q: string) returns (r: Result<()>)
      requires Valid()
      modifies this
      ensures Valid()
      ensures var u := RunDropBatch(old(State()), versionTable, q);
              r == (if u.Ok? then Ok(()) else Err(u.error))
              && State() == (if u.Ok? then u.value else old(State()))
    {
      var u := RunDropBatch(State(), versionTable, q);
      if u.Ok? {
        tables, versionRows, columns := u.value.tables, u.value.versionRows, u.value.columns;
        r := Ok(());
      } else {
        r := Err(u.error);
      }
    }

    // ---------------- schema inspection ----------------

    /** The names of the base tables, one per catalog row, in catalog order. */
    method GetTables() returns (names: seq<string>)
      ensures names == tables
    {
      var rows := QueryTables();
      names := [];
      for i := 0 to |rows|
        invariant names == tables[..i]
      {
        names := names + [rows[i].tableName];
        assert tables[..i + 1] == tables[..i] + [tables[i]];
      }
      assert tables[..|rows|] == tables;
    }

    /** The column names of one table, one per catalog row; a table that does not exist
        has none, which is not an error. */
    method GetColumns(table: string) returns (names: seq<string>)
      requires Valid()
      ensures table in columns ==> names == columns[table]
      ensures table !in columns ==> names == []
      ensures table !in tables ==> names == []
    {
      var rows := QueryColumns(table);
      names := [];
      for i := 0 to |rows|
        invariant table in columns ==> names == columns[table][..i]
        invariant table !in columns ==> names == []
      {
        names := names + [rows[i].columnName];
        assert columns[table][..i + 1] == columns[table][..i] + [columns[table][i]];
      }
      assert table in columns ==> columns[table][..|rows|] == columns[table];
    }

    // ---------------- version store ----------------

    /** Whether the configured name occurs, exactly, in the table list. */
    method VersionTableExists() returns (present: bool)
      ensures present <==> versionTable in tables
    {
      var names := GetTables();
      present := IndexOf(names, versionTable) > -1;
    }

    /** Bootstrap: create the version table holding 0, or insert 0 into an empty one. */
    method CreateVersionTable()
      requires Valid()
      modifies this
      ensures Valid() && State() == VersionStore.Bootstrap(old(State()), versionTable)
    {
      var present := VersionTableExists();
      if !present {
        QueryCreateVersionTable();
        QueryInsertZero();
      } else {
        var rows := QuerySelectVersion();
        if |rows| == 0 {
          QueryInsertZero();
        }
      }
    }

    method GetVersion() returns (r: Result<int>)
      requires Valid()
      modifies this
      ensures Valid()
      ensures var s := VersionStore.GetVersion(old(State()), versionTable);
              State() == s.db && r == s.result
    {
      CreateVersionTable();
      var rows := QuerySelectVersion();
      if |rows| == 1 {
        r := Ok(rows[0]);
      } else {
        r := Err(InvariantViolation(RowCountMessage));
      }
    }

    method SetVersion(version: int) returns (r: Result<()>)
      requires Valid()
      modifies this
      ensures Valid()
      ensures var s := VersionStore.SetVersion(old(State()), versionTable, version);
              State() == s.db && r == s.result
    {
      CreateVersionTable();
      r := QueryUpdateVersion(version);
    }

    method IncreaseVersion() returns (r: Result<int>)
      requires Valid()
      modifies this
      ensures Valid()
      ensures var s := VersionStore.IncreaseVersion(old(State()), versionTable);
              State() == s.db && r == s.result
    {
      CreateVersionTable();
      var updated := QueryIncrementVersion();
      if updated.Err? {
        return Err(updated.error);
      }
      r := Ok(updated.value[0]);
    }

    // ---------------- database reset ----------------

    /** Drops every table with one batch of cascading drops, then lists the tables
        again and, while the list it holds is not empty, calls itself and keeps the
        list that call returns: the tables that call found on entry, not what it left.
        Returns the tables found on entry. Termination rests on no other session
        creating tables meanwhile: every successful pass drops at least one table. */
    method ClearDatabase() returns (r: Result<seq<string>>)
      requires Valid()
      modifies this
      decreases |tables|
      ensures Valid()
      ensures forall t :: t in tables ==> t in old(tables)
      ensures r.Ok? ==> r.value == old(tables) && State() == Empty
      ensures AllIdentifiers(old(tables)) ==> r.Ok?
    {
      var entry := GetTables();
      var dropQuery := BuildDropQuery(entry);
      if AllIdentifiers(entry) {
        DropEveryTable(State(), versionTable);
      }
      var dropped := QueryDropBatch(dropQuery);
      if dropped.Err? {
        return Err(dropped.error);
      }
      var remaining := GetTables();
      while |remaining| > 0
        invariant Valid()
        invariant forall t :: t in tables ==> t in entry
        invariant remaining == tables || tables == []
        invariant remaining != [] ==> |tables| < |entry|
        invariant AllIdentifiers(entry) ==> remaining == []
        decreases |tables| + |remaining|
      {
        var again := ClearDatabase();
        if again.Err? {
          return Err(again.error);
        }
        remaining := again.value;
      }
      NoTablesIsEmpty(State(), versionTable);
      r := Ok(entry);
    }

    /** clearDatabase, then the caller's migration, given as its effect on the state.
        What is left is what the migration builds from an empty database, whatever
        the database held before. */
    method ResetDatabase(migrate: Db -> Db) returns (r: Result<()>)
      requires Valid()
      requires WellFormed(migrate(Empty), versionTable)
      modifies this
      ensures Valid()
      ensures r.Ok? ==> State() == migrate(Empty)
      ensures AllIdentifiers(old(tables)) ==> r.Ok?
    {
      var cleared := ClearDatabase();
      if cleared.Err? {
        return Err(cleared.error);
      }
      var d := migrate(State());
      tables, versionRows, columns := d.tables, d.versionRows, d.columns;
      r := Ok(());
    }
  }
}

/** What a caller can conclude from the contracts alone, on the situations the
    repository's tests set up (clearing two tables, a fresh database, setVersion(5),
    the first increase, a deleted version row) and, beyond them, on a version table
    holding two rows. */
module Scenarios {
  import opened Outcomes
  import opened Database
  import opened PgMigration

  /** Tables a and b (b referencing a) are dropped in one call, which returns both. */
  method ClearTwoTables()
  {
    var m := new PostgresMigration(Db(["a", "b"], [], map["a" := ["id"], "b" := ["id", "a_id"]]), DefaultVersionTable);
    var cleared := m.ClearDatabase();
    assert cleared == Ok(["a", "b"]);
    var left := m.GetTables();
    assert left == [];
  }

  /** On a database without a version table: getVersion reads 0 and setVersion(5) is
      read back as 5. */
  method VersionRoundTrips()
  {
    var m := new PostgresMigration(Empty);
    assert m.versionTable == DefaultVersionTable;
    var v := m.GetVersion();
    assert v == Ok(0);
    var present := m.VersionTableExists();
    assert present;
    var s := m.SetVersion(5);
    v := m.GetVersion();
    assert v == Ok(5);
  }

  /** On a fresh database increaseVersion returns 1 and getVersion then reads 1. */
  method IncreaseFromFresh()
  {
    var n := new PostgresMigration(Empty, DefaultVersionTable);
    var i := n.IncreaseVersion();
    assert i == Ok(1);
    var v := n.GetVersion();
    assert v == Ok(1);
  }

  /** After the version table lost its row out of band, getVersion restores 0. */
  method RecoverMissingRow()
  {
    var m := new PostgresMigration(Db(["version"], [], map["version" := ["version"]]), DefaultVersionTable);
    var v := m.GetVersion();
    assert v == Ok(0);
  }

  /** Two rows in the version table make getVersion fail. */
  method TamperedTable()
  {
    var m := new PostgresMigration(Db(["version"], [3, 4], map["version" := ["version"]]), DefaultVersionTable);
    var v := m.GetVersion();
    assert v == Err(InvariantViolation(RowCountMessage));
  }
}
