/** The per-table loop of `migrateData`, with the two database connections
    abstracted away: each table arrives with its DESCRIBE columns and its
    `SELECT *` rows, and the run yields the statements it sends to
    PostgreSQL, in order. */
module Migration {
  import opened Wrappers
  import opened TypeMapper
  import opened Statements

  /** A table as `SHOW TABLES`, `DESCRIBE` and `SELECT *` report it. */
  datatype Table = Table(name: string, columns: seq<Column>, rows: seq<Row>)

  /** `skipTables`: tables that are not migrated. */
  const SkipTables: seq<string> := ["migrations"]

  /** What a run does: the statements it issued, in order, and the error
      (caught and logged by the catch-all) that ended it early, if any. */
  datatype Run = Run(issued: seq<Statement>, failure: Option<MapError>)

  /** `pre` issued before the run `r`. */
  function Prepend(pre: seq<Statement>, r: Run): Run {
    Run(pre + r.issued, r.failure)
  }

  /** One INSERT per row, in row order. */
  function Inserts(table: string, rows: seq<Row>): (r: seq<Statement>)
    ensures |r| == |rows|
    ensures forall j :: 0 <= j < |rows| ==> r[j] == BuildInsert(table, rows[j])
  {
    seq(|rows|, j requires 0 <= j < |rows| => BuildInsert(table, rows[j]))
  }

  /** The statements for one table that is not skipped: its CREATE TABLE,
      then one INSERT per row; or the mapper's error, and then nothing. */
  function TableStatements(t: Table): (r: Result<seq<Statement>, MapError>)
    ensures r.Ok? <==> MapColumns(t.columns).Ok?
    ensures r.Ok? ==> |r.value| == 1 + |t.rows|
    ensures r.Ok? ==> r.value[0] == CreateTable(t.name, MapColumns(t.columns).value)
    ensures r.Ok? ==> forall j :: 0 <= j < |t.rows| ==> r.value[1 + j] == BuildInsert(t.name, t.rows[j])
    ensures r.Err? ==> r.error == MapColumns(t.columns).error
  {
    match BuildCreateTable(t.name, t.columns)
    case Err(e) => Err(e)
    case Ok(create) => Ok([create] + Inserts(t.name, t.rows))
  }

  /** The reference run over a table list with a skip list. */
  function Plan(tables: seq<Table>, skip: seq<string>): Run
    decreases |tables|
  {
    if |tables| == 0 then Run([], None)
    else if tables[0].name in skip then Plan(tables[1..], skip)
    else
      match TableStatements(tables[0])
      case Err(e) => Run([], Some(e))
      case Ok(stmts) => Prepend(stmts, Plan(tables[1..], skip))
  }

  /** How the reference run proceeds past table `i`: a skipped table
      adds nothing, a table whose CREATE TABLE cannot be built ends the
      run, and any other table adds its statements. */
  lemma PlanSkip(tables: seq<Table>, skip: seq<string>, i: nat)
    requires i < |tables| && tables[i].name in skip
    ensures Plan(tables[i..], skip) == Plan(tables[i + 1..], skip)
  {
    assert tables[i..][1..] == tables[i + 1..];
  }

  lemma PlanFail(tables: seq<Table>, skip: seq<string>, i: nat, e: MapError)
    requires i < |tables| && tables[i].name !in skip
    requires BuildCreateTable(tables[i].name, tables[i].columns) == Err(e)
    ensures Plan(tables[i..], skip) == Run([], Some(e))
  {
    assert tables[i..][0] == tables[i];
  }

  lemma PlanTableStep(tables: seq<Table>, skip: seq<string>, i: nat, create: Statement)
    requires i < |tables| && tables[i].name !in skip
    requires BuildCreateTable(tables[i].name, tables[i].columns) == Ok(create)
    ensures Plan(tables[i..], skip)
            == Prepend([create] + Inserts(tables[i].name, tables[i].rows), Plan(tables[i + 1..], skip))
  {
    assert tables[i..][0] == tables[i];
    assert tables[i..][1..] == tables[i + 1..];
  }

  lemma PlanTable(tables: seq<Table>, skip: seq<string>, i: nat, done: seq<Statement>, create: Statement)
    requires i < |tables| && tables[i].name !in skip
    requires BuildCreateTable(tables[i].name, tables[i].columns) == Ok(create)
    requires Plan(tables, skip) == Prepend(done, Plan(tables[i..], skip))
    ensures Plan(tables, skip)
            == Prepend(done + [create] + Inserts(tables[i].name, tables[i].rows), Plan(tables[i + 1..], skip))
  {
    var stmts := [create] + Inserts(tables[i].name, tables[i].rows);
    PlanTableStep(tables, skip, i, create);
    PrependAssoc(done, stmts, Plan(tables[i + 1..], skip));
    assert done + [create] + Inserts(tables[i].name, tables[i].rows) == done + stmts;
  }

  lemma PrependAssoc(a: seq<Statement>, b: seq<Statement>, r: Run)
    ensures Prepend(a, Prepend(b, r)) == Prepend(a + b, r)
  {
  }

  /** The row loop of `migrateData`: one INSERT per row appended to the
      statements issued so far. */
  method AppendInserts(issued: seq<Statement>, table: string, rows: seq<Row>)
    returns (out: seq<Statement>)
    ensures out == issued + Inserts(table, rows)
  {
    out := issued;
    for j := 0 to |rows|
      invariant out == issued + Inserts(table, rows)[..j]
    {
      out := out + [BuildInsert(table, rows[j])];
      assert Inserts(table, rows)[..j + 1] == Inserts(table, rows)[..j] + [BuildInsert(table, rows[j])];
    }
    assert Inserts(table, rows)[..|rows|] == Inserts(table, rows);
  }

  /** `migrateData`, without the driver calls: walks the tables in
      `SHOW TABLES` order, skips the skip list, and appends each table's
      CREATE TABLE and INSERTs to the list of issued statements. An
      unsupported column type ends the run. */
  method MigrateData(tables: seq<Table>) returns (issued: seq<Statement>, failure: Option<MapError>)
    ensures Run(issued, failure) == Plan(tables, SkipTables)
  {
    issued := [];
    failure := None;
    for i := 0 to |tables|
      invariant failure == None
      invariant Plan(tables, SkipTables) == Prepend(issued, Plan(tables[i..], SkipTables))
    {
      var table := tables[i];
      if table.name in SkipTables {
        PlanSkip(tables, SkipTables, i);
        continue;
      }
      var create := BuildCreateTable(table.name, table.columns);
      if create.Err? {
        PlanFail(tables, SkipTables, i, create.error);
        failure := Some(create.error);
        assert issued + [] == issued;
        return;
      }
      PlanTable(tables, SkipTables, i, issued, create.value);
      issued := AppendInserts(issued + [create.value], table.name, table.rows);
    }
    assert tables[|tables|..] == [];
    assert issued + [] == issued;
  }

  // ---------------------------------------------------------------------
  // Properties of the run.
  // ---------------------------------------------------------------------

  /** Running over `a + b` is running over `a` and then, if that did not
      fail, over `b`: tables are handled one after another, in order. */
  lemma {:induction false} PlanAppend(a: seq<Table>, b: seq<Table>, skip: seq<string>)
    ensures Plan(a + b, skip)
            == if Plan(a, skip).failure.None? then Prepend(Plan(a, skip).issued, Plan(b, skip))
               else Plan(a, skip)
    decreases |a|
  {
    if |a| == 0 {
      assert a + b == b;
      assert Prepend([], Plan(b, skip)) == Plan(b, skip);
    } else {
      assert (a + b)[0] == a[0];
      assert (a + b)[1..] == a[1..] + b;
      PlanAppend(a[1..], b, skip);
      if a[0].name !in skip && TableStatements(a[0]).Ok? {
        PrependAssoc(TableStatements(a[0]).value, Plan(a[1..], skip).issued, Plan(b, skip));
      }
    }
  }

  /** Every table that is not skipped has only supported column types. */
  predicate AllSupported(tables: seq<Table>, skip: seq<string>) {
    forall i :: 0 <= i < |tables| && tables[i].name !in skip ==> MapColumns(tables[i].columns).Ok?
  }

  lemma AllSupportedCons(tables: seq<Table>, skip: seq<string>)
    requires |tables| > 0
    ensures AllSupported(tables, skip) <==>
      (tables[0].name !in skip ==> MapColumns(tables[0].columns).Ok?) && AllSupported(tables[1..], skip)
  {
    assert forall i :: 1 <= i < |tables| ==> tables[1..][i - 1] == tables[i];
  }

  /** One step of the run, in terms of the first table. */
  lemma PlanHead(tables: seq<Table>, skip: seq<string>)
    requires |tables| > 0
    ensures tables[0].name in skip ==> Plan(tables, skip) == Plan(tables[1..], skip)
    ensures tables[0].name !in skip && MapColumns(tables[0].columns).Err? ==>
      Plan(tables, skip) == Run([], Some(MapColumns(tables[0].columns).error))
    ensures tables[0].name !in skip && MapColumns(tables[0].columns).Ok? ==>
      Plan(tables, skip) == Prepend(TableStatements(tables[0]).value, Plan(tables[1..], skip))
  {
  }

  /** The run ends without error exactly when every table that is not
      skipped has only supported column types. */
  lemma {:induction false} PlanSucceeds(tables: seq<Table>, skip: seq<string>)
    ensures Plan(tables, skip).failure.None? <==> AllSupported(tables, skip)
    decreases |tables|
  {
    if |tables| > 0 {
      PlanSucceeds(tables[1..], skip);
      PlanHead(tables, skip);
      AllSupportedCons(tables, skip);
    }
  }

  /** Table `k` is the first one, among those not skipped, with an
      unsupported column type, and `e` is the mapper's error for it. */
  predicate FailsAt(tables: seq<Table>, skip: seq<string>, k: nat, e: MapError) {
    && k < |tables|
    && tables[k].name !in skip
    && MapColumns(tables[k].columns) == Err(e)
    && AllSupported(tables[..k], skip)
  }

  lemma PrefixCons(tables: seq<Table>, k: nat)
    requires k + 1 < |tables|
    ensures tables[..k + 1][0] == tables[0]
    ensures tables[..k + 1][1..] == tables[1..][..k]
    ensures tables[k + 1] == tables[1..][k]
  {
  }

  /** When the run fails, it fails at the first table that is not skipped
      and has an unsupported column type, with that table's error, and it
      has issued exactly what the tables before it produce. */
  lemma {:induction false} PlanFailure(tables: seq<Table>, skip: seq<string>)
    requires Plan(tables, skip).failure.Some?
    ensures exists k: nat ::
      && FailsAt(tables, skip, k, Plan(tables, skip).failure.value)
      && Plan(tables[..k], skip) == Run(Plan(tables, skip).issued, None)
    decreases |tables|
  {
    PlanHead(tables, skip);
    var t := tables[0];
    if t.name !in skip && MapColumns(t.columns).Err? {
      assert tables[..0] == [];
      assert FailsAt(tables, skip, 0, Plan(tables, skip).failure.value);
    } else {
      PlanFailure(tables[1..], skip);
      var e := Plan(tables[1..], skip).failure.value;
      var k': nat :| FailsAt(tables[1..], skip, k', e)
        && Plan(tables[1..][..k'], skip) == Run(Plan(tables[1..], skip).issued, None);
      var k := k' + 1;
      PrefixCons(tables, k');
      AllSupportedCons(tables[..k], skip);
      PlanHead(tables[..k], skip);
      assert FailsAt(tables, skip, k, e);
    }
  }

  /** No statement is issued for a skipped table, and every statement
      names one of the given tables. */
  lemma {:induction false} PlanSkipsTables(tables: seq<Table>, skip: seq<string>)
    ensures forall st :: st in Plan(tables, skip).issued ==>
      st.table !in skip && exists i :: 0 <= i < |tables| && tables[i].name == st.table
    decreases |tables|
  {
    if |tables| > 0 {
      PlanSkipsTables(tables[1..], skip);
      forall st | st in Plan(tables, skip).issued
        ensures st.table !in skip && exists i :: 0 <= i < |tables| && tables[i].name == st.table
      {
        if st in Plan(tables[1..], skip).issued {
          var i :| 0 <= i < |tables[1..]| && tables[1..][i].name == st.table;
          assert tables[i + 1].name == st.table;
        } else {
          assert tables[0].name == st.table;
        }
      }
    }
  }

  /** Every INSERT of the run binds one normalised value per column and no
      invalid date. */
  lemma {:induction false} PlanInsertsWellFormed(tables: seq<Table>, skip: seq<string>)
    ensures forall st :: st in Plan(tables, skip).issued && st.Insert? ==> WellFormedInsert(st)
    decreases |tables|
  {
    if |tables| > 0 {
      PlanInsertsWellFormed(tables[1..], skip);
      forall j | 0 <= j < |tables[0].rows| {
        BuildInsertWellFormed(tables[0].name, tables[0].rows[j]);
      }
    }
  }

  /** The tables that are migrated: those not on the skip list, in order. */
  function Migrated(tables: seq<Table>, skip: seq<string>): (r: seq<Table>)
    ensures forall t :: t in r <==> t in tables && t.name !in skip
    ensures |r| <= |tables|
    decreases |tables|
  {
    if |tables| == 0 then []
    else if tables[0].name in skip then Migrated(tables[1..], skip)
    else [tables[0]] + Migrated(tables[1..], skip)
  }

  /** Filtering keeps the tables in `SHOW TABLES` order and keeps each one
      once: it distributes over concatenation, and one table is kept exactly
      when its name is not on the skip list. */
  lemma {:induction false} MigratedAppend(a: seq<Table>, b: seq<Table>, skip: seq<string>)
    ensures Migrated(a + b, skip) == Migrated(a, skip) + Migrated(b, skip)
    decreases |a|
  {
    if |a| == 0 {
      assert a + b == b;
    } else {
      assert (a + b)[0] == a[0];
      assert (a + b)[1..] == a[1..] + b;
      MigratedAppend(a[1..], b, skip);
      assert [a[0]] + (Migrated(a[1..], skip) + Migrated(b, skip))
          == [a[0]] + Migrated(a[1..], skip) + Migrated(b, skip);
    }
  }

  lemma MigratedOne(t: Table, skip: seq<string>)
    ensures Migrated([t], skip) == if t.name in skip then [] else [t]
  {
    assert [t][1..] == [];
  }

  /** Skipping is filtering: the run over the tables with a skip list is
      the run over the migrated tables with none. */
  lemma {:induction false} PlanFilters(tables: seq<Table>, skip: seq<string>)
    ensures Plan(tables, skip) == Plan(Migrated(tables, skip), [])
    decreases |tables|
  {
    if |tables| > 0 {
      PlanFilters(tables[1..], skip);
      var rest := Migrated(tables[1..], skip);
      if tables[0].name !in skip {
        assert ([tables[0]] + rest)[0] == tables[0];
        assert ([tables[0]] + rest)[1..] == rest;
      }
    }
  }

  /** The number of statements a run issues when it succeeds: one CREATE
      TABLE and one INSERT per row for each migrated table. */
  function StatementCount(tables: seq<Table>): nat
    decreases |tables|
  {
    if |tables| == 0 then 0 else 1 + |tables[0].rows| + StatementCount(tables[1..])
  }

  lemma {:induction false} PlanCount(tables: seq<Table>, skip: seq<string>)
    requires Plan(tables, skip).failure.None?
    ensures |Plan(tables, skip).issued| == StatementCount(Migrated(tables, skip))
    decreases |tables|
  {
    if |tables| > 0 {
      PlanCount(tables[1..], skip);
      if tables[0].name !in skip {
        var rest := Migrated(tables[1..], skip);
        assert ([tables[0]] + rest)[0] == tables[0];
        assert ([tables[0]] + rest)[1..] == rest;
      }
    }
  }

  /** A `migrations` table, wherever it stands, contributes nothing to
      the run. */
  lemma SkipMigrationsTable(before: seq<Table>, t: Table, after: seq<Table>)
    requires t.name == "migrations"
    ensures Plan(before + [t] + after, SkipTables) == Plan(before + after, SkipTables)
  {
    assert ([t] + after)[1..] == after;
    assert before + [t] + after == before + ([t] + after);
    PlanAppend(before, [t] + after, SkipTables);
    PlanAppend(before, after, SkipTables);
  }
}
