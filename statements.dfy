/** The two statements `migrateData` sends to PostgreSQL: the CREATE TABLE
    built from the DESCRIBE output, and one INSERT per row with positional
    parameters. */
module Statements {
  import opened Wrappers
  import opened Strings
  import opened TypeMapper
  import opened Values

  /** One row of `DESCRIBE <table>`; only `Field` and `Type` are read. */
  datatype Column = Column(field: string, mysqlType: string)

  /** One entry of the CREATE TABLE column list. */
  datatype ColumnDef = ColumnDef(field: string, pgType: PgType)

  /** One property of a row object returned by `SELECT *`. */
  datatype Field = Field(key: string, value: Value)

  /** A row: its properties in `Object.keys` order. */
  type Row = seq<Field>

  /** A statement with its bound parameters. */
  datatype Statement =
    | CreateTable(table: string, columns: seq<ColumnDef>)
    | Insert(table: string, keys: seq<string>, params: seq<Value>)
  {
    /** The SQL text passed to `postgresClient.query`. */
    function Sql(): string {
      match this
      case CreateTable(table, columns) =>
        "CREATE TABLE IF NOT EXISTS " + Quote(table) + " (" + Join(ColumnDefsSql(columns), ", ") + ");"
      case Insert(table, keys, _) =>
        "INSERT INTO " + Quote(table) + " (" + Join(QuoteAll(keys), ", ")
        + ") VALUES (" + ValuesList(|keys|) + ")"
    }

    /** The parameter list passed with the text. */
    function Params(): seq<Value> {
      match this
      case CreateTable(_, _) => []
      case Insert(_, _, params) => params
    }
  }

  /** An identifier in double quotes. */
  function Quote(name: string): (r: string)
    ensures |r| == |name| + 2 && r[0] == '"' && r[|r| - 1] == '"'
    ensures r[1..|r| - 1] == name
  {
    "\"" + name + "\""
  }

  function QuoteAll(names: seq<string>): (r: seq<string>)
    ensures |r| == |names|
    ensures forall i :: 0 <= i < |names| ==> r[i] == Quote(names[i])
  {
    seq(|names|, i requires 0 <= i < |names| => Quote(names[i]))
  }

  /** `"<Field>" <mappedType>` for each column. */
  function ColumnDefsSql(columns: seq<ColumnDef>): (r: seq<string>)
    ensures |r| == |columns|
    ensures forall i :: 0 <= i < |columns| ==>
      r[i] == Quote(columns[i].field) + " " + columns[i].pgType.Name()
  {
    seq(|columns|, i requires 0 <= i < |columns| => Quote(columns[i].field) + " " + columns[i].pgType.Name())
  }

  /** The parameter reference `$k`. */
  function Placeholder(k: nat): (r: string)
    ensures |r| >= 2 && r[0] == '$'
    ensures forall i :: 1 <= i < |r| ==> IsDigit(r[i])
    ensures DigitsValue(r[1..]) == k
  {
    NatToStringRoundTrip(k);
    assert ("$" + NatToString(k))[1..] == NatToString(k);
    "$" + NatToString(k)
  }

  /** `$1`, ..., `$n`: one placeholder per key, numbered from one. */
  function Placeholders(n: nat): (r: seq<string>)
    ensures |r| == n
    ensures forall i :: 0 <= i < n ==> r[i] == Placeholder(i + 1)
    decreases n
  {
    if n == 0 then [] else Placeholders(n - 1) + [Placeholder(n)]
  }

  /** `insertValues`, the placeholder list joined by `, `. */
  function ValuesList(n: nat): string {
    Join(Placeholders(n), ", ")
  }

  /** The DESCRIBE column list mapped in order. Like `columns.map(...)`,
      it stops at the first column whose type the mapper rejects. */
  function MapColumns(cols: seq<Column>): (r: Result<seq<ColumnDef>, MapError>)
    ensures r.Ok? <==> forall i :: 0 <= i < |cols| ==> MapType(cols[i].mysqlType).Ok?
    ensures r.Ok? ==> |r.value| == |cols|
    ensures r.Ok? ==> forall i :: 0 <= i < |cols| ==>
      r.value[i].field == cols[i].field && MapType(cols[i].mysqlType) == Ok(r.value[i].pgType)
    ensures r.Err? ==>
      exists k :: 0 <= k < |cols| && MapType(cols[k].mysqlType) == Err(r.error)
                && forall i :: 0 <= i < k ==> MapType(cols[i].mysqlType).Ok?
    decreases |cols|
  {
    if |cols| == 0 then Ok([])
    else
      match MapType(cols[0].mysqlType)
      case Err(e) => Err(e)
      case Ok(t) =>
        match MapColumns(cols[1..])
        case Err(e) =>
          ghost var k :| 0 <= k < |cols[1..]| && MapType(cols[1..][k].mysqlType) == Err(e)
            && forall i :: 0 <= i < k ==> MapType(cols[1..][i].mysqlType).Ok?;
          assert MapType(cols[k + 1].mysqlType) == Err(e);
          Err(e)
        case Ok(rest) => Ok([ColumnDef(cols[0].field, t)] + rest)
  }

  /** `createTableQuery`, or the mapper's error when a column type is
      unsupported, in which case no statement is produced. */
  function BuildCreateTable(table: string, cols: seq<Column>): (r: Result<Statement, MapError>)
    ensures r.Ok? <==> MapColumns(cols).Ok?
    ensures r.Ok? ==> r.value == CreateTable(table, MapColumns(cols).value)
    ensures r.Err? ==> r.error == MapColumns(cols).error
  {
    match MapColumns(cols)
    case Err(e) => Err(e)
    case Ok(defs) => Ok(CreateTable(table, defs))
  }

  /** `insertQuery` with `rowValues`: the row's keys in order, one
      placeholder per key, and the normalised values in the same order. */
  function BuildInsert(table: string, row: Row): (st: Statement)
    ensures st.Insert? && st.table == table
    ensures |st.keys| == |row| && |st.params| == |row|
    ensures forall i :: 0 <= i < |row| ==>
      st.keys[i] == row[i].key && st.params[i] == GetValue(row[i].value)
  {
    Insert(table,
      seq(|row|, i requires 0 <= i < |row| => row[i].key),
      NormalizeAll(seq(|row|, i requires 0 <= i < |row| => row[i].value)))
  }

  /** An INSERT whose column list and parameter list have the same length
      and whose parameters hold no invalid date. */
  predicate WellFormedInsert(st: Statement)
    requires st.Insert?
  {
    |st.keys| == |st.params| && forall i :: 0 <= i < |st.params| ==> !IsInvalidDate(st.params[i])
  }

  lemma BuildInsertWellFormed(table: string, row: Row)
    ensures WellFormedInsert(BuildInsert(table, row))
  {
  }

  /** Every placeholder holds exactly one `$`. */
  lemma {:induction false} PlaceholderDollars(n: nat)
    ensures CountCharAll('$', Placeholders(n)) == n
    decreases n
  {
    if n > 0 {
      PlaceholderDollars(n - 1);
      CountCharAllAppend('$', Placeholders(n - 1), Placeholder(n));
      DigitsHaveNoDollar(NatToString(n));
      assert Placeholder(n)[1..] == NatToString(n);
    }
  }

  lemma DigitsHaveNoDollar(d: string)
    requires forall i :: 0 <= i < |d| ==> IsDigit(d[i])
    ensures CountChar('$', d) == 0
    decreases |d|
  {
    if |d| > 0 {
      DigitsHaveNoDollar(d[1..]);
    }
  }

  lemma {:induction false} CountCharAllAppend(c: char, parts: seq<string>, p: string)
    ensures CountCharAll(c, parts + [p]) == CountCharAll(c, parts) + CountChar(c, p)
    decreases |parts|
  {
    if |parts| == 0 {
      assert parts + [p] == [p];
      assert [p][1..] == [];
    } else {
      assert (parts + [p])[1..] == parts[1..] + [p];
      CountCharAllAppend(c, parts[1..], p);
    }
  }

  /** The VALUES list of an INSERT for `n` keys holds exactly `n`
      parameter references. */
  lemma ValuesListDollars(n: nat)
    ensures CountChar('$', ValuesList(n)) == n
  {
    PlaceholderDollars(n);
    if n > 0 {
      CountCharJoin('$', Placeholders(n), ", ");
      assert CountChar('$', ", ") == 0;
    }
  }

  /** Placeholder `i` refers to parameter `i + 1`; so no two placeholders
      of a statement refer to the same parameter. */
  lemma PlaceholdersNumbered(n: nat, i: nat, j: nat)
    requires i < n && j < n
    ensures DigitsValue(Placeholders(n)[i][1..]) == i + 1
    ensures i != j ==> Placeholders(n)[i] != Placeholders(n)[j]
  {
    var p, q := Placeholders(n)[i], Placeholders(n)[j];
    assert p[1..] == NatToString(i + 1);
    assert q[1..] == NatToString(j + 1);
    NatToStringRoundTrip(i + 1);
    if p == q {
      NatToStringInjective(i + 1, j + 1);
    }
  }

  /** The INSERT built for a row refers to exactly as many parameters as it
      binds. */
  lemma {:induction false} InsertArity(table: string, row: Row)
    ensures var st := BuildInsert(table, row);
      CountChar('$', ValuesList(|st.keys|)) == |st.params| == |row|
  {
    ValuesListDollars(|row|);
  }

  /** The CREATE TABLE text: the quoted table name, then one
      `"<Field>" <mappedType>` entry per DESCRIBE column, in DESCRIBE order,
      joined by `, `. */
  lemma {:induction false} CreateTableSqlShape(table: string, cols: seq<Column>)
    requires BuildCreateTable(table, cols).Ok?
    ensures var parts := ColumnDefsSql(BuildCreateTable(table, cols).value.columns);
      && BuildCreateTable(table, cols).value.Sql()
         == "CREATE TABLE IF NOT EXISTS " + Quote(table) + " (" + Join(parts, ", ") + ");"
      && |parts| == |cols|
      && forall i :: 0 <= i < |cols| ==>
           parts[i] == Quote(cols[i].field) + " " + MapType(cols[i].mysqlType).value.Name()
  {
  }

  /** The INSERT text for a row: the quoted table name, the row's keys
      quoted and in key order, and the placeholders `$1` to `$n` for its `n`
      keys; the values bound are the row's values through `getValue`, in the
      same order. */
  lemma {:induction false} InsertSqlShape(table: string, row: Row)
    ensures var st := BuildInsert(table, row);
      var names, marks := QuoteAll(st.keys), Placeholders(|row|);
      && st.Sql() == "INSERT INTO " + Quote(table) + " (" + Join(names, ", ")
                     + ") VALUES (" + Join(marks, ", ") + ")"
      && |names| == |marks| == |st.Params()| == |row|
      && forall i :: 0 <= i < |row| ==>
           && names[i] == Quote(row[i].key)
           && marks[i] == "$" + NatToString(i + 1)
           && st.Params()[i] == GetValue(row[i].value)
  {
  }
}
