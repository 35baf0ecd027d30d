# MySQL to PostgreSQL migration script, modelled in Dafny

The script `src/main.ts` copies every table of a MySQL database into
PostgreSQL. For each table reported by `SHOW TABLES` it does the following:

- It skips the table when its name is on the skip list (`migrations`).
- It reads the column list with `DESCRIBE`.
- It maps each MySQL column type to a PostgreSQL type with
  `mysqlTypeToPostgresType`, and sends a `CREATE TABLE IF NOT EXISTS`
  statement.
- It reads all rows with `SELECT *` and sends one parameterised `INSERT` per
  row. Each value goes through `getValue`, which turns an invalid `Date` into
  `null`.

An unsupported column type throws. The catch-all around the whole run catches
that error, and the run ends there.

This project models that deterministic core without the database drivers:

- `wrappers.dfy` (module `Wrappers`): `Option` and `Result`.
- `strings.dfy` (module `Strings`): the JavaScript string operations the
  script relies on.
  - `toLowerCase`, `includes`, `join`.
  - The regex classes `\d` and `\s`. `\s` is modelled as the exact ECMAScript
    set of white-space and line-terminator characters.
  - The decimal rendering of a number in a template literal.
- `type_mapper.dfy` (module `TypeMapper`): `mysqlTypeToPostgresType`.
  - The two `replace` calls are first-occurrence operations: the leftmost
    `(digits)` group, then the leftmost white-space character followed by
    `unsigned` in any case.
  - They are specified by "leftmost occurrence" predicates.
  - The substring rules and the `switch` follow the source in the same order.
- `values.dfy` (module `Values`): row values as a datatype, and `getValue`.
- `statements.dfy` (module `Statements`): the CREATE TABLE builder (column
  definitions, `map`, `join`) and the INSERT builder (quoted keys,
  placeholders `$1..$n`, normalised values).
- `migration.dfy` (module `Migration`): the per-table loop of `migrateData`.
  - `MigrateData` is a method with a `for` loop and `continue` for skipped
    tables. The row loop is `AppendInserts`.
  - Both are proved against the reference function `Plan`, and the lemmas on
    `Plan` state what a run issues.

Each table arrives as input data: its name, its DESCRIBE columns and its
rows. The result of a run is the list of statements it would send, in order,
together with the mapping error that ended it, if any.

The model follows the code. The script handles fewer cases than a general
migration tool would:

- There is no auto-increment mapping.
- There is no rule that keeps a `char` length: `char(1)` maps to `CHAR`.
- No JSON type is handled.
- Only an all-digit parenthesised group is removed from a type. So
  `decimal(10,2)` keeps its `(10,2)` group and is classified only by the
  `decimal` substring rule. `double(8,2)` keeps its group as well, its bare
  token is not in the table, and the mapper throws
  (`TypeMapper.DoublePrecisionUnsupported`).

## Model

| member | source | states |
|---|---|---|
| TypeMapper.StripLength | src/main.ts:23-24 | with no `(digits)` group the string is unchanged; otherwise exactly the leftmost group is cut out |
| TypeMapper.FindLengthGroup | src/main.ts:24 | the search for a `(digits)` group returns the leftmost one at or after the start position, or none when there is none |
| TypeMapper.StripUnsigned | src/main.ts:25 | with no white-space+`unsigned` (any case) the string is unchanged; otherwise exactly the leftmost occurrence of those nine characters is cut out |
| TypeMapper.FindUnsigned | src/main.ts:25 | the search for white-space+`unsigned` returns the leftmost occurrence at or after the start position, or none |
| TypeMapper.Bare | src/main.ts:23-25 | `typeWithoutLength`, the two replaces in order; its value is stated for five shapes: a plain word `w` (`BarePlain`), `w(n)` (`BareSized`), `w(n) unsigned` (`BareSizedUnsigned`), `w unsigned` (`BareUnsigned`) and `w(p,q)` (`PrecisionBare`) |
| TypeMapper.BarePlain | src/main.ts:23-67 | a type with no parenthesis and no white space is its own bare token, and then, unless a substring rule fires, the table entry for it in lower case decides, or the unsupported-type error |
| TypeMapper.SwitchType | src/main.ts:37-67 | the `switch` on the lower-cased bare token; `SwitchMatchesTable` states that it accepts exactly the table's tokens with the table's types |
| TypeMapper.SwitchMatchesTable | src/main.ts:37-67 | the switch accepts exactly the eighteen listed tokens, each with the listed PostgreSQL type; every other token goes to the default branch |
| TypeMapper.PgType.Name | src/main.ts:29-64 | each of the eight PostgreSQL type names returned and written into the CREATE TABLE text is a non-empty run of upper-case letters |
| TypeMapper.MapType | src/main.ts:21-68 | a failure always carries the original type string, as the thrown message does |
| TypeMapper.MapTypeCases | src/main.ts:29-67 | `enum` anywhere in the lower-cased input gives VARCHAR; otherwise `decimal` anywhere gives NUMERIC; otherwise the lower-cased bare token is looked up in the table, and an unknown token is the unsupported-type error |
| TypeMapper.MapTypeSucceeds | src/main.ts:29-67 | the mapper succeeds exactly when a substring rule fires or the lower-cased bare token is in the table |
| TypeMapper.EnumAnySuffix | src/main.ts:29-31 | once the lower-cased type contains `enum`, the type maps to VARCHAR whatever is appended to it |
| TypeMapper.StripLengthSized | src/main.ts:23-24 | `w(n)` followed by anything loses exactly its `(n)` |
| TypeMapper.StripLengthKeepsPrecision | src/main.ts:23-24 | a precision group `(p,q)` is not removed |
| TypeMapper.StripUnsignedAfter | src/main.ts:25 | a white-space character and `unsigned` in any case right after a plain word is removed |
| TypeMapper.BareSized | src/main.ts:23-25 | `w(n)` has bare token `w` |
| TypeMapper.BareSizedUnsigned | src/main.ts:23-25 | `w(n) unsigned` has bare token `w` |
| TypeMapper.PrecisionBare | src/main.ts:23-25 | `w(p,q)` is its own bare token |
| TypeMapper.NoSubstringRule | src/main.ts:29-35 | a type without the letter `m` triggers neither substring rule |
| TypeMapper.SizedType | src/main.ts:23-67 | `w(n)` with no `m` in `w` maps by the table entry for `w` in lower case, or fails when there is none |
| TypeMapper.SizedUnsignedType | src/main.ts:23-67 | the same for `w(n) unsigned` with any white-space character and any case |
| TypeMapper.IntUnsignedIsInteger | src/main.ts:23-44 | `int(n) unsigned`, in any case and with any white-space character and any display width, maps to INTEGER |
| TypeMapper.BareUnsigned | src/main.ts:23-25 | `w unsigned` with no display width, any white-space character and `unsigned` in any case, has bare token `w` |
| TypeMapper.UnsignedType | src/main.ts:23-67 | `w unsigned` without `m` in `w` maps by the table entry for lower-cased `w`, or fails with the input |
| TypeMapper.IntUnsignedNoWidth | src/main.ts:23-44 | `int unsigned`, the form MySQL 8.0.19 and later reports, maps to INTEGER in any case and with any white-space character |
| TypeMapper.TinyintIsInteger | src/main.ts:23-44 | `tinyint(n)` in any case maps to INTEGER |
| TypeMapper.CharIsChar | src/main.ts:23-61 | `char(n)` in any case maps to CHAR, without its length |
| TypeMapper.DecimalPrecisionIsNumeric | src/main.ts:33-35 | `decimal(p,q)` in any case maps to NUMERIC, through the substring rule |
| TypeMapper.DecimalPrecisionRule | src/main.ts:29-35 | for `decimal(p,q)` the `enum` rule does not fire and the `decimal` rule does |
| TypeMapper.PrecisionUnsupported | src/main.ts:23-67 | `w(p,q)` with no `m` in `w` keeps its group and fails with the unsupported-type error |
| TypeMapper.DoublePrecisionUnsupported | src/main.ts:23-66 | `double(p,q)` in any case fails with the unsupported-type error |
| TypeMapper.SameLengthGroups | src/main.ts:24-37 | two strings that are equal up to case have the same `(digits)` groups |
| TypeMapper.SameUnsigned | src/main.ts:25 | two strings that are equal up to case have the same white-space+`unsigned` occurrences |
| TypeMapper.StripLengthLower | src/main.ts:24-37 | the first replace keeps two strings that are equal up to case equal up to case |
| TypeMapper.StripUnsignedLower | src/main.ts:25-37 | so does the second replace |
| TypeMapper.MapTypeIgnoresCase | src/main.ts:21-68 | two type strings that differ only in letter case both fail or map to the same PostgreSQL type |
| TypeMapper.MapTypeOfLowered | src/main.ts:29-37 | lower-casing a type string first changes neither whether nor how it maps |
| TypeMapper.MapError.Message | src/main.ts:66 | the text of the thrown error is the 20-character prefix `Tipo nao suportado: ` followed by the type string as given |
| TypeMapper.MapTypeErrorMessage | src/main.ts:65-66 | the thrown message is `Tipo nao suportado: ` followed by the type string as given |
| Strings.Lower | src/main.ts:29 | `toLowerCase` keeps the length and lower-cases each character |
| Strings.LowerChar | src/main.ts:29 | A-Z become a-z; every other character is unchanged |
| Strings.Contains | src/main.ts:29-33 | `includes` is true exactly when the needle occurs at some index |
| Strings.IsSpace | src/main.ts:25 | the `\s` class: tab, line feed, vertical tab, form feed, carriage return, space, no-break space, U+1680, U+2000 to U+200A, U+2028, U+2029, U+202F, U+205F, U+3000 and U+FEFF; `SameUnsigned` and `StripUnsignedAfter` use it |
| Strings.Join | src/main.ts:99-124 | `.join(', ')`, parts separated by the separator; `CountCharJoin` states what a joined text contains, and `CreateTableSqlShape` and `InsertSqlShape` use it for both statement texts |
| Strings.IsDigit | src/main.ts:24 | `\d` without the `u` flag: exactly the ten ASCII digits `0`-`9` |
| Strings.NatToString | src/main.ts:123 | the rendered number is a non-empty string of digits with no leading zero: it starts with `0` only when it is `0` |
| Strings.NatToStringRoundTrip | src/main.ts:123 | reading the rendered digits back gives the number |
| Strings.NatToStringInjective | src/main.ts:123 | distinct numbers render differently |
| Strings.CountCharJoin | src/main.ts:122-124 | a joined list holds the occurrences in its parts plus those of the `n - 1` separators |
| Values.GetValue | src/main.ts:70-80 | the result is never an invalid date; an invalid date gives null; every other value comes back unchanged |
| Values.GetValueNull | src/main.ts:70-80 | the result is null exactly for null and for an invalid date |
| Values.GetValueFixedPoints | src/main.ts:70-80 | a value comes back unchanged exactly when it is not an invalid date |
| Values.GetValueIdempotent | src/main.ts:70-80 | normalising twice is normalising once |
| Values.NormalizeAll | src/main.ts:128 | the list keeps its length, each element is normalised at its own position, and no invalid date remains |
| Values.NormalizeAllIdempotent | src/main.ts:128 | normalising the list twice is normalising it once |
| Statements.QuoteAll | src/main.ts:118-120 | each key is quoted, in order |
| Statements.Quote | src/main.ts:102-126 | the name between two double quotes, unchanged |
| Statements.Statement.Sql | src/main.ts:105-126 | the text sent to PostgreSQL; `CreateTableSqlShape` and `InsertSqlShape` state it for each statement the builders produce |
| Statements.ValuesList | src/main.ts:122-124 | `insertValues`; `ValuesListDollars` states that it holds exactly `n` parameter references, and `PlaceholdersNumbered` that they are `$1` to `$n` |
| Statements.ColumnDefsSql | src/main.ts:99-103 | each column becomes `"<Field>" <type name>`, in order |
| Statements.Placeholder | src/main.ts:123 | `$${index + 1}`: a dollar sign followed by decimal digits that read back as the number |
| Statements.Placeholders | src/main.ts:122-124 | there are `n` placeholders and the `i`-th is `$` followed by `i + 1` |
| Statements.MapColumns | src/main.ts:99-104 | the columns map exactly when every type maps; the result keeps field names and order with each column's mapped type; a failure is the error of the first unsupported column, and every earlier column maps |
| Statements.BuildCreateTable | src/main.ts:99-105 | a statement is produced exactly when every column maps, and then it holds the mapped columns; otherwise the error is the first failing column's |
| Statements.CreateTableSqlShape | src/main.ts:99-105 | the CREATE TABLE text is the quoted table name and one `"<Field>" <mapped type>` entry per DESCRIBE column, in DESCRIBE order, joined by `, ` |
| Statements.BuildInsert | src/main.ts:118-128 | the INSERT holds the row's keys in key order and its values through `getValue`, in the same order |
| Statements.Statement.Params | src/main.ts:132 | an INSERT binds its row values, `rowValues`; a CREATE TABLE is sent without parameters |
| Statements.InsertSqlShape | src/main.ts:118-128 | the INSERT text is the quoted table name, the quoted keys joined by `, `, and the placeholders `$1..$n` joined by `, `, with one bound value per key |
| Statements.BuildInsertWellFormed | src/main.ts:118-128 | as many keys as values, and no invalid date among the values |
| Statements.PlaceholderDollars | src/main.ts:122-124 | the `n` placeholders hold `n` dollar signs in all |
| Statements.ValuesListDollars | src/main.ts:122-126 | the VALUES list for `n` keys holds exactly `n` parameter references |
| Statements.PlaceholdersNumbered | src/main.ts:122-124 | placeholder `i` refers to parameter `i + 1`, and no two placeholders are equal |
| Statements.InsertArity | src/main.ts:122-128 | the parameter references in the text, the keys and the bound values are equally many |
| Migration.Inserts | src/main.ts:117-134 | one INSERT per row, in row order |
| Migration.TableStatements | src/main.ts:97-134 | a migrated table contributes its CREATE TABLE followed by one INSERT per row when every column maps, and nothing but the mapper's error otherwise |
| Migration.AppendInserts | src/main.ts:117-134 | the row loop appends exactly the table's INSERTs, in row order, to what was issued before |
| Migration.MigrateData | src/main.ts:82-139 | the loop over the tables issues exactly the statements of the reference run, and stops with its error |
| Migration.Plan | src/main.ts:92-139 | the reference run that `MigrateData` is proved equal to; `PlanAppend`, `PlanSucceeds`, `PlanFailure`, `PlanSkipsTables`, `PlanFilters` and `PlanCount` state what it issues |
| Migration.PlanSkip | src/main.ts:95 | a skipped table adds nothing to the run |
| Migration.PlanFail | src/main.ts:99-148 | a table with an unsupported column ends the run, with nothing more issued |
| Migration.PlanAppend | src/main.ts:92-139 | the run over `a + b` is the run over `a` and then, unless that failed, the run over `b` |
| Migration.PlanSucceeds | src/main.ts:92-139 | the run ends without error exactly when every migrated table has only supported column types |
| Migration.PlanFailure | src/main.ts:92-148 | a failed run fails at the first migrated table with an unsupported column type, with that table's error, after issuing exactly what the tables before it produce |
| Migration.PlanSkipsTables | src/main.ts:83-95 | no statement names a skipped table, and every statement names one of the given tables |
| Migration.PlanInsertsWellFormed | src/main.ts:118-132 | every INSERT of the run binds one value per key and no invalid date |
| Migration.Migrated | src/main.ts:83-95 | the migrated tables are exactly the given tables whose name is not on the skip list, and there are no more of them than given; `MigratedAppend` and `MigratedOne` fix their order and multiplicity |
| Migration.MigratedAppend | src/main.ts:92-95 | the skip filter keeps `SHOW TABLES` order and each table once: filtering `a + b` is filtering `a` then filtering `b` |
| Migration.MigratedOne | src/main.ts:95 | one table is kept exactly when its name is not on the skip list |
| Migration.PlanFilters | src/main.ts:83-95 | the run with a skip list is the run without one over the migrated tables |
| Migration.PlanCount | src/main.ts:92-139 | a run without error issues one CREATE TABLE and one INSERT per row for each migrated table |
| Migration.SkipMigrationsTable | src/main.ts:83-95 | a `migrations` table at any position contributes nothing to the run: removing it leaves the run unchanged |

## Left out

- Connection setup, `execute` and `query` calls, `end()` and the hard-coded
  credentials (`src/main.ts:1-18`, `85-90`, `142-143`). These are driver I/O.
  Each table's name, DESCRIBE columns and rows are inputs, and the run's
  result is the list of statements sent. A query that the database rejects
  is not modelled.
- The `Tables_in_<database>` lookup of the table name (`src/main.ts:93`). It
  is driver output format, and the table name is an input.
- `Promise.all` over the unawaited INSERT queries (`src/main.ts:132-136`).
  This is concurrency. The INSERTs are an ordered list.
- The order in which the RDBMS answers. Rows arrive in `SELECT *` order, and
  a row's keys arrive in `Object.keys` order.
- `console.log` and `console.error` output (`src/main.ts:27`, `73`, `107`,
  `130`, `138`, `145`, `147`).
- The catch-all (`src/main.ts:146-148`) only logs. It is modelled as an
  optional error that ends the run.
- The connections are not closed after an error. That is driver I/O and
  left out.
- JavaScript `Date` internals and `isNaN(value.valueOf())`, which is floating
  point. A date is its validity flag and a time value. Other values (numbers,
  strings, booleans, buffers, null) are passed through by `getValue`
  unchanged.
- Values.Value: a JavaScript number is a real number, so the IEEE double
  rounding of FLOAT and DOUBLE values, and of integers beyond 2^53, is not
  modelled. `getValue` never inspects a number, so this changes nothing
  about what the script issues.
- Strings.LowerChar: lower-cases ASCII `A`-`Z` only; `toLowerCase`
  would also turn `Ä` into `ä`. Type names reported by MySQL are ASCII.
- Strings.Lower: lower-cases ASCII `A`-`Z` only, not the full Unicode
  case mapping of `toLowerCase`. Type names reported by MySQL are ASCII.
- The JavaScript regex engine. The two `replace` calls are specified
  directly as first-occurrence string operations.
- Migration.MigrateData: only a mapping error ends the run. Errors thrown
  by the drivers are not modelled.
