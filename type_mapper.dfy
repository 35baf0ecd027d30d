/** `mysqlTypeToPostgresType`: the MySQL column type reported by DESCRIBE
    (for example `int(11) unsigned`) becomes a PostgreSQL type name, or the
    function throws "Tipo nao suportado". */
module TypeMapper {
  import opened Wrappers
  import opened Strings

  /** The PostgreSQL type names the mapper can return. */
  datatype PgType = Integer | Real | Numeric | Timestamp | Date | Text | Char | Varchar
  {
    /** The name written into the CREATE TABLE statement. */
    function Name(): (r: string)
      ensures |r| > 0 && forall i :: 0 <= i < |r| ==> 'A' <= r[i] <= 'Z'
    {
      match this
      case Integer => "INTEGER"
      case Real => "REAL"
      case Numeric => "NUMERIC"
      case Timestamp => "TIMESTAMP"
      case Date => "DATE"
      case Text => "TEXT"
      case Char => "CHAR"
      case Varchar => "VARCHAR"
    }
  }

  /** The error the mapper throws; it carries the type string as given. */
  datatype MapError = UnsupportedType(mysqlType: string)
  {
    /** The text of the thrown `Error`: a fixed prefix, then the type. */
    function Message(): (r: string)
      ensures |r| == 20 + |mysqlType|
      ensures r[..20] == "Tipo nao suportado: " && r[20..] == mysqlType
    {
      "Tipo nao suportado: " + mysqlType
    }
  }

  // ---------------------------------------------------------------------
  // The first replace: the regex /\(\d+\)/, first match only.
  // ---------------------------------------------------------------------

  /** `s[i..j]` is an opening parenthesis, one or more digits and a closing
      parenthesis. */
  predicate LengthGroupAt(s: string, i: nat, j: nat) {
    && i + 2 < j <= |s|
    && s[i] == '(' && s[j - 1] == ')'
    && forall t :: i < t < j - 1 ==> IsDigit(s[t])
  }

  /** `s[i..j]` is the leftmost length group: the one `replace` removes. */
  ghost predicate FirstLengthGroup(s: string, i: nat, j: nat) {
    LengthGroupAt(s, i, j) && forall i': nat, j': nat :: i' < i ==> !LengthGroupAt(s, i', j')
  }

  /** A length group is determined by where it starts. */
  lemma LengthGroupEnd(s: string, i: nat, j: nat, j': nat)
    requires LengthGroupAt(s, i, j) && LengthGroupAt(s, i, j')
    ensures j == j'
  {
  }

  /** The end of the run of digits that starts at `p`. */
  function DigitRunEnd(s: string, p: nat): (k: nat)
    requires p <= |s|
    ensures p <= k <= |s|
    ensures forall t :: p <= t < k ==> IsDigit(s[t])
    ensures k == |s| || !IsDigit(s[k])
    decreases |s| - p
  {
    if p < |s| && IsDigit(s[p]) then DigitRunEnd(s, p + 1) else p
  }

  /** Whether a length group starts at `i`, decided by scanning its digits. */
  predicate GroupStartsAt(s: string, i: nat)
    requires i < |s|
  {
    var k := DigitRunEnd(s, i + 1);
    s[i] == '(' && i + 1 < k < |s| && s[k] == ')'
  }

  lemma GroupStartsAtCorrect(s: string, i: nat)
    requires i < |s|
    ensures GroupStartsAt(s, i) ==> LengthGroupAt(s, i, DigitRunEnd(s, i + 1) + 1)
    ensures !GroupStartsAt(s, i) ==> forall j: nat :: !LengthGroupAt(s, i, j)
  {
    var k := DigitRunEnd(s, i + 1);
    forall j: nat | LengthGroupAt(s, i, j) ensures GroupStartsAt(s, i) {
    }
  }

  /** Leftmost length group at or after `from`, as (start, end). */
  function FindLengthGroup(s: string, from: nat): (r: Option<(nat, nat)>)
    requires from <= |s|
    ensures r.Some? ==> from <= r.value.0 && LengthGroupAt(s, r.value.0, r.value.1)
    ensures r.Some? ==> forall i: nat, j: nat :: from <= i < r.value.0 ==> !LengthGroupAt(s, i, j)
    ensures r.None? ==> forall i: nat, j: nat :: from <= i ==> !LengthGroupAt(s, i, j)
    decreases |s| - from
  {
    if from == |s| then
      None
    else if GroupStartsAt(s, from) then
      GroupStartsAtCorrect(s, from);
      Some((from, DigitRunEnd(s, from + 1) + 1))
    else
      GroupStartsAtCorrect(s, from);
      FindLengthGroup(s, from + 1)
  }

  /** `mysqlType.replace(/\(\d+\)/, '')`. */
  function StripLength(s: string): (r: string)
    ensures (forall i: nat, j: nat :: !LengthGroupAt(s, i, j)) ==> r == s
    ensures forall i: nat, j: nat :: FirstLengthGroup(s, i, j) ==> r == s[..i] + s[j..]
  {
    match FindLengthGroup(s, 0)
    case None => s
    case Some((i, j)) =>
      assert forall i': nat, j': nat :: FirstLengthGroup(s, i', j') ==> i' == i && j' == j by {
        forall i': nat, j': nat | FirstLengthGroup(s, i', j') ensures i' == i && j' == j {
          LengthGroupEnd(s, i, j, j');
        }
      }
      s[..i] + s[j..]
  }

  // ---------------------------------------------------------------------
  // The second replace: the regex /\sunsigned/i, first match only.
  // ---------------------------------------------------------------------

  /** A white-space character followed by `unsigned` in any case starts at `i`. */
  predicate UnsignedAt(s: string, i: nat) {
    i + 9 <= |s| && IsSpace(s[i]) && Lower(s[i + 1..i + 9]) == "unsigned"
  }

  /** The leftmost such occurrence is at `i`. */
  ghost predicate FirstUnsigned(s: string, i: nat) {
    UnsignedAt(s, i) && forall i': nat :: i' < i ==> !UnsignedAt(s, i')
  }

  /** Leftmost occurrence at or after `from`. */
  function FindUnsigned(s: string, from: nat): (r: Option<nat>)
    requires from <= |s|
    ensures r.Some? ==> from <= r.value && UnsignedAt(s, r.value)
    ensures r.Some? ==> forall i: nat :: from <= i < r.value ==> !UnsignedAt(s, i)
    ensures r.None? ==> forall i: nat :: from <= i ==> !UnsignedAt(s, i)
    decreases |s| - from
  {
    if from == |s| then None
    else if UnsignedAt(s, from) then Some(from)
    else FindUnsigned(s, from + 1)
  }

  /** `.replace(/\sunsigned/i, '')`. */
  function StripUnsigned(s: string): (r: string)
    ensures (forall i: nat :: !UnsignedAt(s, i)) ==> r == s
    ensures forall i: nat :: FirstUnsigned(s, i) ==> r == s[..i] + s[i + 9..]
  {
    match FindUnsigned(s, 0)
    case None => s
    case Some(j) =>
      assert forall i: nat :: FirstUnsigned(s, i) ==> i == j by {
        forall i: nat | FirstUnsigned(s, i) ensures i == j {
          if i < j { assert false; }
          if j < i { assert false; }
        }
      }
      s[..j] + s[j + 9..]
  }

  /** `typeWithoutLength`: the two replaces in order. */
  function Bare(s: string): string {
    StripUnsigned(StripLength(s))
  }

  // ---------------------------------------------------------------------
  // The switch and the mapper.
  // ---------------------------------------------------------------------

  /** The switch on the lower-cased bare token. */
  function SwitchType(token: string): Option<PgType> {
    match token
    case "int" => Some(Integer)
    case "tinyint" => Some(Integer)
    case "smallint" => Some(Integer)
    case "mediumint" => Some(Integer)
    case "bigint" => Some(Integer)
    case "float" => Some(Real)
    case "double" => Some(Numeric)
    case "decimal" => Some(Numeric)
    case "datetime" => Some(Timestamp)
    case "timestamp" => Some(Timestamp)
    case "date" => Some(Date)
    case "text" => Some(Text)
    case "tinytext" => Some(Text)
    case "mediumtext" => Some(Text)
    case "longtext" => Some(Text)
    case "char" => Some(Char)
    case "enum" => Some(Varchar)
    case "varchar" => Some(Varchar)
    case _ => None
  }

  /** The mapping table of the switch, as data. */
  const TypeTable: map<string, PgType> := map[
    "int" := Integer, "tinyint" := Integer, "smallint" := Integer,
    "mediumint" := Integer, "bigint" := Integer,
    "float" := Real,
    "double" := Numeric, "decimal" := Numeric,
    "datetime" := Timestamp, "timestamp" := Timestamp,
    "date" := Date,
    "text" := Text, "tinytext" := Text, "mediumtext" := Text, "longtext" := Text,
    "char" := Char,
    "enum" := Varchar, "varchar" := Varchar
  ]

  /** The switch accepts exactly the tokens of the table, with the table's
      result; every other token goes to the default branch. */
  lemma SwitchMatchesTable(token: string)
    ensures SwitchType(token).Some? <==> token in TypeTable
    ensures token in TypeTable ==> SwitchType(token) == Some(TypeTable[token])
  {
  }

  /** `mysqlTypeToPostgresType(mysqlType)`. */
  function MapType(s: string): (r: Result<PgType, MapError>)
    ensures r.Err? ==> r.error == UnsupportedType(s)
  {
    var bare := Bare(s);
    if Contains(Lower(s), "enum") then Ok(Varchar)
    else if Contains(Lower(s), "decimal") then Ok(Numeric)
    else match SwitchType(Lower(bare))
      case Some(t) => Ok(t)
      case None => Err(UnsupportedType(s))
  }

  // ---------------------------------------------------------------------
  // Properties of the mapper.
  // ---------------------------------------------------------------------

  /** The mapper as a whole: the `enum` rule, then the `decimal` rule, both
      tested on the whole lower-cased string, then the table on the
      lower-cased bare token, else the unsupported-type error. */
  lemma MapTypeCases(s: string)
    ensures Contains(Lower(s), "enum") ==> MapType(s) == Ok(Varchar)
    ensures !Contains(Lower(s), "enum") && Contains(Lower(s), "decimal") ==> MapType(s) == Ok(Numeric)
    ensures !Contains(Lower(s), "enum") && !Contains(Lower(s), "decimal") ==>
      MapType(s) == if Lower(Bare(s)) in TypeTable then Ok(TypeTable[Lower(Bare(s))])
                    else Err(UnsupportedType(s))
  {
    SwitchMatchesTable(Lower(Bare(s)));
  }

  /** The mapper succeeds exactly when one of the two substring rules
      applies or the lower-cased bare token is in the table. */
  lemma MapTypeSucceeds(s: string)
    ensures MapType(s).Ok? <==>
      Contains(Lower(s), "enum") || Contains(Lower(s), "decimal") || Lower(Bare(s)) in TypeTable
  {
    MapTypeCases(s);
  }

  /** Any type whose lower-cased form contains `enum` maps to VARCHAR,
      whatever follows it. */
  lemma {:induction false} EnumAnySuffix(s: string, rest: string)
    requires Contains(Lower(s), "enum")
    ensures MapType(s + rest) == Ok(Varchar)
  {
    var i: nat :| OccursAt(Lower(s), "enum", i);
    LowerConcat(s, rest);
    OccursAtPrefix(Lower(s), Lower(rest), "enum", i);
  }

  /** A word with no parenthesis and no white space. */
  predicate PlainWord(w: string) {
    forall i :: 0 <= i < |w| ==> w[i] != '(' && w[i] != ')' && !IsSpace(w[i])
  }

  lemma StripLengthPlain(w: string)
    requires PlainWord(w)
    ensures StripLength(w) == w
  {
  }

  lemma StripUnsignedPlain(w: string)
    requires forall i :: 0 <= i < |w| ==> !IsSpace(w[i])
    ensures StripUnsigned(w) == w
  {
  }

  /** A type with no parenthesis and no white space, such as `text`, is its
      own bare token, so the table decides on it in lower case unless a
      substring rule fires first. */
  lemma BarePlain(w: string)
    requires PlainWord(w)
    ensures Bare(w) == w
    ensures !Contains(Lower(w), "enum") && !Contains(Lower(w), "decimal") ==>
      MapType(w) == if Lower(w) in TypeTable then Ok(TypeTable[Lower(w)]) else Err(UnsupportedType(w))
  {
    StripLengthPlain(w);
    StripUnsignedPlain(w);
    MapTypeCases(w);
  }

  /** `w(n)` followed by anything loses exactly its `(n)`. */
  lemma {:induction false} StripLengthSized(w: string, n: nat, rest: string)
    requires PlainWord(w)
    ensures StripLength(w + "(" + NatToString(n) + ")" + rest) == w + rest
  {
    var d := NatToString(n);
    var s := w + "(" + d + ")" + rest;
    var i, j := |w|, |w| + |d| + 2;
    assert forall t :: i < t < j - 1 ==> s[t] == d[t - i - 1];
    assert LengthGroupAt(s, i, j);
    assert forall i': nat :: i' < i ==> s[i'] == w[i'];
    assert FirstLengthGroup(s, i, j);
    assert s[..i] + s[j..] == w + rest;
  }

  /** A precision group `(p,q)` is not all digits, so the first replace
      leaves `w(p,q)` as it is. */
  lemma {:induction false} StripLengthKeepsPrecision(w: string, p: nat, q: nat)
    requires PlainWord(w)
    ensures var s := w + "(" + NatToString(p) + "," + NatToString(q) + ")";
      StripLength(s) == s
  {
    var dp, dq := NatToString(p), NatToString(q);
    var s := w + "(" + dp + "," + dq + ")";
    var c := |w| + |dp| + 1;
    assert s[c] == ',';
    forall i: nat, j: nat ensures !LengthGroupAt(s, i, j) {
      if i < |w| {
        assert s[i] == w[i];
      } else if i == |w| && i + 2 < j <= |s| && s[j - 1] == ')' {
        assert i < c < j - 1 && !IsDigit(s[c]);
      } else if |w| < i < |s| {
        assert s[i] != '(';
      }
    }
  }

  /** A white-space character and `unsigned` in any case, right after a
      plain word, is removed by the second replace. */
  lemma {:induction false} StripUnsignedAfter(w: string, c: char, u: string, rest: string)
    requires PlainWord(w) && IsSpace(c) && Lower(u) == "unsigned"
    ensures StripUnsigned(w + [c] + u + rest) == w + rest
  {
    var s := w + [c] + u + rest;
    var i := |w|;
    assert s[i + 1..i + 9] == u;
    assert UnsignedAt(s, i);
    assert forall i': nat :: i' < i ==> s[i'] == w[i'];
    assert FirstUnsigned(s, i);
    assert s[..i] + s[i + 9..] == w + rest;
  }

  /** `w(n)` has bare token `w`. */
  lemma {:induction false} BareSized(s: string, w: string, n: nat)
    requires PlainWord(w)
    requires s == w + "(" + NatToString(n) + ")"
    ensures Bare(s) == w
  {
    StripLengthSized(w, n, "");
    assert s + "" == s && w + "" == w;
    StripUnsignedPlain(w);
  }

  /** `w(n) unsigned` (any white-space character, `unsigned` in any case)
      has bare token `w`. */
  lemma {:induction false} BareSizedUnsigned(s: string, w: string, n: nat, c: char, u: string)
    requires PlainWord(w) && IsSpace(c) && Lower(u) == "unsigned"
    requires s == w + "(" + NatToString(n) + ")" + [c] + u
    ensures Bare(s) == w
  {
    var head, tail := w + "(" + NatToString(n) + ")", [c] + u;
    ConcatAssoc(head, [c], u);
    StripLengthSized(w, n, tail);
    ConcatAssoc(w, [c], u);
    ConcatEmpty(w + [c] + u);
    StripUnsignedAfter(w, c, u, "");
    ConcatEmpty(w);
  }

  /** A string without `(` holds no length group: the first replace
      leaves it as it is. */
  lemma StripLengthNoParen(s: string)
    requires forall i :: 0 <= i < |s| ==> s[i] != '('
    ensures StripLength(s) == s
  {
  }

  /** A string equal up to case to `unsigned` has no `(`. */
  lemma UnsignedNoParen(u: string)
    requires Lower(u) == "unsigned"
    ensures forall i :: 0 <= i < |u| ==> u[i] != '('
  {
    forall i | 0 <= i < |u| ensures u[i] != '(' {
      assert Lower(u)[i] in Lower(u);
    }
  }

  /** `w unsigned`, with no display width (the form MySQL 8.0.19 and later
      reports), has bare token `w`. */
  lemma {:induction false} BareUnsigned(w: string, c: char, u: string)
    requires PlainWord(w) && IsSpace(c) && Lower(u) == "unsigned"
    ensures Bare(w + [c] + u) == w
  {
    var s := w + [c] + u;
    UnsignedNoParen(u);
    assert forall i :: 0 <= i < |s| ==> s[i] != '(' by {
      forall i | 0 <= i < |s| ensures s[i] != '(' {
        if i < |w| { assert s[i] == w[i]; }
        else if i > |w| { assert s[i] == u[i - |w| - 1]; }
      }
    }
    StripLengthNoParen(s);
    ConcatEmpty(s);
    StripUnsignedAfter(w, c, u, "");
    ConcatEmpty(w);
  }

  lemma ConcatAssoc(a: string, b: string, c: string)
    ensures a + (b + c) == a + b + c
  {
  }

  lemma ConcatEmpty(a: string)
    ensures a + "" == a
  {
  }

  /** A needle with a character the haystack lacks does not occur in it. */
  lemma {:induction false} MissingCharNotContained(hay: string, needle: string, k: nat)
    requires k < |needle|
    requires needle[k] !in hay
    ensures !Contains(hay, needle)
  {
    forall i: nat | i + |needle| <= |hay| ensures !OccursAt(hay, needle, i) {
      assert hay[i..i + |needle|][k] == hay[i + k];
    }
  }

  /** No character of `s` lower-cases to `c`. */
  predicate Lacks(s: string, c: char) {
    c !in Lower(s)
  }

  lemma LacksConcat(a: string, b: string, c: char)
    requires Lacks(a, c) && Lacks(b, c)
    ensures Lacks(a + b, c)
  {
    LowerConcat(a, b);
  }

  /** A rendered number holds no letter. */
  lemma DigitsLack(n: nat, c: char)
    requires !IsDigit(c)
    ensures Lacks(NatToString(n), c)
  {
  }

  /** A type string without the letter `m` triggers neither substring rule. */
  lemma NoSubstringRule(s: string)
    requires Lacks(s, 'm')
    ensures !Contains(Lower(s), "enum") && !Contains(Lower(s), "decimal")
  {
    MissingCharNotContained(Lower(s), "enum", 3);
    MissingCharNotContained(Lower(s), "decimal", 4);
  }

  /** A token holding a parenthesis is not in the table. */
  lemma ParenNotInTable(t: string, i: nat)
    requires i < |t| && t[i] == '('
    ensures t !in TypeTable
  {
  }

  /** `w(n)`, a plain word with a display width and no `m`: the first
      replace leaves `w`, and the table decides on `w` in lower case. */
  lemma {:induction false} SizedType(w: string, n: nat)
    requires PlainWord(w) && Lacks(w, 'm')
    ensures var s := w + "(" + NatToString(n) + ")";
      && Bare(s) == w
      && MapType(s) == if Lower(w) in TypeTable then Ok(TypeTable[Lower(w)])
                       else Err(UnsupportedType(s))
  {
    var s := w + "(" + NatToString(n) + ")";
    BareSized(s, w, n);
    SizedLacks(w, n, 'm');
    NoSubstringRule(s);
    MapTypeCases(s);
  }

  /** A letter missing from `w` is missing from `w(n)` too. */
  lemma SizedLacks(w: string, n: nat, c: char)
    requires Lacks(w, c) && !IsDigit(c) && c != '(' && c != ')'
    ensures Lacks(w + "(" + NatToString(n) + ")", c)
  {
    DigitsLack(n, c);
    LacksConcat(w, "(", c);
    LacksConcat(w + "(", NatToString(n), c);
    LacksConcat(w + "(" + NatToString(n), ")", c);
  }

  /** `w(n) unsigned`, with any white-space character before `unsigned` and
      `unsigned` in any case: both replaces apply, and the table decides on
      `w` in lower case. */
  lemma {:induction false} SizedUnsignedType(w: string, n: nat, c: char, u: string)
    requires PlainWord(w) && Lacks(w, 'm') && IsSpace(c) && Lower(u) == "unsigned"
    ensures var s := w + "(" + NatToString(n) + ")" + [c] + u;
      && Bare(s) == w
      && MapType(s) == if Lower(w) in TypeTable then Ok(TypeTable[Lower(w)])
                       else Err(UnsupportedType(s))
  {
    var d := NatToString(n);
    var s := w + "(" + d + ")" + [c] + u;
    BareSizedUnsigned(s, w, n, c, u);
    SizedLacks(w, n, 'm');
    LacksConcat(w + "(" + d + ")", [c], 'm');
    LacksConcat(w + "(" + d + ")" + [c], u, 'm');
    NoSubstringRule(s);
    MapTypeCases(s);
  }

  /** `w unsigned` with no display width: the second replace leaves `w`,
      and the table decides on `w` in lower case. */
  lemma {:induction false} UnsignedType(w: string, c: char, u: string)
    requires PlainWord(w) && Lacks(w, 'm') && IsSpace(c) && Lower(u) == "unsigned"
    ensures var s := w + [c] + u;
      && Bare(s) == w
      && MapType(s) == if Lower(w) in TypeTable then Ok(TypeTable[Lower(w)])
                       else Err(UnsupportedType(s))
  {
    var s := w + [c] + u;
    BareUnsigned(w, c, u);
    LacksConcat(w, [c], 'm');
    LacksConcat(w + [c], u, 'm');
    NoSubstringRule(s);
    MapTypeCases(s);
  }

  /** A word equal up to case to a plain word without `m` is itself plain
      and without `m`. */
  lemma PlainUpToCase(w: string, k: string)
    requires Lower(w) == k && PlainWord(k)
    ensures PlainWord(w)
  {
    forall i | 0 <= i < |w| ensures w[i] != '(' && w[i] != ')' && !IsSpace(w[i]) {
      assert LowerChar(w[i]) == k[i];
    }
  }

  /** `int(n) unsigned`, in any case and with any white-space character,
      maps to INTEGER, whatever the display width. */
  lemma IntUnsignedIsInteger(w: string, n: nat, c: char, u: string)
    requires Lower(w) == "int" && IsSpace(c) && Lower(u) == "unsigned"
    ensures MapType(w + "(" + NatToString(n) + ")" + [c] + u) == Ok(Integer)
  {
    IntWord(w);
    SizedUnsignedType(w, n, c, u);
  }

  /** `int unsigned`, as MySQL 8.0.19 and later reports an unsigned
      integer column, maps to INTEGER in any case and with any white-space
      character. */
  lemma IntUnsignedNoWidth(w: string, c: char, u: string)
    requires Lower(w) == "int" && IsSpace(c) && Lower(u) == "unsigned"
    ensures MapType(w + [c] + u) == Ok(Integer)
  {
    IntWord(w);
    UnsignedType(w, c, u);
  }

  lemma IntWord(w: string)
    requires Lower(w) == "int"
    ensures PlainWord(w) && Lacks(w, 'm') && Lower(w) in TypeTable && TypeTable[Lower(w)] == Integer
  {
    PlainUpToCase(w, "int");
  }

  /** `tinyint(n)`, MySQL's boolean, maps to INTEGER. */
  lemma TinyintIsInteger(w: string, n: nat)
    requires Lower(w) == "tinyint"
    ensures MapType(w + "(" + NatToString(n) + ")") == Ok(Integer)
  {
    TinyintWord(w);
    SizedType(w, n);
  }

  lemma TinyintWord(w: string)
    requires Lower(w) == "tinyint"
    ensures PlainWord(w) && Lacks(w, 'm') && Lower(w) in TypeTable && TypeTable[Lower(w)] == Integer
  {
    PlainUpToCase(w, "tinyint");
  }

  /** `char(n)` maps to CHAR, without its length: there is no rule that
      keeps it. */
  lemma CharIsChar(w: string, n: nat)
    requires Lower(w) == "char"
    ensures MapType(w + "(" + NatToString(n) + ")") == Ok(Char)
  {
    CharWord(w);
    SizedType(w, n);
  }

  lemma CharWord(w: string)
    requires Lower(w) == "char"
    ensures PlainWord(w) && Lacks(w, 'm') && Lower(w) in TypeTable && TypeTable[Lower(w)] == Char
  {
    PlainUpToCase(w, "char");
  }

  /** `w(p,q)` keeps its precision group through both replaces. */
  lemma PrecisionBare(s: string, w: string, p: nat, q: nat)
    requires PlainWord(w)
    requires s == w + "(" + NatToString(p) + "," + NatToString(q) + ")"
    ensures Bare(s) == s
  {
    StripLengthKeepsPrecision(w, p, q);
    StripUnsignedPlain(s);
  }

  /** A letter missing from `w` is missing from `w(p,q)` too. */
  lemma PrecisionLacks(w: string, p: nat, q: nat, c: char)
    requires Lacks(w, c) && !IsDigit(c) && c != '(' && c != ',' && c != ')'
    ensures Lacks(w + "(" + NatToString(p) + "," + NatToString(q) + ")", c)
  {
    var dp, dq := NatToString(p), NatToString(q);
    DigitsLack(p, c);
    DigitsLack(q, c);
    LacksConcat(w, "(", c);
    LacksConcat(w + "(", dp, c);
    LacksConcat(w + "(" + dp, ",", c);
    LacksConcat(w + "(" + dp + ",", dq, c);
    LacksConcat(w + "(" + dp + "," + dq, ")", c);
  }

  /** A type string starting with `decimal` in any case and holding no `u`
      triggers the `decimal` rule and not the `enum` rule. */
  lemma DecimalRule(s: string)
    requires |s| >= 7 && Lower(s[..7]) == "decimal" && Lacks(s, 'u')
    ensures !Contains(Lower(s), "enum") && Contains(Lower(s), "decimal")
  {
    MissingCharNotContained(Lower(s), "enum", 2);
    LowerSlice(s, 0, 7);
    assert s[..7] == s[0..7];
    assert OccursAt(Lower(s), "decimal", 0);
  }

  lemma DecimalPrecisionRule(w: string, p: nat, q: nat)
    requires Lower(w) == "decimal"
    ensures var s := w + "(" + NatToString(p) + "," + NatToString(q) + ")";
      !Contains(Lower(s), "enum") && Contains(Lower(s), "decimal")
  {
    var s := w + "(" + NatToString(p) + "," + NatToString(q) + ")";
    PrecisionLacks(w, p, q, 'u');
    assert s[..7] == w;
    DecimalRule(s);
  }

  /** `decimal(p,q)` maps to NUMERIC. Its bare token is still
      `decimal(p,q)` (see `PrecisionBare`), which is no token of the table:
      it is the `decimal` substring rule that maps it. */
  lemma DecimalPrecisionIsNumeric(w: string, p: nat, q: nat)
    requires Lower(w) == "decimal"
    ensures var s := w + "(" + NatToString(p) + "," + NatToString(q) + ")";
      MapType(s) == Ok(Numeric)
  {
    var s := w + "(" + NatToString(p) + "," + NatToString(q) + ")";
    DecimalPrecisionRule(w, p, q);
    MapTypeCases(s);
  }

  /** `w(p,q)` for any other plain word without `m` keeps its precision
      group as well, and is then no token of the table: the mapper throws. */
  lemma {:induction false} PrecisionUnsupported(w: string, p: nat, q: nat)
    requires PlainWord(w) && Lacks(w, 'm')
    ensures var s := w + "(" + NatToString(p) + "," + NatToString(q) + ")";
      Bare(s) == s && MapType(s) == Err(UnsupportedType(s))
  {
    var s := w + "(" + NatToString(p) + "," + NatToString(q) + ")";
    PrecisionBare(s, w, p, q);
    PrecisionLacks(w, p, q, 'm');
    NoSubstringRule(s);
    assert s[|w|] == '(';
    assert Lower(s)[|w|] == '(';
    ParenNotInTable(Lower(s), |w|);
    MapTypeCases(s);
  }

  /** `double(p,q)` is one such type, so a column declared with a
      precision group and no `decimal` in its name is rejected. */
  lemma DoublePrecisionUnsupported(w: string, p: nat, q: nat)
    requires Lower(w) == "double"
    ensures var s := w + "(" + NatToString(p) + "," + NatToString(q) + ")";
      MapType(s) == Err(UnsupportedType(s))
  {
    DoubleWord(w);
    PrecisionUnsupported(w, p, q);
  }

  lemma DoubleWord(w: string)
    requires Lower(w) == "double"
    ensures PlainWord(w) && Lacks(w, 'm')
  {
    PlainUpToCase(w, "double");
  }

  // ---------------------------------------------------------------------
  // Case-insensitivity.
  // ---------------------------------------------------------------------

  /** Lower-casing changes neither parentheses, digits nor white space. */
  lemma LowerCharKeepsClasses(c: char, d: char)
    requires LowerChar(c) == LowerChar(d)
    ensures c == '(' <==> d == '('
    ensures c == ')' <==> d == ')'
    ensures IsDigit(c) <==> IsDigit(d)
    ensures IsSpace(c) <==> IsSpace(d)
  {
  }

  /** Two strings equal up to case have the same length groups. */
  lemma {:induction false} SameLengthGroups(s: string, t: string)
    requires Lower(s) == Lower(t)
    ensures forall i: nat, j: nat :: LengthGroupAt(s, i, j) <==> LengthGroupAt(t, i, j)
  {
    forall k | 0 <= k < |s| ensures
      && (s[k] == '(' <==> t[k] == '(') && (s[k] == ')' <==> t[k] == ')')
      && (IsDigit(s[k]) <==> IsDigit(t[k]))
    {
      assert Lower(s)[k] == Lower(t)[k];
      LowerCharKeepsClasses(s[k], t[k]);
    }
  }

  /** Two strings equal up to case have the same `unsigned` occurrences. */
  lemma {:induction false} SameUnsigned(s: string, t: string)
    requires Lower(s) == Lower(t)
    ensures forall i: nat :: UnsignedAt(s, i) <==> UnsignedAt(t, i)
  {
    forall i: nat | i + 9 <= |s| ensures UnsignedAt(s, i) <==> UnsignedAt(t, i) {
      assert Lower(s)[i] == Lower(t)[i];
      LowerCharKeepsClasses(s[i], t[i]);
      LowerSlice(s, i + 1, i + 9);
      LowerSlice(t, i + 1, i + 9);
    }
  }

  /** Removing the same span from two strings equal up to case leaves two
      strings equal up to case. */
  lemma RemoveSpanLower(s: string, t: string, i: nat, j: nat)
    requires Lower(s) == Lower(t) && i <= j <= |s|
    ensures Lower(s[..i] + s[j..]) == Lower(t[..i] + t[j..])
  {
    LowerConcat(s[..i], s[j..]);
    LowerConcat(t[..i], t[j..]);
    LowerSlice(s, 0, i);
    LowerSlice(t, 0, i);
    LowerSlice(s, j, |s|);
    LowerSlice(t, j, |t|);
    assert s[..i] == s[0..i] && t[..i] == t[0..i];
    assert s[j..] == s[j..|s|] && t[j..] == t[j..|t|];
  }

  lemma {:induction false} StripLengthLower(s: string, t: string)
    requires Lower(s) == Lower(t)
    ensures Lower(StripLength(s)) == Lower(StripLength(t))
  {
    SameLengthGroups(s, t);
    var fs, ft := FindLengthGroup(s, 0), FindLengthGroup(t, 0);
    if fs.Some? {
      var (i, j) := fs.value;
      assert ft.Some?;
      var (i', j') := ft.value;
      assert i == i';
      LengthGroupEnd(s, i, j, j');
      RemoveSpanLower(s, t, i, j);
    }
  }

  lemma {:induction false} StripUnsignedLower(s: string, t: string)
    requires Lower(s) == Lower(t)
    ensures Lower(StripUnsigned(s)) == Lower(StripUnsigned(t))
  {
    SameUnsigned(s, t);
    var fs, ft := FindUnsigned(s, 0), FindUnsigned(t, 0);
    if fs.Some? {
      assert ft.Some? && ft.value == fs.value;
      RemoveSpanLower(s, t, fs.value, fs.value + 9);
    }
  }

  /** The thrown message names the rejected type string. */
  lemma MapTypeErrorMessage(s: string)
    requires MapType(s).Err?
    ensures var m := MapType(s).error.Message();
      && m[..20] == "Tipo nao suportado: "
      && m[20..] == s
  {
  }

  /** The mapper ignores letter case: two type strings that differ only in
      case map to the same PostgreSQL type or both fail. */
  lemma {:induction false} MapTypeIgnoresCase(s: string, t: string)
    requires Lower(s) == Lower(t)
    ensures MapType(s).Ok? <==> MapType(t).Ok?
    ensures MapType(s).Ok? ==> MapType(s).value == MapType(t).value
  {
    StripLengthLower(s, t);
    StripUnsignedLower(StripLength(s), StripLength(t));
    assert Lower(Bare(s)) == Lower(Bare(t));
    assert Contains(Lower(s), "enum") == Contains(Lower(t), "enum");
    assert Contains(Lower(s), "decimal") == Contains(Lower(t), "decimal");
  }

  /** Lower-casing a type string first changes nothing about how it maps. */
  lemma MapTypeOfLowered(s: string)
    ensures MapType(Lower(s)).Ok? <==> MapType(s).Ok?
    ensures MapType(s).Ok? ==> MapType(Lower(s)).value == MapType(s).value
  {
    LowerIdempotent(s);
    MapTypeIgnoresCase(Lower(s), s);
  }
}
