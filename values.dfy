/** Row values as the MySQL driver returns them, and `getValue`, which
    turns an invalid date into `null` before the value is bound to a
    PostgreSQL parameter. */
module Values {

  /** A dynamically typed column value. A JavaScript number (integer,
      FLOAT and DOUBLE columns alike) is kept as a real number. A JavaScript
      `Date` is kept as its validity (`!isNaN(value.valueOf())`) and its
      time value. */
  datatype Value =
    | Null
    | Num(x: real)
    | Str(s: string)
    | Bool(b: bool)
    | Bytes(bytes: seq<bv8>)
    | DateValue(valid: bool, epochMillis: int)

  /** A `Date` whose time value is NaN. */
  predicate IsInvalidDate(v: Value) {
    v.DateValue? && !v.valid
  }

  /** `getValue(value)`. */
  function GetValue(v: Value): (r: Value)
    ensures !IsInvalidDate(r)
    ensures !IsInvalidDate(v) ==> r == v
    ensures IsInvalidDate(v) ==> r == Null
  {
    if IsInvalidDate(v) then Null else v
  }

  /** `getValue` returns null exactly for null and for invalid dates. */
  lemma GetValueNull(v: Value)
    ensures GetValue(v) == Null <==> v == Null || IsInvalidDate(v)
  {
  }

  /** Valid dates and every non-date value come back unchanged, and only
      they do. */
  lemma GetValueFixedPoints(v: Value)
    ensures GetValue(v) == v <==> !IsInvalidDate(v)
  {
  }

  lemma GetValueIdempotent(v: Value)
    ensures GetValue(GetValue(v)) == GetValue(v)
  {
  }

  /** `Object.values(row).map((value) => getValue(value))`. */
  function NormalizeAll(values: seq<Value>): (r: seq<Value>)
    ensures |r| == |values|
    ensures forall i :: 0 <= i < |values| ==> r[i] == GetValue(values[i])
    ensures forall i :: 0 <= i < |r| ==> !IsInvalidDate(r[i])
  {
    seq(|values|, i requires 0 <= i < |values| => GetValue(values[i]))
  }

  lemma NormalizeAllIdempotent(values: seq<Value>)
    ensures NormalizeAll(NormalizeAll(values)) == NormalizeAll(values)
  {
  }
}
