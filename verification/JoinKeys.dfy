/** Hash keys of join columns: which values may meet, and when two keys are the
    same key. */
module JoinKeys {
  import opened Values
  import opened Columns
  import opened ScalarOps

  datatype HashValue =
    | HBool(b: bool) | HInt64(i: i64) | HFloat64(bits: u64) | HString(s: seq<u8>)
    | HTimestamp(t: i64) | HBytes(data: seq<u8>) | HDecimal(d: Decimal) | HJson(j: seq<u8>)

  /** float_key_bits: both zeros become the positive one. */
  function FloatKeyBits(bits: u64): u64 { if IsZero(bits) then 0 else bits }

  /** HashValue::from_value: NULL and NaN have no key, vectors and points are errors. */
  function HashValueOf(v: Value): Result<Option<HashValue>>
  {
    match v
    case Null => Ok(None)
    case Bool(b) => Ok(Some(HBool(b)))
    case Int64(i) => Ok(Some(HInt64(i)))
    case Float64(bits) => Ok(if IsNan(bits) then None else Some(HFloat64(FloatKeyBits(bits))))
    case String(s) => Ok(Some(HString(s)))
    case Timestamp(t) => Ok(Some(HTimestamp(t)))
    case Bytes(data) => Ok(Some(HBytes(data)))
    case Decimal(d) => Ok(Some(HDecimal(d)))
    case Json(j) => Ok(Some(HJson(j)))
    case Vector(_) => Err(InvalidArgument)
    case GeoPoint(_, _) => Err(InvalidArgument)
  }

  /** HashValue::from_column: the same key without materializing the value. */
  function ColumnHashValue(c: Column, row: nat): Result<Option<HashValue>>
    requires row < Len(c)
  {
    match c
    case Int64s(vs, validity) => Ok(if IsValid(validity, row) then Some(HInt64(vs[row])) else None)
    case Float64s(vs, validity) =>
      Ok(if IsValid(validity, row) && !IsNan(vs[row]) then Some(HFloat64(FloatKeyBits(vs[row]))) else None)
    case Bools(vs, validity) => Ok(if IsValid(validity, row) then Some(HBool(vs[row])) else None)
    case Timestamps(vs, validity) => Ok(if IsValid(validity, row) then Some(HTimestamp(vs[row])) else None)
    case Decimals(vs, scale, validity) =>
      Ok(if IsValid(validity, row) then Some(HDecimal(Decimal128(vs[row], scale))) else None)
    case Boxed(vs) => HashValueOf(vs[row])
  }

  lemma ColumnHashAgrees(c: Column, row: nat)
    requires row < Len(c)
    ensures ColumnHashValue(c, row) == HashValueOf(ValueAt(c, row))
  {
  }

  /** The engine's equality answers true. */
  predicate EqTrue(n: Numerics, a: Value, b: Value)
  {
    Compare(n, Eq, a, b) == Ok(Bool(true))
  }

  /** An integer that equals a float: equal as numbers, of different key types. */
  predicate MixedEqual(n: Numerics, a: Value, b: Value)
  {
    || (a.Int64? && b.Float64? && !IsNan(b.bits) && n.intFloat(a.i, b.bits) == Equal)
    || (a.Float64? && b.Int64? && !IsNan(a.bits) && n.intFloat(b.i, a.bits) == Equal)
  }

  /** Two values have the same hash key. */
  predicate SameHash(a: Value, b: Value)
  {
    HashValueOf(a).Ok? && HashValueOf(a).value.Some? && HashValueOf(a) == HashValueOf(b)
  }

  /** Hash keys meet exactly when equality answers true, except for an integer
      meeting an equal float. NaN meets nothing, the two zeros meet, and decimals
      meet only at one scale. */
  lemma HashMeansEqual(n: Numerics, a: Value, b: Value)
    requires HashValueOf(a).Ok? && HashValueOf(b).Ok?
    ensures (SameHash(a, b) <==> EqTrue(n, a, b)) <==> !MixedEqual(n, a, b)
    ensures SameHash(a, b) ==> EqTrue(n, a, b)
  {
    if a.String? && b.String? { CompareBytesLaws(a.text, b.text, []); }
  }

  /** HashKey::from_evaluated: no key at all when one component has none. */
  function HashKeyOf(vs: seq<Value>): Result<Option<seq<HashValue>>>
  {
    if vs == [] then Ok(Some([]))
    else
      var front :- HashKeyOf(vs[..|vs| - 1]);
      if front.None? then Ok(None)
      else
        var last :- HashValueOf(vs[|vs| - 1]);
        Ok(if last.None? then None else Some(front.value + [last.value]))
  }

  predicate AllEqTrue(n: Numerics, a: seq<Value>, b: seq<Value>)
  {
    |a| == |b| && forall i :: 0 <= i < |a| ==> EqTrue(n, a[i], b[i])
  }

  predicate NoneMixed(n: Numerics, a: seq<Value>, b: seq<Value>)
  {
    |a| == |b| && forall i :: 0 <= i < |a| ==> !MixedEqual(n, a[i], b[i])
  }

  lemma {:induction false} KeyWidth(vs: seq<Value>)
    ensures HashKeyOf(vs).Ok? && HashKeyOf(vs).value.Some? ==> |HashKeyOf(vs).value.value| == |vs|
  {
    if vs != [] { KeyWidth(vs[..|vs| - 1]); }
  }

  /** Two key tuples of one width meet exactly when every component is equal. */
  lemma {:induction false} KeysMeanEqual(n: Numerics, a: seq<Value>, b: seq<Value>)
    requires HashKeyOf(a).Ok? && HashKeyOf(b).Ok? && NoneMixed(n, a, b)
    ensures (HashKeyOf(a).value.Some? && HashKeyOf(a) == HashKeyOf(b)) <==> AllEqTrue(n, a, b)
  {
    if a != [] {
      var m := |a| - 1;
      KeysMeanEqual(n, a[..m], b[..m]);
      KeyWidth(a[..m]);
      KeyWidth(b[..m]);
      assert AllEqTrue(n, a, b) <==> AllEqTrue(n, a[..m], b[..m]) && EqTrue(n, a[m], b[m]);
      var x, y := HashKeyOf(a[..m]).value, HashKeyOf(b[..m]).value;
      if x.Some? && y.Some? {
        HashMeansEqual(n, a[m], b[m]);
        var u, v := HashValueOf(a[m]).value, HashValueOf(b[m]).value;
        if u.Some? && v.Some? { AppendEqual(x.value, u.value, y.value, v.value); }
      }
    }
  }

  lemma AppendEqual<T>(a: seq<T>, x: T, b: seq<T>, y: T)
    requires |a| == |b|
    ensures a + [x] == b + [y] <==> a == b && x == y
  {
    if a + [x] == b + [y] {
      assert a == (a + [x])[..|a|] && b == (b + [y])[..|b|];
      assert (a + [x])[|a|] == (b + [y])[|b|];
    }
  }
}
