/** Runtime values, exact decimals, and the deterministic order that Sort and
    Aggregate compare keys with. Floats are carried as IEEE 754 bit patterns. */
module Values {

  type u8 = x: int | 0 <= x < 0x100
  type u32 = x: int | 0 <= x < 0x1_0000_0000
  type u64 = x: int | 0 <= x < 0x1_0000_0000_0000_0000
  type i64 = x: int | -0x8000_0000_0000_0000 <= x < 0x8000_0000_0000_0000
  type i128 = x: int | -0x8000_0000_0000_0000_0000_0000_0000_0000 <= x < 0x8000_0000_0000_0000_0000_0000_0000_0000

  const MAX_PRECISION := 38
  const MAX_SCALE := 38
  const USIZE_MAX := 0xFFFF_FFFF_FFFF_FFFF
  const I64_MAX := 0x7FFF_FFFF_FFFF_FFFF
  const I64_MIN := -0x8000_0000_0000_0000

  /** The failure classes of the engine, without their message texts. */
  datatype Error = Corrupt | InvalidArgument | BudgetExceeded | Upstream(code: nat)

  datatype Result<+T> = Ok(value: T) | Err(error: Error) {
    predicate IsFailure() { Err? }
    function PropagateFailure<U>(): Result<U>
      requires Err?
    {
      Err(error)
    }
    function Extract(): T
      requires Ok?
    {
      value
    }
  }

  datatype Option<+T> = None | Some(value: T)

  /** An unscaled integer with a scale; the scale never exceeds `MAX_SCALE`. */
  datatype RawDecimal = Decimal128(digits: i128, scale: u8)
  type Decimal = d: RawDecimal | d.scale <= MAX_SCALE witness Decimal128(0, 0)

  /** Decimal128::new: the only way a decimal comes into existence. */
  function NewDecimal(digits: i128, scale: u8): (r: Result<Decimal>)
    ensures r.Ok? <==> scale <= MAX_SCALE
    ensures r.Ok? ==> r.value.digits == digits && r.value.scale == scale
  {
    if scale > MAX_SCALE then Err(InvalidArgument) else Ok(Decimal128(digits, scale))
  }

  datatype Value =
    | Null
    | Bool(b: bool)
    | Int64(i: i64)
    | Float64(bits: u64)
    | String(text: seq<u8>)
    | Vector(elements: seq<u32>)
    | GeoPoint(lat: u64, lng: u64)
    | Timestamp(micros: i64)
    | Bytes(data: seq<u8>)
    | Decimal(d: Decimal)
    | Json(json: seq<u8>)

  type Row = seq<Value>

  function DigitCount(n: nat): nat
  {
    if n < 10 then 1 else 1 + DigitCount(n / 10)
  }

  /** Decimal128::precision */
  function Precision(d: Decimal): nat
  {
    var n: int := d.digits;
    DigitCount(if n < 0 then -n else n)
  }

  /** Column and result types; an encoded vector holds plain vector values. */
  datatype LogicalType =
    | BoolType
    | Int64Type
    | Float64Type
    | StringType
    | GeoPointType
    | VectorType(dim: u32)
    | TimestampType
    | BytesType
    | DecimalType(precision: u8, scale: u8)
    | JsonType

  /** Value::matches_type */
  predicate MatchesType(v: Value, t: LogicalType)
  {
    match v
    case Null => true
    case Bool(_) => t.BoolType?
    case Int64(_) => t.Int64Type?
    case Float64(_) => t.Float64Type?
    case String(_) => t.StringType?
    case Vector(elements) => t.VectorType? && |elements| == t.dim
    case GeoPoint(_, _) => t.GeoPointType?
    case Timestamp(_) => t.TimestampType?
    case Bytes(_) => t.BytesType?
    case Decimal(d) => t.DecimalType? && d.scale == t.scale && Precision(d) <= t.precision
    case Json(_) => t.JsonType?
  }

  /** Value::approx_bytes, the estimate every operator charges. */
  function ApproxBytes(v: Value): (n: nat)
  {
    match v
    case Null => 16
    case Bool(_) => 16
    case Int64(_) => 16
    case Float64(_) => 16
    case Timestamp(_) => 16
    case GeoPoint(_, _) => 24
    case Decimal(_) => 24
    case String(s) => 32 + |s|
    case Bytes(s) => 32 + |s|
    case Json(s) => 32 + |s|
    case Vector(s) => 32 + 4 * |s|
  }

  lemma Assoc<T>(a: seq<T>, b: seq<T>, c: seq<T>)
    ensures a + (b + c) == (a + b) + c
  {
  }

  lemma Grow<T>(a: seq<T>, b: seq<T>, i: nat)
    requires i < |b|
    ensures a + b[..i + 1] == (a + b[..i]) + [b[i]]
  {
    assert b[..i + 1] == b[..i] + [b[i]];
  }

  // ----- orderings -----

  datatype Ordering = Less | Equal | Greater

  function Reverse(o: Ordering): Ordering
  {
    match o
    case Less => Greater
    case Equal => Equal
    case Greater => Less
  }

  function CompareInt(a: int, b: int): Ordering
  {
    if a < b then Less else if a == b then Equal else Greater
  }

  function CompareBool(a: bool, b: bool): Ordering
  {
    if a == b then Equal else if b then Less else Greater
  }

  /** Lexicographic byte order, the order of Rust strings. */
  function CompareBytes(a: seq<u8>, b: seq<u8>): Ordering
  {
    if a == [] && b == [] then Equal
    else if a == [] then Less
    else if b == [] then Greater
    else if a[0] != b[0] then CompareInt(a[0], b[0])
    else CompareBytes(a[1..], b[1..])
  }

  /** The totalOrder predicate of section 5.10 of IEEE 754-2008 as an integer
      key: `f64::total_cmp` compares these keys. */
  function TotalOrderKey(bits: u64): (k: int)
    ensures bits < 0x8000_0000_0000_0000 <==> k >= 0
  {
    if bits < 0x8000_0000_0000_0000 then bits else 0x7FFF_FFFF_FFFF_FFFF - bits
  }

  /** compare_order_values: NULL first, then one order per scalar type. Mixed
      types, unequal decimal scales and unorderable types are errors. */
  function CompareOrderValues(l: Value, r: Value): Result<Ordering>
  {
    match (l, r)
    case (Null, Null) => Ok(Equal)
    case (Null, _) => Ok(Less)
    case (_, Null) => Ok(Greater)
    case (Bool(a), Bool(b)) => Ok(CompareBool(a, b))
    case (Int64(a), Int64(b)) => Ok(CompareInt(a, b))
    case (Float64(a), Float64(b)) => Ok(CompareInt(TotalOrderKey(a), TotalOrderKey(b)))
    case (String(a), String(b)) => Ok(CompareBytes(a, b))
    case (Timestamp(a), Timestamp(b)) => Ok(CompareInt(a, b))
    case (Decimal(a), Decimal(b)) =>
      if a.scale != b.scale then Err(Corrupt) else Ok(CompareInt(a.digits, b.digits))
    case (_, _) => Err(Corrupt)
  }

  /** compare_key_tuples: component by component, then by length. */
  function CompareKeyTuples(l: Row, r: Row): Result<Ordering>
  {
    if l == [] || r == [] then Ok(CompareInt(|l|, |r|))
    else
      var o :- CompareOrderValues(l[0], r[0]);
      if o != Equal then Ok(o) else CompareKeyTuples(l[1..], r[1..])
  }

  datatype SortOrder = Asc | Desc

  function Directed(order: SortOrder, o: Ordering): Ordering
  {
    if order == Desc then Reverse(o) else o
  }

  /** compare_sort_rows over two key tuples: zipped with the sort directions,
      so a missing component ends the comparison. */
  function CompareDirected(orders: seq<SortOrder>, l: Row, r: Row): Result<Ordering>
    decreases |orders|
  {
    if orders == [] || l == [] || r == [] then Ok(Equal)
    else
      var o :- CompareOrderValues(l[0], r[0]);
      var o := Directed(orders[0], o);
      if o != Equal then Ok(o) else CompareDirected(orders[1..], l[1..], r[1..])
  }

  // ----- the laws of a fallible comparison -----

  /** Swapping the operands reverses the answer and keeps failures. */
  ghost predicate Mirrored(ab: Result<Ordering>, ba: Result<Ordering>)
  {
    (ab.Ok? <==> ba.Ok?) && (ab.Ok? ==> ba.value == Reverse(ab.value))
  }

  predicate AtMost(r: Result<Ordering>)
  {
    r.Ok? && r.value != Greater
  }

  /** If a <= b and b <= c are both answered then a <= c is answered too, and
      it is strict when either step is. */
  ghost predicate Chained(ab: Result<Ordering>, bc: Result<Ordering>, ac: Result<Ordering>)
  {
    AtMost(ab) && AtMost(bc) ==>
      ac == Ok(if ab.value == Less || bc.value == Less then Less else Equal)
  }

  lemma {:induction false} CompareBytesLaws(a: seq<u8>, b: seq<u8>, c: seq<u8>)
    ensures CompareBytes(a, b) == Reverse(CompareBytes(b, a))
    ensures CompareBytes(a, b) == Equal <==> a == b
    ensures Chained(Ok(CompareBytes(a, b)), Ok(CompareBytes(b, c)), Ok(CompareBytes(a, c)))
    decreases |a| + |b|
  {
    if a != [] && b != [] {
      CompareBytesLaws(a[1..], b[1..], if c == [] then [] else c[1..]);
      assert a == [a[0]] + a[1..] && b == [b[0]] + b[1..];
    }
  }

  /** compare_order_values is a partial order answer: mirrored, chained, and
      Equal exactly on identical orderable values. */
  lemma CompareOrderValuesLaws(a: Value, b: Value, c: Value)
    ensures Mirrored(CompareOrderValues(a, b), CompareOrderValues(b, a))
    ensures Chained(CompareOrderValues(a, b), CompareOrderValues(b, c), CompareOrderValues(a, c))
    ensures CompareOrderValues(a, b) == Ok(Equal) <==> a == b && CompareOrderValues(a, a).Ok?
  {
    if a.String? && b.String? {
      CompareBytesLaws(a.text, b.text, if c.String? then c.text else []);
      CompareBytesLaws(b.text, a.text, []);
    }
    if a.String? { CompareBytesLaws(a.text, a.text, []); }
  }

  lemma {:induction false} CompareKeyTuplesLaws(a: Row, b: Row, c: Row)
    ensures Mirrored(CompareKeyTuples(a, b), CompareKeyTuples(b, a))
    ensures Chained(CompareKeyTuples(a, b), CompareKeyTuples(b, c), CompareKeyTuples(a, c))
    ensures CompareKeyTuples(a, b) == Ok(Equal) ==> a == b
    decreases |a| + |b|
  {
    if a != [] && b != [] {
      var c0 := if c == [] then Null else c[0];
      CompareOrderValuesLaws(a[0], b[0], c0);
      CompareOrderValuesLaws(b[0], c0, a[0]);
      CompareKeyTuplesLaws(a[1..], b[1..], if c == [] then [] else c[1..]);
      assert a == [a[0]] + a[1..] && b == [b[0]] + b[1..];
    }
  }

  /** The directed comparison obeys the laws on rows that carry one value per
      sort key, which is what the evaluator produces. */
  lemma {:induction false} CompareDirectedLaws(orders: seq<SortOrder>, a: Row, b: Row, c: Row)
    requires |a| == |b| == |c| == |orders|
    ensures Mirrored(CompareDirected(orders, a, b), CompareDirected(orders, b, a))
    ensures Chained(CompareDirected(orders, a, b), CompareDirected(orders, b, c), CompareDirected(orders, a, c))
    decreases |orders|
  {
    if orders != [] {
      CompareOrderValuesLaws(a[0], b[0], c[0]);
      CompareOrderValuesLaws(c[0], b[0], a[0]);
      CompareOrderValuesLaws(b[0], c[0], a[0]);
      CompareOrderValuesLaws(a[0], c[0], b[0]);
      CompareDirectedLaws(orders[1..], a[1..], b[1..], c[1..]);
    }
  }

  /** Without one value per key the zipped comparison is not transitive. */
  lemma ShortKeysBreakTheOrder()
    ensures var orders := [Asc]; var a, b, c := [Int64(1)], [], [Int64(0)];
            && CompareDirected(orders, a, b) == Ok(Equal)
            && CompareDirected(orders, b, c) == Ok(Equal)
            && CompareDirected(orders, a, c) == Ok(Greater)
  {
    var a: Row, c: Row := [Int64(1)], [Int64(0)];
    assert CompareDirected([Asc], a, c) == Ok(Greater);
  }
}
