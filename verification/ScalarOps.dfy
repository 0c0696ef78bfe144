/** The scalar operators of the expression language, value by value. */
module ScalarOps {
  import opened Values

  datatype BinaryOp = Eq | Ne | Lt | Le | Gt | Ge | And | Or | Add | Sub | Mul | Div | Distance(metric: nat)

  /** Operators whose results are binary64 or decimal numerics. */
  datatype Numerics = Numerics(
    intFloat: (i64, u64) -> Ordering,
    arithmetic: (BinaryOp, Value, Value) -> Result<Value>,
    distance: (nat, Value, Value) -> Result<Value>)

  // ----- IEEE 754 comparison on bit patterns -----

  const SIGN := 0x8000_0000_0000_0000
  const INFINITY := 0x7FF0_0000_0000_0000

  function Magnitude(bits: u64): nat { if bits < SIGN then bits else bits - SIGN }
  predicate IsNan(bits: u64) { Magnitude(bits) > INFINITY }
  predicate IsZero(bits: u64) { Magnitude(bits) == 0 }

  /** Equality of floats: NaN differs from everything, the two zeros are equal. */
  predicate FloatEq(a: u64, b: u64)
  {
    !IsNan(a) && !IsNan(b) && (a == b || (IsZero(a) && IsZero(b)))
  }

  predicate FloatLt(a: u64, b: u64)
  {
    !IsNan(a) && !IsNan(b) && !(IsZero(a) && IsZero(b)) && TotalOrderKey(a) < TotalOrderKey(b)
  }

  predicate CompareFloats(op: BinaryOp, a: u64, b: u64)
  {
    match op
    case Eq => FloatEq(a, b)
    case Ne => !FloatEq(a, b)
    case Lt => FloatLt(a, b)
    case Le => FloatLt(a, b) || FloatEq(a, b)
    case Gt => FloatLt(b, a)
    case _ => FloatLt(b, a) || FloatEq(a, b)
  }

  /** Without NaN the comparison is a total order on the values. */
  lemma FloatTrichotomy(a: u64, b: u64)
    requires !IsNan(a) && !IsNan(b)
    ensures (FloatLt(a, b) && !FloatEq(a, b) && !FloatLt(b, a)) ||
            (!FloatLt(a, b) && FloatEq(a, b) && !FloatLt(b, a)) ||
            (!FloatLt(a, b) && !FloatEq(a, b) && FloatLt(b, a))
  {
  }

  predicate CompareOrdering(op: BinaryOp, o: Ordering)
  {
    match op
    case Eq => o == Equal
    case Ne => o != Equal
    case Lt => o == Less
    case Le => o != Greater
    case Gt => o == Greater
    case _ => o != Less
  }

  /** compare_int_float and compare_float_int */
  predicate CompareMixed(n: Numerics, op: BinaryOp, i: i64, f: u64, reversed: bool)
  {
    if IsNan(f) then op == Ne
    else CompareOrdering(op, if reversed then Reverse(n.intFloat(i, f)) else n.intFloat(i, f))
  }

  predicate IsComparison(op: BinaryOp) { op.Eq? || op.Ne? || op.Lt? || op.Le? || op.Gt? || op.Ge? }

  /** evaluate_comparison */
  function Compare(n: Numerics, op: BinaryOp, l: Value, r: Value): Result<Value>
  {
    if l.Null? || r.Null? then Ok(Null)
    else match (l, r)
      case (Bool(a), Bool(b)) => Ok(Bool(CompareOrdering(op, CompareBool(a, b))))
      case (Int64(a), Int64(b)) => Ok(Bool(CompareOrdering(op, CompareInt(a, b))))
      case (Float64(a), Float64(b)) => Ok(Bool(CompareFloats(op, a, b)))
      case (String(a), String(b)) => Ok(Bool(CompareOrdering(op, CompareBytes(a, b))))
      case (Int64(a), Float64(b)) => Ok(Bool(CompareMixed(n, op, a, b, false)))
      case (Float64(a), Int64(b)) => Ok(Bool(CompareMixed(n, op, b, a, true)))
      case (Timestamp(a), Timestamp(b)) => Ok(Bool(CompareOrdering(op, CompareInt(a, b))))
      case (Decimal(a), Decimal(b)) =>
        if a.scale != b.scale then Err(InvalidArgument)
        else Ok(Bool(CompareOrdering(op, CompareInt(a.digits, b.digits))))
      case (Bytes(a), Bytes(b)) => if op.Eq? || op.Ne? then Ok(Bool((a == b) == op.Eq?)) else Err(InvalidArgument)
      case (Json(a), Json(b)) => if op.Eq? || op.Ne? then Ok(Bool((a == b) == op.Eq?)) else Err(InvalidArgument)
      case (_, _) => Err(InvalidArgument)
  }

  // ----- Kleene logic -----

  predicate IsTruth(v: Value) { v.Null? || v.Bool? }

  /** evaluate_and */
  function KleeneAnd(l: Value, r: Value): Result<Value>
  {
    if !IsTruth(l) || !IsTruth(r) then Err(InvalidArgument)
    else if l == Bool(false) || r == Bool(false) then Ok(Bool(false))
    else if l.Null? || r.Null? then Ok(Null)
    else Ok(Bool(true))
  }

  /** evaluate_or */
  function KleeneOr(l: Value, r: Value): Result<Value>
  {
    if !IsTruth(l) || !IsTruth(r) then Err(InvalidArgument)
    else if l == Bool(true) || r == Bool(true) then Ok(Bool(true))
    else if l.Null? || r.Null? then Ok(Null)
    else Ok(Bool(false))
  }

  /** evaluate_not */
  function KleeneNot(v: Value): Result<Value>
  {
    match v
    case Bool(b) => Ok(Bool(!b))
    case Null => Ok(Null)
    case _ => Err(InvalidArgument)
  }

  /** A truth value that an unknown one may turn out to be. */
  predicate Completes(v: Value, b: bool) { v.Null? || v == Bool(b) }

  /** NULL is an unknown truth value: `and` and `or` answer exactly when every way
      of filling in the unknowns gives that answer. */
  lemma KleeneIsUnknownTruth(l: Value, r: Value, b: bool)
    requires IsTruth(l) && IsTruth(r)
    ensures KleeneAnd(l, r) == Ok(Bool(b)) <==> forall x, y :: Completes(l, x) && Completes(r, y) ==> (x && y) == b
    ensures KleeneOr(l, r) == Ok(Bool(b)) <==> forall x, y :: Completes(l, x) && Completes(r, y) ==> (x || y) == b
  {
    var x0, y0 := if l.Null? then !b else l.b, if r.Null? then !b else r.b;
    var x1, y1 := if l.Null? then b else l.b, if r.Null? then b else r.b;
    assert Completes(l, x0) && Completes(r, y0) && Completes(l, x1) && Completes(r, y1);
  }

  /** evaluate_binary */
  function EvaluateBinary(n: Numerics, op: BinaryOp, l: Value, r: Value): Result<Value>
  {
    if IsComparison(op) then Compare(n, op, l, r)
    else match op
      case And => KleeneAnd(l, r)
      case Or => KleeneOr(l, r)
      case Distance(metric) => n.distance(metric, l, r)
      case _ => if l.Null? || r.Null? then Ok(Null) else n.arithmetic(op, l, r)
  }

  // ----- extrema -----

  /** compare_extrema_values: the deterministic order without NULL. */
  function CompareExtrema(l: Value, r: Value): Result<Ordering>
  {
    if l.Null? || r.Null? then Err(InvalidArgument)
    else match CompareOrderValues(l, r) case Ok(o) => Ok(o) case Err(_) => Err(InvalidArgument)
  }

  /** One operand of least or greatest against the best so far; NULLs are skipped. */
  function BetterExtreme(current: Value, candidate: Value, replacement: Ordering): Result<Value>
  {
    if candidate.Null? then Ok(current)
    else if current.Null? then Ok(candidate)
    else
      var o :- CompareExtrema(candidate, current);
      Ok(if o == replacement then candidate else current)
  }

  // ----- dates -----

  const MICROS_PER_DAY := 86_400_000_000

  /** The first whole day of the Timestamp domain, and the end of its last, partial one. */
  const FIRST_DAY := -106751991 * MICROS_PER_DAY
  const PAST_LAST_DAY := 106751992 * MICROS_PER_DAY

  /** evaluate_date_trunc for days */
  function DateTrunc(v: Value): Result<Value>
  {
    match v
    case Null => Ok(Null)
    case Timestamp(t) =>
      var floor := t / MICROS_PER_DAY * MICROS_PER_DAY;
      if floor < I64_MIN then Err(InvalidArgument) else Ok(Timestamp(floor))
    case _ => Err(InvalidArgument)
  }

  /** evaluate_date_add for days */
  function DateAdd(v: Value, amount: Value): Result<Value>
  {
    if v.Null? || amount.Null? then Ok(Null)
    else match (v, amount)
      case (Timestamp(t), Int64(days)) =>
        var offset := days * MICROS_PER_DAY;
        if offset < I64_MIN || offset > I64_MAX then Err(InvalidArgument)
        else if t + offset < I64_MIN || t + offset > I64_MAX then Err(InvalidArgument)
        else Ok(Timestamp(t + offset))
      case (_, _) => Err(InvalidArgument)
  }

  /** Truncation is the latest day start not after the instant, and fails exactly
      in the first, partial day of the Timestamp domain. */
  lemma DateTruncIsFloor(t: i64)
    ensures DateTrunc(Timestamp(t)).Ok? <==> t >= FIRST_DAY
    ensures DateTrunc(Timestamp(t)).Ok? ==>
              var d := DateTrunc(Timestamp(t)).value;
              d.Timestamp? && d.micros % MICROS_PER_DAY == 0 && d.micros <= t < d.micros + MICROS_PER_DAY
  {
  }

  /** Adding days moves an instant by whole days, if neither the shift nor the result
      leaves the Timestamp domain. */
  lemma DateAddMeans(t: i64, days: i64, u: i64)
    ensures DateAdd(Timestamp(t), Int64(days)) == Ok(Timestamp(u)) <==>
            I64_MIN <= days * 86_400_000_000 <= I64_MAX && u == t + days * 86_400_000_000
    ensures DateAdd(Timestamp(t), Int64(days)).Ok? <==>
            I64_MIN <= days * 86_400_000_000 <= I64_MAX && I64_MIN <= t + days * 86_400_000_000 <= I64_MAX
  {
  }

  function AddThenTrunc(v: Value, amount: Value): Result<Value>
  {
    var moved :- DateAdd(v, amount);
    DateTrunc(moved)
  }

  function TruncThenAdd(v: Value, amount: Value): Result<Value>
  {
    var day :- DateTrunc(v);
    DateAdd(day, amount)
  }

  /** Where one order succeeds and the other is refused: an instant in the first,
      partial day that is moved out of it; one moved past the domain but within its
      last day; and an untruncatable value to which NULL days are added. */
  predicate OrderMatters(v: Value, amount: Value)
  {
    match (v, amount)
    case (Null, _) => false
    case (Timestamp(t), Null) => t < FIRST_DAY
    case (_, Null) => true
    case (Timestamp(t), Int64(days)) =>
      var offset := days * MICROS_PER_DAY;
      && I64_MIN <= offset <= I64_MAX
      && ((t < FIRST_DAY <= t + offset <= I64_MAX) || (FIRST_DAY <= t && I64_MAX < t + offset < PAST_LAST_DAY))
    case (_, _) => false
  }

  /** Adding whole days commutes with truncation, value and failure alike, exactly
      outside these edges; and two successes never disagree. */
  lemma TruncCommutesWithAdd(v: Value, amount: Value)
    ensures AddThenTrunc(v, amount) == TruncThenAdd(v, amount) <==> !OrderMatters(v, amount)
    ensures OrderMatters(v, amount) ==> (AddThenTrunc(v, amount).Ok? <==> TruncThenAdd(v, amount).Err?)
  {
    if v.Timestamp? && amount.Int64? {
      ShiftedFloor(v.micros, amount.i);
      DayFits(v.micros / MICROS_PER_DAY + amount.i);
      DayFits(v.micros / MICROS_PER_DAY);
    }
  }

  /** Which day starts lie in the Timestamp domain. */
  lemma DayFits(day: int)
    ensures I64_MIN <= day * MICROS_PER_DAY <==> -106751991 <= day
    ensures day * MICROS_PER_DAY <= I64_MAX <==> day <= 106751991
  {
  }

  lemma ShiftedFloor(t: int, days: int)
    ensures (t + days * MICROS_PER_DAY) / MICROS_PER_DAY == t / MICROS_PER_DAY + days
  {
    var q, r := t / MICROS_PER_DAY, t % MICROS_PER_DAY;
    assert t + days * MICROS_PER_DAY == (q + days) * MICROS_PER_DAY + r;
    var q' := (t + days * MICROS_PER_DAY) / MICROS_PER_DAY;
    var r' := (t + days * MICROS_PER_DAY) % MICROS_PER_DAY;
    assert (q + days - q') * MICROS_PER_DAY == r' - r;
  }
}
