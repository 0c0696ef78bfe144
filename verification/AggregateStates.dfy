/** The running states of aggregate functions: how a value is folded in, how a
    typed column folds its values in, and how a state is finished. */
module AggregateStates {
  import opened Values

  datatype AggregateFunction = Count | Sum | Min | Max | Avg | PercentileCont

  datatype AggregateState =
    | CountState(count: i64)
    | SumState(total: Option<Value>)
    | MinState(extreme: Option<Value>)
    | MaxState(extreme: Option<Value>)
    | AvgState(total: Option<Value>, inputs: u64)
    | PercentileState(expected: u64, seen: u64, scale: Option<u8>, lower: Option<Decimal>, upper: Option<Decimal>)

  /** Binary64 arithmetic, on bit patterns: addition, and the mean of a retained
      numeric sum over a count. */
  datatype FloatOps = FloatOps(add: (u64, u64) -> u64, mean: (Value, u64) -> u64)

  const U64_MAX := 0xFFFF_FFFF_FFFF_FFFF
  const I128_MAX := 0x7FFF_FFFF_FFFF_FFFF_FFFF_FFFF_FFFF_FFFF
  const I128_MIN := -0x8000_0000_0000_0000_0000_0000_0000_0000

  /** initial_aggregate_state */
  function Initial(f: AggregateFunction): AggregateState
  {
    match f
    case Count => CountState(0)
    case Sum => SumState(None)
    case Min => MinState(None)
    case Max => MaxState(None)
    case Avg => AvgState(None, 0)
    case PercentileCont => PercentileState(0, 0, None, None, None)
  }

  /** update_decimal_sum */
  function AddDecimals(total: Decimal, value: Decimal): Result<Decimal>
  {
    if total.scale != value.scale then Err(Corrupt)
    else
      var digits := total.digits + value.digits;
      if digits < I128_MIN || digits > I128_MAX then Err(InvalidArgument)
      else if Precision(Decimal128(digits, total.scale)) > MAX_PRECISION then Err(InvalidArgument)
      else Ok(Decimal128(digits, total.scale))
  }

  function AddValues(ops: FloatOps, total: Value, value: Value): Result<Value>
  {
    match (total, value)
    case (Int64(a), Int64(b)) => if I64_MIN <= a + b <= I64_MAX then Ok(Int64(a + b)) else Err(InvalidArgument)
    case (Float64(a), Float64(b)) => Ok(Float64(ops.add(a, b)))
    case (Decimal(a), Decimal(b)) =>
      var d :- AddDecimals(a, b);
      Ok(Decimal(d))
    case (_, _) => Err(InvalidArgument)
  }

  /** The first value of a sum; `checked` says whether a decimal's precision is
      checked already there. */
  function FirstOfSum(value: Value, checked: bool): Result<Value>
  {
    match value
    case Int64(_) => Ok(value)
    case Float64(_) => Ok(value)
    case Decimal(d) => if checked && Precision(d) > MAX_PRECISION then Err(InvalidArgument) else Ok(value)
    case _ => Err(InvalidArgument)
  }

  function SumNext(ops: FloatOps, total: Option<Value>, value: Value, checked: bool): Result<Option<Value>>
  {
    var next :- if total.None? then FirstOfSum(value, checked) else AddValues(ops, total.value, value);
    Ok(Some(next))
  }

  /** update_extreme */
  function ExtremeNext(extreme: Option<Value>, value: Value, replacement: Ordering): Result<Option<Value>>
  {
    var _ :- CompareOrderValues(value, value);
    if extreme.None? then Ok(Some(value))
    else
      var order :- CompareOrderValues(value, extreme.value);
      Ok(Some(if order == replacement then value else extreme.value))
  }

  function CountNext(count: i64): Result<i64>
  {
    if count == I64_MAX then Err(InvalidArgument) else Ok(count + 1)
  }

  function InputsNext(inputs: u64): Result<u64>
  {
    if inputs == U64_MAX then Err(InvalidArgument) else Ok(inputs + 1)
  }

  function AvgNext(ops: FloatOps, total: Option<Value>, inputs: u64, value: Value, checked: bool)
    : Result<AggregateState>
  {
    var next :- SumNext(ops, total, value, checked);
    var n :- InputsNext(inputs);
    Ok(AvgState(next, n))
  }

  /** update_aggregate_state: NULL inputs leave a state as it is. */
  function UpdateState(ops: FloatOps, s: AggregateState, value: Value): Result<AggregateState>
  {
    if s.PercentileState? then Err(Corrupt)
    else if value.Null? then Ok(s)
    else match s
      case CountState(count) =>
        var n :- CountNext(count);
        Ok(CountState(n))
      case SumState(total) =>
        var next :- SumNext(ops, total, value, true);
        Ok(SumState(next))
      case MinState(extreme) =>
        var next :- ExtremeNext(extreme, value, Less);
        Ok(MinState(next))
      case MaxState(extreme) =>
        var next :- ExtremeNext(extreme, value, Greater);
        Ok(MaxState(next))
      case AvgState(total, inputs) => AvgNext(ops, total, inputs, value, false)
      case PercentileState(_, _, _, _, _) => Err(Corrupt)
  }

  /** update_int64_state, update_float64_state, update_bool_state,
      update_timestamp_state and update_decimal_state: the accumulators of the
      typed columns, which see only non-NULL values. */
  function TypedUpdate(ops: FloatOps, s: AggregateState, value: Value): Result<AggregateState>
  {
    match s
    case CountState(count) =>
      var n :- CountNext(count);
      Ok(CountState(n))
    case MinState(extreme) =>
      var next :- ExtremeNext(extreme, value, Less);
      Ok(MinState(next))
    case MaxState(extreme) =>
      var next :- ExtremeNext(extreme, value, Greater);
      Ok(MaxState(next))
    case SumState(total) =>
      if value.Bool? || value.Timestamp? then UpdateState(ops, s, value)
      else
        var next :- SumNext(ops, total, value, true);
        Ok(SumState(next))
    case AvgState(total, inputs) =>
      if value.Bool? || value.Timestamp? then UpdateState(ops, s, value)
      else AvgNext(ops, total, inputs, value, true)
    case PercentileState(_, _, _, _, _) => Err(Corrupt)
  }

  /** The first input of an average is a decimal too wide for a sum. */
  predicate WideFirstAverage(s: AggregateState, value: Value)
  {
    s.AvgState? && s.total.None? && s.inputs < U64_MAX && value.Decimal? && Precision(value.d) > MAX_PRECISION
  }

  /** The typed accumulators agree with the untyped ones except on an average
      whose first input is a 39-digit decimal: there the typed one refuses, so a
      typed success is always an untyped success with the same state. */
  lemma TypedAgreesIff(ops: FloatOps, s: AggregateState, value: Value)
    requires !value.Null?
    ensures TypedUpdate(ops, s, value) == UpdateState(ops, s, value) <==> !WideFirstAverage(s, value)
    ensures TypedUpdate(ops, s, value).Ok? ==> TypedUpdate(ops, s, value) == UpdateState(ops, s, value)
  {
    if s.AvgState? && s.total.None? && value.Decimal? {
      assert FirstOfSum(value, false) == Ok(value);
    }
  }

  /** Such an input exists, 10^38: the two accumulators really differ on it. */
  lemma TypedAverageDiffers(ops: FloatOps)
    ensures Power10(38) <= I128_MAX
    ensures var wide := Decimal(Decimal128(Power10(38), 0));
            TypedUpdate(ops, Initial(Avg), wide).Err? && UpdateState(ops, Initial(Avg), wide).Ok?
  {
    TenTo38();
    WideDigits(38);
    TypedAgreesIff(ops, Initial(Avg), Decimal(Decimal128(Power10(38), 0)));
  }

  lemma TenTo38()
    ensures Power10(38) == 100_000_000_000_000_000_000_000_000_000_000_000_000
  {
    assert Power10(8) == 100_000_000;
    assert Power10(16) == 10_000_000_000_000_000;
    assert Power10(24) == 1_000_000_000_000_000_000_000_000;
    assert Power10(32) == 100_000_000_000_000_000_000_000_000_000_000;
  }

  function Power10(n: nat): nat
    decreases n
  {
    if n == 0 then 1 else 10 * Power10(n - 1)
  }

  lemma {:induction false} WideDigits(n: nat)
    ensures Power10(n) >= 1 && DigitCount(Power10(n)) == n + 1
    decreases n
  {
    if n > 0 {
      WideDigits(n - 1);
      assert Power10(n) / 10 == Power10(n - 1);
    }
  }

  /** The state after folding a column's values in order. */
  function FoldColumn(ops: FloatOps, f: AggregateFunction, vs: seq<Value>): Result<AggregateState>
  {
    if vs == [] then Ok(Initial(f))
    else
      var s :- FoldColumn(ops, f, vs[..|vs| - 1]);
      UpdateState(ops, s, vs[|vs| - 1])
  }

  lemma FoldLast(ops: FloatOps, f: AggregateFunction, vs: seq<Value>, v: Value)
    ensures FoldColumn(ops, f, vs + [v]) ==
            if FoldColumn(ops, f, vs).Err? then FoldColumn(ops, f, vs)
            else UpdateState(ops, FoldColumn(ops, f, vs).value, v)
  {
    assert (vs + [v])[..|vs|] == vs;
  }

  // ----- percentile_cont -----

  /** update_percentile_count */
  function UpdatePercentileCount(s: AggregateState, count: i64): Result<AggregateState>
  {
    if !s.PercentileState? || count < 0 then Err(Corrupt)
    else if s.expected + count > U64_MAX then Err(InvalidArgument)
    else Ok(s.(expected := s.expected + count))
  }

  function LowerRank(n: nat): nat { (if n == 0 then 0 else n - 1) / 2 }
  function UpperRank(n: nat): nat { n / 2 }

  /** update_percentile_value: retains the values at the two middle ranks. */
  function UpdatePercentileValue(s: AggregateState, value: Decimal): Result<AggregateState>
  {
    if !s.PercentileState? then Err(Corrupt)
    else if s.scale.Some? && s.scale.value != value.scale then Err(Corrupt)
    else if s.seen >= s.expected then Err(Corrupt)
    else
      Ok(s.(
        scale := Some(value.scale),
        lower := if s.seen == LowerRank(s.expected) then Some(value) else s.lower,
        upper := if s.seen == UpperRank(s.expected) then Some(value) else s.upper,
        seen := s.seen + 1))
  }

  function Half(x: int): int { if x >= 0 then x / 2 else -(-x / 2) }
  function Remainder2(x: int): int { x - 2 * Half(x) }

  function CheckedI128(x: int): Option<i128>
  {
    if I128_MIN <= x <= I128_MAX then Some(x) else None
  }

  /** exact_decimal_mean: halves are added before the remainders so that the sum
      of the digits is never formed. */
  function ExactMean(left: Decimal, right: Decimal): Result<Decimal>
  {
    if left.digits % 2 != right.digits % 2 then Err(InvalidArgument)
    else
      var halves := CheckedI128(Half(left.digits) + Half(right.digits));
      if halves.None? then Err(InvalidArgument)
      else
        var mean := CheckedI128(halves.value + Half(Remainder2(left.digits) + Remainder2(right.digits)));
        if mean.None? then Err(InvalidArgument) else NewDecimal(mean.value, left.scale)
  }

  /** The mean is exact, exists exactly when the parities agree, and no
      intermediate sum leaves i128. */
  lemma ExactMeanIsExact(left: Decimal, right: Decimal)
    ensures ExactMean(left, right).Ok? <==> left.digits % 2 == right.digits % 2
    ensures ExactMean(left, right).Ok? ==>
              var m := ExactMean(left, right).value;
              2 * m.digits == left.digits + right.digits && m.scale == left.scale
  {
    HalfOf(left.digits);
    HalfOf(right.digits);
  }

  lemma HalfOf(x: int)
    ensures x == 2 * Half(x) + Remainder2(x) && (Remainder2(x) == 0 <==> x % 2 == 0)
    ensures -1 <= Remainder2(x) <= 1 && (x >= 0 ==> Remainder2(x) >= 0) && (x <= 0 ==> Remainder2(x) <= 0)
  {
  }

  /** finish_percentile */
  function FinishPercentile(expected: nat, seen: nat, lower: Option<Decimal>, upper: Option<Decimal>, t: LogicalType)
    : Result<Value>
  {
    if seen != expected || !t.DecimalType? || lower.None? || upper.None? then Err(Corrupt)
    else if lower.value.scale != t.scale || upper.value.scale != t.scale then Err(Corrupt)
    else
      var m :- if lower.value == upper.value then Ok(lower.value) else ExactMean(lower.value, upper.value);
      if m.scale != t.scale || Precision(m) > t.precision then Err(InvalidArgument) else Ok(Decimal(m))
  }

  predicate IsNumeric(v: Option<Value>)
  {
    v.Some? && (v.value.Int64? || v.value.Float64? || v.value.Decimal?)
  }

  /** finish_aggregate_state */
  function FinishState(ops: FloatOps, s: AggregateState, t: LogicalType): Result<Value>
  {
    match s
    case CountState(count) => Ok(Int64(count))
    case SumState(total) => Ok(if total.Some? then total.value else Null)
    case MinState(extreme) => Ok(if extreme.Some? then extreme.value else Null)
    case MaxState(extreme) => Ok(if extreme.Some? then extreme.value else Null)
    case AvgState(total, inputs) =>
      if inputs == 0 then Ok(Null)
      else if !IsNumeric(total) then Err(Corrupt)
      else Ok(Float64(ops.mean(total.value, inputs)))
    case PercentileState(expected, seen, _, lower, upper) =>
      if expected == 0 && seen == 0 then Ok(Null) else FinishPercentile(expected, seen, lower, upper, t)
  }
}
