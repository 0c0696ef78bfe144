/** What the aggregate functions compute: counts, sums, means, extremes and medians
    of a group's values, in plain terms, and what a whole answer therefore holds. */
module AggregateMeaning {
  import opened Values
  import opened ValueOrder
  import opened Selection
  import opened Grouping
  import opened AggregateStates
  import opened Percentile
  import opened AggregateRecords
  import opened MergedGroups
  import opened AggregateGroups

  // ----- decimal digits -----

  /** A decimal has at most p digits exactly when it lies below the p-th power of ten. */
  lemma {:induction false} DigitsFit(n: nat, p: nat)
    requires p > 0
    ensures DigitCount(n) <= p <==> n < Power10(p)
    decreases p
  {
    if p == 1 {
      assert Power10(1) == 10 * Power10(0) == 10;
    } else {
      DigitsFit(n / 10, p - 1);
      assert n / 10 < Power10(p - 1) <==> n < Power10(p);
      if n < 10 { PowerPositive(p - 1); }
    }
  }

  lemma {:induction false} PowerPositive(p: nat)
    ensures Power10(p) >= 1
    decreases p
  {
    if p > 0 { PowerPositive(p - 1); }
  }

  /** Ten to the power of 38, the digits a decimal sum may have. */
  const DECIMAL_BOUND := 100_000_000_000_000_000_000_000_000_000_000_000_000

  predicate DecimalRange(total: int) { -DECIMAL_BOUND < total < DECIMAL_BOUND }

  lemma PrecisionMeans(digits: int)
    requires I128_MIN <= digits <= I128_MAX
    ensures Precision(Decimal128(digits, 0)) <= MAX_PRECISION <==> DecimalRange(digits)
  {
    DigitsFit(if digits < 0 then -digits else digits, MAX_PRECISION);
    TenTo38();
  }

  lemma RangeFits(total: int)
    requires DecimalRange(total)
    ensures I128_MIN <= total <= I128_MAX
  {
  }

  // ----- sums -----

  function Known(v: Value): Option<Value> { if v.Null? then None else Some(v) }

  /** The values that are not NULL, in order. */
  function Present(vs: seq<Value>): seq<Value> { Pick(vs, Known) }

  function Amount(v: Value): int
  {
    match v
    case Int64(i) => i
    case Decimal(d) => d.digits
    case _ => 0
  }

  /** The arithmetic sum of integers, or of the digits of decimals at one scale. */
  function Total(vs: seq<Value>): int
  {
    if vs == [] then 0 else Total(vs[..|vs| - 1]) + Amount(vs[|vs| - 1])
  }

  /** Binary64 sums are taken from the left. */
  function FloatTotal(ops: FloatOps, vs: seq<Value>): u64
  {
    if vs == [] || !vs[|vs| - 1].Float64? then 0
    else if |vs| == 1 then vs[0].bits
    else ops.add(FloatTotal(ops, vs[..|vs| - 1]), vs[|vs| - 1].bits)
  }

  /** Two summable values of one type, decimals at one scale. */
  predicate Alike(a: Value, b: Value)
  {
    || (a.Int64? && b.Int64?) || (a.Float64? && b.Float64?)
    || (a.Decimal? && b.Decimal? && a.d.scale == b.d.scale)
  }

  ghost predicate AllAlike(vs: seq<Value>)
  {
    forall i :: 0 <= i < |vs| ==> Alike(vs[0], vs[i])
  }

  /** `v` is the sum of the values, NULL for no values. */
  ghost predicate IsSum(ops: FloatOps, vs: seq<Value>, v: Value)
  {
    if vs == [] then v == Null
    else
      && AllAlike(vs)
      && match vs[0]
         case Int64(_) => v.Int64? && v.i == Total(vs)
         case Decimal(d) => v.Decimal? && v.d.scale == d.scale && v.d.digits == Total(vs)
         case Float64(_) => v == Float64(FloatTotal(ops, vs))
         case _ => false
  }

  /** A running total that the sum's type can hold. */
  ghost predicate Holdable(first: Value, total: int)
  {
    match first
    case Int64(_) => I64_MIN <= total <= I64_MAX
    case Decimal(_) => DecimalRange(total)
    case _ => true
  }

  ghost predicate Summable(vs: seq<Value>, from: nat)
  {
    AllAlike(vs) && AllHoldable(vs, from)
  }

  lemma TotalLast(vs: seq<Value>, v: Value)
    ensures Total(vs + [v]) == Total(vs) + Amount(v)
  {
    assert (vs + [v])[..|vs|] == vs;
  }

  lemma FloatTotalLast(ops: FloatOps, vs: seq<Value>, v: Value)
    requires vs != [] && v.Float64?
    ensures FloatTotal(ops, vs + [v]) == ops.add(FloatTotal(ops, vs), v.bits)
  {
    assert (vs + [v])[..|vs|] == vs;
  }

  lemma AlikeLast(vs: seq<Value>, v: Value)
    requires vs != []
    ensures AllAlike(vs + [v]) <==> AllAlike(vs) && Alike(vs[0], v)
  {
    var all := vs + [v];
    if AllAlike(all) {
      assert Alike(all[0], all[|vs|]);
      forall i | 0 <= i < |vs| ensures Alike(vs[0], vs[i]) { assert Alike(all[0], all[i]); }
    }
  }

  lemma SummableLast(vs: seq<Value>, v: Value, from: nat)
    requires vs != []
    ensures Summable(vs + [v], from) <==>
            Summable(vs, from) && Alike(vs[0], v) && (from <= |vs| + 1 ==> Holdable(vs[0], Total(vs) + Amount(v)))
  {
    AlikeLast(vs, v);
    TotalLast(vs, v);
    assert (vs + [v])[..|vs|] == vs;
  }

  /** Every running total from the given number of values on can be held. */
  ghost predicate AllHoldable(vs: seq<Value>, from: nat)
  {
    vs != [] ==> AllHoldable(vs[..|vs| - 1], from) && (from <= |vs| ==> Holdable(vs[0], Total(vs)))
  }

  /** One more summand: it is added exactly when the new total can be held. */
  lemma AddMeans(ops: FloatOps, vs: seq<Value>, total: Value, v: Value)
    requires vs != [] && IsSum(ops, vs, total)
    ensures AddValues(ops, total, v).Ok? <==> Alike(vs[0], v) && Holdable(vs[0], Total(vs) + Amount(v))
    ensures AddValues(ops, total, v).Ok? ==> IsSum(ops, vs + [v], AddValues(ops, total, v).value)
  {
    AlikeLast(vs, v);
    TotalLast(vs, v);
    if v.Float64? { FloatTotalLast(ops, vs, v); }
    if total.Decimal? && v.Decimal? {
      var sum := total.d.digits + v.d.digits;
      if DecimalRange(sum) { RangeFits(sum); }
      if I128_MIN <= sum <= I128_MAX { PrecisionMeans(sum); }
    }
  }

  lemma OneSummable(v: Value)
    ensures Summable([v], 1) <==> Alike(v, v) && Holdable(v, Amount(v))
    ensures Summable([v], 2) <==> Alike(v, v)
    ensures Total([v]) == Amount(v) && (AllAlike([v]) <==> Alike(v, v))
  {
    TotalLast([], v);
    assert [] + [v] == [v] && [v][..1] == [v];
    var none: seq<Value> := [];
    assert [v][..0] == none && AllHoldable(none, 1) && AllHoldable(none, 2);
    assert AllAlike([v]) <==> Alike([v][0], [v][0]);
  }

  lemma FirstMeans(ops: FloatOps, v: Value, checked: bool)
    requires !v.Null?
    ensures FirstOfSum(v, checked).Ok? <==> Summable([v], if checked then 1 else 2)
    ensures FirstOfSum(v, checked).Ok? ==> IsSum(ops, [v], FirstOfSum(v, checked).value)
  {
    OneSummable(v);
    if v.Decimal? { PrecisionMeans(v.d.digits); }
  }

  // ----- the state of a column -----

  /** What the values folded so far have made of a state. */
  ghost predicate StateMeans(ops: FloatOps, f: AggregateFunction, vs: seq<Value>, s: AggregateState)
  {
    var known := Present(vs);
    match f
    case Count => s.CountState? && s.count == |known|
    case Sum => s.SumState? && SumSoFar(ops, known, s.total)
    case Avg => s.AvgState? && s.inputs == |known| && SumSoFar(ops, known, s.total)
    case Min => s.MinState? && ExtremeSoFar(known, s.extreme, Less)
    case Max => s.MaxState? && ExtremeSoFar(known, s.extreme, Greater)
    case PercentileCont => vs == [] && s == Initial(PercentileCont)
  }

  ghost predicate SumSoFar(ops: FloatOps, known: seq<Value>, total: Option<Value>)
  {
    if total.None? then known == [] else known != [] && IsSum(ops, known, total.value)
  }

  ghost predicate ExtremeSoFar(known: seq<Value>, extreme: Option<Value>, replacement: Ordering)
  {
    if extreme.None? then known == [] else known != [] && IsExtreme(known, extreme.value, replacement)
  }

  /** Exactly when a column can be folded. */
  ghost predicate Foldable(f: AggregateFunction, vs: seq<Value>)
  {
    var known := Present(vs);
    match f
    case Count => |known| <= I64_MAX
    case Sum => Summable(known, 1)
    case Avg => Summable(known, 2) && |known| <= U64_MAX
    case Min => AllComparable(known)
    case Max => AllComparable(known)
    case PercentileCont => vs == []
  }

  ghost predicate AllComparable(known: seq<Value>)
  {
    forall i, j :: 0 <= i < |known| && 0 <= j < |known| ==> Comparable(known[i], known[j])
  }

  lemma PresentLast(vs: seq<Value>, v: Value)
    ensures Present(vs + [v]) == if v.Null? then Present(vs) else Present(vs) + [v]
  {
    PickLast(vs, v, Known);
  }

  lemma {:induction false} NoNulls(vs: seq<Value>)
    ensures forall i :: 0 <= i < |Present(vs)| ==> !Present(vs)[i].Null?
  {
    if vs != [] {
      NoNulls(vs[..|vs| - 1]);
      assert vs == vs[..|vs| - 1] + [vs[|vs| - 1]];
      PresentLast(vs[..|vs| - 1], vs[|vs| - 1]);
    }
  }

  lemma SumStep(ops: FloatOps, known: seq<Value>, total: Option<Value>, v: Value, checked: bool)
    requires SumSoFar(ops, known, total) && Summable(known, if checked then 1 else 2) && !v.Null?
    ensures SumNext(ops, total, v, checked).Ok? <==> Summable(known + [v], if checked then 1 else 2)
    ensures SumNext(ops, total, v, checked).Ok? ==> SumSoFar(ops, known + [v], SumNext(ops, total, v, checked).value)
  {
    if total.None? {
      assert known + [v] == [v];
      FirstMeans(ops, v, checked);
    } else {
      AddMeans(ops, known, total.value, v);
      SummableLast(known, v, if checked then 1 else 2);
    }
  }

  lemma ExtremeStep(known: seq<Value>, extreme: Option<Value>, v: Value, replacement: Ordering)
    requires replacement != Equal && !v.Null? && forall i :: 0 <= i < |known| ==> !known[i].Null?
    requires ExtremeSoFar(known, extreme, replacement) && AllComparable(known)
    ensures ExtremeNext(extreme, v, replacement).Ok? <==> AllComparable(known + [v])
    ensures ExtremeNext(extreme, v, replacement).Ok? ==>
              ExtremeSoFar(known + [v], ExtremeNext(extreme, v, replacement).value, replacement)
  {
    CompareOrderValuesMeans(v, v);
    if extreme.Some? { assert !known[0].Null? && extreme.value in known; }
    ComparableLast(known, extreme, v);
    if extreme.Some? {
      CompareOrderValuesMeans(v, extreme.value);
      ExtremeMore(known, extreme.value, v, replacement);
    } else {
      ExtremeMore([], Null, v, replacement);
    }
  }

  lemma ComparableLast(known: seq<Value>, extreme: Option<Value>, v: Value)
    requires !v.Null? && forall i :: 0 <= i < |known| ==> !known[i].Null?
    requires AllComparable(known) && (if extreme.None? then known == [] else extreme.value in known)
    ensures AllComparable(known + [v]) <==> Comparable(v, v) && (extreme.Some? ==> Comparable(v, extreme.value))
  {
    var all := known + [v];
    if AllComparable(all) {
      assert Comparable(all[|known|], all[|known|]);
      if extreme.Some? {
        var i :| 0 <= i < |known| && known[i] == extreme.value;
        assert Comparable(all[|known|], all[i]);
      }
    }
    if Comparable(v, v) && extreme.Some? && Comparable(v, extreme.value) {
      var e :| 0 <= e < |known| && known[e] == extreme.value;
      forall i, j | 0 <= i < |all| && 0 <= j < |all| ensures Comparable(all[i], all[j]) {
        if i < |known| { assert Comparable(known[i], known[e]); }
        if j < |known| { assert Comparable(known[e], known[j]); }
      }
    }
  }

  /** A column's fold succeeds exactly when the column can be folded, and the state
      means what it should. */
  ghost predicate FoldRight(ops: FloatOps, f: AggregateFunction, vs: seq<Value>)
  {
    StepRight(ops, f, vs, FoldColumn(ops, f, vs))
  }

  lemma {:induction false} FoldMeans(ops: FloatOps, f: AggregateFunction, vs: seq<Value>)
    requires f != PercentileCont
    ensures FoldRight(ops, f, vs)
  {
    if vs != [] {
      var n := |vs| - 1;
      FoldMeans(ops, f, vs[..n]);
      FoldMore(ops, f, vs[..n], vs[n]);
      assert vs == vs[..n] + [vs[n]];
    }
  }

  lemma FoldMore(ops: FloatOps, f: AggregateFunction, front: seq<Value>, v: Value)
    requires f != PercentileCont && FoldRight(ops, f, front)
    ensures FoldRight(ops, f, front + [v])
  {
    FoldLast(ops, f, front, v);
    PresentLast(front, v);
    if !v.Null? {
      NoNulls(front);
      FoldableFront(f, Present(front), v);
      if FoldColumn(ops, f, front).Ok? { FoldStep(ops, f, front, v, FoldColumn(ops, f, front).value); }
    }
  }

  /** The column without its last value can be folded if the whole can. */
  lemma FoldableFront(f: AggregateFunction, known: seq<Value>, v: Value)
    ensures Summable(known + [v], 1) ==> Summable(known, 1)
    ensures Summable(known + [v], 2) ==> Summable(known, 2)
    ensures AllComparable(known + [v]) ==> AllComparable(known)
  {
    var all := known + [v];
    if known != [] {
      SummableLast(known, v, 1);
      SummableLast(known, v, 2);
    }
    if AllComparable(all) {
      forall i, j | 0 <= i < |known| && 0 <= j < |known| ensures Comparable(known[i], known[j]) {
        assert Comparable(all[i], all[j]);
      }
    }
  }

  /** One more value that is not NULL. */
  lemma FoldStep(ops: FloatOps, f: AggregateFunction, front: seq<Value>, v: Value, s: AggregateState)
    requires f != PercentileCont && !v.Null? && StateMeans(ops, f, front, s) && Foldable(f, front)
    requires forall i :: 0 <= i < |Present(front)| ==> !Present(front)[i].Null?
    ensures StepRight(ops, f, front + [v], UpdateState(ops, s, v))
  {
    match f
    case Count => PresentLast(front, v);
    case Sum => SumFoldStep(ops, front, v, s);
    case Avg => AvgFoldStep(ops, front, v, s);
    case Min => ExtremeFoldStep(ops, f, front, v, s);
    case Max => ExtremeFoldStep(ops, f, front, v, s);
  }

  /** An updated state is right for the values folded into it. */
  ghost predicate StepRight(ops: FloatOps, f: AggregateFunction, vs: seq<Value>, next: Result<AggregateState>)
  {
    (next.Ok? <==> Foldable(f, vs)) && (next.Ok? ==> StateMeans(ops, f, vs, next.value))
  }

  lemma SumFoldStep(ops: FloatOps, front: seq<Value>, v: Value, s: AggregateState)
    requires !v.Null? && StateMeans(ops, Sum, front, s) && Foldable(Sum, front)
    ensures StepRight(ops, Sum, front + [v], UpdateState(ops, s, v))
  {
    PresentLast(front, v);
    SumStep(ops, Present(front), s.total, v, true);
    var next := SumNext(ops, s.total, v, true);
    assert UpdateState(ops, s, v) == if next.Ok? then Ok(SumState(next.value)) else Err(next.error);
  }

  lemma AvgFoldStep(ops: FloatOps, front: seq<Value>, v: Value, s: AggregateState)
    requires !v.Null? && StateMeans(ops, Avg, front, s) && Foldable(Avg, front)
    ensures StepRight(ops, Avg, front + [v], UpdateState(ops, s, v))
  {
    PresentLast(front, v);
    SumStep(ops, Present(front), s.total, v, false);
    var next := SumNext(ops, s.total, v, false);
    assert next.Err? ==> UpdateState(ops, s, v).Err?;
    assert next.Ok? && s.inputs < U64_MAX ==> UpdateState(ops, s, v) == Ok(AvgState(next.value, s.inputs + 1));
  }

  lemma ExtremeFoldStep(ops: FloatOps, f: AggregateFunction, front: seq<Value>, v: Value, s: AggregateState)
    requires (f == Min || f == Max) && !v.Null? && StateMeans(ops, f, front, s) && Foldable(f, front)
    requires forall i :: 0 <= i < |Present(front)| ==> !Present(front)[i].Null?
    ensures StepRight(ops, f, front + [v], UpdateState(ops, s, v))
  {
    PresentLast(front, v);
    ExtremeStep(Present(front), s.extreme, v, if f == Min then Less else Greater);
  }

  // ----- the finished value -----

  /** What one aggregate over a column is. */
  ghost predicate Means(ops: FloatOps, f: AggregateFunction, vs: seq<Value>, v: Value)
  {
    match f
    case Count => v.Int64? && v.i == |Present(vs)|
    case Sum => IsSum(ops, Present(vs), v)
    case Min => IsLeast(vs, v)
    case Max => IsGreatest(vs, v)
    case Avg => if Present(vs) == [] then v == Null else IsAverage(ops, Present(vs), v)
    case PercentileCont =>
      if AllNull(vs) then v == Null
      else v.Decimal? && exists lower, upper :: IsMedian(Pick(vs, DecimalIn), lower, upper, v.d)
  }

  /** The mean operator applied to the sum and the number of the values. */
  ghost predicate IsAverage(ops: FloatOps, known: seq<Value>, v: Value)
  {
    |known| <= U64_MAX && exists total :: IsSum(ops, known, total) && v == Float64(ops.mean(total, |known|))
  }

  lemma {:induction false} PresentMembers(vs: seq<Value>)
    ensures forall v :: v in Present(vs) <==> v in vs && !v.Null?
    ensures Present(vs) == [] <==> AllNull(vs)
  {
    if vs != [] {
      var n := |vs| - 1;
      PresentMembers(vs[..n]);
      assert vs == vs[..n] + [vs[n]];
      PresentLast(vs[..n], vs[n]);
    }
    if Present(vs) == [] {
      forall i | 0 <= i < |vs| ensures vs[i].Null? { assert vs[i] in vs; }
    }
  }

  /** The extreme of the values that are not NULL is the extreme of all. */
  lemma ExtremeIsExtreme(vs: seq<Value>, extreme: Option<Value>, replacement: Ordering)
    requires ExtremeSoFar(Present(vs), extreme, replacement)
    ensures IsExtreme(vs, if extreme.Some? then extreme.value else Null, replacement)
  {
    PresentMembers(vs);
    NoNulls(vs);
    if extreme.Some? {
      assert !Present(vs)[0].Null?;
      forall i | 0 <= i < |vs| && !vs[i].Null? ensures vs[i] in Present(vs) { assert vs[i] in vs; }
    }
  }

  /** Over NULLs and decimals, the values that are not NULL are the decimals. */
  lemma {:induction false} DecimalsPresent(vs: seq<Value>)
    requires forall i :: 0 <= i < |vs| ==> vs[i].Null? || vs[i].Decimal?
    ensures Pick(vs, DecimalIn) == [] <==> AllNull(vs)
  {
    if vs != [] { DecimalsPresent(vs[..|vs| - 1]); }
  }

  /** Every finished aggregate is what its function says. */
  lemma ColumnMeans(ops: FloatOps, f: AggregateFunction, vs: seq<Value>, t: LogicalType)
    requires ColumnAnswer(ops, f, vs, t).Ok?
    ensures Means(ops, f, vs, ColumnAnswer(ops, f, vs, t).value)
  {
    if f == PercentileCont {
      MedianMeans(ops, vs, t);
    } else {
      FoldMeans(ops, f, vs);
      FinishMeans(ops, f, vs, FoldColumn(ops, f, vs).value, t);
    }
  }

  /** An aggregate other than a percentile fails exactly when its column cannot be
      folded. */
  lemma ColumnSucceedsIff(ops: FloatOps, f: AggregateFunction, vs: seq<Value>, t: LogicalType)
    requires f != PercentileCont
    ensures ColumnAnswer(ops, f, vs, t).Ok? <==> Foldable(f, vs)
  {
    FoldMeans(ops, f, vs);
    if f == Avg && Foldable(f, vs) && Present(vs) != [] {
      var s := FoldColumn(ops, f, vs).value;
      assert IsSum(ops, Present(vs), s.total.value) && Alike(Present(vs)[0], Present(vs)[0]);
    }
  }

  lemma MedianMeans(ops: FloatOps, vs: seq<Value>, t: LogicalType)
    requires ColumnAnswer(ops, PercentileCont, vs, t).Ok?
    ensures Means(ops, PercentileCont, vs, ColumnAnswer(ops, PercentileCont, vs, t).value)
  {
    DecimalsPresent(vs);
    FinishedMedian(ops, vs, t);
  }

  lemma FinishMeans(ops: FloatOps, f: AggregateFunction, vs: seq<Value>, s: AggregateState, t: LogicalType)
    requires f != PercentileCont && StateMeans(ops, f, vs, s) && FinishState(ops, s, t).Ok?
    ensures Means(ops, f, vs, FinishState(ops, s, t).value)
  {
    if f == Min { ExtremeIsExtreme(vs, s.extreme, Less); }
    if f == Max { ExtremeIsExtreme(vs, s.extreme, Greater); }
    if f == Avg && Present(vs) != [] { assert IsSum(ops, Present(vs), s.total.value); }
  }

  // ----- a whole answer -----

  /** A value is what aggregate j is over the rows of a group. */
  ghost predicate MeansAt(q: Query, rows: seq<Row>, j: nat, v: Value)
    requires j < |q.aggs|
  {
    Means(q.ops, q.aggs[j], GroupColumn(rows, j), v)
  }

  /** The first aggregates over the rows of a group. */
  ghost predicate RowMeans(q: Query, rows: seq<Row>, values: Row)
  {
    |values| <= |q.aggs| && forall j :: 0 <= j < |values| ==> MeansAt(q, rows, j, values[j])
  }

  /** The key, followed by what each aggregate is over the group. */
  ghost predicate Reports(q: Query, rows: seq<InputRow>, key: Row, out: Row)
  {
    |out| == |key| + |q.aggs| && out[..|key|] == key && RowMeans(q, GroupOf(rows, key), out[|key|..])
  }

  /** One row for every key that occurs, smaller keys first; without grouping, one
      row for all rows. */
  ghost predicate IsReport(q: Query, groupCount: nat, rows: seq<InputRow>, out: seq<Row>)
  {
    exists keys: seq<Row> ::
      && |keys| == |out|
      && (forall k :: k in keys <==> HasGroup(rows, k) || (groupCount == 0 && k == []))
      && (forall a, b :: 0 <= a < b < |keys| ==> TupleBelow(keys[a], keys[b]))
      && (forall g :: 0 <= g < |keys| ==> Reports(q, rows, keys[g], out[g]))
  }

  lemma {:induction false} AnswerRowMeans(q: Query, rows: seq<Row>, n: nat)
    requires n <= |q.aggs| == |q.types| && AnswerRow(q, rows, n).Ok?
    ensures |AnswerRow(q, rows, n).value| == n && RowMeans(q, rows, AnswerRow(q, rows, n).value)
  {
    if n > 0 {
      AnswerRowMeans(q, rows, n - 1);
      var v := ColumnAnswer(q.ops, q.aggs[n - 1], GroupColumn(rows, n - 1), q.types[n - 1]).value;
      ColumnMeans(q.ops, q.aggs[n - 1], GroupColumn(rows, n - 1), q.types[n - 1]);
      RowMeansMore(q, rows, AnswerRow(q, rows, n - 1).value, v);
    }
  }

  lemma RowMeansMore(q: Query, rows: seq<Row>, values: Row, v: Value)
    requires |values| < |q.aggs| && RowMeans(q, rows, values) && MeansAt(q, rows, |values|, v)
    ensures RowMeans(q, rows, values + [v])
  {
  }

  /** The answer of an aggregation, in plain terms. */
  lemma AnswerMeans(q: Query, groupCount: nat, rows: seq<InputRow>, out: seq<Row>)
    requires |q.aggs| == |q.types| && IsAnswer(GroupAnswer(q), groupCount, rows, out)
    ensures IsReport(q, groupCount, rows, out)
  {
    var keys: seq<Row> :| ListsGroups(groupCount, rows, keys) && AnswersAll(GroupAnswer(q), rows, keys, out);
    forall a, b | 0 <= a < b < |keys| ensures TupleBelow(keys[a], keys[b]) {
      CompareKeyTuplesMeans(keys[a], keys[b]);
    }
    forall g | 0 <= g < |keys| ensures Reports(q, rows, keys[g], out[g]) {
      assert AnswersGroup(GroupAnswer(q), rows, keys[g], out[g]);
      AnswerRowMeans(q, GroupOf(rows, keys[g]), |q.aggs|);
    }
  }
}
