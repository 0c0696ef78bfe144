/** What the engine's comparisons, negation and extremes compute, in plain terms,
    for every column the evaluator produces. */
module ExpressionMeaning {
  import opened Values
  import opened ValueOrder
  import opened ScalarOps
  import opened Evaluator

  // ----- binary64 numbers by sign and magnitude -----

  predicate Negative(bits: u64) { bits >= 0x8000_0000_0000_0000 }

  function Size(bits: u64): nat { if Negative(bits) then bits - 0x8000_0000_0000_0000 else bits }

  predicate NotANumber(bits: u64) { Size(bits) > 0x7FF0_0000_0000_0000 }

  predicate NumberLess(a: u64, b: u64)
  {
    && !NotANumber(a) && !NotANumber(b)
    && if Negative(a) then (if Negative(b) then Size(b) < Size(a) else Size(a) > 0 || Size(b) > 0)
       else !Negative(b) && Size(a) < Size(b)
  }

  predicate NumberSame(a: u64, b: u64)
  {
    !NotANumber(a) && !NotANumber(b) && Size(a) == Size(b) && (Negative(a) == Negative(b) || Size(a) == 0)
  }

  lemma FloatsMean(a: u64, b: u64)
    ensures FloatLt(a, b) <==> NumberLess(a, b)
    ensures FloatEq(a, b) <==> NumberSame(a, b)
    ensures IsNan(a) <==> NotANumber(a)
  {
  }

  // ----- comparisons -----

  /** Two values that have an order: of one orderable type, or both numeric. */
  predicate Ordered(l: Value, r: Value)
  {
    !l.Null? && !r.Null? && (Comparable(l, r) || (l.Int64? && r.Float64?) || (l.Float64? && r.Int64?))
  }

  /** Two values that can only be equal or not. */
  predicate EqualityOnly(l: Value, r: Value) { (l.Bytes? && r.Bytes?) || (l.Json? && r.Json?) }

  /** `l < r` as the engine reads it; integers meet floats by the exact comparison. */
  ghost predicate IsLess(n: Numerics, l: Value, r: Value)
  {
    match (l, r)
    case (Float64(a), Float64(b)) => NumberLess(a, b)
    case (Int64(i), Float64(f)) => !NotANumber(f) && n.intFloat(i, f) == Less
    case (Float64(f), Int64(i)) => !NotANumber(f) && n.intFloat(i, f) == Greater
    case (_, _) => Below(l, r)
  }

  ghost predicate IsSame(n: Numerics, l: Value, r: Value)
  {
    match (l, r)
    case (Float64(a), Float64(b)) => NumberSame(a, b)
    case (Int64(i), Float64(f)) => !NotANumber(f) && n.intFloat(i, f) == Equal
    case (Float64(f), Int64(i)) => !NotANumber(f) && n.intFloat(i, f) == Equal
    case (_, _) => l == r
  }

  /** The truth of a comparison between two values that are not NULL. */
  ghost predicate Holding(n: Numerics, op: BinaryOp, l: Value, r: Value)
    requires IsComparison(op)
  {
    match op
    case Eq => IsSame(n, l, r)
    case Ne => !IsSame(n, l, r)
    case Lt => IsLess(n, l, r)
    case Le => IsLess(n, l, r) || IsSame(n, l, r)
    case Gt => IsLess(n, r, l)
    case Ge => IsLess(n, r, l) || IsSame(n, l, r)
  }

  /** A comparison is NULL when a side is NULL, answers by the order of its operands
      when they have one, and fails otherwise. */
  lemma CompareMeans(n: Numerics, op: BinaryOp, l: Value, r: Value)
    requires IsComparison(op)
    ensures l.Null? || r.Null? ==> Compare(n, op, l, r) == Ok(Null)
    ensures !l.Null? && !r.Null? ==>
              (Compare(n, op, l, r).Ok? <==> Ordered(l, r) || (EqualityOnly(l, r) && (op.Eq? || op.Ne?)))
    ensures !l.Null? && !r.Null? && Compare(n, op, l, r).Ok? ==>
              Compare(n, op, l, r) == Ok(Bool(Holding(n, op, l, r)))
  {
    if l.Float64? || r.Float64? { NumbersMean(n, op, l, r); } else { SameTypeMeans(n, op, l, r); }
  }

  /** The answer for two values that are not NULL, or its refusal. */
  ghost predicate Answered(n: Numerics, op: BinaryOp, l: Value, r: Value)
    requires IsComparison(op)
  {
    if Ordered(l, r) || (EqualityOnly(l, r) && (op.Eq? || op.Ne?))
    then Compare(n, op, l, r) == Ok(Bool(Holding(n, op, l, r)))
    else Compare(n, op, l, r).Err?
  }

  lemma SameTypeMeans(n: Numerics, op: BinaryOp, l: Value, r: Value)
    requires IsComparison(op) && !l.Float64? && !r.Float64?
    ensures l.Null? || r.Null? || Answered(n, op, l, r)
  {
    if l.String? && r.String? { CompareBytesMeans(l.text, r.text); }
  }

  lemma NumbersMean(n: Numerics, op: BinaryOp, l: Value, r: Value)
    requires IsComparison(op) && (l.Float64? || r.Float64?)
    ensures l.Null? || r.Null? || Answered(n, op, l, r)
  {
    if l.Float64? { FloatsMean(l.bits, if r.Float64? then r.bits else 0); }
    if r.Float64? { FloatsMean(r.bits, if l.Float64? then l.bits else 0); }
  }

  /** Every value of an evaluated comparison column. */
  lemma ComparisonColumnMeans(n: Numerics, sc: Scope<BinaryOp>, op: BinaryOp, left: Expr<BinaryOp>,
                              right: Expr<BinaryOp>, rows: seq<nat>, values: seq<Value>)
    requires sc.scalars == EngineScalars(n) && IsComparison(op)
    requires Holds(sc, Binary(op, left, right), rows, values)
    ensures forall i :: 0 <= i < |rows| ==>
              && EvalRow(sc, left, rows[i]).Ok? && EvalRow(sc, right, rows[i]).Ok?
              && var l, r := EvalRow(sc, left, rows[i]).value, EvalRow(sc, right, rows[i]).value;
                 values[i] == if l.Null? || r.Null? then Null else Bool(Holding(n, op, l, r))
  {
    forall i | 0 <= i < |rows|
      ensures EvalRow(sc, left, rows[i]).Ok? && EvalRow(sc, right, rows[i]).Ok?
      ensures var l, r := EvalRow(sc, left, rows[i]).value, EvalRow(sc, right, rows[i]).value;
              values[i] == if l.Null? || r.Null? then Null else Bool(Holding(n, op, l, r))
    {
      assert EvalRow(sc, Binary(op, left, right), rows[i]) == Ok(values[i]);
      CompareMeans(n, op, EvalRow(sc, left, rows[i]).value, EvalRow(sc, right, rows[i]).value);
    }
  }

  // ----- arithmetic -----

  /** Arithmetic on NULL is NULL, and otherwise what the numeric operator gives, row
      by row. */
  lemma ArithmeticColumnMeans(n: Numerics, sc: Scope<BinaryOp>, op: BinaryOp, left: Expr<BinaryOp>,
                              right: Expr<BinaryOp>, rows: seq<nat>, values: seq<Value>, i: nat)
    requires sc.scalars == EngineScalars(n) && (op.Add? || op.Sub? || op.Mul? || op.Div?)
    requires Holds(sc, Binary(op, left, right), rows, values) && i < |rows|
    ensures EvalRow(sc, left, rows[i]).Ok? && EvalRow(sc, right, rows[i]).Ok?
    ensures var l, r := EvalRow(sc, left, rows[i]).value, EvalRow(sc, right, rows[i]).value;
            if l.Null? || r.Null? then values[i] == Null else n.arithmetic(op, l, r) == Ok(values[i])
  {
    assert EvalRow(sc, Binary(op, left, right), rows[i]) == Ok(values[i]);
  }

  // ----- negation -----

  /** `not` answers exactly when every way of filling in the unknown does. */
  lemma NotMeans(v: Value, b: bool)
    requires IsTruth(v)
    ensures KleeneNot(v) == Ok(Bool(b)) <==> forall x :: Completes(v, x) ==> (!x) == b
  {
    if v.Null? { assert Completes(v, b); } else { assert Completes(v, v.b); }
  }

  /** Every value of an evaluated `not` column. */
  lemma NotColumnMeans(n: Numerics, sc: Scope<BinaryOp>, operand: Expr<BinaryOp>, rows: seq<nat>, values: seq<Value>,
                       i: nat, b: bool)
    requires sc.scalars == EngineScalars(n) && Holds(sc, Not(operand), rows, values) && i < |rows|
    ensures EvalRow(sc, operand, rows[i]).Ok? && IsTruth(EvalRow(sc, operand, rows[i]).value)
    ensures values[i] == Bool(b) <==>
            forall x :: Completes(EvalRow(sc, operand, rows[i]).value, x) ==> (!x) == b
  {
    assert EvalRow(sc, Not(operand), rows[i]) == Ok(values[i]);
    NotMeans(EvalRow(sc, operand, rows[i]).value, b);
  }

  // ----- least and greatest -----

  /** The operands' values, in order. */
  ghost predicate OperandValues(sc: Scope<BinaryOp>, e: Expr<BinaryOp>, row: nat, xs: seq<Value>)
    requires e.Extreme?
  {
    |xs| <= |e.operands| && forall i :: 0 <= i < |xs| ==> EvalRow(sc, e.operands[i], row) == Ok(xs[i])
  }

  lemma {:induction false} ExtremeRowMeans(n: Numerics, sc: Scope<BinaryOp>, e: Expr<BinaryOp>, row: nat, count: nat)
    returns (xs: seq<Value>)
    requires sc.scalars == EngineScalars(n) && e.Extreme? && e.replacement != Equal && count <= |e.operands|
    requires ExtremeRow(sc, e, count, row).Ok?
    ensures |xs| == count && OperandValues(sc, e, row, xs)
    ensures IsExtreme(xs, ExtremeRow(sc, e, count, row).value, e.replacement)
    decreases count
  {
    xs := [];
    if count > 0 {
      var front := ExtremeRowMeans(n, sc, e, row, count - 1);
      var x := EvalRow(sc, e.operands[count - 1], row).value;
      ExtremeMore(front, ExtremeRow(sc, e, count - 1, row).value, x, e.replacement);
      xs := front + [x];
    }
  }

  /** Every value of an evaluated least or greatest column is the least or greatest
      of the operands' values in its row, NULL only when all of them are. */
  lemma ExtremeColumnMeans(n: Numerics, sc: Scope<BinaryOp>, e: Expr<BinaryOp>, rows: seq<nat>, values: seq<Value>,
                           i: nat)
    returns (xs: seq<Value>)
    requires sc.scalars == EngineScalars(n) && e.Extreme? && e.replacement != Equal
    requires Holds(sc, e, rows, values) && i < |rows|
    ensures |xs| == |e.operands| && OperandValues(sc, e, rows[i], xs)
    ensures if e.replacement == Less then IsLeast(xs, values[i]) else IsGreatest(xs, values[i])
  {
    assert EvalRow(sc, e, rows[i]) == Ok(values[i]);
    xs := ExtremeRowMeans(n, sc, e, rows[i], |e.operands|);
  }
}
