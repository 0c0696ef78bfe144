/** Columnar evaluation of expressions over selected rows of a chunk, and the lazy
    row-by-row meaning it must agree with. */
module Evaluator {
  import opened Values
  import opened Columns
  import ScalarOps

  /** The scalar operators, by value. */
  datatype Scalars<!Op> = Scalars(
    binary: (Op, Value, Value) -> Result<Value>,
    not: Value -> Result<Value>,
    better: (Value, Value, Ordering) -> Result<Value>,
    trunc: Value -> Result<Value>,
    addDays: (Value, Value) -> Result<Value>)

  datatype Expr<!Op> =
    | Col(reference: string)
    | Lit(value: Value)
    | Binary(op: Op, left: Expr<Op>, right: Expr<Op>)
    | Not(operand: Expr<Op>)
    | If(cond: Expr<Op>, thenExpr: Expr<Op>, elseExpr: Expr<Op>)
    | Coalesce(operands: seq<Expr<Op>>)
    | Extreme(replacement: Ordering, operands: seq<Expr<Op>>)
    | DateTrunc(operand: Expr<Op>)
    | DateAdd(left: Expr<Op>, right: Expr<Op>)
    | Scalar(plan: nat)

  /** The engine's own operators. */
  function EngineScalars(n: ScalarOps.Numerics): Scalars<ScalarOps.BinaryOp>
  {
    Scalars((op: ScalarOps.BinaryOp, l: Value, r: Value) => ScalarOps.EvaluateBinary(n, op, l, r),
            ScalarOps.KleeneNot, ScalarOps.BetterExtreme, ScalarOps.DateTrunc, ScalarOps.DateAdd)
  }

  /** What an expression is evaluated against. */
  datatype Scope<!Op> = Scope(scalars: Scalars<Op>, chunk: Chunk, columns: map<string, nat>,
                              subquery: nat -> Result<Value>)

  /** The columnar evaluator cannot run subqueries; they are resolved before. */
  ghost predicate NoSubqueries<Op>(sc: Scope<Op>)
  {
    forall plan :: sc.subquery(plan).Err?
  }

  predicate KnownColumn<Op>(sc: Scope<Op>, reference: string)
  {
    reference in sc.columns && sc.columns[reference] < |sc.chunk.columns|
  }

  // ----- the meaning: one row, lazily -----

  /** The value of an expression in one row. `if` looks at one branch only,
      `coalesce` stops at the first value that is not NULL. */
  function EvalRow<Op>(sc: Scope<Op>, e: Expr<Op>, row: nat): Result<Value>
    decreases e, 1, 0
  {
    match e
    case Col(reference) =>
      if KnownColumn(sc, reference) && row < sc.chunk.rowCount then
        Ok(ValueAt(sc.chunk.columns[sc.columns[reference]], row))
      else Err(InvalidArgument)
    case Lit(value) => Ok(value)
    case Binary(op, left, right) =>
      var l :- EvalRow(sc, left, row);
      var r :- EvalRow(sc, right, row);
      sc.scalars.binary(op, l, r)
    case Not(operand) =>
      var v :- EvalRow(sc, operand, row);
      sc.scalars.not(v)
    case If(cond, thenExpr, elseExpr) =>
      var c :- EvalRow(sc, cond, row);
      if c == Bool(true) then EvalRow(sc, thenExpr, row)
      else if c == Bool(false) || c == Null then EvalRow(sc, elseExpr, row)
      else Err(InvalidArgument)
    case Coalesce(operands) => if |operands| < 2 then Err(InvalidArgument) else CoalesceRow(sc, e, 0, row)
    case Extreme(_, operands) => if |operands| < 2 then Err(InvalidArgument) else ExtremeRow(sc, e, |operands|, row)
    case DateTrunc(operand) =>
      var v :- EvalRow(sc, operand, row);
      sc.scalars.trunc(v)
    case DateAdd(left, right) =>
      var l :- EvalRow(sc, left, row);
      var r :- EvalRow(sc, right, row);
      sc.scalars.addDays(l, r)
    case Scalar(plan) => sc.subquery(plan)
  }

  /** The first value that is not NULL among the operands from number i. */
  function CoalesceRow<Op>(sc: Scope<Op>, e: Expr<Op>, i: nat, row: nat): Result<Value>
    requires e.Coalesce? && i <= |e.operands|
    decreases e, 0, |e.operands| - i
  {
    if i == |e.operands| then Ok(Null)
    else
      var v :- EvalRow(sc, e.operands[i], row);
      if v.Null? then CoalesceRow(sc, e, i + 1, row) else Ok(v)
  }

  /** The extreme value among the first n operands. */
  function ExtremeRow<Op>(sc: Scope<Op>, e: Expr<Op>, n: nat, row: nat): Result<Value>
    requires e.Extreme? && n <= |e.operands|
    decreases e, 0, n
  {
    if n == 0 then Ok(Null)
    else
      var current :- ExtremeRow(sc, e, n - 1, row);
      var candidate :- EvalRow(sc, e.operands[n - 1], row);
      sc.scalars.better(current, candidate, e.replacement)
  }

  /** What can still fail when no row is selected: unknown columns and short
      operand lists outside lazily skipped operands. */
  predicate EmptyOk<Op>(sc: Scope<Op>, e: Expr<Op>)
  {
    match e
    case Col(reference) => KnownColumn(sc, reference)
    case Lit(_) => true
    case Binary(_, left, right) => EmptyOk(sc, left) && EmptyOk(sc, right)
    case Not(operand) => EmptyOk(sc, operand)
    case If(cond, _, _) => EmptyOk(sc, cond)
    case Coalesce(operands) => |operands| >= 2
    case Extreme(_, operands) => |operands| >= 2 && forall i :: 0 <= i < |operands| ==> EmptyOk(sc, operands[i])
    case DateTrunc(operand) => EmptyOk(sc, operand)
    case DateAdd(left, right) => EmptyOk(sc, left) && EmptyOk(sc, right)
    case Scalar(_) => false
  }

  /** Exactly when evaluation over the selected rows succeeds. */
  ghost predicate Succeeds<Op>(sc: Scope<Op>, e: Expr<Op>, rows: seq<nat>)
  {
    if rows == [] then EmptyOk(sc, e) else forall i :: 0 <= i < |rows| ==> EvalRow(sc, e, rows[i]).Ok?
  }

  lemma FailsAt<Op>(sc: Scope<Op>, e: Expr<Op>, rows: seq<nat>, p: nat)
    requires p < |rows|
    ensures EvalRow(sc, e, rows[p]).Err? ==> !Succeeds(sc, e, rows)
  {
  }

  /** Position i holds the value of row i. */
  ghost predicate Holds<Op>(sc: Scope<Op>, e: Expr<Op>, rows: seq<nat>, values: seq<Value>)
  {
    |values| == |rows| && forall i :: 0 <= i < |rows| ==> EvalRow(sc, e, rows[i]) == Ok(values[i])
  }

  // ----- the engine's own operators -----

  /** A column of `and` or `or` is true or false exactly where every way of filling
      in the unknowns of its operands says so. */
  lemma ConnectivesAreUnknownTruth(n: ScalarOps.Numerics, sc: Scope<ScalarOps.BinaryOp>, op: ScalarOps.BinaryOp,
                                   left: Expr<ScalarOps.BinaryOp>, right: Expr<ScalarOps.BinaryOp>,
                                   rows: seq<nat>, ls: seq<Value>, rs: seq<Value>, values: seq<Value>, b: bool)
    requires sc.scalars == EngineScalars(n) && (op.And? || op.Or?)
    requires Holds(sc, left, rows, ls) && Holds(sc, right, rows, rs) && Holds(sc, Binary(op, left, right), rows, values)
    ensures forall i :: 0 <= i < |rows| ==>
              (values[i] == Bool(b) <==>
               forall x, y :: ScalarOps.Completes(ls[i], x) && ScalarOps.Completes(rs[i], y) ==>
                 (if op.And? then x && y else x || y) == b)
  {
    forall i | 0 <= i < |rows|
      ensures values[i] == Bool(b) <==>
              forall x, y :: ScalarOps.Completes(ls[i], x) && ScalarOps.Completes(rs[i], y) ==>
                (if op.And? then x && y else x || y) == b
    {
      assert EvalRow(sc, Binary(op, left, right), rows[i]) == ScalarOps.EvaluateBinary(n, op, ls[i], rs[i]);
      ScalarOps.KleeneIsUnknownTruth(ls[i], rs[i], b);
    }
  }

  /** Moving `date_trunc` inside `date_add` keeps a row's outcome exactly outside
      the edges of the Timestamp domain. */
  lemma TruncMovesInward(n: ScalarOps.Numerics, sc: Scope<ScalarOps.BinaryOp>, value: Expr<ScalarOps.BinaryOp>,
                         amount: Expr<ScalarOps.BinaryOp>, row: nat)
    requires sc.scalars == EngineScalars(n) && EvalRow(sc, value, row).Ok? && EvalRow(sc, amount, row).Ok?
    ensures EvalRow(sc, DateTrunc(DateAdd(value, amount)), row) ==
              EvalRow(sc, DateAdd(DateTrunc(value), amount), row) <==>
            !ScalarOps.OrderMatters(EvalRow(sc, value, row).value, EvalRow(sc, amount, row).value)
  {
    var v, k := EvalRow(sc, value, row).value, EvalRow(sc, amount, row).value;
    ScalarOps.TruncCommutesWithAdd(v, k);
    assert EvalRow(sc, DateTrunc(DateAdd(value, amount)), row) == ScalarOps.AddThenTrunc(v, k);
    assert EvalRow(sc, DateAdd(DateTrunc(value), amount), row) == ScalarOps.TruncThenAdd(v, k);
  }

  // ----- combining columns -----

  /** Maps a fallible function over a column. */
  method MapColumn(f: Value -> Result<Value>, vs: seq<Value>) returns (res: Result<seq<Value>>)
    ensures res.Ok? <==> forall i :: 0 <= i < |vs| ==> f(vs[i]).Ok?
    ensures res.Ok? ==> |res.value| == |vs| && forall i :: 0 <= i < |vs| ==> f(vs[i]) == Ok(res.value[i])
  {
    var out: seq<Value> := [];
    for i := 0 to |vs|
      invariant |out| == i && forall j :: 0 <= j < i ==> f(vs[j]) == Ok(out[j])
    {
      var v := f(vs[i]);
      if v.Err? { return Err(v.error); }
      out := out + [v.value];
    }
    res := Ok(out);
  }

  /** Zips two columns through a fallible function. */
  method ZipColumns(f: (Value, Value) -> Result<Value>, ls: seq<Value>, rs: seq<Value>)
    returns (res: Result<seq<Value>>)
    requires |ls| == |rs|
    ensures res.Ok? <==> forall i :: 0 <= i < |ls| ==> f(ls[i], rs[i]).Ok?
    ensures res.Ok? ==> |res.value| == |ls| && forall i :: 0 <= i < |ls| ==> f(ls[i], rs[i]) == Ok(res.value[i])
  {
    var out: seq<Value> := [];
    for i := 0 to |ls|
      invariant |out| == i && forall j :: 0 <= j < i ==> f(ls[j], rs[j]) == Ok(out[j])
    {
      var v := f(ls[i], rs[i]);
      if v.Err? { return Err(v.error); }
      out := out + [v.value];
    }
    res := Ok(out);
  }

  // ----- columnar evaluation -----

  /** evaluate_selected: succeeds exactly when every selected row does, and then
      position i holds row i's value. */
  method EvaluateSelected<Op>(sc: Scope<Op>, e: Expr<Op>, rows: seq<nat>) returns (res: Result<seq<Value>>)
    requires NoSubqueries(sc)
    ensures res.Ok? <==> Succeeds(sc, e, rows)
    ensures res.Ok? ==> Holds(sc, e, rows, res.value)
    decreases e, 1, 0
  {
    if rows != [] { FailsAt(sc, e, rows, 0); }
    match e
    case Col(reference) =>
      res := EvaluateColumn(sc, e, rows);
    case Lit(value) =>
      res := Ok(seq(|rows|, i => value));
    case Binary(op, left, right) =>
      var ls := EvaluateSelected(sc, left, rows);
      if ls.Err? { return Err(ls.error); }
      var rs := EvaluateSelected(sc, right, rows);
      if rs.Err? { return Err(rs.error); }
      res := ZipColumns((l: Value, r: Value) => sc.scalars.binary(op, l, r), ls.value, rs.value);
    case Not(operand) =>
      var vs := EvaluateSelected(sc, operand, rows);
      if vs.Err? { return Err(vs.error); }
      res := MapColumn(sc.scalars.not, vs.value);
    case If(_, _, _) =>
      res := EvaluateIf(sc, e, rows);
    case Coalesce(_) =>
      res := EvaluateCoalesce(sc, e, rows);
    case Extreme(_, _) =>
      res := EvaluateExtreme(sc, e, rows);
    case DateTrunc(operand) =>
      var vs := EvaluateSelected(sc, operand, rows);
      if vs.Err? { return Err(vs.error); }
      res := MapColumn(sc.scalars.trunc, vs.value);
    case DateAdd(left, right) =>
      var ls := EvaluateSelected(sc, left, rows);
      if ls.Err? { return Err(ls.error); }
      var rs := EvaluateSelected(sc, right, rows);
      if rs.Err? { return Err(rs.error); }
      res := ZipColumns(sc.scalars.addDays, ls.value, rs.value);
    case Scalar(_) =>
      res := Err(InvalidArgument);
  }

  /** evaluate_column */
  method EvaluateColumn<Op>(sc: Scope<Op>, e: Expr<Op>, rows: seq<nat>) returns (res: Result<seq<Value>>)
    requires e.Col?
    ensures res.Ok? <==> Succeeds(sc, e, rows)
    ensures res.Ok? ==> Holds(sc, e, rows, res.value)
    decreases e, 0, 0
  {
    if rows != [] { FailsAt(sc, e, rows, 0); }
    if e.reference !in sc.columns { return Err(InvalidArgument); }
    var column := ColumnOf(sc.chunk, sc.columns[e.reference]);
    if column.None? { return Err(InvalidArgument); }
    var out: seq<Value> := [];
    for i := 0 to |rows|
      invariant |out| == i && forall j :: 0 <= j < i ==> EvalRow(sc, e, rows[j]) == Ok(out[j])
    {
      FailsAt(sc, e, rows, i);
      if rows[i] >= Len(column.value) { return Err(InvalidArgument); }
      out := out + [ValueAt(column.value, rows[i])];
    }
    res := Ok(out);
  }

  // ----- if -----

  /** Where a branch's rows sit among the selected ones. */
  ghost predicate Picks(rows: seq<nat>, picked: seq<nat>, positions: seq<nat>)
  {
    |picked| == |positions| && forall q :: 0 <= q < |positions| ==>
      positions[q] < |rows| && picked[q] == rows[positions[q]]
  }

  /** The positions chosen are exactly those whose condition chooses them. */
  ghost predicate Chosen(conditions: seq<Value>, positions: seq<nat>, n: nat, yes: bool)
    requires n <= |conditions|
  {
    && (forall q :: 0 <= q < |positions| ==> positions[q] < n && (conditions[positions[q]] == Bool(true)) == yes)
    && (forall p :: 0 <= p < n && (conditions[p] == Bool(true)) == yes ==> p in positions)
    && (forall q, r :: 0 <= q < r < |positions| ==> positions[q] < positions[r])
  }

  /** Splits the selected rows by their condition. */
  method SplitRows(rows: seq<nat>, conditions: seq<Value>)
    returns (ok: bool, thenRows: seq<nat>, thenPositions: seq<nat>, elseRows: seq<nat>, elsePositions: seq<nat>)
    requires |conditions| == |rows|
    ensures ok <==> forall p :: 0 <= p < |rows| ==> conditions[p].Bool? || conditions[p].Null?
    ensures ok ==> Picks(rows, thenRows, thenPositions) && Chosen(conditions, thenPositions, |rows|, true)
    ensures ok ==> Picks(rows, elseRows, elsePositions) && Chosen(conditions, elsePositions, |rows|, false)
  {
    ok, thenRows, thenPositions, elseRows, elsePositions := true, [], [], [], [];
    for p := 0 to |rows|
      invariant forall i :: 0 <= i < p ==> conditions[i].Bool? || conditions[i].Null?
      invariant Picks(rows, thenRows, thenPositions) && Chosen(conditions, thenPositions, p, true)
      invariant Picks(rows, elseRows, elsePositions) && Chosen(conditions, elsePositions, p, false)
    {
      if conditions[p] == Bool(true) {
        thenRows, thenPositions := thenRows + [rows[p]], thenPositions + [p];
      } else if conditions[p] == Bool(false) || conditions[p] == Null {
        elseRows, elsePositions := elseRows + [rows[p]], elsePositions + [p];
      } else {
        return false, thenRows, thenPositions, elseRows, elsePositions;
      }
    }
  }

  /** The scatter loop of evaluate_branch_into. */
  method Scatter(result: seq<Value>, positions: seq<nat>, values: seq<Value>) returns (out: seq<Value>)
    requires |positions| == |values| && forall q :: 0 <= q < |positions| ==> positions[q] < |result|
    requires forall q, r :: 0 <= q < r < |positions| ==> positions[q] < positions[r]
    ensures |out| == |result| && forall q :: 0 <= q < |positions| ==> out[positions[q]] == values[q]
    ensures forall p :: 0 <= p < |result| && p !in positions ==> out[p] == result[p]
  {
    out := result;
    for q := 0 to |positions|
      invariant |out| == |result| && forall r :: 0 <= r < q ==> out[positions[r]] == values[r]
      invariant forall p :: 0 <= p < |result| && p !in positions ==> out[p] == result[p]
    {
      out := out[positions[q] := values[q]];
    }
  }

  /** evaluate_branch_into: a branch nobody chose is not evaluated at all. */
  method EvaluateBranch<Op>(sc: Scope<Op>, e: Expr<Op>, rows: seq<nat>, positions: seq<nat>, result: seq<Value>,
                            ghost parent: Expr<Op>)
    returns (res: Result<()>, out: seq<Value>)
    requires e < parent && |rows| == |positions| && forall q :: 0 <= q < |positions| ==> positions[q] < |result|
    requires forall q, r :: 0 <= q < r < |positions| ==> positions[q] < positions[r]
    requires NoSubqueries(sc)
    ensures res.Ok? <==> forall q :: 0 <= q < |rows| ==> EvalRow(sc, e, rows[q]).Ok?
    ensures res.Ok? ==>
              |out| == |result| && forall q :: 0 <= q < |rows| ==> EvalRow(sc, e, rows[q]) == Ok(out[positions[q]])
    ensures res.Ok? ==> forall p :: 0 <= p < |result| && p !in positions ==> out[p] == result[p]
    decreases parent, 0, 0
  {
    if rows == [] { return Ok(()), result; }
    var values := EvaluateSelected(sc, e, rows);
    if values.Err? { return Err(values.error), result; }
    out := Scatter(result, positions, values.value);
    res := Ok(());
  }

  /** evaluate_if_column */
  method EvaluateIf<Op>(sc: Scope<Op>, e: Expr<Op>, rows: seq<nat>) returns (res: Result<seq<Value>>)
    requires e.If?
    requires NoSubqueries(sc)
    ensures res.Ok? <==> Succeeds(sc, e, rows)
    ensures res.Ok? ==> Holds(sc, e, rows, res.value)
    decreases e, 0, 1
  {
    var conditions := EvaluateSelected(sc, e.cond, rows);
    if conditions.Err? { return Err(conditions.error); }
    var ok, thenRows, thenPositions, elseRows, elsePositions := SplitRows(rows, conditions.value);
    if !ok { return Err(InvalidArgument); }
    var done, result := EvaluateBranch(sc, e.thenExpr, thenRows, thenPositions, seq(|rows|, i => Null), e);
    if done.Err? {
      ghost var q :| 0 <= q < |thenRows| && EvalRow(sc, e.thenExpr, thenRows[q]).Err?;
      assert EvalRow(sc, e, rows[thenPositions[q]]).Err?;
      return Err(done.error);
    }
    ghost var first := result;
    done, result := EvaluateBranch(sc, e.elseExpr, elseRows, elsePositions, result, e);
    if done.Err? {
      ghost var q :| 0 <= q < |elseRows| && EvalRow(sc, e.elseExpr, elseRows[q]).Err?;
      assert EvalRow(sc, e, rows[elsePositions[q]]).Err?;
      return Err(done.error);
    }
    forall p | 0 <= p < |rows| ensures EvalRow(sc, e, rows[p]) == Ok(result[p]) {
      IfPosition(sc, e, rows, conditions.value, p, thenRows, thenPositions, elseRows, elsePositions, first, result);
    }
    res := Ok(result);
  }

  lemma IfPosition<Op>(sc: Scope<Op>, e: Expr<Op>, rows: seq<nat>, conditions: seq<Value>, p: nat,
                       thenRows: seq<nat>, thenPositions: seq<nat>, elseRows: seq<nat>, elsePositions: seq<nat>,
                       first: seq<Value>, result: seq<Value>)
    requires e.If? && p < |rows| == |conditions| == |first| == |result|
    requires EvalRow(sc, e.cond, rows[p]) == Ok(conditions[p])
    requires conditions[p].Bool? || conditions[p].Null?
    requires Picks(rows, thenRows, thenPositions) && Chosen(conditions, thenPositions, |rows|, true)
    requires Picks(rows, elseRows, elsePositions) && Chosen(conditions, elsePositions, |rows|, false)
    requires forall q :: 0 <= q < |thenRows| ==> EvalRow(sc, e.thenExpr, thenRows[q]) == Ok(first[thenPositions[q]])
    requires forall q :: 0 <= q < |elseRows| ==> EvalRow(sc, e.elseExpr, elseRows[q]) == Ok(result[elsePositions[q]])
    requires p !in elsePositions ==> result[p] == first[p]
    ensures EvalRow(sc, e, rows[p]) == Ok(result[p])
  {
    if conditions[p] == Bool(true) {
      assert p in thenPositions;
      var q :| 0 <= q < |thenPositions| && thenPositions[q] == p;
      assert p !in elsePositions;
    } else {
      assert p in elsePositions;
      var q :| 0 <= q < |elsePositions| && elsePositions[q] == p;
    }
  }

  // ----- coalesce -----

  /** `at` finds each listed position in the list, and is negative elsewhere. */
  ghost predicate Inverse(positions: seq<nat>, at: seq<int>)
  {
    && (forall q :: 0 <= q < |positions| ==> positions[q] < |at| && at[positions[q]] == q)
    && (forall p :: 0 <= p < |at| && at[p] >= 0 ==> at[p] < |positions| && positions[at[p]] == p)
  }

  /** Rows still without a value after the first n operands, and the values of
      the others. */
  ghost predicate PendingAt<Op>(sc: Scope<Op>, e: Expr<Op>, rows: seq<nat>, n: nat, pending: seq<nat>,
                                positions: seq<nat>, at: seq<int>, result: seq<Value>)
    requires e.Coalesce? && n <= |e.operands|
  {
    && |pending| == |positions| && |result| == |rows| == |at| && Inverse(positions, at)
    && forall p :: 0 <= p < |rows| ==>
         if at[p] >= 0 then
           pending[at[p]] == rows[p] && result[p] == Null &&
           CoalesceRow(sc, e, 0, rows[p]) == CoalesceRow(sc, e, n, rows[p])
         else CoalesceRow(sc, e, 0, rows[p]) == Ok(result[p])
  }

  /** Keeps the rows whose value is NULL pending and writes the other values. */
  method Sift(pending: seq<nat>, positions: seq<nat>, values: seq<Value>, result: seq<Value>, ghost at: seq<int>)
    returns (nextRows: seq<nat>, nextPositions: seq<nat>, out: seq<Value>, ghost next: seq<int>)
    requires |pending| == |positions| == |values| && |at| == |result| && Inverse(positions, at)
    ensures |out| == |next| == |result| && |nextRows| == |nextPositions| && Inverse(nextPositions, next)
    ensures forall p :: 0 <= p < |result| ==> SiftedTo(pending, values, result, at, nextRows, out, next, |positions|, p)
  {
    nextRows, nextPositions, out := [], [], result;
    next := seq(|result|, p => -1);
    for i := 0 to |positions|
      invariant |out| == |next| == |result| && |nextRows| == |nextPositions| && Inverse(nextPositions, next)
      invariant forall p :: 0 <= p < |result| ==> SiftedTo(pending, values, result, at, nextRows, out, next, i, p)
    {
      var position := positions[i];
      assert SiftedTo(pending, values, result, at, nextRows, out, next, i, position);
      ghost var rows0, out0, next0, done := nextRows, out, next, i + 1;
      if values[i].Null? {
        InverseMore(nextPositions, next, position);
        next := next[position := |nextPositions|];
        nextRows, nextPositions := nextRows + [pending[i]], nextPositions + [position];
      } else {
        out := out[position := values[i]];
      }
      forall p | 0 <= p < |result| ensures SiftedTo(pending, values, result, at, nextRows, out, next, done, p) {
        assert SiftedTo(pending, values, result, at, rows0, out0, next0, i, p);
        if at[p] == i { assert p == position; }
      }
    }
  }

  lemma InverseMore(positions: seq<nat>, at: seq<int>, position: nat)
    requires Inverse(positions, at) && position < |at| && at[position] < 0
    ensures Inverse(positions + [position], at[position := |positions|])
  {
    var all, after := positions + [position], at[position := |positions|];
    forall q | 0 <= q < |all| ensures all[q] < |after| && after[all[q]] == q {
      if q < |positions| { assert at[positions[q]] == q; }
    }
  }

  /** Position p after the first i pending rows have been sifted. */
  ghost predicate SiftedTo(pending: seq<nat>, values: seq<Value>, result: seq<Value>, at: seq<int>, nextRows: seq<nat>,
                           out: seq<Value>, next: seq<int>, i: nat, p: nat)
    requires p < |result| == |at| == |out| == |next| && |pending| == |values|
  {
    if 0 <= at[p] < |values| && at[p] < i then
      if values[at[p]].Null? then
        0 <= next[p] < |nextRows| && nextRows[next[p]] == pending[at[p]] && out[p] == result[p]
      else next[p] < 0 && out[p] == values[at[p]]
    else next[p] < 0 && out[p] == result[p]
  }

  method SiftOperand<Op>(ghost sc: Scope<Op>, ghost e: Expr<Op>, ghost rows: seq<nat>, ghost n: nat,
                         pending: seq<nat>, positions: seq<nat>, result: seq<Value>, ghost at: seq<int>,
                         values: seq<Value>)
    returns (nextRows: seq<nat>, nextPositions: seq<nat>, out: seq<Value>, ghost next: seq<int>)
    requires e.Coalesce? && n < |e.operands| && PendingAt(sc, e, rows, n, pending, positions, at, result)
    requires Holds(sc, e.operands[n], pending, values)
    ensures PendingAt(sc, e, rows, n + 1, nextRows, nextPositions, next, out)
  {
    nextRows, nextPositions, out, next := Sift(pending, positions, values, result, at);
    forall p | 0 <= p < |rows|
      ensures if next[p] >= 0 then nextRows[next[p]] == rows[p] && out[p] == Null &&
              CoalesceRow(sc, e, 0, rows[p]) == CoalesceRow(sc, e, n + 1, rows[p])
              else CoalesceRow(sc, e, 0, rows[p]) == Ok(out[p])
    {
      assert SiftedTo(pending, values, result, at, nextRows, out, next, |positions|, p);
      if at[p] >= 0 { assert EvalRow(sc, e.operands[n], pending[at[p]]) == Ok(values[at[p]]); }
    }
  }

  lemma CoalesceFails<Op>(sc: Scope<Op>, e: Expr<Op>, rows: seq<nat>, n: nat, pending: seq<nat>, positions: seq<nat>,
                          at: seq<int>, result: seq<Value>)
    requires e.Coalesce? && 2 <= |e.operands| && n < |e.operands|
    requires PendingAt(sc, e, rows, n, pending, positions, at, result)
    requires pending != [] && !Succeeds(sc, e.operands[n], pending)
    ensures !Succeeds(sc, e, rows)
  {
    var q :| 0 <= q < |pending| && EvalRow(sc, e.operands[n], pending[q]).Err?;
    var p := positions[q];
    assert at[p] == q && rows[p] == pending[q];
    assert CoalesceRow(sc, e, n, rows[p]).Err?;
    FailsAt(sc, e, rows, p);
  }

  /** evaluate_coalesce_column */
  method EvaluateCoalesce<Op>(sc: Scope<Op>, e: Expr<Op>, rows: seq<nat>) returns (res: Result<seq<Value>>)
    requires e.Coalesce?
    requires NoSubqueries(sc)
    ensures res.Ok? <==> Succeeds(sc, e, rows)
    ensures res.Ok? ==> Holds(sc, e, rows, res.value)
    decreases e, 0, 1
  {
    if rows != [] { FailsAt(sc, e, rows, 0); }
    if |e.operands| < 2 { return Err(InvalidArgument); }
    var result: seq<Value> := seq(|rows|, i => Null);
    var pending: seq<nat>, positions: seq<nat> := rows, seq(|rows|, i => i);
    ghost var at: seq<int> := seq(|rows|, i => i);
    var n := 0;
    while n < |e.operands| && pending != []
      invariant 0 <= n <= |e.operands| && PendingAt(sc, e, rows, n, pending, positions, at, result)
    {
      var done;
      done, pending, positions, result, at := CoalesceOperand(sc, e, rows, n, pending, positions, result, at);
      if done.Err? { return Err(done.error); }
      n := n + 1;
    }
    CoalesceDone(sc, e, rows, n, pending, positions, at, result);
    res := Ok(result);
  }

  /** One operand of the loop, evaluated on the pending rows only. */
  method CoalesceOperand<Op>(sc: Scope<Op>, e: Expr<Op>, ghost rows: seq<nat>, n: nat, pending: seq<nat>,
                             positions: seq<nat>, result: seq<Value>, ghost at: seq<int>)
    returns (res: Result<()>, nextRows: seq<nat>, nextPositions: seq<nat>, out: seq<Value>, ghost next: seq<int>)
    requires NoSubqueries(sc)
    requires e.Coalesce? && 2 <= |e.operands| && n < |e.operands| && pending != []
    requires PendingAt(sc, e, rows, n, pending, positions, at, result)
    ensures res.Ok? ==> PendingAt(sc, e, rows, n + 1, nextRows, nextPositions, next, out)
    ensures res.Err? ==> !Succeeds(sc, e, rows)
    decreases e, 0, 0
  {
    nextRows, nextPositions, out, next := pending, positions, result, at;
    var values := EvaluateSelected(sc, e.operands[n], pending);
    if values.Err? {
      CoalesceFails(sc, e, rows, n, pending, positions, at, result);
      return Err(values.error), nextRows, nextPositions, out, next;
    }
    nextRows, nextPositions, out, next := SiftOperand(sc, e, rows, n, pending, positions, result, at, values.value);
    res := Ok(());
  }

  lemma CoalesceDone<Op>(sc: Scope<Op>, e: Expr<Op>, rows: seq<nat>, n: nat, pending: seq<nat>, positions: seq<nat>,
                         at: seq<int>, result: seq<Value>)
    requires e.Coalesce? && 2 <= |e.operands| && n <= |e.operands|
    requires PendingAt(sc, e, rows, n, pending, positions, at, result)
    requires n == |e.operands| || pending == []
    ensures Holds(sc, e, rows, result) && Succeeds(sc, e, rows)
  {
    forall p | 0 <= p < |rows| ensures EvalRow(sc, e, rows[p]) == Ok(result[p]) {
      if at[p] >= 0 { assert CoalesceRow(sc, e, n, rows[p]) == Ok(Null); }
    }
  }

  // ----- least and greatest -----

  /** Every position holds the extreme of the first n operands. */
  ghost predicate ExtremeAt<Op>(sc: Scope<Op>, e: Expr<Op>, rows: seq<nat>, n: nat, result: seq<Value>)
    requires e.Extreme? && n <= |e.operands|
  {
    |result| == |rows| && forall p :: 0 <= p < |rows| ==> ExtremeRow(sc, e, n, rows[p]) == Ok(result[p])
  }

  lemma {:induction false} ExtremeFails<Op>(sc: Scope<Op>, e: Expr<Op>, n: nat, m: nat, row: nat)
    requires e.Extreme? && n <= m <= |e.operands| && ExtremeRow(sc, e, n, row).Err?
    ensures ExtremeRow(sc, e, m, row).Err?
    decreases m
  {
    if n < m { ExtremeFails(sc, e, n, m - 1, row); }
  }

  lemma {:induction false} ExtremeNeeds<Op>(sc: Scope<Op>, e: Expr<Op>, n: nat, row: nat)
    requires e.Extreme? && n < |e.operands| && 2 <= |e.operands|
    requires ExtremeRow(sc, e, n + 1, row).Err? || EvalRow(sc, e.operands[n], row).Err?
    ensures EvalRow(sc, e, row).Err?
  {
    ExtremeFails(sc, e, n + 1, |e.operands|, row);
  }

  /** evaluate_extrema_column */
  method EvaluateExtreme<Op>(sc: Scope<Op>, e: Expr<Op>, rows: seq<nat>) returns (res: Result<seq<Value>>)
    requires e.Extreme?
    requires NoSubqueries(sc)
    ensures res.Ok? <==> Succeeds(sc, e, rows)
    ensures res.Ok? ==> Holds(sc, e, rows, res.value)
    decreases e, 0, 1
  {
    if rows != [] { FailsAt(sc, e, rows, 0); }
    if |e.operands| < 2 { return Err(InvalidArgument); }
    var result: seq<Value> := seq(|rows|, i => Null);
    for n := 0 to |e.operands|
      invariant ExtremeAt(sc, e, rows, n, result)
      invariant rows == [] ==> forall i :: 0 <= i < n ==> EmptyOk(sc, e.operands[i])
    {
      var values := EvaluateSelected(sc, e.operands[n], rows);
      if values.Err? {
        if rows != [] {
          ghost var p :| 0 <= p < |rows| && EvalRow(sc, e.operands[n], rows[p]).Err?;
          ExtremeNeeds(sc, e, n, rows[p]);
          FailsAt(sc, e, rows, p);
        }
        return Err(values.error);
      }
      var next := ZipColumns((current: Value, candidate: Value) => sc.scalars.better(current, candidate, e.replacement),
                             result, values.value);
      if next.Err? {
        ghost var p :| 0 <= p < |rows| && sc.scalars.better(result[p], values.value[p], e.replacement).Err?;
        ExtremeNeeds(sc, e, n, rows[p]);
        FailsAt(sc, e, rows, p);
        return Err(next.error);
      }
      result := next.value;
    }
    res := Ok(result);
  }

  /** evaluate: every row of the chunk. */
  method Evaluate<Op>(sc: Scope<Op>, e: Expr<Op>) returns (res: Result<seq<Value>>)
    requires NoSubqueries(sc)
    ensures sc.chunk.rowCount > 0 ==>
              (res.Ok? <==> forall row :: 0 <= row < sc.chunk.rowCount ==> EvalRow(sc, e, row).Ok?)
    ensures sc.chunk.rowCount == 0 ==> (res.Ok? <==> EmptyOk(sc, e))
    ensures res.Ok? ==> |res.value| == sc.chunk.rowCount
    ensures res.Ok? ==> forall row :: 0 <= row < sc.chunk.rowCount ==> EvalRow(sc, e, row) == Ok(res.value[row])
  {
    var rows: seq<nat> := seq(sc.chunk.rowCount, i => i);
    res := EvaluateSelected(sc, e, rows);
    SameRows(sc, e, rows);
  }

  lemma SameRows<Op>(sc: Scope<Op>, e: Expr<Op>, rows: seq<nat>)
    requires forall i :: 0 <= i < |rows| ==> rows[i] == i
    ensures |rows| > 0 ==> (Succeeds(sc, e, rows) <==> forall row :: 0 <= row < |rows| ==> EvalRow(sc, e, row).Ok?)
  {
    if !Succeeds(sc, e, rows) && |rows| > 0 {
      var i :| 0 <= i < |rows| && EvalRow(sc, e, rows[i]).Err?;
      assert EvalRow(sc, e, i).Err?;
    }
    if Succeeds(sc, e, rows) && |rows| > 0 {
      forall row | 0 <= row < |rows| ensures EvalRow(sc, e, row).Ok? {
        assert EvalRow(sc, e, rows[row]).Ok?;
      }
    }
  }
}
