/** Scalar subqueries: resolving a row's expression, running and caching the
    subqueries it reaches, and then evaluating it as an ordinary expression. */
module ScalarResolver {
  import opened Values
  import opened Columns
  import opened Evaluator
  import opened Budget
  import opened Spilling
  import PlanFrame

  /** The outer row as a subquery sees it. */
  type Outer = PlanFrame.Env

  /** ScalarSubqueryResult: the values of the one output column, and its type. */
  datatype SubqueryResult = SubqueryResult(outputType: LogicalType, values: seq<Value>)

  /** The subquery plans by number, the engine that runs them, and the one column
      read from the rows of each. */
  datatype Plans = Plans(
    engine: PlanFrame.Meaning,
    operators: nat -> PlanFrame.Operator,
    column: (nat, Result<seq<PlanFrame.Env>>) -> Result<SubqueryResult>)

  /** ScalarSubqueryExecutor::execute */
  function Execute(plans: Plans, plan: nat, outer: Outer): Result<SubqueryResult>
  {
    plans.column(plan, PlanFrame.Run(plans.engine, plans.operators(plan), outer))
  }

  /** execute_scalar: no row is NULL, more than one is an error, and the value must
      be of the declared type. */
  function RunScalar(plans: Plans, plan: nat, outer: Outer): Result<Value>
  {
    var result :- Execute(plans, plan, outer);
    if |result.values| > 1 then Err(InvalidArgument)
    else
      var value := if result.values == [] then Null else result.values[0];
      if MatchesType(value, result.outputType) then Ok(value) else Err(Corrupt)
  }

  /** The value of a subquery: its one row's value, NULL for no row, in either case of
      the declared type; nothing otherwise. */
  lemma RunScalarMeans(plans: Plans, plan: nat, outer: Outer, v: Value)
    ensures RunScalar(plans, plan, outer) == Ok(v) <==>
            && Execute(plans, plan, outer).Ok?
            && (Execute(plans, plan, outer).value.values == [v] ||
                (Execute(plans, plan, outer).value.values == [] && v == Null))
            && (v.Null? || MatchesType(v, Execute(plans, plan, outer).value.outputType))
  {
    var result := Execute(plans, plan, outer);
    if result.Ok? && |result.value.values| == 1 { assert result.value.values == [result.value.values[0]]; }
  }

  /** operator_references_outer, given the names of the outer columns. */
  predicate RefersOuter(plans: Plans, plan: nat, names: set<string>)
  {
    PlanFrame.RefersOuter(plans.engine, plans.operators(plan), names)
  }

  /** One run without an outer row serves every outer row whose names the plan does
      not mention. */
  lemma OneRunServesAll(plans: Plans, plan: nat, names: set<string>, outer: Outer)
    requires !RefersOuter(plans, plan, names) && outer.Keys <= names
    ensures RunScalar(plans, plan, outer) == RunScalar(plans, plan, map[])
  {
    PlanFrame.CachingIsSound(plans.engine, plans.operators(plan), names, outer);
  }

  // ----- rows being resolved -----

  /** ResolvedScalarRow: the row's values followed by the subquery results. */
  datatype ResolvedRow = ResolvedRow(values: Row, columns: map<string, nat>, outerWidth: nat, nextColumn: nat)

  function Digits(n: nat): string
  {
    if n < 10 then [('0' as int + n) as char] else Digits(n / 10) + [('0' as int + n % 10) as char]
  }

  function TempName(n: nat): string { "__scalar.value" + Digits(n) }

  ghost predicate IsTemp(name: string) { exists n :: name == TempName(n) }

  /** `later` is `row` after pushing some subquery results. */
  ghost predicate Extends(row: ResolvedRow, later: ResolvedRow)
  {
    && row.values <= later.values && row.outerWidth == later.outerWidth <= |row.values|
    && (forall k :: k in row.columns ==> k in later.columns && later.columns[k] == row.columns[k])
    && (forall k :: k in later.columns && k !in row.columns ==>
          IsTemp(k) && |row.values| <= later.columns[k] < |later.values|)
  }

  lemma ExtendsTrans(a: ResolvedRow, b: ResolvedRow, c: ResolvedRow)
    requires Extends(a, b) && Extends(b, c)
    ensures Extends(a, c)
  {
  }

  function OneRow(values: Row): Chunk
  {
    var columns := seq(|values|, i requires 0 <= i < |values| => Boxed([values[i]]));
    Chunk(columns, 1)
  }

  function ScopeOf<Op>(scalars: Scalars<Op>, row: ResolvedRow, subquery: nat -> Result<Value>): Scope<Op>
  {
    Scope(scalars, OneRow(row.values), row.columns, subquery)
  }

  function NoSubquery(plan: nat): Result<Value> { Err(InvalidArgument) }

  /** Every column reference is a column of the row, or at least no temporary name. */
  ghost predicate References<Op>(columns: map<string, nat>, width: nat, e: Expr<Op>)
  {
    match e
    case Col(reference) => if reference in columns then columns[reference] < width else !IsTemp(reference)
    case Lit(_) => true
    case Scalar(_) => true
    case Binary(_, left, right) => References(columns, width, left) && References(columns, width, right)
    case DateAdd(left, right) => References(columns, width, left) && References(columns, width, right)
    case Not(operand) => References(columns, width, operand)
    case DateTrunc(operand) => References(columns, width, operand)
    case If(cond, thenExpr, elseExpr) =>
      References(columns, width, cond) && References(columns, width, thenExpr) && References(columns, width, elseExpr)
    case Coalesce(operands) => forall i :: 0 <= i < |operands| ==> References(columns, width, operands[i])
    case Extreme(_, operands) => forall i :: 0 <= i < |operands| ==> References(columns, width, operands[i])
  }

  ghost predicate Knows<Op>(row: ResolvedRow, e: Expr<Op>)
  {
    References(row.columns, |row.values|, e)
  }

  /** More columns do not change the value of an expression that knows its own. */
  lemma {:induction false} EvalStable<Op>(scalars: Scalars<Op>, row: ResolvedRow, later: ResolvedRow, e: Expr<Op>)
    requires Extends(row, later) && Knows(row, e)
    ensures EvalRow(ScopeOf(scalars, later, NoSubquery), e, 0) == EvalRow(ScopeOf(scalars, row, NoSubquery), e, 0)
    ensures Knows(later, e)
    decreases e, 1, 0
  {
    match e
    case Col(reference) =>
    case Lit(_) =>
    case Scalar(_) =>
    case Binary(_, left, right) =>
      EvalStable(scalars, row, later, left);
      EvalStable(scalars, row, later, right);
    case DateAdd(left, right) =>
      EvalStable(scalars, row, later, left);
      EvalStable(scalars, row, later, right);
    case Not(operand) =>
      EvalStable(scalars, row, later, operand);
    case DateTrunc(operand) =>
      EvalStable(scalars, row, later, operand);
    case If(cond, thenExpr, elseExpr) =>
      EvalStable(scalars, row, later, cond);
      EvalStable(scalars, row, later, thenExpr);
      EvalStable(scalars, row, later, elseExpr);
    case Coalesce(operands) =>
      forall i | 0 <= i < |operands| ensures Knows(later, operands[i]) { EvalStable(scalars, row, later, operands[i]); }
      CoalesceStable(scalars, row, later, e, 0);
    case Extreme(_, operands) =>
      forall i | 0 <= i < |operands| ensures Knows(later, operands[i]) { EvalStable(scalars, row, later, operands[i]); }
      ExtremeStable(scalars, row, later, e, |operands|);
  }

  lemma {:induction false} CoalesceStable<Op>(scalars: Scalars<Op>, row: ResolvedRow, later: ResolvedRow, e: Expr<Op>,
                                              i: nat)
    requires Extends(row, later) && Knows(row, e) && e.Coalesce? && i <= |e.operands|
    ensures CoalesceRow(ScopeOf(scalars, later, NoSubquery), e, i, 0) ==
              CoalesceRow(ScopeOf(scalars, row, NoSubquery), e, i, 0)
    decreases e, 0, |e.operands| - i
  {
    if i < |e.operands| {
      EvalStable(scalars, row, later, e.operands[i]);
      CoalesceStable(scalars, row, later, e, i + 1);
    }
  }

  lemma {:induction false} ExtremeStable<Op>(scalars: Scalars<Op>, row: ResolvedRow, later: ResolvedRow, e: Expr<Op>,
                                             n: nat)
    requires Extends(row, later) && Knows(row, e) && e.Extreme? && n <= |e.operands|
    ensures ExtremeRow(ScopeOf(scalars, later, NoSubquery), e, n, 0) ==
              ExtremeRow(ScopeOf(scalars, row, NoSubquery), e, n, 0)
    decreases e, 0, n
  {
    if n > 0 {
      EvalStable(scalars, row, later, e.operands[n - 1]);
      ExtremeStable(scalars, row, later, e, n - 1);
    }
  }

  /** outer_bindings: the row's own columns, not the pushed results. */
  function OuterOf(row: ResolvedRow): Outer
    requires row.outerWidth <= |row.values|
  {
    map k | k in row.columns && row.columns[k] < row.outerWidth :: row.values[row.columns[k]]
  }

  /** A subquery sees the row's own columns and nothing else. */
  lemma OuterIsTheRow(chunk: Chunk, columns: map<string, nat>, r: nat, name: string)
    requires r < chunk.rowCount
    ensures var outer := OuterOf(RowOf(chunk, columns, r));
            && (name in outer <==> name in columns && columns[name] < |chunk.columns|)
            && (name in outer ==> outer[name] == ValueAt(chunk.columns[columns[name]], r))
  {
  }

  lemma OuterStable(row: ResolvedRow, later: ResolvedRow)
    requires Extends(row, later)
    ensures OuterOf(later) == OuterOf(row)
  {
  }

  /** push_scalar: the result becomes a column under a name not yet taken. */
  method PushScalar(row: ResolvedRow, value: Value) returns (res: Result<string>, later: ResolvedRow)
    requires row.outerWidth <= |row.values|
    ensures res.Ok? ==> Extends(row, later) && res.value in later.columns && later.values == row.values + [value]
    ensures res.Ok? ==> later.columns[res.value] == |row.values|
  {
    var next := row.nextColumn;
    while true
      invariant next >= row.nextColumn
      decreases USIZE_MAX - next
    {
      var candidate := TempName(next);
      if next >= USIZE_MAX { return Err(InvalidArgument), row; }
      next := next + 1;
      if candidate !in row.columns {
        later := ResolvedRow(row.values + [value], row.columns[candidate := |row.values|], row.outerWidth, next);
        return Ok(candidate), later;
      }
    }
  }

  /** Why references to temporary names are excluded: pushing a result gives such a
      reference, unknown in the row itself, a value. */
  lemma TempNameCaptured<Op>(scalars: Scalars<Op>, value: Value)
    ensures var row, later := ResolvedRow([], map[], 0, 0), ResolvedRow([value], map[TempName(0) := 0], 0, 1);
            && Extends(row, later) && !Knows<Op>(row, Col(TempName(0)))
            && EvalRow(ScopeOf(scalars, row, NoSubquery), Col(TempName(0)), 0).Err?
            && EvalRow(ScopeOf(scalars, later, NoSubquery), Col(TempName(0)), 0) == Ok(value)
  {
    assert IsTemp(TempName(0));
  }

  // ----- what lazy evaluation reaches -----

  ghost predicate IsFalseOrNull(r: Result<Value>) { r == Ok(Bool(false)) || r == Ok(Null) }

  /** Lazy evaluation of the expression reaches subquery `plan`. */
  ghost predicate Reaches<Op>(sc: Scope<Op>, e: Expr<Op>, plan: nat)
  {
    match e
    case Col(_) => false
    case Lit(_) => false
    case Scalar(p) => p == plan
    case Binary(_, left, right) => Reaches(sc, left, plan) || Reaches(sc, right, plan)
    case DateAdd(left, right) => Reaches(sc, left, plan) || Reaches(sc, right, plan)
    case Not(operand) => Reaches(sc, operand, plan)
    case DateTrunc(operand) => Reaches(sc, operand, plan)
    case If(cond, thenExpr, elseExpr) =>
      || Reaches(sc, cond, plan)
      || (EvalRow(sc, cond, 0) == Ok(Bool(true)) && Reaches(sc, thenExpr, plan))
      || (IsFalseOrNull(EvalRow(sc, cond, 0)) && Reaches(sc, elseExpr, plan))
    case Coalesce(operands) =>
      exists i :: 0 <= i < |operands| && Reaches(sc, operands[i], plan) && forall j :: 0 <= j < i ==>
        EvalRow(sc, operands[j], 0) == Ok(Null)
    case Extreme(_, operands) => exists i :: 0 <= i < |operands| && Reaches(sc, operands[i], plan)
  }

  /** Two outcomes that agree on success and value. */
  ghost predicate SameOutcome(a: Result<Value>, b: Result<Value>)
  {
    (a.Ok? <==> b.Ok?) && (a.Ok? ==> a == b)
  }

  // ----- the resolver -----

  function Subquery(plans: Plans, outer: Outer): nat -> Result<Value>
  {
    (plan: nat) => RunScalar(plans, plan, outer)
  }

  function CacheEntryBytes(v: Value): nat { BUFFERED_ROW_OVERHEAD_BYTES + ApproxBytes(v) }

  ghost function CacheBytes(held: seq<Value>): nat
  {
    if held == [] then 0 else CacheBytes(held[..|held| - 1]) + CacheEntryBytes(held[|held| - 1])
  }

  /** Every entry is what its plan gives without an outer row; `held` lists them. */
  ghost predicate Cached(plans: Plans, cache: map<nat, Value>, held: seq<Value>)
  {
    |held| == |cache| && forall plan :: plan in cache ==> RunScalar(plans, plan, map[]) == Ok(cache[plan])
  }

  lemma CacheGrows(plans: Plans, cache: map<nat, Value>, held: seq<Value>, plan: nat, v: Value)
    requires Cached(plans, cache, held) && plan !in cache && RunScalar(plans, plan, map[]) == Ok(v)
    ensures Cached(plans, cache[plan := v], held + [v])
    ensures CacheBytes(held + [v]) == CacheBytes(held) + CacheEntryBytes(v)
  {
    assert (held + [v])[..|held|] == held;
  }

  /** What resolving `e` must achieve: an ordinary expression over the extended row
      with the lazy value of `e`, and only subqueries that lazy evaluation reaches
      were executed. */
  ghost predicate ResolvedTo<Op>(scalars: Scalars<Op>, lazy: Scope<Op>, e: Expr<Op>, row: ResolvedRow,
                                 later: ResolvedRow,
                                 res: Result<Expr<Op>>, ran: seq<nat>, overflow: bool)
  {
    && lazy.scalars == scalars
    && (res.Err? ==> EvalRow(lazy, e, 0).Err? || overflow)
    && (res.Ok? ==> Extends(row, later) && Knows(later, res.value))
    && (res.Ok? ==> SameOutcome(EvalRow(ScopeOf(scalars, later, NoSubquery), res.value, 0), EvalRow(lazy, e, 0)))
    && AllReached(lazy, e, ran)
  }

  ghost predicate AllReached<Op>(lazy: Scope<Op>, e: Expr<Op>, ran: seq<nat>)
  {
    forall i :: 0 <= i < |ran| ==> Reaches(lazy, e, ran[i])
  }

  /** Resolving keeps the row's own columns, and achieves `ResolvedTo` for every
      expression whose references no temporary name captures. */
  ghost predicate Resolved<Op>(scalars: Scalars<Op>, lazy: Scope<Op>, base: ResolvedRow, e: Expr<Op>, row: ResolvedRow,
                               later: ResolvedRow, res: Result<Expr<Op>>, ran: seq<nat>, overflow: bool)
  {
    && (res.Ok? ==> Extends(row, later))
    && (Knows(base, e) ==> ResolvedTo(scalars, lazy, e, row, later, res, ran, overflow))
  }

  // ----- no operand, and one -----

  lemma LeafResolved<Op>(scalars: Scalars<Op>, lazy: Scope<Op>, base: ResolvedRow, e: Expr<Op>, row: ResolvedRow,
                         overflow: bool)
    requires (e.Col? || e.Lit?) && Extends(base, row) && lazy == ScopeOf(scalars, base, lazy.subquery)
    ensures Resolved(scalars, lazy, base, e, row, row, Ok(e), [], overflow)
  {
  }

  /** A subquery's value under the row's own columns, pushed as a column. */
  lemma ScalarResolved<Op>(scalars: Scalars<Op>, lazy: Scope<Op>, base: ResolvedRow, e: Expr<Op>, row: ResolvedRow,
                           later: ResolvedRow,
                           name: string, value: Value, ran: seq<nat>, overflow: bool)
    requires e.Scalar? && lazy.scalars == scalars && lazy.subquery(e.plan) == Ok(value)
    requires ran == [] || ran == [e.plan]
    requires Extends(row, later) && name in later.columns && later.columns[name] < |later.values|
    requires later.values[later.columns[name]] == value
    ensures Resolved(scalars, lazy, base, e, row, later, Ok(Col(name)), ran, overflow)
  {
  }

  lemma ScalarFailed<Op>(scalars: Scalars<Op>, lazy: Scope<Op>, base: ResolvedRow, e: Expr<Op>, row: ResolvedRow,
                         later: ResolvedRow,
                         res: Result<Expr<Op>>, ran: seq<nat>, overflow: bool)
    requires e.Scalar? && lazy.scalars == scalars && res.Err? && (lazy.subquery(e.plan).Err? || overflow)
    requires ran == [] || ran == [e.plan]
    ensures Resolved(scalars, lazy, base, e, row, later, res, ran, overflow)
  {
  }

  predicate IsUnary<Op>(e: Expr<Op>) { e.Not? || e.DateTrunc? }

  lemma UnaryResolved<Op>(scalars: Scalars<Op>, lazy: Scope<Op>, base: ResolvedRow, e: Expr<Op>, row: ResolvedRow,
                          later: ResolvedRow,
                          x: Result<Expr<Op>>, res: Result<Expr<Op>>, ran: seq<nat>, overflow: bool)
    requires IsUnary(e) && Resolved(scalars, lazy, base, e.operand, row, later, x, ran, overflow)
    requires res == if x.Err? then x else Ok(if e.Not? then Not(x.value) else DateTrunc(x.value))
    ensures Resolved(scalars, lazy, base, e, row, later, res, ran, overflow)
  {
  }

  // ----- two operands -----

  predicate IsPair<Op>(e: Expr<Op>) { e.Binary? || e.DateAdd? }

  lemma LeftFailed<Op>(scalars: Scalars<Op>, lazy: Scope<Op>, base: ResolvedRow, e: Expr<Op>, row: ResolvedRow,
                       mid: ResolvedRow,
                       res: Result<Expr<Op>>, ran: seq<nat>, overflow: bool)
    requires IsPair(e) && res.Err? && Resolved(scalars, lazy, base, e.left, row, mid, res, ran, overflow)
    ensures Resolved(scalars, lazy, base, e, row, mid, res, ran, overflow)
  {
  }

  lemma RightFailed<Op>(scalars: Scalars<Op>, lazy: Scope<Op>, base: ResolvedRow, e: Expr<Op>, row: ResolvedRow,
                        mid: ResolvedRow,
                        later: ResolvedRow, l: Result<Expr<Op>>, res: Result<Expr<Op>>, ran: seq<nat>, more: seq<nat>,
                        before: bool, overflow: bool)
    requires IsPair(e) && l.Ok? && Resolved(scalars, lazy, base, e.left, row, mid, l, ran, before)
    requires res.Err? && Resolved(scalars, lazy, base, e.right, mid, later, res, more, overflow)
    ensures Resolved(scalars, lazy, base, e, row, later, res, ran + more, overflow)
  {
    if Knows(base, e) { assert EvalRow(lazy, e.right, 0).Err? ==> EvalRow(lazy, e, 0).Err?; }
  }

  function Paired<Op>(e: Expr<Op>, l: Expr<Op>, r: Expr<Op>): Expr<Op>
    requires IsPair(e)
  {
    if e.Binary? then Binary(e.op, l, r) else DateAdd(l, r)
  }

  /** Two resolved operands, the second over the row the first one extended. */
  lemma PairResolved<Op>(scalars: Scalars<Op>, lazy: Scope<Op>, base: ResolvedRow, e: Expr<Op>, row: ResolvedRow,
                         mid: ResolvedRow,
                         later: ResolvedRow, l: Result<Expr<Op>>, r: Result<Expr<Op>>, ran: seq<nat>, more: seq<nat>,
                         before: bool, overflow: bool)
    requires IsPair(e) && l.Ok? && Resolved(scalars, lazy, base, e.left, row, mid, l, ran, before)
    requires r.Ok? && Resolved(scalars, lazy, base, e.right, mid, later, r, more, overflow)
    ensures Resolved(scalars, lazy, base, e, row, later, Ok(Paired(e, l.value, r.value)), ran + more, overflow)
  {
    ExtendsTrans(row, mid, later);
    if Knows(base, e) { EvalStable(scalars, mid, later, l.value); }
  }

  class ScalarExpressions<Op> {
    const scalars: Scalars<Op>
    const plans: Plans
    const budget: MemoryBudget
    /** Results of uncorrelated subqueries, by plan. */
    var cache: map<nat, Value>
    var cachedCharge: nat
    /** The cached values, the plans executed so far, and whether a size or a
        counter ever left the address space. */
    ghost var held: seq<Value>
    ghost var log: seq<nat>
    ghost var overflow: bool

    ghost predicate Valid()
      reads this, budget
    {
      && Cached(plans, cache, held)
      && cachedCharge == CacheBytes(held) <= budget.charged
    }

    constructor (scalars: Scalars<Op>, plans: Plans, budget: MemoryBudget)
      ensures Valid() && cache == map[] && cachedCharge == 0 && !overflow
      ensures this.scalars == scalars && this.plans == plans && this.budget == budget
    {
      this.scalars, this.plans, this.budget := scalars, plans, budget;
      cache, cachedCharge, held, log, overflow := map[], 0, [], [], false;
    }

    /** The lazy meaning: every subquery is run under the row's own columns. */
    ghost function Lazy(base: ResolvedRow): Scope<Op>
      requires base.outerWidth <= |base.values|
    {
      ScopeOf(scalars, base, Subquery(plans, OuterOf(base)))
    }

    /** try_cache: a refused charge only means that nothing is cached. */
    method TryCache(plan: nat, value: Value) returns (res: Result<()>)
      requires Valid() && plan !in cache && RunScalar(plans, plan, map[]) == Ok(value)
      modifies this`cache, this`cachedCharge, this`held, this`overflow, budget
      ensures Valid() && budget.charged - old(budget.charged) == cachedCharge - old(cachedCharge)
      ensures res.Err? ==> overflow
      ensures old(overflow) ==> overflow
    {
      var charge := CacheEntryBytes(value);
      if charge > USIZE_MAX { overflow := true; return Err(InvalidArgument); }
      var granted := budget.Charge(charge);
      if !granted { return Ok(()); }
      // The budget's total is a usize, so the checked sum cannot overflow.
      assert cachedCharge + charge <= USIZE_MAX;
      cachedCharge := cachedCharge + charge;
      CacheGrows(plans, cache, held, plan, value);
      cache := cache[plan := value];
      held := held + [value];
      res := Ok(());
    }

    /** The value of a subquery for one row: cached, or executed and logged. */
    method ScalarValue(plan: nat, row: ResolvedRow) returns (res: Result<Value>, ghost ran: seq<nat>)
      requires Valid() && row.outerWidth <= |row.values|
      modifies this, budget
      ensures Valid() && budget.charged - old(budget.charged) == cachedCharge - old(cachedCharge)
      ensures old(overflow) ==> overflow
      ensures res.Ok? ==> RunScalar(plans, plan, OuterOf(row)) == res
      ensures res.Err? ==> RunScalar(plans, plan, OuterOf(row)).Err? || overflow
      ensures log == old(log) + ran && (ran == [] || ran == [plan])
    {
      ran := [];
      if RefersOuter(plans, plan, row.columns.Keys) {
        ran := [plan];
        log := log + ran;
        return RunScalar(plans, plan, OuterOf(row)), ran;
      }
      OneRunServesAll(plans, plan, row.columns.Keys, OuterOf(row));
      if plan in cache { return Ok(cache[plan]), ran; }
      ran := [plan];
      log := log + ran;
      res := RunScalar(plans, plan, map[]);
      if res.Err? { return; }
      var cached := TryCache(plan, res.value);
      if cached.Err? { res := Err(cached.error); }
    }

    /** resolve_scalar */
    method ResolveScalar(e: Expr<Op>, row: ResolvedRow, ghost base: ResolvedRow)
      returns (res: Result<Expr<Op>>, later: ResolvedRow, ghost ran: seq<nat>)
      requires e.Scalar? && Valid() && Extends(base, row)
      modifies this, budget
      ensures Valid() && budget.charged - old(budget.charged) == cachedCharge - old(cachedCharge)
      ensures (old(overflow) ==> overflow) && log == old(log) + ran
      ensures Resolved(scalars, Lazy(base), base, e, row, later, res, ran, overflow)
    {
      later := row;
      OuterStable(base, row);
      var value;
      value, ran := ScalarValue(e.plan, row);
      if value.Err? {
        res := Err(value.error);
        ScalarFailed(scalars, Lazy(base), base, e, row, later, res, ran, overflow);
        return;
      }
      var name;
      name, later := PushScalar(row, value.value);
      if name.Err? {
        res, overflow := Err(name.error), true;
        ScalarFailed(scalars, Lazy(base), base, e, row, later, res, ran, overflow);
        return;
      }
      res := Ok(Col(name.value));
      ScalarResolved(scalars, Lazy(base), base, e, row, later, name.value, value.value, ran, overflow);
    }

    /** evaluate_one */
    method EvaluateOne(row: ResolvedRow, e: Expr<Op>) returns (res: Result<Value>)
      ensures SameOutcome(res, EvalRow(ScopeOf(scalars, row, NoSubquery), e, 0))
    {
      var values := Evaluate(ScopeOf(scalars, row, NoSubquery), e);
      if values.Err? { return Err(values.error); }
      res := Ok(values.value[0]);
    }

    /** resolve_row: `if` and `coalesce` decide while resolving, so an operand
        that lazy evaluation skips is never resolved. */
    method ResolveRow(e: Expr<Op>, row: ResolvedRow, ghost base: ResolvedRow)
      returns (res: Result<Expr<Op>>, later: ResolvedRow, ghost ran: seq<nat>)
      requires Valid() && Extends(base, row)
      modifies this, budget
      ensures Valid() && budget.charged - old(budget.charged) == cachedCharge - old(cachedCharge)
      ensures (old(overflow) ==> overflow) && log == old(log) + ran
      ensures Resolved(scalars, Lazy(base), base, e, row, later, res, ran, overflow)
      decreases e, 1, 0
    {
      match e
      case Col(_) =>
        res, later, ran := Ok(e), row, [];
        LeafResolved(scalars, Lazy(base), base, e, row, overflow);
      case Lit(_) =>
        res, later, ran := Ok(e), row, [];
        LeafResolved(scalars, Lazy(base), base, e, row, overflow);
      case Scalar(_) =>
        res, later, ran := ResolveScalar(e, row, base);
      case Binary(_, _, _) =>
        res, later, ran := ResolvePair(e, row, base);
      case DateAdd(_, _) =>
        res, later, ran := ResolvePair(e, row, base);
      case Not(_) =>
        res, later, ran := ResolveUnary(e, row, base);
      case DateTrunc(_) =>
        res, later, ran := ResolveUnary(e, row, base);
      case If(_, _, _) =>
        res, later, ran := ResolveIf(e, row, base);
      case Coalesce(_) =>
        res, later, ran := ResolveCoalesce(e, row, base);
      case Extreme(_, _) =>
        res, later, ran := ResolveExtreme(e, row, base);
    }

    /** resolve_eager on one operand */
    method ResolveUnary(e: Expr<Op>, row: ResolvedRow, ghost base: ResolvedRow)
      returns (res: Result<Expr<Op>>, later: ResolvedRow, ghost ran: seq<nat>)
      requires IsUnary(e) && Valid() && Extends(base, row)
      modifies this, budget
      ensures Valid() && budget.charged - old(budget.charged) == cachedCharge - old(cachedCharge)
      ensures (old(overflow) ==> overflow) && log == old(log) + ran
      ensures Resolved(scalars, Lazy(base), base, e, row, later, res, ran, overflow)
      decreases e, 0, 0
    {
      var x;
      x, later, ran := ResolveRow(e.operand, row, base);
      res := if x.Err? then x else Ok(if e.Not? then Not(x.value) else DateTrunc(x.value));
      UnaryResolved(scalars, Lazy(base), base, e, row, later, x, res, ran, overflow);
    }

    /** resolve_eager on two operands */
    method ResolvePair(e: Expr<Op>, row: ResolvedRow, ghost base: ResolvedRow)
      returns (res: Result<Expr<Op>>, later: ResolvedRow, ghost ran: seq<nat>)
      requires IsPair(e) && Valid() && Extends(base, row)
      modifies this, budget
      ensures Valid() && budget.charged - old(budget.charged) == cachedCharge - old(cachedCharge)
      ensures (old(overflow) ==> overflow) && log == old(log) + ran
      ensures Resolved(scalars, Lazy(base), base, e, row, later, res, ran, overflow)
      decreases e, 0, 0
    {
      var l, mid;
      l, mid, ran := ResolveRow(e.left, row, base);
      if l.Err? {
        LeftFailed(scalars, Lazy(base), base, e, row, mid, l, ran, overflow);
        return l, mid, ran;
      }
      ExtendsTrans(base, row, mid);
      ghost var before := overflow;
      ghost var more;
      var r;
      r, later, more := ResolveRow(e.right, mid, base);
      Assoc(old(log), ran, more);
      if r.Err? {
        RightFailed(scalars, Lazy(base), base, e, row, mid, later, l, r, ran, more, before, overflow);
        return r, later, ran + more;
      }
      PairResolved(scalars, Lazy(base), base, e, row, mid, later, l, r, ran, more, before, overflow);
      res, ran := Ok(Paired(e, l.value, r.value)), ran + more;
    }

    /** resolve_row on `if` */
    method ResolveIf(e: Expr<Op>, row: ResolvedRow, ghost base: ResolvedRow)
      returns (res: Result<Expr<Op>>, later: ResolvedRow, ghost ran: seq<nat>)
      requires e.If? && Valid() && Extends(base, row)
      modifies this, budget
      ensures Valid() && budget.charged - old(budget.charged) == cachedCharge - old(cachedCharge)
      ensures (old(overflow) ==> overflow) && log == old(log) + ran
      ensures Resolved(scalars, Lazy(base), base, e, row, later, res, ran, overflow)
      decreases e, 0, 0
    {
      var cond, mid;
      cond, mid, ran := ResolveRow(e.cond, row, base);
      if cond.Err? {
        CondFailed(scalars, Lazy(base), base, e, row, mid, cond, ran, overflow);
        return cond, mid, ran;
      }
      ExtendsTrans(base, row, mid);
      var chosen := EvaluateOne(mid, cond.value);
      if chosen.Err? || !(chosen.value.Bool? || chosen.value.Null?) {
        res := Err(if chosen.Err? then chosen.error else InvalidArgument);
        NothingChosen(scalars, Lazy(base), base, e, row, mid, cond, chosen, res, ran, overflow);
        return res, mid, ran;
      }
      ghost var before := overflow;
      var branch := if chosen.value == Bool(true) then e.thenExpr else e.elseExpr;
      ghost var more;
      res, later, more := ResolveRow(branch, mid, base);
      BranchResolved(scalars, Lazy(base), base, e, branch, row, mid, later, cond, chosen.value, res, ran, more, before,
                     overflow);
      Assoc(old(log), ran, more);
      ran := ran + more;
    }

    /** resolve_coalesce: stops at the first operand that is not NULL. */
    method ResolveCoalesce(e: Expr<Op>, row: ResolvedRow, ghost base: ResolvedRow)
      returns (res: Result<Expr<Op>>, later: ResolvedRow, ghost ran: seq<nat>)
      requires e.Coalesce? && Valid() && Extends(base, row)
      modifies this, budget
      ensures Valid() && budget.charged - old(budget.charged) == cachedCharge - old(cachedCharge)
      ensures (old(overflow) ==> overflow) && log == old(log) + ran
      ensures Resolved(scalars, Lazy(base), base, e, row, later, res, ran, overflow)
      decreases e, 0, 1
    {
      later, ran := row, [];
      if |e.operands| < 2 { return Err(InvalidArgument), later, ran; }
      for i := 0 to |e.operands|
        invariant Valid() && budget.charged - old(budget.charged) == cachedCharge - old(cachedCharge)
        invariant (old(overflow) ==> overflow) && log == old(log) + ran
        invariant Extends(row, later) && NullSoFar(Lazy(base), base, e, i, ran)
      {
        ghost var before := ran;
        ghost var more;
        var tried;
        tried, later, more := TryOperand(e, i, row, later, base, before);
        Assoc(old(log), before, more);
        ran := before + more;
        if tried.Err? { return Err(tried.error), later, ran; }
        if tried.value.Some? { return Ok(tried.value.value), later, ran; }
      }
      if Knows(base, e) { NullsDecide(Lazy(base), e, |e.operands|); }
      res := Ok(Lit(Null));
    }

    /** One operand of resolve_coalesce; None when its value is NULL. */
    method TryOperand(e: Expr<Op>, i: nat, ghost row: ResolvedRow, mid: ResolvedRow, ghost base: ResolvedRow,
                      ghost before: seq<nat>)
      returns (res: Result<Option<Expr<Op>>>, later: ResolvedRow, ghost more: seq<nat>)
      requires e.Coalesce? && 2 <= |e.operands| && i < |e.operands| && Valid() && Extends(base, row)
      requires Extends(row, mid)
      requires NullSoFar(Lazy(base), base, e, i, before)
      modifies this, budget
      ensures Valid() && budget.charged - old(budget.charged) == cachedCharge - old(cachedCharge)
      ensures (old(overflow) ==> overflow) && log == old(log) + more
      ensures Tried(scalars, Lazy(base), base, e, i, row, later, res, before + more, overflow)
      decreases e, 0, 0
    {
      ExtendsTrans(base, row, mid);
      var x;
      x, later, more := ResolveRow(e.operands[i], mid, base);
      if x.Err? {
        OperandFailed(scalars, Lazy(base), base, e, i, row, mid, later, x, before, more, overflow);
        return Err(x.error), later, more;
      }
      var value := EvaluateOne(later, x.value);
      if value.Err? { res := Err(value.error); } else { res := Ok(if value.value.Null? then None else Some(x.value)); }
      OperandDecides(scalars, Lazy(base), base, e, i, row, mid, later, x, value, res, before, more, overflow);
    }

    /** resolve_eager on least and greatest, through resolve_all */
    method ResolveExtreme(e: Expr<Op>, row: ResolvedRow, ghost base: ResolvedRow)
      returns (res: Result<Expr<Op>>, later: ResolvedRow, ghost ran: seq<nat>)
      requires e.Extreme? && Valid() && Extends(base, row)
      modifies this, budget
      ensures Valid() && budget.charged - old(budget.charged) == cachedCharge - old(cachedCharge)
      ensures (old(overflow) ==> overflow) && log == old(log) + ran
      ensures Resolved(scalars, Lazy(base), base, e, row, later, res, ran, overflow)
      decreases e, 0, 0
    {
      var out: seq<Expr<Op>> := [];
      later, ran := row, [];
      for i := 0 to |e.operands|
        invariant Valid() && budget.charged - old(budget.charged) == cachedCharge - old(cachedCharge)
        invariant (old(overflow) ==> overflow) && log == old(log) + ran
        invariant |out| == i && OperandsResolved(scalars, Lazy(base), base, e, row, later, out, ran)
      {
        ExtendsTrans(base, row, later);
        ghost var before, mid := ran, later;
        ghost var more;
        var next;
        next, later, more := ResolveRow(e.operands[i], later, base);
        Assoc(old(log), before, more);
        ran := before + more;
        if next.Err? {
          ExtremeFailed(scalars, Lazy(base), base, e, row, mid, later, out, next, before, more, overflow);
          return next, later, ran;
        }
        OperandAdded(scalars, Lazy(base), base, e, row, mid, later, out, next, before, more, overflow);
        out := out + [next.value];
      }
      ExtremeResolved(scalars, Lazy(base), base, e, row, later, out, ran, overflow);
      res := Ok(Extreme(e.replacement, out));
    }

    /** ScalarExpressions::evaluate_row: resolving and then evaluating is lazy
        evaluation with every subquery run under the row's own columns, and runs
        only subqueries that lazy evaluation reaches. */
    method EvaluateRow(e: Expr<Op>, values: Row, columns: map<string, nat>)
      returns (res: Result<Value>, ghost ran: seq<nat>)
      requires Valid()
      modifies this, budget
      ensures Valid() && budget.charged - old(budget.charged) == cachedCharge - old(cachedCharge)
      ensures (old(overflow) ==> overflow) && log == old(log) + ran
      ensures IsLazy(ResolvedRow(values, columns, |values|, 0), e, res, ran, overflow)
    {
      var base := ResolvedRow(values, columns, |values|, 0);
      var resolved, later;
      resolved, later, ran := ResolveRow(e, base, base);
      if resolved.Err? { return Err(resolved.error), ran; }
      res := EvaluateOne(later, resolved.value);
    }

    /** The outcome is the lazy one, unless a size left the address space, and only
        reached subqueries ran; provided that no temporary name captures a reference. */
    ghost predicate IsLazy(base: ResolvedRow, e: Expr<Op>, res: Result<Value>, ran: seq<nat>, overflow: bool)
      requires base.outerWidth <= |base.values|
    {
      Knows(base, e) ==>
        && (res.Ok? ==> EvalRow(Lazy(base), e, 0) == res)
        && (res.Err? ==> EvalRow(Lazy(base), e, 0).Err? || overflow)
        && AllReached(Lazy(base), e, ran)
    }

    /** Row r of the chunk on its own, evaluated lazily. */
    ghost function LazyAt(chunk: Chunk, columns: map<string, nat>, r: nat): Scope<Op>
      requires r < chunk.rowCount
    {
      Lazy(RowOf(chunk, columns, r))
    }

    /** Every row's lazy value, or a failure that some row has; without rows, a
        failure of the expression itself. */
    ghost predicate IsLazyColumn(e: Expr<Op>, chunk: Chunk, columns: map<string, nat>, res: Result<seq<Value>>,
                                 overflow: bool)
    {
      && (res.Ok? ==> |res.value| == chunk.rowCount)
      && (res.Ok? ==>
            forall r :: 0 <= r < chunk.rowCount ==> EvalRow(LazyAt(chunk, columns, r), e, 0) == Ok(res.value[r]))
      && (res.Err? ==>
            || overflow
            || (exists r :: 0 <= r < chunk.rowCount && EvalRow(LazyAt(chunk, columns, r), e, 0).Err?)
            || (chunk.rowCount == 0 && ScalarFree(e) && !EmptyOk(Scope(scalars, chunk, columns, NoSubquery), e)))
    }

    /** Every execution is reached by the lazy evaluation of some row. */
    ghost predicate SomeRowReaches(e: Expr<Op>, chunk: Chunk, columns: map<string, nat>, ran: seq<nat>)
    {
      forall i :: 0 <= i < |ran| ==>
        exists r :: 0 <= r < chunk.rowCount && Reaches(LazyAt(chunk, columns, r), e, ran[i])
    }

    /** ScalarExpressions::evaluate: columnar when there is nothing to resolve, row
        by row otherwise; either way every row gets its lazy value, a failure is
        some row's failure, and only subqueries that some row reaches are run. */
    method EvaluateChunk(e: Expr<Op>, chunk: Chunk, columns: map<string, nat>)
      returns (res: Result<seq<Value>>, ghost ran: seq<nat>)
      requires Valid()
      modifies this, budget
      ensures Valid() && budget.charged - old(budget.charged) == cachedCharge - old(cachedCharge)
      ensures (old(overflow) ==> overflow) && log == old(log) + ran
      ensures ScalarFree(e) ==> ran == [] && IsLazyColumn(e, chunk, columns, res, false)
      ensures References(columns, |chunk.columns|, e) ==>
                IsLazyColumn(e, chunk, columns, res, overflow) && SomeRowReaches(e, chunk, columns, ran)
    {
      if ScalarFree(e) {
        res := EvaluateColumnar(e, chunk, columns);
        ran := [];
      } else {
        res, ran := EvaluateRows(e, chunk, columns);
      }
    }

    method EvaluateRows(e: Expr<Op>, chunk: Chunk, columns: map<string, nat>)
      returns (res: Result<seq<Value>>, ghost ran: seq<nat>)
      requires Valid()
      modifies this, budget
      ensures Valid() && budget.charged - old(budget.charged) == cachedCharge - old(cachedCharge)
      ensures (old(overflow) ==> overflow) && log == old(log) + ran
      ensures References(columns, |chunk.columns|, e) ==>
                IsLazyColumn(e, chunk, columns, res, overflow) && SomeRowReaches(e, chunk, columns, ran)
    {
      var out: seq<Value> := [];
      ran := [];
      for r := 0 to chunk.rowCount
        invariant Valid() && budget.charged - old(budget.charged) == cachedCharge - old(cachedCharge)
        invariant (old(overflow) ==> overflow) && log == old(log) + ran
        invariant |out| == r && RowsDone(e, chunk, columns, out, ran)
      {
        ghost var more;
        var v;
        v, more := EvaluateRow(e, RowOf(chunk, columns, r).values, columns);
        Assoc(old(log), ran, more);
        RowDone(e, chunk, columns, out, v, ran, more, overflow);
        ran := ran + more;
        if v.Err? { return Err(v.error), ran; }
        out := out + [v.value];
      }
      res := Ok(out);
    }

    /** The first rows have their lazy values, and only reached subqueries ran. */
    ghost predicate RowsDone(e: Expr<Op>, chunk: Chunk, columns: map<string, nat>, out: seq<Value>, ran: seq<nat>)
    {
      && |out| <= chunk.rowCount
      && (References(columns, |chunk.columns|, e) ==>
            && (forall r :: 0 <= r < |out| ==> EvalRow(LazyAt(chunk, columns, r), e, 0) == Ok(out[r]))
            && SomeRowReaches(e, chunk, columns, ran))
    }

    lemma RowDone(e: Expr<Op>, chunk: Chunk, columns: map<string, nat>, out: seq<Value>, v: Result<Value>,
                  before: seq<nat>, more: seq<nat>, overflow: bool)
      requires RowsDone(e, chunk, columns, out, before) && |out| < chunk.rowCount
      requires IsLazy(ResolvedRow(RowOf(chunk, columns, |out|).values, columns, |RowOf(chunk, columns, |out|).values|,
                                  0), e, v, more, overflow)
      ensures v.Ok? ==> RowsDone(e, chunk, columns, out + [v.value], before + more)
      ensures v.Err? && References(columns, |chunk.columns|, e) ==>
                IsLazyColumn(e, chunk, columns, Err(v.error), overflow) &&
                SomeRowReaches(e, chunk, columns, before + more)
    {
      if References(columns, |chunk.columns|, e) {
        var lazy := LazyAt(chunk, columns, |out|);
        assert AllReached(lazy, e, more);
        assert SomeRowReaches(e, chunk, columns, before + more);
      }
    }

    method EvaluateColumnar(e: Expr<Op>, chunk: Chunk, columns: map<string, nat>) returns (res: Result<seq<Value>>)
      requires ScalarFree(e)
      ensures IsLazyColumn(e, chunk, columns, res, false)
    {
      ghost var sc := Scope(scalars, chunk, columns, NoSubquery);
      res := Evaluate(Scope(scalars, chunk, columns, NoSubquery), e);
      forall r | 0 <= r < chunk.rowCount ensures EvalRow(LazyAt(chunk, columns, r), e, 0) == EvalRow(sc, e, r) {
        RowView(sc, LazyAt(chunk, columns, r), r, e);
      }
    }

    /** Dropping the resolver returns the cache's charge. */
    method Drop()
      requires Valid()
      modifies this, budget
      ensures cachedCharge == 0 && cache == map[] && budget.charged == old(budget.charged) - old(cachedCharge)
    {
      budget.Release(cachedCharge);
      cachedCharge, cache, held := 0, map[], [];
    }
  }

  // ----- rows of a chunk -----

  /** expression_contains_scalar, negated. */
  predicate ScalarFree<Op>(e: Expr<Op>)
  {
    match e
    case Col(_) => true
    case Lit(_) => true
    case Scalar(_) => false
    case Binary(_, left, right) => ScalarFree(left) && ScalarFree(right)
    case DateAdd(left, right) => ScalarFree(left) && ScalarFree(right)
    case Not(operand) => ScalarFree(operand)
    case DateTrunc(operand) => ScalarFree(operand)
    case If(cond, thenExpr, elseExpr) => ScalarFree(cond) && ScalarFree(thenExpr) && ScalarFree(elseExpr)
    case Coalesce(operands) => forall i :: 0 <= i < |operands| ==> ScalarFree(operands[i])
    case Extreme(_, operands) => forall i :: 0 <= i < |operands| ==> ScalarFree(operands[i])
  }

  /** ResolvedScalarRow::new: row r of a chunk on its own. */
  function RowOf(chunk: Chunk, columns: map<string, nat>, r: nat): (row: ResolvedRow)
    requires r < chunk.rowCount
    ensures |row.values| == row.outerWidth == |chunk.columns|
    ensures forall c :: 0 <= c < |chunk.columns| ==> row.values[c] == ValueAt(chunk.columns[c], r)
  {
    ResolvedRow(seq(|chunk.columns|, c requires 0 <= c < |chunk.columns| => ValueAt(chunk.columns[c], r)), columns,
                |chunk.columns|, 0)
  }

  /** Without subqueries, row 0 of scope `b` means the same as row r of scope `a`
      when every column does. */
  lemma {:induction false} RowView<Op>(a: Scope<Op>, b: Scope<Op>, r: nat, e: Expr<Op>)
    requires ScalarFree(e) && a.scalars == b.scalars && r < a.chunk.rowCount
    requires b == ScopeOf(a.scalars, RowOf(a.chunk, a.columns, r), b.subquery)
    ensures EvalRow(b, e, 0) == EvalRow(a, e, r)
    decreases e, 1, 0
  {
    match e
    case Col(reference) =>
    case Lit(_) =>
    case Binary(_, left, right) =>
      RowView(a, b, r, left);
      RowView(a, b, r, right);
    case DateAdd(left, right) =>
      RowView(a, b, r, left);
      RowView(a, b, r, right);
    case Not(operand) =>
      RowView(a, b, r, operand);
    case DateTrunc(operand) =>
      RowView(a, b, r, operand);
    case If(cond, thenExpr, elseExpr) =>
      RowView(a, b, r, cond);
      RowView(a, b, r, thenExpr);
      RowView(a, b, r, elseExpr);
    case Coalesce(operands) =>
      CoalesceView(a, b, r, e, 0);
    case Extreme(_, operands) =>
      ExtremeView(a, b, r, e, |operands|);
  }

  lemma {:induction false} CoalesceView<Op>(a: Scope<Op>, b: Scope<Op>, r: nat, e: Expr<Op>, i: nat)
    requires ScalarFree(e) && a.scalars == b.scalars && r < a.chunk.rowCount
    requires b == ScopeOf(a.scalars, RowOf(a.chunk, a.columns, r), b.subquery)
    requires e.Coalesce? && i <= |e.operands|
    ensures CoalesceRow(b, e, i, 0) == CoalesceRow(a, e, i, r)
    decreases e, 0, |e.operands| - i
  {
    if i < |e.operands| {
      RowView(a, b, r, e.operands[i]);
      CoalesceView(a, b, r, e, i + 1);
    }
  }

  lemma {:induction false} ExtremeView<Op>(a: Scope<Op>, b: Scope<Op>, r: nat, e: Expr<Op>, n: nat)
    requires ScalarFree(e) && a.scalars == b.scalars && r < a.chunk.rowCount
    requires b == ScopeOf(a.scalars, RowOf(a.chunk, a.columns, r), b.subquery)
    requires e.Extreme? && n <= |e.operands|
    ensures ExtremeRow(b, e, n, 0) == ExtremeRow(a, e, n, r)
    decreases e, 0, n
  {
    if n > 0 {
      RowView(a, b, r, e.operands[n - 1]);
      ExtremeView(a, b, r, e, n - 1);
    }
  }

  // ----- coalesce -----

  ghost predicate NullsBefore<Op>(lazy: Scope<Op>, e: Expr<Op>, i: nat)
    requires e.Coalesce? && i <= |e.operands|
  {
    forall j :: 0 <= j < i ==> EvalRow(lazy, e.operands[j], 0) == Ok(Null)
  }

  /** Before operand i: all operands were NULL, and only reached subqueries ran. */
  ghost predicate NullSoFar<Op>(lazy: Scope<Op>, base: ResolvedRow, e: Expr<Op>, i: nat, ran: seq<nat>)
    requires e.Coalesce? && i <= |e.operands|
  {
    Knows(base, e) ==> NullsBefore(lazy, e, i) && AllReached(lazy, e, ran)
  }

  /** Operand i fails, decides or is NULL. */
  ghost predicate Tried<Op>(scalars: Scalars<Op>, lazy: Scope<Op>, base: ResolvedRow, e: Expr<Op>, i: nat,
                            row: ResolvedRow,
                            later: ResolvedRow, res: Result<Option<Expr<Op>>>, ran: seq<nat>, overflow: bool)
    requires e.Coalesce? && i < |e.operands|
  {
    match res
    case Err(error) => Resolved(scalars, lazy, base, e, row, later, Err(error), ran, overflow)
    case Ok(Some(x)) => Resolved(scalars, lazy, base, e, row, later, Ok(x), ran, overflow)
    case Ok(None) => Extends(row, later) && NullSoFar(lazy, base, e, i + 1, ran)
  }

  lemma {:induction false} NullsDecide<Op>(lazy: Scope<Op>, e: Expr<Op>, i: nat)
    requires e.Coalesce? && i <= |e.operands| && NullsBefore(lazy, e, i)
    ensures CoalesceRow(lazy, e, 0, 0) == CoalesceRow(lazy, e, i, 0)
    decreases i
  {
    if i > 0 {
      NullsDecide(lazy, e, i - 1);
      assert EvalRow(lazy, e.operands[i - 1], 0) == Ok(Null);
    }
  }

  lemma ReachesOperand<Op>(lazy: Scope<Op>, e: Expr<Op>, i: nat, plan: nat)
    requires e.Coalesce? && i < |e.operands| && NullsBefore(lazy, e, i) && Reaches(lazy, e.operands[i], plan)
    ensures Reaches(lazy, e, plan)
  {
  }

  lemma AllReachOperand<Op>(lazy: Scope<Op>, e: Expr<Op>, i: nat, before: seq<nat>, more: seq<nat>)
    requires e.Coalesce? && i < |e.operands| && NullsBefore(lazy, e, i)
    requires AllReached(lazy, e, before) && AllReached(lazy, e.operands[i], more)
    ensures AllReached(lazy, e, before + more)
  {
    forall r | 0 <= r < |more| ensures Reaches(lazy, e, more[r]) { ReachesOperand(lazy, e, i, more[r]); }
  }

  lemma OperandFailed<Op>(scalars: Scalars<Op>, lazy: Scope<Op>, base: ResolvedRow, e: Expr<Op>, i: nat,
                          row: ResolvedRow, mid: ResolvedRow,
                          later: ResolvedRow, res: Result<Expr<Op>>, before: seq<nat>, more: seq<nat>, overflow: bool)
    requires e.Coalesce? && 2 <= |e.operands| && i < |e.operands| && NullSoFar(lazy, base, e, i, before)
    requires res.Err? && Resolved(scalars, lazy, base, e.operands[i], mid, later, res, more, overflow)
    ensures Resolved(scalars, lazy, base, e, row, later, Err(res.error), before + more, overflow)
  {
    if Knows(base, e) {
      NullsDecide(lazy, e, i);
      AllReachOperand(lazy, e, i, before, more);
    }
  }

  lemma OperandDecides<Op>(scalars: Scalars<Op>, lazy: Scope<Op>, base: ResolvedRow, e: Expr<Op>, i: nat,
                           row: ResolvedRow, mid: ResolvedRow,
                           later: ResolvedRow, x: Result<Expr<Op>>, value: Result<Value>, res: Result<Option<Expr<Op>>>,
                           before: seq<nat>, more: seq<nat>, overflow: bool)
    requires e.Coalesce? && 2 <= |e.operands| && i < |e.operands| && NullSoFar(lazy, base, e, i, before)
    requires Extends(row, mid)
    requires x.Ok? && Resolved(scalars, lazy, base, e.operands[i], mid, later, x, more, overflow)
    requires SameOutcome(value, EvalRow(ScopeOf(scalars, later, NoSubquery), x.value, 0))
    requires res == if value.Err? then Err(value.error) else Ok(if value.value.Null? then None else Some(x.value))
    ensures Tried(scalars, lazy, base, e, i, row, later, res, before + more, overflow)
  {
    ExtendsTrans(row, mid, later);
    if Knows(base, e) {
      NullsDecide(lazy, e, i);
      AllReachOperand(lazy, e, i, before, more);
    }
  }

  // ----- least and greatest -----

  /** The operands resolved so far agree with the lazy ones over the row as
      extended up to now. */
  ghost predicate Agree<Op>(scalars: Scalars<Op>, lazy: Scope<Op>, e: Expr<Op>, row: ResolvedRow, out: seq<Expr<Op>>)
    requires e.Extreme?
  {
    lazy.scalars == scalars && |out| <= |e.operands| && forall j :: 0 <= j < |out| ==>
      && Knows(row, out[j])
      && SameOutcome(EvalRow(ScopeOf(scalars, row, NoSubquery), out[j], 0), EvalRow(lazy, e.operands[j], 0))
  }

  ghost predicate OperandsResolved<Op>(scalars: Scalars<Op>, lazy: Scope<Op>, base: ResolvedRow, e: Expr<Op>,
                                       row: ResolvedRow,
                                       later: ResolvedRow, out: seq<Expr<Op>>, ran: seq<nat>)
    requires e.Extreme?
  {
    Extends(row, later) && (Knows(base, e) ==> Agree(scalars, lazy, e, later, out) && AllReached(lazy, e, ran))
  }

  lemma ExtremeFailed<Op>(scalars: Scalars<Op>, lazy: Scope<Op>, base: ResolvedRow, e: Expr<Op>, row: ResolvedRow,
                          mid: ResolvedRow,
                          later: ResolvedRow, out: seq<Expr<Op>>, res: Result<Expr<Op>>, before: seq<nat>,
                          more: seq<nat>, overflow: bool)
    requires e.Extreme? && |out| < |e.operands| && OperandsResolved(scalars, lazy, base, e, row, mid, out, before)
    requires res.Err? && Resolved(scalars, lazy, base, e.operands[|out|], mid, later, res, more, overflow)
    ensures Resolved(scalars, lazy, base, e, row, later, res, before + more, overflow)
  {
    if Knows(base, e) && EvalRow(lazy, e.operands[|out|], 0).Err? && 2 <= |e.operands| {
      ExtremeNeeds(lazy, e, |out|, 0);
    }
  }

  lemma OperandAdded<Op>(scalars: Scalars<Op>, lazy: Scope<Op>, base: ResolvedRow, e: Expr<Op>, row: ResolvedRow,
                         mid: ResolvedRow,
                         later: ResolvedRow, out: seq<Expr<Op>>, x: Result<Expr<Op>>, before: seq<nat>, more: seq<nat>,
                         overflow: bool)
    requires e.Extreme? && |out| < |e.operands| && OperandsResolved(scalars, lazy, base, e, row, mid, out, before)
    requires x.Ok? && Resolved(scalars, lazy, base, e.operands[|out|], mid, later, x, more, overflow)
    ensures OperandsResolved(scalars, lazy, base, e, row, later, out + [x.value], before + more)
  {
    ExtendsTrans(row, mid, later);
    if Knows(base, e) {
      forall j | 0 <= j < |out|
        ensures Knows(later, out[j])
        ensures SameOutcome(EvalRow(ScopeOf(scalars, later, NoSubquery), out[j], 0), EvalRow(lazy, e.operands[j], 0))
      {
        EvalStable(scalars, mid, later, out[j]);
      }
      assert Agree(scalars, lazy, e, later, out + [x.value]);
    }
  }

  lemma ExtremeResolved<Op>(scalars: Scalars<Op>, lazy: Scope<Op>, base: ResolvedRow, e: Expr<Op>, row: ResolvedRow,
                            later: ResolvedRow,
                            out: seq<Expr<Op>>, ran: seq<nat>, overflow: bool)
    requires e.Extreme? && |out| == |e.operands| && OperandsResolved(scalars, lazy, base, e, row, later, out, ran)
    ensures Resolved(scalars, lazy, base, e, row, later, Ok(Extreme(e.replacement, out)), ran, overflow)
  {
    if Knows(base, e) { ExtremeSame(scalars, lazy, e, later, out, |out|); }
  }

  lemma {:induction false} ExtremeSame<Op>(scalars: Scalars<Op>, lazy: Scope<Op>, e: Expr<Op>, row: ResolvedRow,
                                           out: seq<Expr<Op>>, n: nat)
    requires e.Extreme? && |out| == |e.operands| && n <= |out| && Agree(scalars, lazy, e, row, out)
    ensures SameOutcome(ExtremeRow(ScopeOf(scalars, row, NoSubquery), Extreme(e.replacement, out), n, 0),
                        ExtremeRow(lazy, e, n, 0))
    decreases n
  {
    if n > 0 { ExtremeSame(scalars, lazy, e, row, out, n - 1); }
  }

  // ----- if -----

  lemma CondFailed<Op>(scalars: Scalars<Op>, lazy: Scope<Op>, base: ResolvedRow, e: Expr<Op>, row: ResolvedRow,
                       mid: ResolvedRow,
                       cond: Result<Expr<Op>>, ran: seq<nat>, overflow: bool)
    requires e.If? && cond.Err? && Resolved(scalars, lazy, base, e.cond, row, mid, cond, ran, overflow)
    ensures Resolved(scalars, lazy, base, e, row, mid, cond, ran, overflow)
  {
  }

  lemma NothingChosen<Op>(scalars: Scalars<Op>, lazy: Scope<Op>, base: ResolvedRow, e: Expr<Op>, row: ResolvedRow,
                          mid: ResolvedRow,
                          cond: Result<Expr<Op>>, chosen: Result<Value>, res: Result<Expr<Op>>, ran: seq<nat>,
                          overflow: bool)
    requires e.If? && cond.Ok? && Resolved(scalars, lazy, base, e.cond, row, mid, cond, ran, overflow) && res.Err?
    requires SameOutcome(chosen, EvalRow(ScopeOf(scalars, mid, NoSubquery), cond.value, 0))
    requires chosen.Ok? ==> !chosen.value.Bool? && !chosen.value.Null?
    ensures Resolved(scalars, lazy, base, e, row, mid, res, ran, overflow)
  {
  }

  lemma BranchResolved<Op>(scalars: Scalars<Op>, lazy: Scope<Op>, base: ResolvedRow, e: Expr<Op>, branch: Expr<Op>,
                           row: ResolvedRow,
                           mid: ResolvedRow, later: ResolvedRow, cond: Result<Expr<Op>>, chosen: Value,
                           res: Result<Expr<Op>>,
                           ran: seq<nat>, more: seq<nat>, before: bool, overflow: bool)
    requires e.If? && cond.Ok? && Resolved(scalars, lazy, base, e.cond, row, mid, cond, ran, before)
    requires SameOutcome(Ok(chosen), EvalRow(ScopeOf(scalars, mid, NoSubquery), cond.value, 0))
    requires chosen.Bool? || chosen.Null?
    requires branch == if chosen == Bool(true) then e.thenExpr else e.elseExpr
    requires Resolved(scalars, lazy, base, branch, mid, later, res, more, overflow)
    ensures Resolved(scalars, lazy, base, e, row, later, res, ran + more, overflow)
  {
    if res.Ok? { ExtendsTrans(row, mid, later); }
  }
}
