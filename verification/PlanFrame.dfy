/** Why a subquery plan without outer references may be cached: its result does
    not depend on the outer row. Operators are given by the expressions they
    evaluate on the rows of their inputs. */
module PlanFrame {
  import opened Values

  /** Values by case-folded name. */
  type Env = map<string, Value>

  datatype PlanExpr =
    | Column(name: string)
    | Literal(v: Value)
    | Apply(f: nat, args: seq<PlanExpr>)
    | Subquery(plan: Operator)

  /** Scans are leaves; filters, projections, sorts, aggregates, joins, limits and
      expansions are nodes. */
  datatype Operator = Leaf(scan: nat) | Node(kind: nat, exprs: seq<PlanExpr>, inputs: seq<Operator>)

  /** Everything about the engine that is not name resolution. */
  datatype Meaning = Meaning(
    fold: string -> string,
    apply: (nat, seq<Result<Value>>) -> Result<Value>,
    scan: nat -> Result<seq<Env>>,
    combine: (nat, seq<Result<seq<Env>>>, seq<seq<seq<Result<Value>>>>) -> Result<seq<Env>>,
    scalar: Result<seq<Env>> -> Result<Value>)

  /** An expression in a row of the plan: names of the row first, then names of the
      outer row. A nested subquery sees the row in front of the outer one. */
  function Eval(m: Meaning, e: PlanExpr, inner: Env, outer: Env): Result<Value>
  {
    match e
    case Column(name) =>
      var n := m.fold(name);
      if n in inner then Ok(inner[n]) else if n in outer then Ok(outer[n]) else Err(InvalidArgument)
    case Literal(v) => Ok(v)
    case Apply(f, args) => m.apply(f, seq(|args|, i requires 0 <= i < |args| => Eval(m, args[i], inner, outer)))
    case Subquery(plan) => m.scalar(Run(m, plan, outer + inner))
  }

  /** The rows of a plan under an outer row, or its failure. What a node makes of
      its inputs, of their failures and of its expressions on their rows is part of
      the meaning. */
  function Run(m: Meaning, op: Operator, outer: Env): Result<seq<Env>>
  {
    match op
    case Leaf(scan) => m.scan(scan)
    case Node(kind, exprs, inputs) =>
      var results := seq(|inputs|, i requires 0 <= i < |inputs| => Run(m, inputs[i], outer));
      var values := seq(|results|, i requires 0 <= i < |results| =>
        seq(|Rows(results[i])|, r requires 0 <= r < |Rows(results[i])| =>
          seq(|exprs|, x requires 0 <= x < |exprs| => Eval(m, exprs[x], Rows(results[i])[r], outer))));
      m.combine(kind, results, values)
  }

  function Rows(result: Result<seq<Env>>): seq<Env>
  {
    if result.Ok? then result.value else []
  }

  /** expression_references_outer */
  predicate ExprRefersOuter(m: Meaning, e: PlanExpr, names: set<string>)
  {
    match e
    case Column(name) => m.fold(name) in names
    case Literal(_) => false
    case Apply(_, args) => exists i :: 0 <= i < |args| && ExprRefersOuter(m, args[i], names)
    case Subquery(plan) => RefersOuter(m, plan, names)
  }

  /** operator_references_outer */
  predicate RefersOuter(m: Meaning, op: Operator, names: set<string>)
  {
    match op
    case Leaf(_) => false
    case Node(_, exprs, inputs) =>
      || (exists x :: 0 <= x < |exprs| && ExprRefersOuter(m, exprs[x], names))
      || (exists i :: 0 <= i < |inputs| && RefersOuter(m, inputs[i], names))
  }

  /** Outer rows that differ in the given names only. */
  ghost predicate AgreeOutside(a: Env, b: Env, names: set<string>)
  {
    forall n :: n !in names ==> (n in a <==> n in b) && (n in a ==> a[n] == b[n])
  }

  lemma {:induction false} ExprFramed(m: Meaning, e: PlanExpr, inner: Env, a: Env, b: Env, names: set<string>)
    requires !ExprRefersOuter(m, e, names) && AgreeOutside(a, b, names)
    ensures Eval(m, e, inner, a) == Eval(m, e, inner, b)
    decreases e
  {
    match e
    case Column(_) =>
    case Literal(_) =>
    case Apply(f, args) =>
      forall i | 0 <= i < |args|
        ensures Eval(m, args[i], inner, a) == Eval(m, args[i], inner, b)
      {
        ExprFramed(m, args[i], inner, a, b, names);
      }
      assert seq(|args|, i requires 0 <= i < |args| => Eval(m, args[i], inner, a)) ==
               seq(|args|, i requires 0 <= i < |args| => Eval(m, args[i], inner, b));
    case Subquery(plan) =>
      assert AgreeOutside(a + inner, b + inner, names);
      PlanFramed(m, plan, a + inner, b + inner, names);
  }

  /** A plan that names nothing of the outer row cannot tell two outer rows apart. */
  lemma {:induction false} PlanFramed(m: Meaning, op: Operator, a: Env, b: Env, names: set<string>)
    requires !RefersOuter(m, op, names) && AgreeOutside(a, b, names)
    ensures Run(m, op, a) == Run(m, op, b)
    decreases op
  {
    if op.Node? {
      var inputs, exprs := op.inputs, op.exprs;
      forall i | 0 <= i < |inputs|
        ensures Run(m, inputs[i], a) == Run(m, inputs[i], b)
      {
        PlanFramed(m, inputs[i], a, b, names);
      }
      var results := seq(|inputs|, i requires 0 <= i < |inputs| => Run(m, inputs[i], a));
      assert results == seq(|inputs|, i requires 0 <= i < |inputs| => Run(m, inputs[i], b));
      forall x, row: Env | 0 <= x < |exprs|
        ensures Eval(m, exprs[x], row, a) == Eval(m, exprs[x], row, b)
      {
        ExprFramed(m, exprs[x], row, a, b, names);
      }
      var va := Table(m, exprs, results, a);
      var vb := Table(m, exprs, results, b);
      forall i | 0 <= i < |results| ensures va[i] == vb[i] {
        forall r | 0 <= r < |Rows(results[i])| ensures va[i][r] == vb[i][r] {
          assert forall x :: 0 <= x < |exprs| ==> va[i][r][x] == vb[i][r][x];
        }
      }
      assert va == vb;
    }
  }

  /** The expressions of a node on every row of its inputs. */
  function Table(m: Meaning, exprs: seq<PlanExpr>, results: seq<Result<seq<Env>>>, outer: Env)
    : seq<seq<seq<Result<Value>>>>
  {
    seq(|results|, i requires 0 <= i < |results| =>
      seq(|Rows(results[i])|, r requires 0 <= r < |Rows(results[i])| =>
        seq(|exprs|, x requires 0 <= x < |exprs| => Eval(m, exprs[x], Rows(results[i])[r], outer))))
  }

  /** What the cache relies on: a plan free of outer references, run once without
      any outer row, gives what it would give under every outer row. */
  lemma CachingIsSound(m: Meaning, op: Operator, names: set<string>, outer: Env)
    requires !RefersOuter(m, op, names) && outer.Keys <= names
    ensures Run(m, op, outer) == Run(m, op, map[])
  {
    PlanFramed(m, op, outer, map[], names);
  }
}
