/** From chunks to aggregate inputs, and the streaming strategy. */
module AggregateInputs {
  import opened Values
  import opened Grouping
  import opened Columns
  import opened AggregateStates
  import opened AggregateRecords
  import opened MergedGroups
  import opened AggregateGroups
  import opened TypedGroups

  /** A direct column reference, or any other expression with its evaluation. */
  datatype Operand = Direct(index: nat) | Computed(evaluate: Chunk -> Result<seq<Value>>)

  function OperandValues(op: Operand, chunk: Chunk): Result<seq<Value>>
  {
    match op
    case Direct(index) =>
      if index < |chunk.columns| then Ok(Materialized(chunk.columns[index])) else Err(InvalidArgument)
    case Computed(evaluate) => evaluate(chunk)
  }

  /** The values of the operands, all of which must evaluate to enough rows. */
  function AllValues(ops: seq<Operand>, chunk: Chunk): (r: Result<seq<seq<Value>>>)
    ensures r.Ok? ==> |r.value| == |ops|
    ensures r.Ok? <==>
            forall c :: 0 <= c < |ops| ==>
              OperandValues(ops[c], chunk).Ok? && |OperandValues(ops[c], chunk).value| >= chunk.rowCount
    ensures r.Ok? ==> forall c :: 0 <= c < |ops| ==> OperandValues(ops[c], chunk) == Ok(r.value[c])
  {
    if ops == [] then Ok([])
    else
      var n := |ops| - 1;
      var front :- AllValues(ops[..n], chunk);
      var last :- OperandValues(ops[n], chunk);
      if |last| < chunk.rowCount then Err(InvalidArgument) else Ok(front + [last])
  }

  function RowAt(columns: seq<seq<Value>>, i: nat): (row: Row)
    requires forall c :: 0 <= c < |columns| ==> i < |columns[c]|
    ensures |row| == |columns|
  {
    seq(|columns|, c requires 0 <= c < |columns| => columns[c][i])
  }

  datatype Plan = Plan(group: seq<Operand>, operands: seq<Operand>, query: Query)

  /** evaluate_aggregate_rows on one chunk */
  function ChunkRows(p: Plan, chunk: Chunk): (r: Result<seq<InputRow>>)
    ensures r.Ok? <==> AllValues(p.group, chunk).Ok? && AllValues(p.operands, chunk).Ok?
    ensures r.Ok? ==> |r.value| == chunk.rowCount
    ensures r.Ok? ==>
              forall i :: 0 <= i < |r.value| ==> |r.value[i].key| == |p.group| && |r.value[i].item| == |p.operands|
  {
    var keys :- AllValues(p.group, chunk);
    var items :- AllValues(p.operands, chunk);
    Ok(seq(chunk.rowCount, i requires 0 <= i < chunk.rowCount => Keyed(RowAt(keys, i), RowAt(items, i))))
  }

  type ChunkSource = seq<Result<Chunk>>

  /** All inputs the upstream delivers, if it and every evaluation succeed. */
  function InputsOf(p: Plan, source: ChunkSource): Result<seq<InputRow>>
  {
    if source == [] then Ok([])
    else
      var n := |source| - 1;
      var front :- InputsOf(p, source[..n]);
      var chunk :- source[n];
      var rows :- ChunkRows(p, chunk);
      Ok(front + rows)
  }

  lemma InputsLast(p: Plan, source: ChunkSource, n: nat)
    requires n < |source|
    ensures InputsOf(p, source[..n + 1]).Ok? <==>
            InputsOf(p, source[..n]).Ok? && source[n].Ok? && ChunkRows(p, source[n].value).Ok?
    ensures InputsOf(p, source[..n + 1]).Ok? ==>
              InputsOf(p, source[..n + 1]).value == InputsOf(p, source[..n]).value + ChunkRows(p, source[n].value).value
  {
    assert source[..n + 1][..n] == source[..n];
  }

  lemma {:induction false} InputsKeys(p: Plan, source: ChunkSource)
    requires InputsOf(p, source).Ok?
    ensures forall i :: 0 <= i < |InputsOf(p, source).value| ==> |InputsOf(p, source).value[i].key| == |p.group|
    ensures forall i :: 0 <= i < |InputsOf(p, source).value| ==> |InputsOf(p, source).value[i].item| == |p.operands|
  {
    if source != [] { InputsKeys(p, source[..|source| - 1]); }
  }

  // ----- streaming -----

  /** update_materialized_aggregate_column */
  method FoldMaterialized(ops: FloatOps, f: AggregateFunction, start: AggregateState, values: seq<Value>, rowCount: nat,
                          ghost before: seq<Value>)
    returns (res: Result<AggregateState>)
    requires FoldColumn(ops, f, before) == Ok(start)
    ensures res.Ok? ==> rowCount <= |values| && FoldColumn(ops, f, before + values[..rowCount]) == res
  {
    var s := start;
    assert before + values[..0] == before;
    for row := 0 to rowCount
      invariant row <= |values| && FoldColumn(ops, f, before + values[..row]) == Ok(s)
    {
      if row >= |values| { return Err(InvalidArgument); }
      FoldLast(ops, f, before + values[..row], values[row]);
      Grow(before, values, row);
      var next := UpdateState(ops, s, values[row]);
      if next.Err? { return Err(next.error); }
      s := next.value;
    }
    res := Ok(s);
  }

  /** update_typed_aggregate_column */
  method FoldColumnWhole(ops: FloatOps, f: AggregateFunction, start: AggregateState, column: Column,
                         ghost before: seq<Value>)
    returns (res: Result<AggregateState>)
    requires f != PercentileCont && FoldColumn(ops, f, before) == Ok(start)
    ensures res.Ok? ==> FoldColumn(ops, f, before + Materialized(column)) == res
  {
    ghost var vs := Materialized(column);
    assert vs[..|vs|] == vs;
    if column.Boxed? {
      assert vs == column.values;
      res := FoldMaterialized(ops, f, start, column.values, |column.values|, before);
      return;
    }
    var s := start;
    assert before + vs[..0] == before;
    for row := 0 to Len(column)
      invariant FoldColumn(ops, f, before + vs[..row]) == Ok(s)
    {
      FoldLast(ops, f, before + vs[..row], vs[row]);
      Grow(before, vs, row);
      PlainStays(ops, f, before + vs[..row]);
      if ValidAt(column, row) {
        var next := TypedUpdate(ops, s, ValueAt(column, row));
        if next.Err? { return Err(next.error); }
        TypedAgreesIff(ops, s, ValueAt(column, row));
        s := next.value;
      }
    }
    res := Ok(s);
  }

  /** One aggregate over one chunk. */
  method FoldOperand(ops: FloatOps, f: AggregateFunction, op: Operand, start: AggregateState, chunk: Chunk,
                     ghost before: seq<Value>)
    returns (res: Result<AggregateState>)
    requires f != PercentileCont && FoldColumn(ops, f, before) == Ok(start)
    ensures res.Ok? ==> OperandValues(op, chunk).Ok? && |OperandValues(op, chunk).value| >= chunk.rowCount
    ensures res.Ok? ==> FoldColumn(ops, f, before + OperandValues(op, chunk).value[..chunk.rowCount]) == res
  {
    match op
    case Direct(index) =>
      if index >= |chunk.columns| { return Err(InvalidArgument); }
      ghost var vs := Materialized(chunk.columns[index]);
      assert vs[..chunk.rowCount] == vs;
      res := FoldColumnWhole(ops, f, start, chunk.columns[index], before);
    case Computed(evaluate) =>
      var values := evaluate(chunk);
      if values.Err? { return Err(values.error); }
      res := FoldMaterialized(ops, f, start, values.value, chunk.rowCount, before);
  }

  /** The states after the inputs `rows`, all of one group. */
  ghost predicate StreamedTo(q: Query, rows: seq<InputRow>, states: seq<AggregateState>)
  {
    |states| == |q.aggs| && forall j :: 0 <= j < |q.aggs| ==>
      FoldColumn(q.ops, q.aggs[j], GroupColumn(Items(rows), j)) == Ok(states[j])
  }

  lemma ChunkColumn(p: Plan, chunk: Chunk, rows: seq<InputRow>, j: nat)
    requires ChunkRows(p, chunk).Ok? && j < |p.operands|
    ensures GroupColumn(Items(rows + ChunkRows(p, chunk).value), j) ==
            GroupColumn(Items(rows), j) + OperandValues(p.operands[j], chunk).value[..chunk.rowCount]
  {
    var more, vs := ChunkRows(p, chunk).value, OperandValues(p.operands[j], chunk).value;
    var all := GroupColumn(Items(rows + more), j);
    assert Items(rows + more) == Items(rows) + Items(more);
    forall i | 0 <= i < |more|
      ensures all[|rows| + i] == vs[i]
    {
      assert Items(rows + more)[|rows| + i] == more[i].item;
    }
  }

  /** update_streaming_chunk */
  method UpdateStreaming(p: Plan, chunk: Chunk, states: seq<AggregateState>, ghost rows: seq<InputRow>)
    returns (res: Result<seq<AggregateState>>)
    requires Plain(p.query) && p.group == [] && |p.operands| == |p.query.aggs| && StreamedTo(p.query, rows, states)
    ensures res.Ok? ==> ChunkRows(p, chunk).Ok? && StreamedTo(p.query, rows + ChunkRows(p, chunk).value, res.value)
  {
    var q := p.query;
    var out: seq<AggregateState> := [];
    for j := 0 to |states|
      invariant |out| == j
      invariant forall i :: 0 <= i < j ==>
                  OperandValues(p.operands[i], chunk).Ok? &&
                  |OperandValues(p.operands[i], chunk).value| >= chunk.rowCount
      invariant forall i :: 0 <= i < j ==>
                  FoldColumn(q.ops, q.aggs[i],
                             GroupColumn(Items(rows), i) +
                             OperandValues(p.operands[i], chunk).value[..chunk.rowCount]) == Ok(out[i])
    {
      var next := FoldOperand(q.ops, q.aggs[j], p.operands[j], states[j], chunk, GroupColumn(Items(rows), j));
      if next.Err? { return Err(next.error); }
      out := out + [next.value];
    }
    forall j | 0 <= j < |q.aggs|
      ensures FoldColumn(q.ops, q.aggs[j], GroupColumn(Items(rows + ChunkRows(p, chunk).value), j)) == Ok(out[j])
    {
      ChunkColumn(p, chunk, rows, j);
    }
    res := Ok(out);
  }

  lemma StreamedAnswer(q: Query, rows: seq<InputRow>, states: seq<AggregateState>)
    requires Plain(q) && StreamedTo(q, rows, states) && forall i :: 0 <= i < |rows| ==> rows[i].key == []
    ensures StatesFor(q, GroupOf(rows, []), states)
  {
    PickGroup(rows, []);
  }

  lemma OneGroup(q: Query, rows: seq<InputRow>, out: Row)
    requires |q.aggs| == |q.types| && GroupAnswer(q)(GroupOf(rows, [])) == Ok(out)
    requires forall i :: 0 <= i < |rows| ==> rows[i].key == []
    ensures IsAnswer(GroupAnswer(q), 0, rows, [out])
  {
    var keys: seq<Row> := [[]];
    assert AnswersGroup(GroupAnswer(q), rows, keys[0], out);
    assert ListsGroups(0, rows, keys) && AnswersAll(GroupAnswer(q), rows, keys, [out]);
  }

  /** initialize_streaming: one pass, one row, even for no input. */
  method Streaming(p: Plan, source: ChunkSource) returns (res: Result<Row>)
    requires Plain(p.query) && p.group == [] && |p.operands| == |p.query.aggs| == |p.query.types|
    ensures res.Ok? ==>
              InputsOf(p, source).Ok? && IsAnswer(GroupAnswer(p.query), 0, InputsOf(p, source).value, [res.value])
  {
    var q := p.query;
    var states := InitialStates(q.ops, q.aggs);
    assert InputsOf(p, source[..0]) == Ok([]);
    for n := 0 to |source|
      invariant InputsOf(p, source[..n]).Ok? && StreamedTo(q, InputsOf(p, source[..n]).value, states)
    {
      if source[n].Err? { return Err(source[n].error); }
      var next := UpdateStreaming(p, source[n].value, states, InputsOf(p, source[..n]).value);
      if next.Err? { return Err(next.error); }
      InputsLast(p, source, n);
      states := next.value;
    }
    assert source[..|source|] == source;
    ghost var rows := InputsOf(p, source).value;
    InputsKeys(p, source);
    StreamedAnswer(q, rows, states);
    res := FinishGroup(q, states, GroupOf(rows, []));
    if res.Ok? { OneGroup(q, rows, res.value); }
  }
}
