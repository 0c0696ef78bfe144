/** The answer of an aggregation, and its in-memory computation over rows sorted
    by group key. */
module AggregateGroups {
  import opened Values
  import opened StableOrder
  import opened MergeSort
  import opened Selection
  import opened Spilling
  import opened Grouping
  import opened AggregateStates
  import opened Percentile
  import opened AggregateRecords
  import opened MergedGroups
  import opened AggregateSpill
  import opened AggregateRuns

  /** What is computed: the functions, their output types, and float arithmetic. */
  datatype Query = Query(ops: FloatOps, aggs: seq<AggregateFunction>, types: seq<LogicalType>)

  /** One aggregate over one group's column. */
  ghost function ColumnAnswer(ops: FloatOps, f: AggregateFunction, vs: seq<Value>, t: LogicalType): Result<Value>
  {
    var s :- ColumnState(ops, f, vs);
    FinishState(ops, s, t)
  }

  /** The first n aggregates over one group's rows. */
  ghost function AnswerRow(q: Query, rows: seq<Row>, n: nat): Result<Row>
    requires n <= |q.aggs| == |q.types|
  {
    if n == 0 then Ok([])
    else
      var front :- AnswerRow(q, rows, n - 1);
      var v :- ColumnAnswer(q.ops, q.aggs[n - 1], GroupColumn(rows, n - 1), q.types[n - 1]);
      Ok(front + [v])
  }

  ghost function GroupAnswer(q: Query): seq<Row> -> Result<Row>
    requires |q.aggs| == |q.types|
  {
    (rows: seq<Row>) => AnswerRow(q, rows, |q.aggs|)
  }

  /** The states hold every column's state. */
  ghost predicate StatesFor(q: Query, rows: seq<Row>, states: seq<AggregateState>)
  {
    |states| == |q.aggs| && forall j :: 0 <= j < |q.aggs| ==>
      ColumnState(q.ops, q.aggs[j], GroupColumn(rows, j)) == Ok(states[j])
  }

  lemma {:induction false} AnswerPrefix(q: Query, rows: seq<Row>, states: seq<AggregateState>, out: Row, n: nat)
    requires n <= |q.aggs| == |q.types| == |out| && StatesFor(q, rows, states)
    requires forall j :: 0 <= j < n ==> FinishState(q.ops, states[j], q.types[j]) == Ok(out[j])
    ensures AnswerRow(q, rows, n) == Ok(out[..n])
  {
    if n > 0 {
      AnswerPrefix(q, rows, states, out, n - 1);
      assert ColumnAnswer(q.ops, q.aggs[n - 1], GroupColumn(rows, n - 1), q.types[n - 1]) == Ok(out[n - 1]);
      assert out[..n] == out[..n - 1] + [out[n - 1]];
    }
  }

  /** finish_aggregate_states */
  method FinishStates(q: Query, states: seq<AggregateState>) returns (res: Result<Row>)
    ensures |states| != |q.types| ==> res == Err(Corrupt)
    ensures |states| == |q.types| && res.Ok? ==> |res.value| == |states|
    ensures |states| == |q.types| && res.Ok? ==>
              forall j :: 0 <= j < |states| ==> FinishState(q.ops, states[j], q.types[j]) == Ok(res.value[j])
  {
    if |states| != |q.types| { return Err(Corrupt); }
    var out: Row := [];
    for j := 0 to |states|
      invariant |out| == j && forall i :: 0 <= i < j ==> FinishState(q.ops, states[i], q.types[i]) == Ok(out[i])
    {
      var v := FinishState(q.ops, states[j], q.types[j]);
      if v.Err? { return Err(v.error); }
      out := out + [v.value];
    }
    res := Ok(out);
  }

  /** Finishing the states of a group is its answer. */
  method FinishGroup(q: Query, states: seq<AggregateState>, ghost rows: seq<Row>) returns (res: Result<Row>)
    requires |q.aggs| == |q.types| && StatesFor(q, rows, states)
    ensures res.Ok? ==> GroupAnswer(q)(rows) == res
  {
    res := FinishStates(q, states);
    if res.Ok? {
      AnswerPrefix(q, rows, states, res.value, |q.aggs|);
      assert res.value[..|q.aggs|] == res.value;
    }
  }

  // ----- one group in memory -----

  ghost function InputRecords(slice: seq<InputRow>): (out: seq<AggregateRecord>)
    ensures |out| == |slice| && forall i :: 0 <= i < |slice| ==> out[i] == Input(slice[i].item)
  {
    seq(|slice|, i requires 0 <= i < |slice| => Input(slice[i].item))
  }

  lemma {:induction false} PickInputRecords(slice: seq<InputRow>)
    ensures Pick(InputRecords(slice), InputOf) == Items(slice)
  {
    if slice != [] {
      var n := |slice| - 1;
      PickInputRecords(slice[..n]);
      assert InputRecords(slice) == InputRecords(slice[..n]) + [Input(slice[n].item)];
      PickLast(InputRecords(slice[..n]), Input(slice[n].item), InputOf);
      assert Items(slice) == Items(slice[..n]) + [slice[n].item];
    }
  }

  lemma {:induction false} PercentileIdle(ops: FloatOps, j: nat, slice: seq<InputRow>)
    ensures FoldRecords(ops, PercentileCont, j, InputRecords(slice)) == Ok(Initial(PercentileCont))
  {
    if slice != [] {
      var n := |slice| - 1;
      PercentileIdle(ops, j, slice[..n]);
      assert InputRecords(slice)[..n] == InputRecords(slice[..n]);
    }
  }

  method FoldInputs(q: Query, slice: seq<InputRow>) returns (res: Result<seq<AggregateState>>)
    ensures res.Ok? ==> StatesFold(q.ops, q.aggs, InputRecords(slice), res.value)
  {
    var states := InitialStates(q.ops, q.aggs);
    assert InputRecords(slice[..0]) == [];
    for n := 0 to |slice|
      invariant StatesFold(q.ops, q.aggs, InputRecords(slice[..n]), states)
    {
      var next := UpdateStates(q.ops, states, Input(slice[n].item));
      if next.Err? { return Err(next.error); }
      StatesFoldLast(q.ops, q.aggs, InputRecords(slice[..n]), Input(slice[n].item), states, next.value);
      assert InputRecords(slice[..n + 1]) == InputRecords(slice[..n]) + [Input(slice[n].item)];
      states := next.value;
    }
    assert slice[..|slice|] == slice;
    res := Ok(states);
  }

  /** The states before the percentiles are computed. */
  ghost predicate PlainStatesFor(q: Query, rows: seq<Row>, states: seq<AggregateState>, n: nat)
  {
    |states| == |q.aggs| && forall j :: 0 <= j < |q.aggs| ==>
      if q.aggs[j] == PercentileCont && j >= n then states[j] == Initial(PercentileCont)
      else ColumnState(q.ops, q.aggs[j], GroupColumn(rows, j)) == Ok(states[j])
  }

  lemma FoldedInputs(q: Query, slice: seq<InputRow>, states: seq<AggregateState>)
    requires StatesFold(q.ops, q.aggs, InputRecords(slice), states)
    requires forall i :: 0 <= i < |slice| ==> |slice[i].item| == |q.aggs|
    ensures PlainStatesFor(q, Items(slice), states, 0)
  {
    PickInputRecords(slice);
    forall j | 0 <= j < |q.aggs|
      ensures if q.aggs[j] == PercentileCont then states[j] == Initial(PercentileCont)
              else ColumnState(q.ops, q.aggs[j], GroupColumn(Items(slice), j)) == Ok(states[j])
    {
      if q.aggs[j] == PercentileCont {
        PercentileIdle(q.ops, j, slice);
      } else {
        PlainFold(q.ops, q.aggs[j], j, InputRecords(slice));
      }
    }
  }

  /** sort_unstable_by: some arrangement ascending by the percentile's value. */
  method SortByPercentile(slice: seq<InputRow>, j: nat) returns (sorted: seq<InputRow>)
    ensures multiset(sorted) == multiset(slice)
    ensures DigitsAscend(Pick(Items(sorted), DecimalAt(j)))
  {
    ValuesLawful(j, slice);
    var ok;
    ok, sorted := StableSortBy(ValueComparator(j), slice);
    SortedByValue(slice, sorted, j);
  }

  lemma SortedByValue(slice: seq<InputRow>, sorted: seq<InputRow>, j: nat)
    requires IsStableSort(ValueComparator(j), slice, sorted)
    ensures multiset(sorted) == multiset(slice) && DigitsAscend(Pick(Items(sorted), DecimalAt(j)))
  {
    var order: seq<nat> :| IsStableOrder(ValueComparator(j), slice, order) && sorted == Permute(slice, order);
    PermuteMultiset(slice, order);
    var items := Items(sorted);
    forall p, r | 0 <= p < r < |items|
      ensures ComparePercentiles(DecimalAt(j)(items[p]), DecimalAt(j)(items[r])) != Greater
    {
      assert Before(ValueComparator(j), slice, order[p], order[r]);
    }
    SortedDecimals(items, j);
  }

  lemma ValuesLawful(j: nat, slice: seq<InputRow>)
    ensures Lawful(ValueComparator(j), slice) && AllComparable(ValueComparator(j), slice)
  {
    forall a, b, c | 0 <= a < |slice| && 0 <= b < |slice| && 0 <= c < |slice|
      ensures LawfulAt(ValueComparator(j), slice[a], slice[b], slice[c])
    {
      ValuesLawfulAt(j, slice[a], slice[b], slice[c]);
    }
  }

  lemma ValuesLawfulAt(j: nat, a: InputRow, b: InputRow, c: InputRow)
    ensures LawfulAt(ValueComparator(j), a, b, c)
  {
  }

  /** compare_percentile_values on rows */
  function CompareValuesAt(j: nat, a: InputRow, b: InputRow): Result<Ordering>
  {
    Ok(ComparePercentiles(DecimalAt(j)(a.item), DecimalAt(j)(b.item)))
  }

  function ValueComparator(j: nat): Comparator<InputRow>
  {
    (a: InputRow, b: InputRow) => CompareValuesAt(j, a, b)
  }

  method FeedValues(rows: seq<InputRow>, j: nat, start: AggregateState) returns (res: Result<AggregateState>)
    ensures res.Ok? ==> FoldValues(start, Decimals(rows, j)) == res
  {
    var s := start;
    for n := 0 to |rows|
      invariant FoldValues(start, Decimals(rows[..n], j)) == Ok(s)
    {
      DecimalsGrow(rows, n, j);
      var d := DecimalAt(j)(rows[n].item);
      if d.Some? {
        FoldValuesLast(start, Decimals(rows[..n], j), d.value);
        var next := UpdatePercentileValue(s, d.value);
        if next.Err? { return Err(next.error); }
        s := next.value;
      } else {
        assert Decimals(rows[..n + 1], j) == Decimals(rows[..n], j);
      }
    }
    assert rows[..|rows|] == rows;
    res := Ok(s);
  }

  lemma PermutedColumns(a: seq<InputRow>, b: seq<InputRow>, j: nat)
    requires multiset(a) == multiset(b)
    ensures multiset(Decimals(a, j)) == multiset(Decimals(b, j))
    ensures PercentileInputs(a, j) ==> PercentileInputs(b, j)
  {
    ItemsAsPick(a);
    ItemsAsPick(b);
    PickPermuted(a, b, ItemOnly());
    PickPermuted(Items(a), Items(b), DecimalAt(j));
    if PercentileInputs(a, j) { SameInputs(a, b, j); }
  }

  function ItemOnly(): InputRow -> Option<Row> { (r: InputRow) => Some(r.item) }

  lemma {:induction false} ItemsAsPick(rows: seq<InputRow>)
    ensures Pick(rows, ItemOnly()) == Items(rows)
  {
    if rows != [] {
      var n := |rows| - 1;
      ItemsAsPick(rows[..n]);
      assert Items(rows) == Items(rows[..n]) + [rows[n].item];
    }
  }

  /** update_in_memory_percentile */
  method InMemoryPercentile(q: Query, state: AggregateState, rows: seq<InputRow>, j: nat, ghost slice: seq<InputRow>)
    returns (res: Result<AggregateState>, sorted: seq<InputRow>)
    requires multiset(rows) == multiset(slice) && state == Initial(PercentileCont)
    ensures multiset(sorted) == multiset(slice)
    ensures res.Ok? ==> ColumnState(q.ops, PercentileCont, GroupColumn(Items(slice), j)) == res
  {
    sorted := SortByPercentile(rows, j);
    var count := CountDecimals(sorted, j);
    if count > I64_MAX { return Err(InvalidArgument), sorted; }
    var valid := ValidatePercentile(sorted, j);
    if valid.Err? { return Err(valid.error), sorted; }
    var counted := UpdatePercentileCount(state, count);
    if counted.Err? { return Err(counted.error), sorted; }
    res := FeedValues(sorted, j, counted.value);
    if res.Ok? { MedianFed(q.ops, sorted, slice, j); }
  }

  lemma MedianFed(ops: FloatOps, sorted: seq<InputRow>, slice: seq<InputRow>, j: nat)
    requires DigitsAscend(Decimals(sorted, j)) && |Decimals(sorted, j)| <= U64_MAX
    requires multiset(sorted) == multiset(slice)
    requires (forall i :: 0 <= i < |sorted| ==> j < |sorted[i].item|) && PercentileColumn(GroupColumn(Items(sorted), j))
    requires FoldValues(Counted(|Decimals(sorted, j)|), Decimals(sorted, j)).Ok?
    ensures ColumnState(ops, PercentileCont, GroupColumn(Items(slice), j)) ==
              FoldValues(Counted(|Decimals(sorted, j)|), Decimals(sorted, j))
  {
    var ds := Decimals(sorted, j);
    ValidInputs(sorted, j);
    PermutedColumns(sorted, slice, j);
    ColumnTypes(slice, j);
    FoldValuesIff(|ds|, ds);
    ColumnDecimals(Items(slice), j);
    MedianOfArrangement(ops, GroupColumn(Items(slice), j), ds);
  }

  lemma ColumnTypes(slice: seq<InputRow>, j: nat)
    requires PercentileInputs(slice, j)
    ensures forall i :: 0 <= i < |slice| ==>
              GroupColumn(Items(slice), j)[i].Null? || GroupColumn(Items(slice), j)[i].Decimal?
  {
  }

  /** aggregate_group */
  method AggregateGroup(q: Query, slice: seq<InputRow>) returns (res: Result<Row>)
    requires |q.aggs| == |q.types| && forall i :: 0 <= i < |slice| ==> |slice[i].item| == |q.aggs|
    ensures res.Ok? ==> GroupAnswer(q)(Items(slice)) == res
  {
    var folded := FoldInputs(q, slice);
    if folded.Err? { return Err(folded.error); }
    var states, rows := folded.value, slice;
    FoldedInputs(q, slice, states);
    for j := 0 to |q.aggs|
      invariant PlainStatesFor(q, Items(slice), states, j) && multiset(rows) == multiset(slice)
    {
      if q.aggs[j] == PercentileCont {
        var state;
        state, rows := InMemoryPercentile(q, states[j], rows, j, slice);
        if state.Err? { return Err(state.error); }
        states := states[j := state.value];
      }
    }
    res := FinishGroup(q, states, Items(slice));
  }

  // ----- all groups in memory -----

  /** aggregate_groups, over rows already sorted by key. */
  method AggregateSorted(q: Query, groupCount: nat, sorted: seq<InputRow>, ghost rows: seq<InputRow>)
    returns (res: Result<seq<Row>>)
    requires |q.aggs| == |q.types| && InputsShape(sorted, groupCount, q.aggs) && KeyWidths(groupCount, rows)
    requires KeysAscend(sorted) && multiset(sorted) == multiset(rows)
    requires forall k :: GroupOf(sorted, k) == GroupOf(rows, k)
    ensures res.Ok? ==> IsAnswer(GroupAnswer(q), groupCount, rows, res.value)
  {
    if sorted == [] {
      assert |rows| == |multiset(rows)| == 0;
      assert Items(sorted) == [];
      if groupCount != 0 {
        FromNothing(GroupAnswer(q), groupCount, []);
        return Ok([]);
      }
      var only := AggregateGroup(q, sorted);
      if only.Err? { return Err(only.error); }
      FromNothing(GroupAnswer(q), groupCount, [only.value]);
      return Ok([only.value]);
    }
    var out: seq<Row> := [];
    ghost var slices: seq<seq<InputRow>> := [];
    var start := 0;
    while start < |sorted|
      invariant CutTo(sorted, slices, start) && SlicesAnswered(q, slices, out)
      decreases |sorted| - start
    {
      var end := GroupEnd(sorted, start);
      if end.Err? { return Err(end.error); }
      var slice := sorted[start..end.value];
      forall i | 0 <= i < |slice|
        ensures |slice[i].item| == |q.aggs|
      {
        assert InputShape(sorted[start + i], groupCount, q.aggs);
      }
      var answer := AggregateGroup(q, slice);
      if answer.Err? { return Err(answer.error); }
      CutMore(sorted, slices, start, end.value);
      out := out + [sorted[start].key + answer.value];
      slices := slices + [slice];
      start := end.value;
    }
    assert sorted[..|sorted|] == sorted;
    SortedSlices(q, groupCount, sorted, rows, slices, out);
    res := Ok(out);
  }

  ghost predicate SlicesAnswered(q: Query, slices: seq<seq<InputRow>>, out: seq<Row>)
    requires |q.aggs| == |q.types|
  {
    |out| == |slices| && forall g :: 0 <= g < |slices| ==>
      slices[g] != [] && GroupAnswer(q)(Items(slices[g])).Ok? &&
      out[g] == slices[g][0].key + GroupAnswer(q)(Items(slices[g])).value
  }

  lemma SortedSlices(q: Query, groupCount: nat, sorted: seq<InputRow>, rows: seq<InputRow>, slices: seq<seq<InputRow>>,
                     out: seq<Row>)
    requires |q.aggs| == |q.types| && KeyWidths(groupCount, rows) && sorted != []
    requires KeysAscend(sorted) && multiset(sorted) == multiset(rows)
    requires forall k :: GroupOf(sorted, k) == GroupOf(rows, k)
    requires Grouped(slices) && Flatten(slices) == sorted && SlicesAnswered(q, slices, out)
    ensures IsAnswer(GroupAnswer(q), groupCount, rows, out)
  {
    assert |rows| == |multiset(rows)| == |multiset(sorted)| == |sorted|;
    forall k ensures HasGroup(sorted, k) <==> HasGroup(rows, k) {
      SameGroups(sorted, rows, k);
      SameGroups(rows, sorted, k);
    }
    forall g | 0 <= g < |slices| ensures AnswersGroup(GroupAnswer(q), rows, KeysOf(slices)[g], out[g]) {
      SliceIsGroup(slices, g);
    }
    FromGroups(GroupAnswer(q), groupCount, rows, slices, out);
  }
}
