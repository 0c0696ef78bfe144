/** The external side of an aggregation: pulling whole groups out of the merge of
    the spilled runs. */
module AggregateMerges {
  import opened Values
  import opened StableOrder
  import opened Selection
  import opened Budget
  import opened MergeProgress
  import opened RunMerge
  import opened Spilling
  import opened Grouping
  import opened AggregateStates
  import opened Percentile
  import opened AggregateRecords
  import opened MergedGroups
  import opened AggregateRuns
  import opened AggregateGroups

  /** Everything still pending lies in later groups than `key`. */
  ghost predicate LaterKeys(g: Progress<AggregateRow>, key: Row)
    requires g.Shape()
  {
    forall s, p :: 0 <= s < |g.next| && g.Pending(s, p) ==> p < |g.rows| && g.rows[p].key != key
  }

  ghost predicate KeyFirstAt(spec: Comparator<AggregateRow>, a: AggregateRow, b: AggregateRow)
  {
    AtMost(spec(a, b)) ==> AtMost(KeyOrder(a.key, b.key))
  }

  /** The merge order looks at the group key first. */
  ghost predicate KeyFirst(spec: Comparator<AggregateRow>)
  {
    forall a, b {:trigger KeyFirstAt(spec, a, b)} :: KeyFirstAt(spec, a, b)
  }

  lemma FrontBeginsLater(spec: Comparator<AggregateRow>, g: Progress<AggregateRow>, r: nat, key: Row)
    requires KeyFirst(spec) && g.Sound(spec) && r < |g.next| && g.IsNext(spec, r)
    requires KeyOrder(key, g.rows[g.next[r]].key) == Ok(Less)
    ensures LaterKeys(g, key)
  {
    var front := g.rows[g.next[r]];
    forall s, p | 0 <= s < |g.next| && g.Pending(s, p) ensures p < |g.rows| && g.rows[p].key != key {
      KeyOrderLaws(key, front.key, key);
      if p != g.next[r] {
        assert Before(spec, g.rows, g.next[r], p);
        assert KeyFirstAt(spec, front, g.rows[p]);
        KeyOrderLaws(key, front.key, g.rows[p].key);
        KeyOrderLaws(key, key, key);
      }
    }
  }

  /** A front with another key than the last emitted record has a greater one. */
  lemma DifferentIsLater(spec: Comparator<AggregateRow>, g: Progress<AggregateRow>, r: nat, key: Row)
    requires KeyFirst(spec) && g.Sound(spec) && r < |g.next| && g.IsNext(spec, r)
    requires g.emitted != [] && g.rows[g.emitted[|g.emitted| - 1]].key == key && g.rows[g.next[r]].key != key
    ensures LaterKeys(g, key)
  {
    assert g.Pending(r, g.next[r]);
    assert Before(spec, g.rows, g.emitted[|g.emitted| - 1], g.next[r]);
    assert KeyFirstAt(spec, g.rows[g.emitted[|g.emitted| - 1]], g.rows[g.next[r]]);
    KeyOrderLaws(key, g.rows[g.next[r]].key, key);
    FrontBeginsLater(spec, g, r, key);
  }

  /** `row` is the key of the slice and its finished states. */
  ghost predicate SliceFinished(q: Query, slice: seq<AggregateRow>, row: Row)
  {
    exists states, values :: FinishedBy(q, slice, row, states, values)
  }

  ghost predicate FinishedBy(q: Query, slice: seq<AggregateRow>, row: Row, states: seq<AggregateState>, values: Row)
  {
    && slice != [] && StatesFold(q.ops, q.aggs, Items(slice), states) && |values| == |states| == |q.types|
    && row == slice[0].key + values
    && forall j :: 0 <= j < |states| ==> FinishState(q.ops, states[j], q.types[j]) == Ok(values[j])
  }

  ghost predicate AllFinished(q: Query, slices: seq<seq<AggregateRow>>, out: seq<Row>)
  {
    |out| == |slices| && forall g :: 0 <= g < |slices| ==> SliceFinished(q, slices[g], out[g])
  }

  /** A finished slice of the complete merge answers its group. */
  lemma SliceAnswers(q: Query, records: seq<AggregateRow>, order: seq<nat>, rows: seq<InputRow>, groupCount: nat,
                     slices: seq<seq<AggregateRow>>, g: nat, row: Row)
    requires |q.aggs| == |q.types| && IsStableOrder(RecordOrder, records, order)
    requires Represents(records, rows, q.aggs) && RecordsFit(records, groupCount, q.aggs)
    requires Grouped(slices) && Flatten(slices) == Permute(records, order) && g < |slices|
    requires SliceFinished(q, slices[g], row)
    ensures AnswersGroup(GroupAnswer(q), rows, KeysOf(slices)[g], row)
  {
    MergedAscend(records, order);
    SliceIsGroup(slices, g);
    var key := slices[g][0].key;
    var states, values :| FinishedBy(q, slices[g], row, states, values);
    var group := GroupOf(rows, key);
    forall i | 0 <= i < |records| ensures records[i].item.PercentileCount? ==> records[i].item.count >= 0
    {
      assert RecordShape(records[i], groupCount, q.aggs);
    }
    forall i | 0 <= i < |records| && records[i].item.Input? ensures |records[i].item.values| == |q.aggs| {
      assert RecordShape(records[i], groupCount, q.aggs);
    }
    forall j | 0 <= j < |q.aggs| ensures ColumnState(q.ops, q.aggs[j], GroupColumn(group, j)) == Ok(states[j]) {
      MergedState(q.ops, records, rows, q.aggs, order, key, j);
    }
    AnswerPrefix(q, group, states, values, |q.aggs|);
    assert values[..|q.aggs|] == values;
  }

  lemma RecordGroups(records: seq<AggregateRow>, order: seq<nat>, rows: seq<InputRow>, aggs: seq<AggregateFunction>,
                     k: Row)
    requires IsStableOrder(RecordOrder, records, order) && Represents(records, rows, aggs)
    ensures HasGroup(Permute(records, order), k) <==> HasGroup(rows, k)
  {
    var merged := Permute(records, order);
    if HasGroup(merged, k) {
      var i :| 0 <= i < |merged| && merged[i].key == k;
      assert records[order[i]].key == k;
    }
    if HasGroup(rows, k) {
      var i :| 0 <= i < |rows| && rows[i].key == k;
      PickMember(rows, ItemOf(k), i);
      assert HoldsInputs(records, rows, k);
      PickedFrom(records, InputIn(k), rows[i].item);
      var p :| 0 <= p < |records| && InputIn(k)(records[p]) == Some(rows[i].item);
      assert p in order;
      var o :| 0 <= o < |order| && order[o] == p;
      assert merged[o].key == k;
    }
  }

  /** The groups pulled from a complete merge are the answer over the inputs the
      runs were spilled from. */
  lemma MergeAnswers(q: Query, records: seq<AggregateRow>, order: seq<nat>, rows: seq<InputRow>, groupCount: nat,
                     slices: seq<seq<AggregateRow>>, out: seq<Row>)
    requires |q.aggs| == |q.types| && IsStableOrder(RecordOrder, records, order)
    requires Represents(records, rows, q.aggs) && RecordsFit(records, groupCount, q.aggs)
    requires Grouped(slices) && Flatten(slices) == Permute(records, order) && AllFinished(q, slices, out)
    requires KeyWidths(groupCount, rows) && rows != []
    ensures IsAnswer(GroupAnswer(q), groupCount, rows, out)
  {
    MergedAscend(records, order);
    forall k
      ensures HasGroup(Flatten(slices), k) <==> HasGroup(rows, k)
    {
      RecordGroups(records, order, rows, q.aggs, k);
    }
    forall g | 0 <= g < |slices| ensures AnswersGroup(GroupAnswer(q), rows, KeysOf(slices)[g], out[g]) {
      SliceAnswers(q, records, order, rows, groupCount, slices, g, out[g]);
    }
    FromGroups(GroupAnswer(q), groupCount, rows, slices, out);
  }

  lemma RecordsLawful(records: seq<AggregateRow>, groupCount: nat, aggs: seq<AggregateFunction>)
    requires RecordsFit(records, groupCount, aggs)
    ensures Lawful(RecordOrder, records) && Extends(CompareRecords, RecordOrder, records)
  {
    forall i, j, k | 0 <= i < |records| && 0 <= j < |records| && 0 <= k < |records|
      ensures LawfulAt(RecordOrder, records[i], records[j], records[k])
    {
      RecordOrderLaws(records[i], records[j], records[k]);
    }
    forall i, j | 0 <= i < |records| && 0 <= j < |records|
      ensures ExtendsAt(CompareRecords, RecordOrder, records[i], records[j])
    {
      RecordsExtend(records[i], records[j]);
    }
  }

  lemma RecordOrderKeyFirst()
    ensures KeyFirst(RecordOrder)
  {
    forall a, b ensures KeyFirstAt(RecordOrder, a, b) {}
  }

  lemma SliceGrows(q: Query, slice: seq<AggregateRow>, row: AggregateRow, states: seq<AggregateState>,
                   next: seq<AggregateState>)
    requires StatesFold(q.ops, q.aggs, Items(slice), states) && |next| == |states|
    requires forall j :: 0 <= j < |states| ==> RecordUpdate(q.ops, j, states[j], row.item) == Ok(next[j])
    ensures StatesFold(q.ops, q.aggs, Items(slice + [row]), next)
  {
    StatesFoldLast(q.ops, q.aggs, Items(slice), row.item, states, next);
    assert Items(slice + [row]) == Items(slice) + [row.item];
  }

  /** The groups pulled so far, and the rows they became. */
  ghost predicate GroupsPulled(q: Query, slices: seq<seq<AggregateRow>>, out: seq<Row>, pulled: seq<AggregateRow>)
  {
    Grouped(slices) && Flatten(slices) == pulled && AllFinished(q, slices, out)
  }

  lemma CloseGroup(q: Query, slices: seq<seq<AggregateRow>>, out: seq<Row>, first: AggregateRow,
                   slice: seq<AggregateRow>,
                   states: seq<AggregateState>, values: Row, before: seq<AggregateRow>, pulled: seq<AggregateRow>)
    requires GroupsPulled(q, slices, out, before) && Collected(q, first, before + [first], slice, states, pulled)
    requires slices != [] ==> slices[|slices| - 1] != [] && slices[|slices| - 1][0].key != first.key
    requires |values| == |states| == |q.types|
    requires forall j :: 0 <= j < |states| ==> FinishState(q.ops, states[j], q.types[j]) == Ok(values[j])
    ensures GroupsPulled(q, slices + [slice], out + [first.key + values], pulled)
  {
    Assoc(before, [first], slice[1..]);
    assert [first] + slice[1..] == slice;
    assert FinishedBy(q, slice, slice[0].key + values, states, values);
    GroupFinished(q, slices, out, slice, states, values);
    GroupedMore(slices, slice);
    FlattenAppend(slices, slice);
  }

  lemma GroupFinished(q: Query, slices: seq<seq<AggregateRow>>, out: seq<Row>, slice: seq<AggregateRow>,
                      states: seq<AggregateState>, values: Row)
    requires AllFinished(q, slices, out) && slice != [] && FinishedBy(q, slice, slice[0].key + values, states, values)
    ensures AllFinished(q, slices + [slice], out + [slice[0].key + values])
  {
    assert SliceFinished(q, slice, slice[0].key + values);
  }

  /** AggregateMerge */
  class AggregateMerge {
    const query: Query
    const groupCount: nat
    const merger: RunMerger<AggregateRow>
    /** The inputs that were spilled, the groups pulled so far and their rows. */
    ghost const rows: seq<InputRow>
    ghost var slices: seq<seq<AggregateRow>>
    ghost var emitted: seq<Row>
    /** A failed pull loses the group it was working on. */
    ghost var broken: bool

    ghost predicate Opened()
      reads this, merger, merger.budget
    {
      merger.Valid() && KeyFirst(merger.spec) && |query.aggs| == |query.types|
    }

    ghost function Pulled(): seq<AggregateRow>
      reads this, merger, merger.budget
      requires Opened()
    {
      Permute(merger.progress.rows, merger.progress.emitted)
    }

    ghost predicate Valid()
      reads this, merger, merger.budget
    {
      Opened() && (!broken ==> GroupsPulled(query, slices, emitted, Pulled()) && NextIsNew())
    }

    /** The next record to be pulled starts a new group. */
    ghost predicate NextIsNew()
      reads this, merger, merger.budget
      requires Opened()
    {
      slices != [] ==> slices[|slices| - 1] != [] && LaterKeys(merger.progress, slices[|slices| - 1][0].key)
    }

    /** The records being merged are the spilled form of the inputs. */
    ghost predicate Founded()
      reads merger
    {
      && merger.spec == RecordOrder && merger.cmp == CompareRecords && KeyWidths(groupCount, rows) && rows != []
      && Represents(merger.progress.rows, rows, query.aggs) && RecordsFit(merger.progress.rows, groupCount, query.aggs)
    }

    /** Everything has been pulled. */
    ghost predicate Exhausted()
      reads this, merger, merger.budget
      requires Opened()
    {
      IsStableOrder(merger.spec, merger.progress.rows, merger.progress.emitted) &&
      GroupsPulled(query, slices, emitted, Pulled())
    }

    /** The rows of an exhausted merge are the answer over the inputs. */
    lemma ExhaustedAnswers()
      requires Opened() && Founded() && Exhausted()
      ensures IsAnswer(GroupAnswer(query), groupCount, rows, emitted)
    {
      MergeAnswers(query, merger.progress.rows, merger.progress.emitted, rows, groupCount, slices, emitted);
    }

    /** AggregateMerge::new */
    constructor (query: Query, groupCount: nat, budget: MemoryBudget, files: seq<seq<u8>>, ghost rows: seq<InputRow>,
                 ghost g: Runs)
      requires |query.aggs| == |query.types| && query.aggs != [] && KeyWidths(groupCount, rows) && rows != []
      requires Spilled(files, g, rows, groupCount, query.aggs)
      ensures Valid() && Founded() && !broken && emitted == [] && fresh(merger) && HeldBytes(merger.cursors) == 0
      ensures this.query == query && this.groupCount == groupCount && this.rows == rows && merger.budget == budget
    {
      RecordsLawful(g.records, groupCount, query.aggs);
      RecordOrderKeyFirst();
      AggregateFormatFaithful(g.records, groupCount, query.aggs);
      this.query, this.groupCount, this.rows := query, groupCount, rows;
      merger := new RunMerger(CompareRecords, RecordOrder, AggregateFormat(groupCount, query.aggs), budget, files,
                              g.records, g.bounds);
      slices, emitted, broken := [], [], false;
    }

    /** Pops the front of run r. */
    method Pop(r: nat) returns (row: AggregateRow)
      requires Opened() && r < |merger.cursors| && merger.cursors[r].buffered != []
      requires merger.progress.IsNext(merger.spec, r)
      modifies merger, merger.budget
      ensures Opened() && merger.progress.rows == old(merger.progress.rows)
      ensures Pulled() == old(Pulled()) + [row] && |merger.progress.emitted| == |old(merger.progress.emitted)| + 1
      ensures row == old(merger.cursors[r].buffered[0].row) == merger.progress.rows[old(merger.progress.next[r])]
      ensures merger.budget.charged - old(merger.budget.charged) ==
                HeldBytes(merger.cursors) - old(HeldBytes(merger.cursors))
    {
      PermuteAppend(merger.progress.rows, merger.progress.emitted, merger.progress.next[r]);
      row := merger.PopFront(r);
    }

    /** One step of next_group's loop: the next record of the group, if any. */
    method NextOf(key: Row) returns (res: Result<Option<AggregateRow>>)
      requires Opened() && Pulled() != [] && Pulled()[|Pulled()| - 1].key == key
      modifies merger, merger.budget
      ensures Opened() && merger.progress.rows == old(merger.progress.rows)
      ensures merger.budget.charged - old(merger.budget.charged) ==
                HeldBytes(merger.cursors) - old(HeldBytes(merger.cursors))
      ensures |merger.progress.emitted| == |old(merger.progress.emitted)| + if res.Ok? && res.value.Some? then 1 else 0
      ensures res.Ok? && res.value.Some? ==> Pulled() == old(Pulled()) + [res.value.value] && res.value.value.key == key
      ensures res == Ok(None) ==> Pulled() == old(Pulled()) && LaterKeys(merger.progress, key)
    {
      var front := FrontOf(key);
      if front.Err? { return Err(front.error); }
      if front.value.None? { return Ok(None); }
      var next := Pop(front.value.value);
      res := Ok(Some(next));
    }

    /** The run whose front continues the group, if one does. */
    method FrontOf(key: Row) returns (res: Result<Option<nat>>)
      requires Opened() && Pulled() != [] && Pulled()[|Pulled()| - 1].key == key
      modifies merger`cursors, merger.budget
      ensures Opened()
      ensures merger.budget.charged - old(merger.budget.charged) ==
                HeldBytes(merger.cursors) - old(HeldBytes(merger.cursors))
      ensures res.Ok? && res.value.Some? ==>
                && res.value.value < |merger.cursors| && merger.cursors[res.value.value].buffered != []
                && merger.progress.IsNext(merger.spec, res.value.value)
                && merger.cursors[res.value.value].buffered[0].row.key == key
      ensures res == Ok(None) ==> LaterKeys(merger.progress, key)
    {
      var best := merger.BestCursor();
      assert Opened() && Pulled() == old(Pulled());
      if best.Err? { return Err(best.error); }
      if best.value.None? { return Ok(None); }
      var same := SameGroup(best.value.value, key);
      if same.Err? { return Err(same.error); }
      res := Ok(if same.value then best.value else None);
    }

    /** Whether the front belongs to the group; if not, nothing pending does. */
    method SameGroup(r: nat, key: Row) returns (res: Result<bool>)
      requires Opened() && r < |merger.cursors| && merger.cursors[r].buffered != []
      requires merger.progress.IsNext(merger.spec, r)
      requires Pulled() != [] && Pulled()[|Pulled()| - 1].key == key
      ensures res == Ok(true) ==> merger.cursors[r].buffered[0].row.key == key
      ensures res == Ok(false) ==> LaterKeys(merger.progress, key)
    {
      var front := FrontRow(r);
      var order := CompareKeyTuples(key, front.key);
      if order.Err? { return Err(order.error); }
      KeyOrderLaws(key, front.key, []);
      if order.value != Equal { DifferentIsLater(merger.spec, merger.progress, r, key); }
      res := Ok(order.value == Equal);
    }

    method FrontRow(r: nat) returns (row: AggregateRow)
      requires Opened() && r < |merger.cursors| && merger.cursors[r].buffered != []
      requires merger.progress.IsNext(merger.spec, r)
      ensures row == merger.progress.rows[merger.progress.next[r]] == merger.cursors[r].buffered[0].row
    {
      PopDelivers(merger.format, merger.cursors[r], merger.progress.rows, merger.progress.next[r],
                  RunEnd(merger.progress.bounds, r));
      row := merger.cursors[r].buffered[0].row;
    }

    /** The loop of next_group: folds in records while they have the group's key. */
    method CollectGroup(first: AggregateRow)
      returns (res: Result<seq<AggregateState>>, ghost slice: seq<AggregateRow>)
      requires Opened() && Pulled() != [] && Pulled()[|Pulled()| - 1] == first
      modifies merger, merger.budget
      ensures Opened() && merger.progress.rows == old(merger.progress.rows)
      ensures |merger.progress.emitted| >= |old(merger.progress.emitted)|
      ensures merger.budget.charged - old(merger.budget.charged) ==
                HeldBytes(merger.cursors) - old(HeldBytes(merger.cursors))
      ensures res.Ok? ==>
                Collected(query, first, old(Pulled()), slice, res.value, Pulled()) &&
                LaterKeys(merger.progress, first.key)
    {
      slice := [first];
      var started := StartStates(query, first);
      if started.Err? { return Err(started.error), slice; }
      var states := started.value;
      ghost var before := Pulled();
      assert before + slice[1..] == before;
      EmittedFits(merger.spec, merger.progress);
      while true
        invariant Opened() && merger.progress.rows == old(merger.progress.rows)
        invariant |old(merger.progress.emitted)| <= |merger.progress.emitted| <= |merger.progress.rows|
        invariant merger.budget.charged - old(merger.budget.charged) ==
                    HeldBytes(merger.cursors) - old(HeldBytes(merger.cursors))
        invariant Collected(query, first, before, slice, states, Pulled())
        decreases |merger.progress.rows| - |merger.progress.emitted|
      {
        var more;
        more, slice := CollectRecord(first, states, before, slice);
        if more.Err? { return Err(more.error), slice; }
        if more.value.None? { return Ok(states), slice; }
        EmittedFits(merger.spec, merger.progress);
        states := more.value.value;
      }
    }

    /** Folds the next record of the group into its states; None when there is none. */
    method CollectRecord(first: AggregateRow, states: seq<AggregateState>, ghost before: seq<AggregateRow>,
                         ghost slice: seq<AggregateRow>)
      returns (res: Result<Option<seq<AggregateState>>>, ghost slice': seq<AggregateRow>)
      requires Opened() && Collected(query, first, before, slice, states, Pulled())
      modifies merger, merger.budget
      ensures Opened() && merger.progress.rows == old(merger.progress.rows)
      ensures |merger.progress.emitted| >= |old(merger.progress.emitted)|
      ensures merger.budget.charged - old(merger.budget.charged) ==
                HeldBytes(merger.cursors) - old(HeldBytes(merger.cursors))
      ensures res.Ok? && res.value.Some? ==>
                Collected(query, first, before, slice', res.value.value, Pulled()) &&
                |merger.progress.emitted| > |old(merger.progress.emitted)|
      ensures res == Ok(None) ==>
                slice' == slice && Pulled() == old(Pulled()) && LaterKeys(merger.progress, first.key)
    {
      slice' := slice;
      LastOfSlice(query, first, before, slice, states, Pulled());
      var next := NextOf(first.key);
      if next.Err? { return Err(next.error), slice'; }
      if next.value.None? { return Ok(None), slice'; }
      var updated := UpdateStates(query.ops, states, next.value.value.item);
      if updated.Err? { return Err(updated.error), slice'; }
      CollectedMore(query, first, before, slice, states, Pulled(), next.value.value, updated.value);
      res, slice' := Ok(Some(updated.value)), slice + [next.value.value];
    }

    /** Pulls the first record of the next group; it lies after the last one. */
    method FirstOf(ghost last: Option<Row>) returns (res: Result<Option<AggregateRow>>)
      requires Opened() && (last.Some? ==> LaterKeys(merger.progress, last.value))
      modifies merger, merger.budget
      ensures Opened() && merger.progress.rows == old(merger.progress.rows)
      ensures merger.budget.charged - old(merger.budget.charged) ==
                HeldBytes(merger.cursors) - old(HeldBytes(merger.cursors))
      ensures res.Ok? && res.value.Some? ==>
                Pulled() == old(Pulled()) + [res.value.value] && last != Some(res.value.value.key)
      ensures res.Err? || res.value.None? ==> merger.progress == old(merger.progress)
      ensures res == Ok(None) ==> IsStableOrder(merger.spec, merger.progress.rows, merger.progress.emitted)
    {
      var best := merger.BestCursor();
      if best.Err? { return Err(best.error); }
      if best.value.None? { return Ok(None); }
      var r := best.value.value;
      assert merger.progress.Pending(r, merger.progress.next[r]);
      var first := Pop(r);
      res := Ok(Some(first));
    }

    /** The body of next_group: one whole group out of the merge. */
    method PullGroup() returns (res: Result<Option<Row>>, ghost slice: seq<AggregateRow>)
      requires Opened() && GroupsPulled(query, slices, emitted, Pulled()) && NextIsNew()
      modifies merger, merger.budget
      ensures Opened() && merger.progress.rows == old(merger.progress.rows)
      ensures |Pulled()| >= |old(Pulled())| + if res.Ok? && res.value.Some? then 1 else 0
      ensures merger.budget.charged - old(merger.budget.charged) ==
                HeldBytes(merger.cursors) - old(HeldBytes(merger.cursors))
      ensures res.Ok? && res.value.Some? ==> slice != [] && LaterKeys(merger.progress, slice[0].key)
      ensures res.Ok? && res.value.Some? ==>
                GroupsPulled(query, slices + [slice], emitted + [res.value.value], Pulled())
      ensures res == Ok(None) ==> merger.progress == old(merger.progress)
      ensures res == Ok(None) ==> IsStableOrder(merger.spec, merger.progress.rows, merger.progress.emitted)
    {
      slice := [];
      ghost var before := Pulled();
      ghost var last := if slices == [] then None else Some(slices[|slices| - 1][0].key);
      var first := FirstOf(last);
      if first.Err? { return Err(first.error), slice; }
      if first.value.None? { return Ok(None), slice; }
      var row;
      row, slice := FinishGroup(first.value.value, before);
      res := if row.Ok? then Ok(Some(row.value)) else Err(row.error);
    }

    /** The rest of a group whose first record has been pulled, and its finished row. */
    method FinishGroup(first: AggregateRow, ghost before: seq<AggregateRow>)
      returns (res: Result<Row>, ghost slice: seq<AggregateRow>)
      requires Opened() && GroupsPulled(query, slices, emitted, before) && Pulled() == before + [first]
      requires slices != [] ==> slices[|slices| - 1] != [] && slices[|slices| - 1][0].key != first.key
      modifies merger, merger.budget
      ensures Opened() && merger.progress.rows == old(merger.progress.rows) && |Pulled()| >= |old(Pulled())|
      ensures merger.budget.charged - old(merger.budget.charged) ==
                HeldBytes(merger.cursors) - old(HeldBytes(merger.cursors))
      ensures res.Ok? ==> slice != [] && LaterKeys(merger.progress, slice[0].key)
      ensures res.Ok? ==> GroupsPulled(query, slices + [slice], emitted + [res.value], Pulled())
    {
      var states;
      states, slice := CollectGroup(first);
      if states.Err? { return Err(states.error), slice; }
      res := FinishCollected(query, states.value, first, slices, emitted, slice, before, Pulled());
    }

    /** AggregateMerge::next_group */
    method NextGroup() returns (res: Result<Option<Row>>)
      requires Valid() && !broken
      modifies this`slices, this`emitted, this`broken, merger, merger.budget
      ensures Valid() && (broken <==> res.Err?)
      ensures merger.progress.rows == old(merger.progress.rows)
      ensures |merger.progress.emitted| >= |old(merger.progress.emitted)|
      ensures merger.budget.charged - old(merger.budget.charged) ==
                HeldBytes(merger.cursors) - old(HeldBytes(merger.cursors))
      ensures emitted == if res.Ok? && res.value.Some? then old(emitted) + [res.value.value] else old(emitted)
      ensures res.Ok? && res.value.Some? ==> |merger.progress.emitted| > |old(merger.progress.emitted)|
      ensures res == Ok(None) ==> Exhausted()
    {
      ghost var slice;
      res, slice := PullGroup();
      broken := res.Err?;
      if res.Ok? && res.value.Some? { slices, emitted := slices + [slice], emitted + [res.value.value]; }
    }

    /** AggregateMerge::next_chunk */
    method NextChunk() returns (res: Result<Option<seq<Row>>>)
      requires Valid() && !broken
      modifies this`slices, this`emitted, this`broken, merger, merger.budget
      ensures Valid() && (broken <==> res.Err?) && old(emitted) <= emitted
      ensures merger.progress.rows == old(merger.progress.rows)
      ensures |merger.progress.emitted| >= |old(merger.progress.emitted)|
      ensures merger.budget.charged - old(merger.budget.charged) ==
                HeldBytes(merger.cursors) - old(HeldBytes(merger.cursors))
      ensures res.Ok? && res.value.Some? ==>
                0 < |res.value.value| <= CHUNK_CAPACITY && emitted == old(emitted) + res.value.value
      ensures res.Ok? && res.value.Some? ==> |merger.progress.emitted| > |old(merger.progress.emitted)|
      ensures res == Ok(None) ==> emitted == old(emitted) && Exhausted()
    {
      var chunk: seq<Row> := [];
      while |chunk| < CHUNK_CAPACITY
        invariant Valid() && !broken && emitted == old(emitted) + chunk && |chunk| <= CHUNK_CAPACITY
        invariant merger.progress.rows == old(merger.progress.rows)
        invariant |merger.progress.emitted| >= |old(merger.progress.emitted)|
        invariant chunk != [] ==> |merger.progress.emitted| > |old(merger.progress.emitted)|
        invariant merger.budget.charged - old(merger.budget.charged) ==
                    HeldBytes(merger.cursors) - old(HeldBytes(merger.cursors))
        decreases CHUNK_CAPACITY - |chunk|
      {
        var next := NextGroup();
        if next.Err? { return Err(next.error); }
        if next.value.None? { break; }
        Assoc(old(emitted), chunk, [next.value.value]);
        chunk := chunk + [next.value.value];
      }
      res := Ok(if chunk == [] then None else Some(chunk));
    }
  }

  lemma LastOfSlice(q: Query, first: AggregateRow, before: seq<AggregateRow>, slice: seq<AggregateRow>,
                    states: seq<AggregateState>, pulled: seq<AggregateRow>)
    requires Collected(q, first, before, slice, states, pulled)
    ensures pulled != [] && pulled[|pulled| - 1].key == first.key
  {
    if |slice| > 1 { assert pulled[|pulled| - 1] == slice[|slice| - 1]; }
  }

  /** The records of the group being collected, the first of them the last one
      pulled before. */
  ghost predicate Collected(q: Query, first: AggregateRow, before: seq<AggregateRow>, slice: seq<AggregateRow>,
                            states: seq<AggregateState>, pulled: seq<AggregateRow>)
  {
    && before != [] && before[|before| - 1] == first
    && IsGroup(slice) && slice[0] == first && pulled == before + slice[1..]
    && StatesFold(q.ops, q.aggs, Items(slice), states)
  }

  lemma CollectedMore(q: Query, first: AggregateRow, before: seq<AggregateRow>, slice: seq<AggregateRow>,
                      states: seq<AggregateState>,
                      pulled: seq<AggregateRow>, row: AggregateRow, next: seq<AggregateState>)
    requires |pulled| > 0 && pulled[|pulled| - 1] == row
    requires Collected(q, first, before, slice, states, pulled[..|pulled| - 1])
    requires row.key == first.key && |next| == |states|
    requires forall j :: 0 <= j < |states| ==> RecordUpdate(q.ops, j, states[j], row.item) == Ok(next[j])
    ensures Collected(q, first, before, slice + [row], next, pulled)
  {
    SliceGrows(q, slice, row, states, next);
    assert (slice + [row])[1..] == slice[1..] + [row];
    assert pulled == pulled[..|pulled| - 1] + [row];
    Assoc(before, slice[1..], [row]);
  }

  /** The end of next_group: the key and the finished states. */
  method FinishCollected(q: Query, states: seq<AggregateState>, first: AggregateRow,
                         ghost slices: seq<seq<AggregateRow>>, ghost out: seq<Row>,
                         ghost slice: seq<AggregateRow>, ghost before: seq<AggregateRow>,
                         ghost pulled: seq<AggregateRow>)
    returns (res: Result<Row>)
    requires GroupsPulled(q, slices, out, before) && Collected(q, first, before + [first], slice, states, pulled)
    requires slices != [] ==> slices[|slices| - 1] != [] && slices[|slices| - 1][0].key != first.key
    requires |q.aggs| == |q.types|
    ensures res.Ok? ==> GroupsPulled(q, slices + [slice], out + [res.value], pulled)
  {
    var values := FinishStates(q, states);
    if values.Err? { return Err(values.error); }
    CloseGroup(q, slices, out, first, slice, states, values.value, before, pulled);
    res := Ok(first.key + values.value);
  }

  method StartStates(q: Query, row: AggregateRow) returns (res: Result<seq<AggregateState>>)
    ensures res.Ok? ==> StatesFold(q.ops, q.aggs, Items([row]), res.value)
  {
    var states := InitialStates(q.ops, q.aggs);
    res := UpdateStates(q.ops, states, row.item);
    if res.Ok? {
      ghost var none: seq<AggregateRow> := [];
      assert Items(none) == [] && none + [row] == [row];
      SliceGrows(q, none, row, states, res.value);
    }
  }
}
