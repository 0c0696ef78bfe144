/** The run files of an aggregate and what they represent. */
module AggregateRuns {
  import opened Values
  import opened StableOrder
  import opened MergeSort
  import opened Selection
  import opened SpillCodec
  import opened RunMerge
  import opened Spilling
  import opened Grouping
  import opened AggregateStates
  import opened AggregateRecords
  import opened MergedGroups
  import opened AggregateSpill

  /** All spilled records in file order, and where the files are cut. */
  datatype Runs = Runs(records: seq<AggregateRow>, bounds: seq<nat>)

  ghost predicate RunsOk(spec: Comparator<AggregateRow>, format: RunFormat<AggregateRow>, files: seq<seq<u8>>, g: Runs,
                         groupCount: nat, aggs: seq<AggregateFunction>)
  {
    RunsHeld(spec, format, files, g.records, g.bounds) && RecordsFit(g.records, groupCount, aggs)
  }

  ghost predicate RecordsFit(rows: seq<AggregateRow>, groupCount: nat, aggs: seq<AggregateFunction>)
  {
    RecordsShape(rows, groupCount, aggs) && forall i :: 0 <= i < |rows| ==> SmallIndex(rows[i].item)
  }

  lemma FitAppend(a: seq<AggregateRow>, b: seq<AggregateRow>, groupCount: nat, aggs: seq<AggregateFunction>)
    requires RecordsFit(a, groupCount, aggs) && RecordsFit(b, groupCount, aggs)
    ensures RecordsFit(a + b, groupCount, aggs)
  {
  }

  /** Only a run of some rows is written first. */
  ghost predicate FirstRunHolds(bounds: seq<nat>)
  {
    |bounds| > 1 ==> bounds[1] > 0
  }

  /** The files hold exactly the inputs `done`. */
  ghost predicate Spilled(files: seq<seq<u8>>, g: Runs, done: seq<InputRow>, groupCount: nat,
                          aggs: seq<AggregateFunction>)
  {
    && RunsOk(RecordOrder, AggregateFormat(groupCount, aggs), files, g, groupCount, aggs)
    && Represents(g.records, done, aggs)
    && FirstRunHolds(g.bounds)
  }

  /** Without aggregate functions, reading the first run fails at its first record. */
  lemma FirstReadFails(files: seq<seq<u8>>, g: Runs, done: seq<InputRow>, groupCount: nat)
    requires files != [] && Spilled(files, g, done, groupCount, [])
    ensures ReadRecord(groupCount, [], files[0]) == Err(Corrupt)
  {
    var format := AggregateFormat(groupCount, []);
    var run := g.records[g.bounds[0]..RunEnd(g.bounds, 0)];
    assert FrameItems(format, run) == Ok(files[0]);
    assert run[0] == g.records[0] && RecordShape(run[0], groupCount, []);
    DistinctRunUnreadable(run[0], groupCount, FrameItems(format, run[1..]).value);
  }

  ghost predicate InputShape(row: InputRow, groupCount: nat, aggs: seq<AggregateFunction>)
  {
    |row.key| == groupCount && |row.item| == |aggs| && WellFormedRow(row.key) && WellFormedRow(row.item)
  }

  ghost predicate InputsShape(rows: seq<InputRow>, groupCount: nat, aggs: seq<AggregateFunction>)
  {
    forall i :: 0 <= i < |rows| ==> InputShape(rows[i], groupCount, aggs)
  }

  lemma {:induction false} FramedSmall(groupCount: nat, aggs: seq<AggregateFunction>, run: seq<AggregateRow>)
    requires FrameItems(AggregateFormat(groupCount, aggs), run).Ok?
    ensures forall i :: 0 <= i < |run| ==> SmallIndex(run[i].item)
  {
    if run != [] {
      FramedSmall(groupCount, aggs, run[1..]);
      assert FrameRecord(run[0]).Ok?;
      assert forall i :: 1 <= i < |run| ==> run[i] == run[1..][i - 1];
    }
  }

  ghost function AddRun(g: Runs, run: seq<AggregateRow>): Runs
  {
    Runs(g.records + run, g.bounds + [|g.records| + |run|])
  }

  lemma RunAdded(spec: Comparator<AggregateRow>, format: RunFormat<AggregateRow>, files: seq<seq<u8>>, g: Runs,
                 groupCount: nat, aggs: seq<AggregateFunction>, run: seq<AggregateRow>, file: seq<u8>)
    requires RunsOk(spec, format, files, g, groupCount, aggs) && RecordsFit(run, groupCount, aggs)
    requires forall p, q :: 0 <= p < q < |run| ==> AtMost(spec(run[p], run[q]))
    requires FrameItems(format, run) == Ok(file)
    ensures RunsOk(spec, format, files + [file], AddRun(g, run), groupCount, aggs)
  {
    RunsHeldMore(spec, format, files, g.records, g.bounds, run, file);
    FitAppend(g.records, run, groupCount, aggs);
  }

  // ----- the input run -----

  function Records(rows: seq<InputRow>): (out: seq<AggregateRow>)
    ensures |out| == |rows| && forall i :: 0 <= i < |rows| ==> out[i] == AsRecord(rows[i])
  {
    seq(|rows|, i requires 0 <= i < |rows| => AsRecord(rows[i]))
  }

  lemma {:induction false} PickInputs(rows: seq<InputRow>, k: Row)
    ensures Pick(Records(rows), InputIn(k)) == GroupOf(rows, k)
  {
    if rows != [] {
      var n := |rows| - 1;
      PickInputs(rows[..n], k);
      assert Records(rows) == Records(rows[..n]) + [AsRecord(rows[n])];
      PickLast(Records(rows[..n]), AsRecord(rows[n]), InputIn(k));
      assert Answer(InputIn(k), AsRecord(rows[n])) == Answer(ItemOf(k), rows[n]);
    }
  }

  lemma SameGroups(a: seq<InputRow>, b: seq<InputRow>, k: Row)
    requires multiset(a) == multiset(b)
    ensures HasGroup(a, k) ==> HasGroup(b, k)
  {
    if HasGroup(a, k) {
      var i :| 0 <= i < |a| && a[i].key == k;
      assert a[i] in multiset(b);
      var j :| 0 <= j < |b| && b[j] == a[i];
    }
  }

  lemma SameShapes(a: seq<InputRow>, b: seq<InputRow>, groupCount: nat, aggs: seq<AggregateFunction>)
    requires multiset(a) == multiset(b) && InputsShape(a, groupCount, aggs)
    ensures InputsShape(b, groupCount, aggs)
  {
    forall i | 0 <= i < |b| ensures InputShape(b[i], groupCount, aggs) {
      assert b[i] in multiset(a);
    }
  }

  /** The key-sorted rows, as records, are an ascending run of the batch. */
  lemma InputRunOk(batch: seq<InputRow>, sorted: seq<InputRow>, groupCount: nat, aggs: seq<AggregateFunction>)
    requires InputsShape(batch, groupCount, aggs) && IsStableSort(CompareKeys, batch, sorted)
    ensures RepresentsTo(Records(sorted), batch, aggs, 0) && RecordsShape(Records(sorted), groupCount, aggs)
    ensures var run := Records(sorted); forall p, q :: 0 <= p < q < |run| ==> AtMost(RecordOrder(run[p], run[q]))
    ensures multiset(sorted) == multiset(batch) && InputsShape(sorted, groupCount, aggs)
  {
    SortedByKey(batch, sorted);
    SameShapes(batch, sorted, groupCount, aggs);
    forall k ensures HoldsInputs(Records(sorted), batch, k) { PickInputs(sorted, k); }
    forall i | 0 <= i < |sorted|
      ensures HasGroup(batch, sorted[i].key) && RecordShape(AsRecord(sorted[i]), groupCount, aggs)
    {
      SameGroups(sorted, batch, sorted[i].key);
      assert InputShape(sorted[i], groupCount, aggs);
    }
  }

  // ----- percentile runs -----

  lemma PercentileElsewhere(run: seq<AggregateRow>, rows: seq<InputRow>, j: nat, k: Row, i: nat)
    requires IsPercentileRun(run, rows, j) && i != j
    ensures Pick(run, InputIn(k)) == [] && Pick(run, ValueIn(k, i)) == [] && Pick(run, CountIn(k, i)) == []
  {
    forall p | 0 <= p < |run|
      ensures InputIn(k)(run[p]).None? && ValueIn(k, i)(run[p]).None? && CountIn(k, i)(run[p]).None?
    {
      assert PercentileRecord(run[p], rows, j);
    }
    PickNone(run, InputIn(k));
    PickNone(run, ValueIn(k, i));
    PickNone(run, CountIn(k, i));
  }

  lemma NotYet(records: seq<AggregateRow>, rows: seq<InputRow>, aggs: seq<AggregateFunction>, j: nat, k: Row)
    requires RepresentsTo(records, rows, aggs, j)
    ensures Pick(records, ValueIn(k, j)) == [] && Pick(records, CountIn(k, j)) == []
  {
    PickNone(records, ValueIn(k, j));
    PickNone(records, CountIn(k, j));
  }

  lemma HoldsSorted(records: seq<AggregateRow>, batch: seq<InputRow>, aggs: seq<AggregateFunction>,
                    run: seq<AggregateRow>, sorted: seq<InputRow>, j: nat, k: Row)
    requires RepresentsTo(records, batch, aggs, j) && IsPercentileRun(run, sorted, j)
    requires multiset(sorted) == multiset(batch)
    ensures HoldsPercentile(records + run, batch, k, j)
  {
    NotYet(records, batch, aggs, j, k);
    PickAppend(records, run, ValueIn(k, j));
    PickAppend(records, run, CountIn(k, j));
    assert [] + Pick(run, ValueIn(k, j)) == Pick(run, ValueIn(k, j));
    assert [] + Pick(run, CountIn(k, j)) == Pick(run, CountIn(k, j));
    assert HoldsPercentile(run, sorted, k, j);
    PickPermuted(sorted, batch, ItemOf(k));
    PickPermuted(GroupOf(sorted, k), GroupOf(batch, k), DecimalAt(j));
  }

  lemma HoldsUnchanged(records: seq<AggregateRow>, batch: seq<InputRow>, run: seq<AggregateRow>, sorted: seq<InputRow>,
                       j: nat, k: Row, i: nat)
    requires IsPercentileRun(run, sorted, j) && i != j
    ensures HoldsInputs(records, batch, k) ==> HoldsInputs(records + run, batch, k)
    ensures HoldsPercentile(records, batch, k, i) ==> HoldsPercentile(records + run, batch, k, i)
  {
    PercentileElsewhere(run, sorted, j, k, i);
    PickAppend(records, run, InputIn(k));
    PickAppend(records, run, ValueIn(k, i));
    PickAppend(records, run, CountIn(k, i));
    assert Pick(records, InputIn(k)) + [] == Pick(records, InputIn(k));
    assert Pick(records, ValueIn(k, i)) + [] == Pick(records, ValueIn(k, i));
    assert Pick(records, CountIn(k, i)) + [] == Pick(records, CountIn(k, i));
  }

  lemma SameInputs(a: seq<InputRow>, b: seq<InputRow>, j: nat)
    requires multiset(a) == multiset(b) && PercentileInputs(a, j)
    ensures PercentileInputs(b, j)
  {
    forall i | 0 <= i < |b| ensures j < |b[i].item| && (b[i].item[j].Null? || b[i].item[j].Decimal?) {
      assert b[i] in multiset(a);
    }
  }

  /** The run of percentile j completes what the batch's records say about it. */
  lemma RepresentsMore(records: seq<AggregateRow>, batch: seq<InputRow>, aggs: seq<AggregateFunction>,
                       run: seq<AggregateRow>, sorted: seq<InputRow>, j: nat)
    requires RepresentsTo(records, batch, aggs, j) && j < |aggs|
    requires IsPercentileRun(run, sorted, j) && multiset(sorted) == multiset(batch)
    ensures RepresentsTo(records + run, batch, aggs, j + 1)
  {
    forall k ensures HoldsInputs(records + run, batch, k) { HoldsUnchanged(records, batch, run, sorted, j, k, j + 1); }
    forall k, i | 0 <= i <= j && aggs[i] == PercentileCont ensures HoldsPercentile(records + run, batch, k, i) {
      if i == j {
        HoldsSorted(records, batch, aggs, run, sorted, j, k);
      } else {
        HoldsUnchanged(records, batch, run, sorted, j, k, i);
      }
    }
    SameInputs(sorted, batch, j);
    forall i | 0 <= i < |run| ensures HasGroup(batch, run[i].key) && run[i].item.index == j {
      assert PercentileRecord(run[i], sorted, j);
      SameGroups(sorted, batch, run[i].key);
    }
  }

  lemma PercentileShape(run: seq<AggregateRow>, rows: seq<InputRow>, j: nat, groupCount: nat,
                        aggs: seq<AggregateFunction>)
    requires IsPercentileRun(run, rows, j) && InputsShape(rows, groupCount, aggs) && j < |aggs|
    requires aggs[j] == PercentileCont
    ensures RecordsShape(run, groupCount, aggs)
  {
    forall i | 0 <= i < |run| ensures RecordShape(run[i], groupCount, aggs) {
      assert PercentileRecord(run[i], rows, j);
      var p :| 0 <= p < |rows| && rows[p].key == run[i].key;
      assert InputShape(rows[p], groupCount, aggs);
    }
  }

  /** spill_percentile_run: sorts the buffered rows for percentile j and writes
      its run. */
  method SpillPercentileRun(rows: seq<InputRow>, files: seq<seq<u8>>, j: nat, groupCount: nat,
                            aggs: seq<AggregateFunction>,
                            ghost g: Runs, ghost records: seq<AggregateRow>, ghost batch: seq<InputRow>)
    returns (res: Result<()>, sorted: seq<InputRow>, files': seq<seq<u8>>, ghost g': Runs,
             ghost records': seq<AggregateRow>)
    requires RunsOk(RecordOrder, AggregateFormat(groupCount, aggs), files, g, groupCount, aggs) && j < |aggs|
    requires aggs[j] == PercentileCont
    requires InputsShape(rows, groupCount, aggs) && multiset(rows) == multiset(batch)
    requires RepresentsTo(records, batch, aggs, j)
    ensures |sorted| == |rows|
    ensures res.Ok? ==> multiset(sorted) == multiset(batch) && InputsShape(sorted, groupCount, aggs)
    ensures res.Ok? ==>
              RunsOk(RecordOrder, AggregateFormat(groupCount, aggs), files', g', groupCount, aggs) &&
              |files'| == |files| + 1 && RepresentsTo(records', batch, aggs, j + 1)
    ensures res.Ok? ==> exists run :: g'.records == g.records + run && records' == records + run
    ensures res.Ok? ==> g.bounds <= g'.bounds
  {
    files', g', records' := files, g, records;
    PercentileComparatorLawful(j, rows);
    res, sorted := StableSortBy(PercentileComparator(j), rows);
    if res.Err? { return; }
    SortedByPercentile(rows, sorted, j);
    SameShapes(rows, sorted, groupCount, aggs);
    assert |sorted| == |multiset(sorted)| == |multiset(rows)| == |rows|;
    var run := PercentileRun(sorted, j);
    if run.Err? { res := Err(run.error); return; }
    PercentileShape(run.value, sorted, j, groupCount, aggs);
    var file := WriteRun(AggregateFormat(groupCount, aggs), run.value);
    if file.Err? { res := Err(file.error); return; }
    FramedSmall(groupCount, aggs, run.value);
    RunAdded(RecordOrder, AggregateFormat(groupCount, aggs), files, g, groupCount, aggs, run.value, file.value);
    RepresentsMore(records, batch, aggs, run.value, sorted, j);
    files', g', records' := files + [file.value], AddRun(g, run.value), records + run.value;
  }

  lemma PlainMore(records: seq<AggregateRow>, batch: seq<InputRow>, aggs: seq<AggregateFunction>, j: nat)
    requires RepresentsTo(records, batch, aggs, j) && j < |aggs| && aggs[j] != PercentileCont
    ensures RepresentsTo(records, batch, aggs, j + 1)
  {
  }

  /** Writes the percentile runs of a batch, one aggregate after the other. */
  method SpillPercentiles(rows: seq<InputRow>, files: seq<seq<u8>>, groupCount: nat, aggs: seq<AggregateFunction>,
                          ghost g: Runs, ghost records: seq<AggregateRow>, ghost batch: seq<InputRow>)
    returns (res: Result<()>, sorted: seq<InputRow>, files': seq<seq<u8>>, ghost g': Runs,
             ghost records': seq<AggregateRow>)
    requires RunsOk(RecordOrder, AggregateFormat(groupCount, aggs), files, g, groupCount, aggs)
    requires InputsShape(rows, groupCount, aggs) && multiset(rows) == multiset(batch)
    requires RepresentsTo(records, batch, aggs, 0)
    requires exists before :: g.records == before + records
    ensures |sorted| == |rows|
    ensures res.Ok? ==> RunsOk(RecordOrder, AggregateFormat(groupCount, aggs), files', g', groupCount, aggs)
    ensures res.Ok? ==> Represents(records', batch, aggs) && |files'| >= |files| && g.bounds <= g'.bounds
    ensures res.Ok? ==> forall before :: g.records == before + records ==> g'.records == before + records'
  {
    res, sorted, files', g', records' := Ok(()), rows, files, g, records;
    for j := 0 to |aggs|
      invariant RunsOk(RecordOrder, AggregateFormat(groupCount, aggs), files', g', groupCount, aggs)
      invariant InputsShape(sorted, groupCount, aggs) && multiset(sorted) == multiset(batch) && |sorted| == |rows|
      invariant RepresentsTo(records', batch, aggs, j) && |files'| >= |files| && g.bounds <= g'.bounds
      invariant forall before :: g.records == before + records ==> g'.records == before + records'
    {
      if aggs[j] == PercentileCont {
        ghost var g0, records0 := g', records';
        res, sorted, files', g', records' := SpillPercentileRun(sorted, files', j, groupCount, aggs, g', records',
                                                                batch);
        if res.Err? { return; }
        ghost var run :| g'.records == g0.records + run && records' == records0 + run;
        forall before | g.records == before + records ensures g'.records == before + records' {
          Assoc(before, records0, run);
        }
      } else {
        PlainMore(records', batch, aggs, j);
      }
    }
    res := Ok(());
  }

  /** spill_aggregate_run: sorts the buffer by key, writes its input run and its
      percentile runs, and releases it. */
  method SpillAggregateRun(rows: ChargedRows<InputRow>, files: seq<seq<u8>>, groupCount: nat,
                           aggs: seq<AggregateFunction>,
                           ghost g: Runs, ghost done: seq<InputRow>)
    returns (res: Result<()>, files': seq<seq<u8>>, ghost g': Runs)
    requires rows.Valid() && InputsShape(rows.rows, groupCount, aggs) && Spilled(files, g, done, groupCount, aggs)
    modifies rows, rows.budget
    ensures rows.Valid() && rows.budget.charged - old(rows.budget.charged) == rows.charged - old(rows.charged)
    ensures res.Ok? ==>
              rows.rows == [] && rows.charged == 0 && Spilled(files', g', done + old(rows.rows), groupCount, aggs)
    ensures res.Ok? ==> if old(rows.rows) == [] then files' == files else |files'| > |files|
  {
    files', g' := files, g;
    if rows.rows == [] {
      assert rows.sizes == [] && done + [] == done;
      return Ok(()), files', g';
    }
    var sorted;
    res, sorted, files', g' := WriteBatch(rows.rows, files, groupCount, aggs, g, done);
    rows.rows := sorted;
    if res.Err? { return; }
    var dropped := rows.TakeRows();
  }

  method WriteBatch(rows: seq<InputRow>, files: seq<seq<u8>>, groupCount: nat, aggs: seq<AggregateFunction>,
                    ghost g: Runs, ghost done: seq<InputRow>)
    returns (res: Result<()>, sorted: seq<InputRow>, files': seq<seq<u8>>, ghost g': Runs)
    requires InputsShape(rows, groupCount, aggs) && Spilled(files, g, done, groupCount, aggs)
    requires rows != []
    ensures |sorted| == |rows|
    ensures res.Ok? ==> Spilled(files', g', done + rows, groupCount, aggs) && |files'| > |files|
  {
    files', g' := files, g;
    CompareKeysLawful(rows);
    res, sorted := StableSortBy(CompareKeys, rows);
    if res.Err? { return; }
    InputRunOk(rows, sorted, groupCount, aggs);
    assert |sorted| == |multiset(sorted)| == |multiset(rows)| == |rows|;
    var run := Records(sorted);
    var file := WriteRun(AggregateFormat(groupCount, aggs), run);
    if file.Err? { res := Err(file.error); return; }
    FramedSmall(groupCount, aggs, run);
    RunAdded(RecordOrder, AggregateFormat(groupCount, aggs), files, g, groupCount, aggs, run, file.value);
    files', g' := files + [file.value], AddRun(g, run);
    ghost var records;
    res, sorted, files', g', records := SpillPercentiles(sorted, files', groupCount, aggs, g', run, rows);
    if res.Err? { return; }
    RepresentsAppend(g.records, done, records, rows, aggs);
  }
}
