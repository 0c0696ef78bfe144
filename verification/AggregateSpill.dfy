/** Spilling buffered aggregate inputs: one run of input records, then one run
    of counts and sorted values for every percentile. */
module AggregateSpill {
  import opened Values
  import opened StableOrder
  import opened Selection
  import opened Spilling
  import opened Grouping
  import opened Percentile
  import opened AggregateRecords
  import opened MergedGroups

  // ----- the two sort orders -----

  function CompareKeys(a: InputRow, b: InputRow): Result<Ordering>
  {
    CompareKeyTuples(a.key, b.key)
  }

  /** compare_percentile_values */
  function ComparePercentiles(a: Option<Decimal>, b: Option<Decimal>): Ordering
  {
    if a.None? && b.None? then Equal
    else if a.None? then Less
    else if b.None? then Greater
    else CompareInt(a.value.digits, b.value.digits)
  }

  /** compare_percentile_rows */
  function ComparePercentileRows(j: nat, a: InputRow, b: InputRow): Result<Ordering>
  {
    var group :- CompareKeyTuples(a.key, b.key);
    if group != Equal then Ok(group) else Ok(ComparePercentiles(DecimalAt(j)(a.item), DecimalAt(j)(b.item)))
  }

  function PercentileComparator(j: nat): Comparator<InputRow>
  {
    (a: InputRow, b: InputRow) => ComparePercentileRows(j, a, b)
  }

  lemma CompareKeysLawful(rows: seq<InputRow>)
    ensures Lawful(CompareKeys, rows)
  {
    forall i, j, k | 0 <= i < |rows| && 0 <= j < |rows| && 0 <= k < |rows|
      ensures LawfulAt(CompareKeys, rows[i], rows[j], rows[k])
    {
      CompareKeyTuplesLaws(rows[i].key, rows[j].key, rows[k].key);
    }
  }

  lemma PercentileLawfulAt(j: nat, a: InputRow, b: InputRow, c: InputRow)
    ensures LawfulAt(PercentileComparator(j), a, b, c)
  {
    CompareKeyTuplesLaws(a.key, b.key, c.key);
    CompareKeyTuplesLaws(b.key, c.key, a.key);
    CompareKeyTuplesLaws(a.key, c.key, b.key);
  }

  lemma PercentileComparatorLawful(j: nat, rows: seq<InputRow>)
    ensures Lawful(PercentileComparator(j), rows)
  {
    forall a, b, c | 0 <= a < |rows| && 0 <= b < |rows| && 0 <= c < |rows|
      ensures LawfulAt(PercentileComparator(j), rows[a], rows[b], rows[c])
    {
      PercentileLawfulAt(j, rows[a], rows[b], rows[c]);
    }
  }

  /** Sorted by key, and inside a group by the percentile's value. */
  ghost predicate PercentileSorted(rows: seq<InputRow>, j: nat)
  {
    && KeysAscend(rows)
    && forall p, q :: 0 <= p < q < |rows| && rows[p].key == rows[q].key ==>
         ComparePercentiles(DecimalAt(j)(rows[p].item), DecimalAt(j)(rows[q].item)) != Greater
  }

  lemma SortedByKey(rows: seq<InputRow>, out: seq<InputRow>)
    requires IsStableSort(CompareKeys, rows, out)
    ensures KeysAscend(out) && multiset(out) == multiset(rows) && forall k :: GroupOf(out, k) == GroupOf(rows, k)
  {
    var order: seq<nat> :| IsStableOrder(CompareKeys, rows, order) && out == Permute(rows, order);
    PermuteMultiset(rows, order);
    forall p, q | 0 <= p < q < |out| ensures AtMost(KeyOrder(out[p].key, out[q].key)) {
      assert Before(CompareKeys, rows, order[p], order[q]);
      KeyOrderLaws(out[p].key, out[q].key, []);
    }
    forall k ensures GroupOf(out, k) == GroupOf(rows, k) {
      forall i, j | 0 <= i < |rows| && 0 <= j < |rows| && ItemOf(k)(rows[i]).Some? && ItemOf(k)(rows[j]).Some? &&
      Before(CompareKeys, rows, i, j)
        ensures i < j
      {
        CompareKeyTuplesLaws(k, k, k);
      }
      PickStable(CompareKeys, rows, order, ItemOf(k));
    }
  }

  lemma SortedByPercentile(rows: seq<InputRow>, out: seq<InputRow>, j: nat)
    requires IsStableSort(PercentileComparator(j), rows, out)
    ensures PercentileSorted(out, j) && multiset(out) == multiset(rows)
  {
    var order: seq<nat> :| IsStableOrder(PercentileComparator(j), rows, order) && out == Permute(rows, order);
    PermuteMultiset(rows, order);
    forall p, q | 0 <= p < q < |out|
      ensures AtMost(KeyOrder(out[p].key, out[q].key))
      ensures out[p].key == out[q].key ==>
                ComparePercentiles(DecimalAt(j)(out[p].item), DecimalAt(j)(out[q].item)) != Greater
    {
      assert Before(PercentileComparator(j), rows, order[p], order[q]);
      KeyOrderLaws(out[p].key, out[q].key, []);
    }
  }

  // ----- one group of a percentile run -----

  function ValueRecords(key: Row, j: nat, ds: seq<Decimal>): (out: seq<AggregateRow>)
    ensures |out| == |ds|
    ensures forall i :: 0 <= i < |ds| ==> out[i] == Keyed(key, PercentileValue(j, ds[i]))
  {
    seq(|ds|, i requires 0 <= i < |ds| => Keyed(key, PercentileValue(j, ds[i])))
  }

  /** What write_percentile_group writes: a count, then that many values. */
  function GroupRecords(key: Row, j: nat, ds: seq<Decimal>): (out: seq<AggregateRow>)
    requires |ds| <= I64_MAX
  {
    [Keyed(key, PercentileCount(j, |ds|))] + ValueRecords(key, j, ds)
  }

  lemma ValueAnswer(key: Row, j: nat, d: Decimal, k: Row)
    ensures Answer(ValueIn(k, j), Keyed(key, PercentileValue(j, d))) == if k == key then [d] else []
  {
  }

  lemma {:induction false} PickValues(key: Row, j: nat, ds: seq<Decimal>, k: Row)
    ensures Pick(ValueRecords(key, j, ds), ValueIn(k, j)) == if k == key then ds else []
  {
    if ds != [] {
      var n := |ds| - 1;
      var front, last: AggregateRow := ValueRecords(key, j, ds[..n]), Keyed(key, PercentileValue(j, ds[n]));
      PickValues(key, j, ds[..n], k);
      assert ValueRecords(key, j, ds) == front + [last];
      PickLast(front, last, ValueIn(k, j));
      ValueAnswer(key, j, ds[n], k);
      assert ds == ds[..n] + [ds[n]];
    }
  }

  lemma PickNoCounts(key: Row, j: nat, ds: seq<Decimal>, k: Row)
    ensures Pick(ValueRecords(key, j, ds), CountIn(k, j)) == []
  {
    PickNone(ValueRecords(key, j, ds), CountIn(k, j));
  }

  lemma PickGroupRecords(key: Row, j: nat, ds: seq<Decimal>, k: Row)
    requires |ds| <= I64_MAX
    ensures Pick(GroupRecords(key, j, ds), ValueIn(k, j)) == if k == key then ds else []
    ensures SumOf(Pick(GroupRecords(key, j, ds), CountIn(k, j))) == if k == key then |ds| else 0
  {
    PickGroupValues(key, j, ds, k);
    PickGroupCounts(key, j, ds, k);
  }

  lemma PickGroupValues(key: Row, j: nat, ds: seq<Decimal>, k: Row)
    requires |ds| <= I64_MAX
    ensures Pick(GroupRecords(key, j, ds), ValueIn(k, j)) == if k == key then ds else []
  {
    var count: AggregateRow := Keyed(key, PercentileCount(j, |ds|));
    PickValues(key, j, ds, k);
    PickAppend([count], ValueRecords(key, j, ds), ValueIn(k, j));
    PickOne(count, ValueIn(k, j));
    assert Answer(ValueIn(k, j), count) == [];
  }

  lemma PickGroupCounts(key: Row, j: nat, ds: seq<Decimal>, k: Row)
    requires |ds| <= I64_MAX
    ensures SumOf(Pick(GroupRecords(key, j, ds), CountIn(k, j))) == if k == key then |ds| else 0
  {
    var count: AggregateRow := Keyed(key, PercentileCount(j, |ds|));
    PickNoCounts(key, j, ds, k);
    PickAppend([count], ValueRecords(key, j, ds), CountIn(k, j));
    PickOne(count, CountIn(k, j));
    assert Answer(CountIn(k, j), count) == if k == key then [|ds|] else [];
    SingleSum(|ds|);
  }

  lemma PickOne<T, U>(t: T, f: T -> Option<U>)
    ensures Pick([t], f) == Answer(f, t)
  {
    PickLast([], t, f);
    assert [] + [t] == [t];
  }

  /** The non-NULL values of percentile j in a group. */
  ghost function Decimals(slice: seq<InputRow>, j: nat): seq<Decimal>
  {
    Pick(Items(slice), DecimalAt(j))
  }

  lemma GroupRecordsHold(slice: seq<InputRow>, j: nat, k: Row)
    requires IsGroup(slice) && |Decimals(slice, j)| <= I64_MAX
    ensures HoldsPercentile(GroupRecords(slice[0].key, j, Decimals(slice, j)), slice, k, j)
  {
    PickGroupRecords(slice[0].key, j, Decimals(slice, j), k);
    if k == slice[0].key {
      PickGroup(slice, k);
    } else {
      NoSuchGroup(slice, k);
    }
  }

  /** validate_percentile_rows: every value NULL or a decimal, of one scale. */
  method ValidatePercentile(slice: seq<InputRow>, j: nat) returns (res: Result<()>)
    ensures res.Ok? <==>
            (forall i :: 0 <= i < |slice| ==> j < |slice[i].item|) && PercentileColumn(GroupColumn(Items(slice), j))
  {
    var scale: Option<u8> := None;
    ghost var vs := GroupColumn(Items(slice), j);
    for n := 0 to |slice|
      invariant forall i :: 0 <= i < n ==> j < |slice[i].item|
      invariant PercentileColumn(vs[..n]) && scale == ScaleOf(vs[..n])
    {
      if j >= |slice[n].item| { return Err(Corrupt); }
      var v := slice[n].item[j];
      assert vs[..n + 1] == vs[..n] + [v];
      ColumnStep(vs[..n], v);
      if !(v.Null? || (v.Decimal? && (scale.None? || scale.value == v.d.scale))) {
        PrefixInvalid(vs, n + 1);
        return Err(if v.Decimal? then Corrupt else InvalidArgument);
      }
      if v.Decimal? { scale := Some(v.d.scale); }
    }
    assert vs[..|slice|] == vs;
    res := Ok(());
  }

  /** The scale of a column's decimals. */
  ghost function ScaleOf(vs: seq<Value>): Option<u8>
  {
    var ds := Pick(vs, DecimalIn);
    if ds == [] then None else Some(ds[0].scale)
  }

  lemma ColumnStep(vs: seq<Value>, v: Value)
    requires PercentileColumn(vs)
    ensures PercentileColumn(vs + [v]) <==>
            v.Null? || (v.Decimal? && (ScaleOf(vs).None? || ScaleOf(vs).value == v.d.scale))
    ensures PercentileColumn(vs + [v]) ==> ScaleOf(vs + [v]) == if v.Decimal? then Some(v.d.scale) else ScaleOf(vs)
  {
    PickLast(vs, v, DecimalIn);
    var ds, all := Pick(vs, DecimalIn), Pick(vs + [v], DecimalIn);
    assert (vs + [v])[|vs|] == v;
    if v.Decimal? {
      assert all == ds + [v.d];
      if ds != [] { assert all[0] == ds[0] && all[|ds|] == v.d; }
    } else {
      assert all == ds;
    }
  }

  lemma PrefixInvalid(vs: seq<Value>, n: nat)
    requires n <= |vs| && !PercentileColumn(vs[..n])
    ensures !PercentileColumn(vs)
  {
    assert vs == vs[..n] + vs[n..];
    PickAppend(vs[..n], vs[n..], DecimalIn);
    var ds, es := Pick(vs[..n], DecimalIn), Pick(vs, DecimalIn);
    if PercentileColumn(vs) {
      forall a, b | 0 <= a < |ds| && 0 <= b < |ds| ensures ds[a].scale == ds[b].scale {
        assert ds[a] == es[a] && ds[b] == es[b];
      }
      assert false;
    }
  }

  method CountDecimals(slice: seq<InputRow>, j: nat) returns (count: nat)
    ensures count == |Decimals(slice, j)|
  {
    count := 0;
    for n := 0 to |slice|
      invariant count == |Decimals(slice[..n], j)|
    {
      DecimalsGrow(slice, n, j);
      if DecimalAt(j)(slice[n].item).Some? { count := count + 1; }
    }
    assert slice[..|slice|] == slice;
  }

  /** write_percentile_group */
  method WritePercentileGroup(slice: seq<InputRow>, j: nat) returns (res: Result<seq<AggregateRow>>)
    requires IsGroup(slice)
    ensures res.Ok? <==> |Decimals(slice, j)| <= I64_MAX
    ensures res.Ok? ==> res.value == GroupRecords(slice[0].key, j, Decimals(slice, j))
  {
    var count := CountDecimals(slice, j);
    if count > I64_MAX { return Err(InvalidArgument); }
    var values: seq<AggregateRow> := [];
    ghost var key := slice[0].key;
    for n := 0 to |slice|
      invariant values == ValueRecords(key, j, Decimals(slice[..n], j))
    {
      DecimalsGrow(slice, n, j);
      var d := DecimalAt(j)(slice[n].item);
      if d.Some? { values := values + [Keyed(slice[n].key, PercentileValue(j, d.value))]; }
    }
    assert slice[..|slice|] == slice;
    res := Ok([Keyed(slice[0].key, PercentileCount(j, count))] + values);
  }

  lemma DecimalsGrow(slice: seq<InputRow>, n: nat, j: nat)
    requires n < |slice|
    ensures Decimals(slice[..n + 1], j) == Decimals(slice[..n], j) + Answer(DecimalAt(j), slice[n].item)
  {
    assert Items(slice[..n + 1]) == Items(slice[..n]) + [slice[n].item];
    PickLast(Items(slice[..n]), slice[n].item, DecimalAt(j));
  }

  // ----- a whole percentile run -----

  /** `run` is the percentile run of the rows: per group a count and the values,
      in merge order. */
  ghost predicate IsPercentileRun(run: seq<AggregateRow>, rows: seq<InputRow>, j: nat)
  {
    && PercentileInputs(rows, j)
    && (forall k :: HoldsPercentile(run, rows, k, j))
    && (forall i :: 0 <= i < |run| ==> PercentileRecord(run[i], rows, j))
    && RunOrdered(run)
  }

  ghost predicate RunOrdered(run: seq<AggregateRow>)
  {
    forall p, q :: 0 <= p < q < |run| ==> AtMost(RecordOrder(run[p], run[q]))
  }

  lemma OrderedAppend(a: seq<AggregateRow>, b: seq<AggregateRow>)
    requires RunOrdered(a) && RunOrdered(b)
    requires forall p, q :: 0 <= p < |a| && 0 <= q < |b| ==> AtMost(RecordOrder(a[p], b[q]))
    ensures RunOrdered(a + b)
  {
  }

  ghost predicate PercentileRecord(r: AggregateRow, rows: seq<InputRow>, j: nat)
  {
    && HasGroup(rows, r.key) && !r.item.Input? && r.item.index == j && (r.item.PercentileCount? ==> r.item.count >= 0)
  }

  lemma GroupRecordsOrder(key: Row, j: nat, ds: seq<Decimal>, p: nat, q: nat)
    requires |ds| <= I64_MAX && DigitsAscend(ds) && p < q < |GroupRecords(key, j, ds)|
    ensures AtMost(RecordOrder(GroupRecords(key, j, ds)[p], GroupRecords(key, j, ds)[q]))
  {
    var out := GroupRecords(key, j, ds);
    assert out[q] == Keyed(key, PercentileValue(j, ds[q - 1]));
    if p > 0 {
      assert out[p] == Keyed(key, PercentileValue(j, ds[p - 1]));
    }
  }

  lemma {:induction false} SortedDecimals(items: seq<Row>, j: nat)
    requires forall p, q :: 0 <= p < q < |items| ==>
               ComparePercentiles(DecimalAt(j)(items[p]), DecimalAt(j)(items[q])) != Greater
    ensures DigitsAscend(Pick(items, DecimalAt(j)))
  {
    if items != [] {
      var n := |items| - 1;
      SortedDecimals(items[..n], j);
      var ds := Pick(items[..n], DecimalAt(j));
      if DecimalAt(j)(items[n]).Some? {
        forall a | 0 <= a < |ds| ensures ds[a].digits <= DecimalAt(j)(items[n]).value.digits {
          PickedFrom(items[..n], DecimalAt(j), ds[a]);
          var i :| 0 <= i < n && DecimalAt(j)(items[..n][i]) == Some(ds[a]);
          assert items[..n][i] == items[i];
        }
      }
    }
  }

  lemma SliceDecimals(rows: seq<InputRow>, start: nat, end: nat, j: nat)
    requires PercentileSorted(rows, j) && start < end <= |rows| && IsGroup(rows[start..end])
    ensures DigitsAscend(Decimals(rows[start..end], j))
  {
    var slice := rows[start..end];
    var items := Items(slice);
    forall p, q | 0 <= p < q < |items|
      ensures ComparePercentiles(DecimalAt(j)(items[p]), DecimalAt(j)(items[q])) != Greater
    {
      assert slice[p] == rows[start + p] && slice[q] == rows[start + q];
    }
    SortedDecimals(items, j);
  }

  /** Keys of earlier groups are smaller than the key of the next one. */
  lemma EarlierKeys(rows: seq<InputRow>, slices: seq<seq<InputRow>>, start: nat, end: nat, k: Row)
    requires KeysAscend(rows) && CutTo(rows, slices, start) && start < end <= |rows| && IsGroup(rows[start..end])
    requires HasGroup(rows[..start], k)
    ensures KeyOrder(k, rows[start].key) == Ok(Less)
  {
    var all := slices + [rows[start..end]];
    GroupedMore(slices, rows[start..end]);
    FlattenAppend(slices, rows[start..end]);
    assert rows[..end] == rows[..start] + rows[start..end];
    assert rows == rows[..end] + rows[end..];
    KeysAscendFront(rows[..end], rows[end..]);
    var i :| 0 <= i < start && rows[..start][i].key == k;
    var g := InSomeGroup(slices, i);
    LastIsGreatest(all, g);
  }

  /** Appending one group's records. */
  lemma RunGrows(run: seq<AggregateRow>, rows: seq<InputRow>, slices: seq<seq<InputRow>>, start: nat, end: nat, j: nat)
    requires PercentileSorted(rows, j) && CutTo(rows, slices, start) && start < end <= |rows|
    requires IsGroup(rows[start..end])
    requires IsPercentileRun(run, rows[..start], j) && |Decimals(rows[start..end], j)| <= I64_MAX
    requires PercentileInputs(rows[start..end], j)
    ensures IsPercentileRun(run + GroupRecords(rows[start].key, j, Decimals(rows[start..end], j)), rows[..end], j)
  {
    var slice, ds := rows[start..end], Decimals(rows[start..end], j);
    var more := GroupRecords(slice[0].key, j, ds);
    assert rows[..end] == rows[..start] + slice;
    forall k ensures HoldsPercentile(run + more, rows[..end], k, j) {
      GroupRecordsHold(slice, j, k);
      HoldsAppend(run, rows[..start], more, slice, k, j);
    }
    RecordsAppend(run, rows[..start], more, slice, j);
    SliceDecimals(rows, start, end, j);
    forall p, q | 0 <= p < q < |more| ensures AtMost(RecordOrder(more[p], more[q])) {
      GroupRecordsOrder(slice[0].key, j, ds, p, q);
    }
    forall p, q | 0 <= p < |run| && 0 <= q < |more| ensures AtMost(RecordOrder(run[p], more[q])) {
      EarlierRecord(run, rows, slices, start, end, j, p, more[q]);
    }
    OrderedAppend(run, more);
  }

  /** The records of a run and of the next group belong to groups of the rows. */
  lemma RecordsAppend(run: seq<AggregateRow>, rows: seq<InputRow>, more: seq<AggregateRow>, slice: seq<InputRow>,
                      j: nat)
    requires forall i :: 0 <= i < |run| ==> PercentileRecord(run[i], rows, j)
    requires slice != [] && forall i :: 0 <= i < |more| ==>
               more[i].key == slice[0].key && !more[i].item.Input? && more[i].item.index == j &&
               (more[i].item.PercentileCount? ==> more[i].item.count >= 0)
    ensures forall i :: 0 <= i < |run + more| ==> PercentileRecord((run + more)[i], rows + slice, j)
  {
    var all := run + more;
    forall i | 0 <= i < |all| ensures PercentileRecord(all[i], rows + slice, j) {
      HasGroupAppend(rows, slice, all[i].key);
      if i >= |run| { assert all[i] == more[i - |run|] && HasGroup(slice, slice[0].key); }
    }
  }

  /** Every record of the run so far comes before the records of the next group. */
  lemma EarlierRecord(run: seq<AggregateRow>, rows: seq<InputRow>, slices: seq<seq<InputRow>>, start: nat, end: nat,
                      j: nat, p: nat, next: AggregateRow)
    requires PercentileSorted(rows, j) && CutTo(rows, slices, start) && start < end <= |rows|
    requires IsGroup(rows[start..end]) && IsPercentileRun(run, rows[..start], j)
    requires p < |run| && next.key == rows[start].key
    ensures AtMost(RecordOrder(run[p], next))
  {
    assert PercentileRecord(run[p], rows[..start], j);
    EarlierKeys(rows, slices, start, end, run[p].key);
  }

  /** The generated run of spill_percentile_run, over rows already sorted. */
  method PercentileRun(rows: seq<InputRow>, j: nat) returns (res: Result<seq<AggregateRow>>)
    requires PercentileSorted(rows, j)
    ensures res.Ok? ==> IsPercentileRun(res.value, rows, j)
  {
    var run: seq<AggregateRow> := [];
    ghost var slices: seq<seq<InputRow>> := [];
    var start := 0;
    while start < |rows|
      invariant CutTo(rows, slices, start) && IsPercentileRun(run, rows[..start], j)
      decreases |rows| - start
    {
      var end := GroupEnd(rows, start);
      if end.Err? { return Err(end.error); }
      var slice := rows[start..end.value];
      var valid := ValidatePercentile(slice, j);
      if valid.Err? { return Err(valid.error); }
      ValidInputs(slice, j);
      var records := WritePercentileGroup(slice, j);
      if records.Err? { return Err(records.error); }
      RunGrows(run, rows, slices, start, end.value, j);
      CutMore(rows, slices, start, end.value);
      slices := slices + [slice];
      run := run + records.value;
      start := end.value;
    }
    assert rows[..|rows|] == rows;
    res := Ok(run);
  }

  lemma ValidInputs(slice: seq<InputRow>, j: nat)
    requires (forall i :: 0 <= i < |slice| ==> j < |slice[i].item|) && PercentileColumn(GroupColumn(Items(slice), j))
    ensures PercentileInputs(slice, j)
  {
    forall i | 0 <= i < |slice| ensures slice[i].item[j].Null? || slice[i].item[j].Decimal? {
      assert GroupColumn(Items(slice), j)[i] == slice[i].item[j];
    }
  }
}
