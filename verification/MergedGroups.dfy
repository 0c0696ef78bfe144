/** Why the merged records of a group, whatever runs they came from, bring every
    aggregate to the state that folding the group's inputs would. */
module MergedGroups {
  import opened Values
  import opened StableOrder
  import opened Selection
  import opened Grouping
  import opened AggregateStates
  import opened Percentile
  import opened AggregateRecords

  // ----- the parts of a record sequence that matter to one state -----

  function InputOf(r: AggregateRecord): Option<Row> { if r.Input? then Some(r.values) else None }

  function CountOf(j: nat): AggregateRecord -> Option<nat>
  {
    (r: AggregateRecord) => if r.PercentileCount? && r.index == j && r.count >= 0 then Some(r.count as int) else None
  }

  function ValueOf(j: nat): AggregateRecord -> Option<Decimal>
  {
    (r: AggregateRecord) => if r.PercentileValue? && r.index == j then Some(r.value) else None
  }

  function DecimalAt(j: nat): Row -> Option<Decimal>
  {
    (row: Row) => if j < |row| then DecimalIn(row[j]) else None
  }

  /** Column j of a group's rows. */
  ghost function GroupColumn(rows: seq<Row>, j: nat): (vs: seq<Value>)
    ensures |vs| == |rows|
  {
    seq(|rows|, i requires 0 <= i < |rows| => if j < |rows[i]| then rows[i][j] else Null)
  }

  lemma GroupColumnLast(rows: seq<Row>, row: Row, j: nat)
    ensures GroupColumn(rows + [row], j) == GroupColumn(rows, j) + [if j < |row| then row[j] else Null]
  {
  }

  lemma {:induction false} ColumnDecimals(rows: seq<Row>, j: nat)
    ensures Pick(GroupColumn(rows, j), DecimalIn) == Pick(rows, DecimalAt(j))
  {
    if rows != [] {
      var n := |rows| - 1;
      ColumnDecimals(rows[..n], j);
      assert rows == rows[..n] + [rows[n]];
      GroupColumnLast(rows[..n], rows[n], j);
      PickLast(GroupColumn(rows[..n], j), if j < |rows[n]| then rows[n][j] else Null, DecimalIn);
      PickLast(rows[..n], rows[n], DecimalAt(j));
    }
  }

  // ----- plain aggregates -----

  /** A plain aggregate sees exactly the input records, in order. */
  lemma {:induction false} PlainFold(ops: FloatOps, f: AggregateFunction, j: nat, records: seq<AggregateRecord>)
    requires f != PercentileCont && FoldRecords(ops, f, j, records).Ok?
    requires forall i :: 0 <= i < |records| && records[i].Input? ==> j < |records[i].values|
    ensures !FoldRecords(ops, f, j, records).value.PercentileState?
    ensures FoldRecords(ops, f, j, records) == FoldColumn(ops, f, GroupColumn(Pick(records, InputOf), j))
  {
    if records != [] {
      var n := |records| - 1;
      PlainFold(ops, f, j, records[..n]);
      assert records == records[..n] + [records[n]];
      PlainStep(ops, f, j, records[..n], records[n]);
    }
  }

  lemma PlainStep(ops: FloatOps, f: AggregateFunction, j: nat, front: seq<AggregateRecord>, r: AggregateRecord)
    requires FoldRecords(ops, f, j, front).Ok? && !FoldRecords(ops, f, j, front).value.PercentileState?
    requires FoldRecords(ops, f, j, front) == FoldColumn(ops, f, GroupColumn(Pick(front, InputOf), j))
    requires FoldRecords(ops, f, j, front + [r]).Ok? && (r.Input? ==> j < |r.values|)
    ensures !FoldRecords(ops, f, j, front + [r]).value.PercentileState?
    ensures FoldRecords(ops, f, j, front + [r]) == FoldColumn(ops, f, GroupColumn(Pick(front + [r], InputOf), j))
  {
    PickLast(front, r, InputOf);
    FoldRecordsLast(ops, f, j, front, r);
    if r.Input? {
      PlainInput(ops, f, Pick(front, InputOf), j, r.values);
    } else {
      assert Pick(front, InputOf) + [] == Pick(front, InputOf);
    }
  }

  /** One more input row folds its value into the column's state. */
  lemma PlainInput(ops: FloatOps, f: AggregateFunction, rows: seq<Row>, j: nat, row: Row)
    requires j < |row|
    ensures FoldColumn(ops, f, GroupColumn(rows + [row], j)) ==
            if FoldColumn(ops, f, GroupColumn(rows, j)).Err? then FoldColumn(ops, f, GroupColumn(rows, j))
            else UpdateState(ops, FoldColumn(ops, f, GroupColumn(rows, j)).value, row[j])
  {
    GroupColumnLast(rows, row, j);
    FoldLast(ops, f, GroupColumn(rows, j), row[j]);
  }

  // ----- percentiles -----

  function SumOf(counts: seq<nat>): nat
  {
    if counts == [] then 0 else SumOf(counts[..|counts| - 1]) + counts[|counts| - 1]
  }

  lemma SumLast(counts: seq<nat>, more: seq<nat>)
    requires |more| <= 1
    ensures SumOf(counts + more) == SumOf(counts) + SumOf(more)
  {
    if more != [] {
      assert (counts + more)[..|counts|] == counts && more[..0] == [];
    } else {
      assert counts + more == counts;
    }
  }

  lemma {:induction false} SumAppend(a: seq<nat>, b: seq<nat>)
    ensures SumOf(a + b) == SumOf(a) + SumOf(b)
  {
    if b == [] {
      assert a + b == a;
    } else {
      SumAppend(a, b[..|b| - 1]);
      assert (a + b)[..|a + b| - 1] == a + b[..|b| - 1];
    }
  }

  /** No value record of percentile j precedes one of its count records. */
  ghost predicate CountsFirst(records: seq<AggregateRecord>, j: nat)
  {
    forall p, q :: 0 <= p < q < |records| && ValueOf(j)(records[p]).Some? ==>
      !(records[q].PercentileCount? && records[q].index == j)
  }

  ghost predicate CountsNonNegative(records: seq<AggregateRecord>)
  {
    forall p :: 0 <= p < |records| && records[p].PercentileCount? ==> records[p].count >= 0
  }

  /** A percentile state is the announced counts, followed by its values. */
  ghost predicate CountsThenValues(ops: FloatOps, j: nat, records: seq<AggregateRecord>)
  {
    && SumOf(Pick(records, CountOf(j))) <= U64_MAX
    && FoldRecords(ops, PercentileCont, j, records) ==
       FoldValues(Counted(SumOf(Pick(records, CountOf(j)))), Pick(records, ValueOf(j)))
    && (FoldRecords(ops, PercentileCont, j, records).Ok? ==>
          FoldRecords(ops, PercentileCont, j, records).value.PercentileState?)
  }

  lemma {:induction false} PercentileFold(ops: FloatOps, j: nat, records: seq<AggregateRecord>)
    requires CountsFirst(records, j) && CountsNonNegative(records)
    requires SumOf(Pick(records, CountOf(j))) <= U64_MAX || FoldRecords(ops, PercentileCont, j, records).Ok?
    ensures CountsThenValues(ops, j, records)
  {
    if records != [] {
      var n := |records| - 1;
      var front, r := records[..n], records[n];
      assert records == front + [r];
      FrontFits(ops, j, front, r);
      PercentileFold(ops, j, front);
      if r.PercentileValue? && r.index == j {
        ValueStep(ops, j, front, r);
      } else if r.PercentileCount? && r.index == j {
        CountStep(ops, j, front, r);
      } else {
        OtherStep(ops, j, front, r);
      }
    }
  }

  /** What a fold needs of its records holds of the records before the last one. */
  lemma FrontFits(ops: FloatOps, j: nat, front: seq<AggregateRecord>, r: AggregateRecord)
    requires CountsFirst(front + [r], j) && CountsNonNegative(front + [r])
    requires SumOf(Pick(front + [r], CountOf(j))) <= U64_MAX || FoldRecords(ops, PercentileCont, j, front + [r]).Ok?
    ensures CountsFirst(front, j) && CountsNonNegative(front)
    ensures SumOf(Pick(front, CountOf(j))) <= U64_MAX || FoldRecords(ops, PercentileCont, j, front).Ok?
    ensures r.PercentileCount? ==> r.count >= 0
  {
    var all := front + [r];
    assert all[..|front|] == front && all[|front|] == r;
    assert forall i :: 0 <= i < |front| ==> all[i] == front[i];
    PickLast(front, r, CountOf(j));
    SumLast(Pick(front, CountOf(j)), Answer(CountOf(j), r));
    FoldRecordsLast(ops, PercentileCont, j, front, r);
  }

  lemma ValueStep(ops: FloatOps, j: nat, front: seq<AggregateRecord>, r: AggregateRecord)
    requires CountsThenValues(ops, j, front) && r.PercentileValue? && r.index == j
    ensures CountsThenValues(ops, j, front + [r])
  {
    PickLast(front, r, CountOf(j));
    PickLast(front, r, ValueOf(j));
    FoldRecordsLast(ops, PercentileCont, j, front, r);
    assert Pick(front + [r], CountOf(j)) == Pick(front, CountOf(j));
    FoldValuesLast(Counted(SumOf(Pick(front, CountOf(j)))), Pick(front, ValueOf(j)), r.value);
  }

  lemma CountStep(ops: FloatOps, j: nat, front: seq<AggregateRecord>, r: AggregateRecord)
    requires CountsThenValues(ops, j, front) && r.PercentileCount? && r.index == j && r.count >= 0
    requires CountsFirst(front + [r], j)
    requires SumOf(Pick(front + [r], CountOf(j))) <= U64_MAX || FoldRecords(ops, PercentileCont, j, front + [r]).Ok?
    ensures CountsThenValues(ops, j, front + [r])
  {
    var n, all := SumOf(Pick(front, CountOf(j))), front + [r];
    assert all[..|front|] == front;
    NoValuesYet(all, j);
    assert SumOf(Pick(all, CountOf(j))) == n + r.count by {
      PickLast(front, r, CountOf(j));
      SumLast(Pick(front, CountOf(j)), Answer(CountOf(j), r));
      SingleSum(r.count);
    }
    assert FoldRecords(ops, PercentileCont, j, front) == Ok(Counted(n));
    FoldRecordsLast(ops, PercentileCont, j, front, r);
    CountedMore(n, r.count);
  }

  lemma CountedMore(n: nat, count: i64)
    requires n <= U64_MAX && count >= 0
    ensures UpdatePercentileCount(Counted(n), count).Ok? <==> n + count <= U64_MAX
    ensures n + count <= U64_MAX ==> UpdatePercentileCount(Counted(n), count) == FoldValues(Counted(n + count), [])
  {
  }

  lemma OtherStep(ops: FloatOps, j: nat, front: seq<AggregateRecord>, r: AggregateRecord)
    requires CountsThenValues(ops, j, front) && (r.Input? || r.index != j)
    ensures CountsThenValues(ops, j, front + [r])
  {
    PickLast(front, r, CountOf(j));
    PickLast(front, r, ValueOf(j));
    FoldRecordsLast(ops, PercentileCont, j, front, r);
    assert Pick(front + [r], CountOf(j)) == Pick(front, CountOf(j));
    assert Pick(front + [r], ValueOf(j)) == Pick(front, ValueOf(j));
  }

  lemma SingleSum(n: nat)
    ensures SumOf([n]) == n
  {
    assert [n][..0] == [];
  }

  lemma NoValuesYet(records: seq<AggregateRecord>, j: nat)
    requires CountsFirst(records, j) && records != []
    requires records[|records| - 1].PercentileCount? && records[|records| - 1].index == j
    ensures Pick(records[..|records| - 1], ValueOf(j)) == [] == Pick(records, ValueOf(j))
  {
    var front := records[..|records| - 1];
    forall p | 0 <= p < |front| ensures ValueOf(j)(front[p]).None? {
      assert records[p] == front[p];
    }
    PickNone(front, ValueOf(j));
  }

  // ----- what runs hold -----

  function InputIn(k: Row): AggregateRow -> Option<Row> { Then(ItemOf(k), InputOf) }
  function CountIn(k: Row, j: nat): AggregateRow -> Option<nat> { Then(ItemOf(k), CountOf(j)) }
  function ValueIn(k: Row, j: nat): AggregateRow -> Option<Decimal> { Then(ItemOf(k), ValueOf(j)) }

  /** The records hold the group's inputs in order. */
  ghost predicate HoldsInputs(records: seq<AggregateRow>, rows: seq<InputRow>, k: Row)
  {
    Pick(records, InputIn(k)) == GroupOf(rows, k)
  }

  /** The records hold the group's values of percentile j, counted. */
  ghost predicate HoldsPercentile(records: seq<AggregateRow>, rows: seq<InputRow>, k: Row, j: nat)
  {
    && multiset(Pick(records, ValueIn(k, j))) == multiset(Pick(GroupOf(rows, k), DecimalAt(j)))
    && SumOf(Pick(records, CountIn(k, j))) == |Pick(records, ValueIn(k, j))|
  }

  ghost predicate PercentileInputs(rows: seq<InputRow>, j: nat)
  {
    forall i :: 0 <= i < |rows| ==> j < |rows[i].item| && (rows[i].item[j].Null? || rows[i].item[j].Decimal?)
  }

  /** `records` are the spilled form of `rows`, as far as the first n aggregates
      are concerned; later aggregates have no records yet. */
  ghost predicate RepresentsTo(records: seq<AggregateRow>, rows: seq<InputRow>, aggs: seq<AggregateFunction>, n: nat)
  {
    && n <= |aggs|
    && (forall k :: HoldsInputs(records, rows, k))
    && (forall k, j :: 0 <= j < n && aggs[j] == PercentileCont ==> HoldsPercentile(records, rows, k, j))
    && (forall j :: 0 <= j < n && aggs[j] == PercentileCont ==> PercentileInputs(rows, j))
    && (forall i :: 0 <= i < |records| ==>
          HasGroup(rows, records[i].key) && (records[i].item.Input? || records[i].item.index < n))
  }

  ghost predicate Represents(records: seq<AggregateRow>, rows: seq<InputRow>, aggs: seq<AggregateFunction>)
  {
    RepresentsTo(records, rows, aggs, |aggs|)
  }

  lemma HoldsAppend(a: seq<AggregateRow>, x: seq<InputRow>, b: seq<AggregateRow>, y: seq<InputRow>, k: Row, j: nat)
    ensures HoldsInputs(a, x, k) && HoldsInputs(b, y, k) ==> HoldsInputs(a + b, x + y, k)
    ensures HoldsPercentile(a, x, k, j) && HoldsPercentile(b, y, k, j) ==> HoldsPercentile(a + b, x + y, k, j)
  {
    PickAppend(a, b, InputIn(k));
    PickAppend(x, y, ItemOf(k));
    PickAppend(GroupOf(x, k), GroupOf(y, k), DecimalAt(j));
    PickAppend(a, b, ValueIn(k, j));
    PickAppend(a, b, CountIn(k, j));
    SumAppend(Pick(a, CountIn(k, j)), Pick(b, CountIn(k, j)));
  }

  lemma HasGroupAppend<T>(x: seq<Keyed<T>>, y: seq<Keyed<T>>, k: Row)
    ensures HasGroup(x + y, k) <==> HasGroup(x, k) || HasGroup(y, k)
  {
    if HasGroup(x, k) {
      var i :| 0 <= i < |x| && x[i].key == k;
      assert (x + y)[i].key == k;
    }
    if HasGroup(y, k) {
      var i :| 0 <= i < |y| && y[i].key == k;
      assert (x + y)[|x| + i].key == k;
    }
  }

  /** Spilling one batch after another spills their concatenation. */
  lemma RepresentsAppend(a: seq<AggregateRow>, x: seq<InputRow>, b: seq<AggregateRow>, y: seq<InputRow>,
                         aggs: seq<AggregateFunction>)
    requires Represents(a, x, aggs) && Represents(b, y, aggs)
    ensures Represents(a + b, x + y, aggs)
  {
    forall k ensures HoldsInputs(a + b, x + y, k) { HoldsAppend(a, x, b, y, k, 0); }
    forall k, j | 0 <= j < |aggs| && aggs[j] == PercentileCont ensures HoldsPercentile(a + b, x + y, k, j) {
      HoldsAppend(a, x, b, y, k, j);
    }
    forall i | 0 <= i < |a + b| ensures HasGroup(x + y, (a + b)[i].key) {
      HasGroupAppend(x, y, (a + b)[i].key);
    }
  }

  lemma NothingSpilled(aggs: seq<AggregateFunction>)
    ensures Represents([], [], aggs)
  {
  }

  // ----- merging -----

  /** Records that no merge reorders: equal places in one group. */
  lemma MergeKeeps<U>(records: seq<AggregateRow>, order: seq<nat>, f: AggregateRow -> Option<U>)
    requires IsStableOrder(RecordOrder, records, order)
    requires forall i, j :: 0 <= i < |records| && 0 <= j < |records| && f(records[i]).Some? && f(records[j]).Some? ==>
               records[i].key == records[j].key && Place(records[i].item) == Place(records[j].item)
    ensures Pick(Permute(records, order), f) == Pick(records, f)
  {
    PickStable(RecordOrder, records, order, f);
  }

  lemma CountPlace(r: AggregateRow, k: Row, j: nat)
    requires CountIn(k, j)(r).Some?
    ensures r.key == k && Place(r.item) == (2 * j + 1, 0)
  {
  }

  lemma MergeKeepsCounts(records: seq<AggregateRow>, order: seq<nat>, k: Row, j: nat)
    requires IsStableOrder(RecordOrder, records, order)
    ensures Pick(Permute(records, order), CountIn(k, j)) == Pick(records, CountIn(k, j))
  {
    forall i | 0 <= i < |records| && CountIn(k, j)(records[i]).Some?
      ensures records[i].key == k && Place(records[i].item) == (2 * j + 1, 0)
    {
      CountPlace(records[i], k, j);
    }
    MergeKeeps(records, order, CountIn(k, j));
  }

  lemma MergeKeepsInputs(records: seq<AggregateRow>, order: seq<nat>, k: Row)
    requires IsStableOrder(RecordOrder, records, order)
    ensures Pick(Permute(records, order), InputIn(k)) == Pick(records, InputIn(k))
  {
    MergeKeeps(records, order, InputIn(k));
  }

  lemma MergeKeepsValues(records: seq<AggregateRow>, order: seq<nat>, k: Row, j: nat)
    requires IsStableOrder(RecordOrder, records, order)
    ensures multiset(Pick(Permute(records, order), ValueIn(k, j))) == multiset(Pick(records, ValueIn(k, j)))
  {
    PermuteMultiset(records, order);
    PickPermuted(Permute(records, order), records, ValueIn(k, j));
  }

  lemma GroupParts(merged: seq<AggregateRow>, k: Row, j: nat)
    ensures Pick(GroupOf(merged, k), InputOf) == Pick(merged, InputIn(k))
    ensures Pick(GroupOf(merged, k), CountOf(j)) == Pick(merged, CountIn(k, j))
    ensures Pick(GroupOf(merged, k), ValueOf(j)) == Pick(merged, ValueIn(k, j))
  {
    PickThen(merged, ItemOf(k), InputOf);
    PickThen(merged, ItemOf(k), CountOf(j));
    PickThen(merged, ItemOf(k), ValueOf(j));
  }

  /** Merging leaves a group's inputs in input order, its counts with the same
      total and its values the same as a multiset. */
  lemma MergedParts(records: seq<AggregateRow>, order: seq<nat>, k: Row, j: nat)
    requires IsStableOrder(RecordOrder, records, order)
    ensures var group := GroupOf(Permute(records, order), k);
            && Pick(group, InputOf) == Pick(records, InputIn(k))
            && Pick(group, CountOf(j)) == Pick(records, CountIn(k, j))
            && multiset(Pick(group, ValueOf(j))) == multiset(Pick(records, ValueIn(k, j)))
  {
    GroupParts(Permute(records, order), k, j);
    MergeKeepsInputs(records, order, k);
    MergeKeepsCounts(records, order, k, j);
    MergeKeepsValues(records, order, k, j);
  }

  /** The records of a group arrive by place. */
  ghost predicate PlacesAscend(group: seq<AggregateRecord>)
  {
    forall p, q :: 0 <= p < q < |group| ==> ComparePlaces(Place(group[p]), Place(group[q])) != Greater
  }

  lemma {:induction false} MergedPlaces(merged: seq<AggregateRow>, k: Row)
    requires forall p, q :: 0 <= p < q < |merged| ==> AtMost(RecordOrder(merged[p], merged[q]))
    ensures PlacesAscend(GroupOf(merged, k))
  {
    if merged != [] {
      var n := |merged| - 1;
      var front, last := merged[..n], merged[n];
      MergedPlaces(front, k);
      if last.key == k {
        forall p | 0 <= p < |GroupOf(front, k)|
          ensures ComparePlaces(Place(GroupOf(front, k)[p]), Place(last.item)) != Greater
        {
          PickedFrom(front, ItemOf(k), GroupOf(front, k)[p]);
          var i :| 0 <= i < n && ItemOf(k)(front[i]) == Some(GroupOf(front, k)[p]);
          assert AtMost(RecordOrder(merged[i], merged[n]));
        }
      }
    }
  }

  lemma PlacesGiveOrder(group: seq<AggregateRecord>, j: nat)
    requires PlacesAscend(group)
    ensures CountsFirst(group, j) && DigitsAscend(Pick(group, ValueOf(j)))
  {
    forall p, q | 0 <= p < q < |group| && ValueOf(j)(group[p]).Some?
      ensures !(group[q].PercentileCount? && group[q].index == j)
    {
      assert ComparePlaces(Place(group[p]), Place(group[q])) != Greater;
    }
    ValuesAscend(group, j);
  }

  lemma {:induction false} ValuesAscend(group: seq<AggregateRecord>, j: nat)
    requires PlacesAscend(group)
    ensures DigitsAscend(Pick(group, ValueOf(j)))
  {
    if group != [] {
      var n := |group| - 1;
      var front, r := group[..n], group[n];
      ValuesAscend(front, j);
      if r.PercentileValue? && r.index == j {
        forall p | 0 <= p < |Pick(front, ValueOf(j))| ensures Pick(front, ValueOf(j))[p].digits <= r.value.digits {
          PickedFrom(front, ValueOf(j), Pick(front, ValueOf(j))[p]);
          var i :| 0 <= i < n && ValueOf(j)(front[i]) == Some(Pick(front, ValueOf(j))[p]);
          assert ComparePlaces(Place(group[i]), Place(group[n])) != Greater;
        }
      }
    }
  }

  lemma MergedAscend(records: seq<AggregateRow>, order: seq<nat>)
    requires IsStableOrder(RecordOrder, records, order)
    ensures var merged := Permute(records, order);
            forall p, q :: 0 <= p < q < |merged| ==> AtMost(RecordOrder(merged[p], merged[q]))
    ensures KeysAscend(Permute(records, order))
  {
    var merged := Permute(records, order);
    forall p, q | 0 <= p < q < |merged| ensures AtMost(RecordOrder(merged[p], merged[q])) {
      assert Before(RecordOrder, records, order[p], order[q]);
    }
  }

  /** A spilled group's percentile column: every value counted before the first
      value arrives, values ascending, and the fold fails exactly when two
      scales differ. Its result is the state of the whole column. */
  lemma MergedPercentile(ops: FloatOps, records: seq<AggregateRow>, rows: seq<InputRow>, aggs: seq<AggregateFunction>,
                         order: seq<nat>, k: Row, j: nat)
    requires IsStableOrder(RecordOrder, records, order) && Represents(records, rows, aggs)
    requires j < |aggs| && aggs[j] == PercentileCont
    requires forall i :: 0 <= i < |records| && records[i].item.PercentileCount? ==> records[i].item.count >= 0
    requires |Pick(records, ValueIn(k, j))| <= U64_MAX ||
             FoldRecords(ops, PercentileCont, j, GroupOf(Permute(records, order), k)).Ok?
    ensures var group := GroupOf(Permute(records, order), k); var vs := GroupColumn(GroupOf(rows, k), j);
            && CountsFirst(group, j) && DigitsAscend(Pick(group, ValueOf(j)))
            && (FoldRecords(ops, PercentileCont, j, group).Ok? <==> SameScale(Pick(vs, DecimalIn)))
            && (FoldRecords(ops, PercentileCont, j, group).Ok? ==>
                  FoldRecords(ops, PercentileCont, j, group) == ColumnState(ops, PercentileCont, vs))
  {
    var merged := Permute(records, order);
    var group, vs := GroupOf(merged, k), GroupColumn(GroupOf(rows, k), j);
    MergedParts(records, order, k, j);
    MergedAscend(records, order);
    MergedPlaces(merged, k);
    PlacesGiveOrder(group, j);
    assert HoldsPercentile(records, rows, k, j);
    ColumnDecimals(GroupOf(rows, k), j);
    var ds, s := Pick(vs, DecimalIn), Pick(group, ValueOf(j));
    SameSize(s, Pick(records, ValueIn(k, j)));
    GroupCounts(merged, k);
    PercentileFold(ops, j, group);
    FoldValuesIff(|s|, s);
    PercentileTypes(rows, k, j);
    MedianOfArrangement(ops, vs, s);
  }

  lemma SameSize(a: seq<Decimal>, b: seq<Decimal>)
    requires multiset(a) == multiset(b)
    ensures |a| == |b|
  {
    assert |a| == |multiset(a)| == |multiset(b)| == |b|;
  }

  lemma GroupCounts(merged: seq<AggregateRow>, k: Row)
    requires forall i :: 0 <= i < |merged| && merged[i].item.PercentileCount? ==> merged[i].item.count >= 0
    ensures CountsNonNegative(GroupOf(merged, k))
  {
    var group := GroupOf(merged, k);
    forall p | 0 <= p < |group| && group[p].PercentileCount? ensures group[p].count >= 0 {
      PickedFrom(merged, ItemOf(k), group[p]);
    }
  }

  lemma PercentileTypes(rows: seq<InputRow>, k: Row, j: nat)
    requires PercentileInputs(rows, j)
    ensures var vs := GroupColumn(GroupOf(rows, k), j); forall i :: 0 <= i < |vs| ==> vs[i].Null? || vs[i].Decimal?
  {
    var group := GroupOf(rows, k);
    forall i | 0 <= i < |group| ensures GroupColumn(group, j)[i].Null? || GroupColumn(group, j)[i].Decimal? {
      PickedFrom(rows, ItemOf(k), group[i]);
    }
  }

  /** Any ascending arrangement of a column's decimals leads to its state. */
  lemma MedianOfArrangement(ops: FloatOps, vs: seq<Value>, s: seq<Decimal>)
    requires DigitsAscend(s) && multiset(s) == multiset(Pick(vs, DecimalIn)) && |s| <= U64_MAX
    requires forall i :: 0 <= i < |vs| ==> vs[i].Null? || vs[i].Decimal?
    ensures SameScale(s) <==> SameScale(Pick(vs, DecimalIn))
    ensures SameScale(s) ==> ColumnState(ops, PercentileCont, vs) == FoldValues(Counted(|s|), s)
  {
    var ds := Pick(vs, DecimalIn);
    if SameScale(s) { SameScaleOfMultiset(s, ds); }
    if SameScale(ds) { SameScaleOfMultiset(ds, s); }
    if SameScale(s) {
      SortAscends(ds);
      AscendingArrangement(s, SortDigits(ds));
      CountThenValues(s);
    }
  }

  /** Whatever the runs, a merged group brings each aggregate to its column state. */
  lemma MergedState(ops: FloatOps, records: seq<AggregateRow>, rows: seq<InputRow>, aggs: seq<AggregateFunction>,
                    order: seq<nat>, k: Row, j: nat)
    requires IsStableOrder(RecordOrder, records, order) && Represents(records, rows, aggs)
    requires j < |aggs| && FoldRecords(ops, aggs[j], j, GroupOf(Permute(records, order), k)).Ok?
    requires forall i :: 0 <= i < |records| && records[i].item.PercentileCount? ==> records[i].item.count >= 0
    requires forall i :: 0 <= i < |records| && records[i].item.Input? ==> |records[i].item.values| == |aggs|
    ensures FoldRecords(ops, aggs[j], j, GroupOf(Permute(records, order), k)) ==
              ColumnState(ops, aggs[j], GroupColumn(GroupOf(rows, k), j))
  {
    if aggs[j] == PercentileCont {
      MergedPercentile(ops, records, rows, aggs, order, k, j);
    } else {
      var merged := Permute(records, order);
      var group := GroupOf(merged, k);
      MergedParts(records, order, k, j);
      assert HoldsInputs(records, rows, k);
      forall i | 0 <= i < |group| && group[i].Input? ensures j < |group[i].values| {
        PickedFrom(merged, ItemOf(k), group[i]);
      }
      PlainFold(ops, aggs[j], j, group);
    }
  }
}
