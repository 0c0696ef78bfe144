/** Hash grouping over typed columns. */
module TypedGroups {
  import opened Values
  import opened StableOrder
  import opened MergeSort
  import opened Selection
  import opened Grouping
  import opened Columns
  import opened AggregateStates
  import opened Percentile
  import opened AggregateRecords
  import opened MergedGroups
  import opened AggregateGroups

  datatype TypedGroupValue =
    | NoValue
    | OfBool(b: bool)
    | OfInt64(i: i64)
    | OfFloat64(bits: u64)
    | OfTimestamp(t: i64)
    | OfDecimal(d: Decimal)

  /** primitive_group_value: floats are grouped by their bits. */
  function GroupValue(c: Column, row: nat): (r: Result<TypedGroupValue>)
    requires row < Len(c)
  {
    match c
    case Boxed(_) => Err(InvalidArgument)
    case Int64s(vs, validity) => Ok(if IsValid(validity, row) then OfInt64(vs[row]) else NoValue)
    case Float64s(vs, validity) => Ok(if IsValid(validity, row) then OfFloat64(vs[row]) else NoValue)
    case Bools(vs, validity) => Ok(if IsValid(validity, row) then OfBool(vs[row]) else NoValue)
    case Timestamps(vs, validity) => Ok(if IsValid(validity, row) then OfTimestamp(vs[row]) else NoValue)
    case Decimals(vs, scale, validity) =>
      Ok(if IsValid(validity, row) then OfDecimal(Decimal128(vs[row], scale)) else NoValue)
  }

  /** The value a typed group value stands for. */
  function Boxing(t: TypedGroupValue): Value
  {
    match t
    case NoValue => Null
    case OfBool(b) => Bool(b)
    case OfInt64(i) => Int64(i)
    case OfFloat64(bits) => Float64(bits)
    case OfTimestamp(t) => Timestamp(t)
    case OfDecimal(d) => Decimal(d)
  }

  lemma GroupValueBoxes(c: Column, row: nat)
    requires row < Len(c) && !c.Boxed?
    ensures GroupValue(c, row).Ok? && Boxing(GroupValue(c, row).value) == ValueAt(c, row)
  {
  }

  function BoxKey(key: seq<TypedGroupValue>): (row: Row)
    ensures |row| == |key| && forall i :: 0 <= i < |key| ==> row[i] == Boxing(key[i])
  {
    seq(|key|, i requires 0 <= i < |key| => Boxing(key[i]))
  }

  /** Two typed keys are the same hash key exactly when they box to one group key. */
  lemma BoxKeyInjective(a: seq<TypedGroupValue>, b: seq<TypedGroupValue>)
    ensures BoxKey(a) == BoxKey(b) <==> a == b
  {
    if BoxKey(a) == BoxKey(b) {
      assert |a| == |BoxKey(a)| == |BoxKey(b)| == |b|;
      forall i | 0 <= i < |a| ensures a[i] == b[i] { assert BoxKey(a)[i] == BoxKey(b)[i]; }
    }
  }

  datatype Layout = Layout(groupColumns: seq<nat>, aggregateColumns: seq<nat>)

  /** TypedAggregateLayout::supports */
  predicate Supports(layout: Layout, chunk: Chunk)
  {
    AllPrimitive(chunk, layout.groupColumns) && AllPrimitive(chunk, layout.aggregateColumns)
  }

  predicate AllPrimitive(chunk: Chunk, columns: seq<nat>)
  {
    forall i :: 0 <= i < |columns| ==> Primitive(chunk, columns[i])
  }

  predicate Primitive(chunk: Chunk, index: nat)
  {
    index < |chunk.columns| && !chunk.columns[index].Boxed?
  }

  function ReadRow(chunk: Chunk, columns: seq<nat>, row: nat): (r: Row)
    requires row < chunk.rowCount && AllPrimitive(chunk, columns)
    ensures |r| == |columns|
    ensures forall i :: 0 <= i < |columns| ==>
              Primitive(chunk, columns[i]) && r[i] == ValueAt(chunk.columns[columns[i]], row)
  {
    seq(|columns|,
        i requires 0 <= i < |columns| => assert Primitive(chunk, columns[i]); ValueAt(chunk.columns[columns[i]], row))
  }

  /** The inputs a supported chunk holds. */
  function ReadRows(layout: Layout, chunk: Chunk, n: nat): (rows: seq<InputRow>)
    requires Supports(layout, chunk) && n <= chunk.rowCount
    ensures |rows| == n
  {
    seq(n, row requires 0 <= row < n =>
      Keyed(ReadRow(chunk, layout.groupColumns, row), ReadRow(chunk, layout.aggregateColumns, row)))
  }

  /** typed_group_key */
  method TypedKey(chunk: Chunk, columns: seq<nat>, row: nat) returns (key: Result<seq<TypedGroupValue>>)
    requires row < chunk.rowCount && AllPrimitive(chunk, columns)
    ensures key.Ok? && BoxKey(key.value) == ReadRow(chunk, columns, row)
  {
    var values: seq<TypedGroupValue> := [];
    for i := 0 to |columns|
      invariant |values| == i
      invariant forall c :: 0 <= c < i ==> Boxing(values[c]) == ReadRow(chunk, columns, row)[c]
    {
      GroupValueBoxes(chunk.columns[columns[i]], row);
      values := values + [GroupValue(chunk.columns[columns[i]], row).value];
    }
    key := Ok(values);
  }

  datatype TypedGroup = TypedGroup(key: Row, states: seq<AggregateState>)

  /** State j of a group after the inputs `rows`. */
  ghost predicate FoldedTo(q: Query, rows: seq<InputRow>, group: TypedGroup, j: nat)
    requires j < |q.aggs| == |group.states|
  {
    FoldColumn(q.ops, q.aggs[j], GroupColumn(GroupOf(rows, group.key), j)) == Ok(group.states[j])
  }

  ghost predicate Wide(q: Query, groups: seq<TypedGroup>)
  {
    forall g :: 0 <= g < |groups| ==> |groups[g].states| == |q.aggs|
  }

  /** Every group's state j has seen the inputs `rows`. */
  ghost predicate ColumnFolded(q: Query, rows: seq<InputRow>, groups: seq<TypedGroup>, j: nat)
    requires j < |q.aggs| && Wide(q, groups)
  {
    forall g :: 0 <= g < |groups| ==> FoldedTo(q, rows, groups[g], j)
  }

  ghost predicate FoundAt(lookup: map<seq<TypedGroupValue>, nat>, g: nat)
  {
    exists key :: key in lookup && lookup[key] == g
  }

  ghost predicate GroupWith(groups: seq<TypedGroup>, key: Row)
  {
    exists g :: 0 <= g < |groups| && groups[g].key == key
  }

  /** The hash table finds exactly the groups of the inputs `rows`. */
  ghost predicate Indexed(rows: seq<InputRow>, lookup: map<seq<TypedGroupValue>, nat>, groups: seq<TypedGroup>)
  {
    && (forall key :: key in lookup ==> lookup[key] < |groups| && groups[lookup[key]].key == BoxKey(key))
    && (forall g :: 0 <= g < |groups| ==> FoundAt(lookup, g))
    && (forall g :: 0 <= g < |groups| ==> HasGroup(rows, groups[g].key))
    && (forall i :: 0 <= i < |rows| ==> GroupWith(groups, rows[i].key))
  }

  /** Groups have distinct keys. */
  lemma IndexedDistinct(rows: seq<InputRow>, lookup: map<seq<TypedGroupValue>, nat>, groups: seq<TypedGroup>, g: nat,
                        h: nat)
    requires Indexed(rows, lookup, groups) && g < h < |groups|
    ensures groups[g].key != groups[h].key
  {
    assert FoundAt(lookup, g) && FoundAt(lookup, h);
    var a :| a in lookup && lookup[a] == g;
    var b :| b in lookup && lookup[b] == h;
    BoxKeyInjective(a, b);
  }

  lemma IndexedOld(rows: seq<InputRow>, lookup: map<seq<TypedGroupValue>, nat>, groups: seq<TypedGroup>, row: InputRow,
                   key: seq<TypedGroupValue>)
    requires Indexed(rows, lookup, groups) && key in lookup && BoxKey(key) == row.key
    ensures Indexed(rows + [row], lookup, groups)
  {
    forall g | 0 <= g < |groups|
      ensures HasGroup(rows + [row], groups[g].key)
    {
      HasGroupAppend(rows, [row], groups[g].key);
    }
    assert groups[lookup[key]].key == row.key;
  }

  lemma IndexedNew(rows: seq<InputRow>, lookup: map<seq<TypedGroupValue>, nat>, groups: seq<TypedGroup>, row: InputRow,
                   key: seq<TypedGroupValue>, states: seq<AggregateState>)
    requires Indexed(rows, lookup, groups) && key !in lookup && BoxKey(key) == row.key
    ensures Indexed(rows + [row], lookup[key := |groups|], groups + [TypedGroup(row.key, states)])
    ensures !HasGroup(rows, row.key)
  {
    var after, all := lookup[key := |groups|], groups + [TypedGroup(row.key, states)];
    forall g | 0 <= g < |all| ensures FoundAt(after, g) {
      if g < |groups| {
        assert FoundAt(lookup, g);
        var k :| k in lookup && lookup[k] == g;
        assert k in after && after[k] == g;
      } else {
        assert key in after && after[key] == g;
      }
    }
    forall g | 0 <= g < |all| ensures HasGroup(rows + [row], all[g].key) {
      HasGroupAppend(rows, [row], all[g].key);
      assert g == |groups| ==> [row][0].key == all[g].key;
    }
    forall i | 0 <= i < |rows + [row]| ensures GroupWith(all, (rows + [row])[i].key) {
      if i < |rows| {
        assert GroupWith(groups, rows[i].key);
        var g :| 0 <= g < |groups| && groups[g].key == rows[i].key;
        assert all[g].key == rows[i].key;
      } else {
        assert all[|groups|].key == row.key;
      }
    }
    if HasGroup(rows, row.key) {
      var i :| 0 <= i < |rows| && rows[i].key == row.key;
      assert GroupWith(groups, rows[i].key);
      var g :| 0 <= g < |groups| && groups[g].key == rows[i].key;
      assert FoundAt(lookup, g);
      var k :| k in lookup && lookup[k] == g;
      BoxKeyInjective(k, key);
      assert false;
    }
  }

  // ----- one chunk -----

  ghost predicate Plain(q: Query)
  {
    forall j :: 0 <= j < |q.aggs| ==> q.aggs[j] != PercentileCont
  }

  ghost predicate DistinctKeys(groups: seq<TypedGroup>)
  {
    forall g, h :: 0 <= g < h < |groups| ==> groups[g].key != groups[h].key
  }

  /** Every state has seen the inputs `rows`. */
  ghost predicate AllFolded(q: Query, rows: seq<InputRow>, groups: seq<TypedGroup>)
  {
    Wide(q, groups) && forall j :: 0 <= j < |q.aggs| ==> ColumnFolded(q, rows, groups, j)
  }

  /** Row r of the chunk belongs to group indices[r]. */
  ghost predicate Assigned(rows: seq<InputRow>, groups: seq<TypedGroup>, indices: seq<nat>)
  {
    |indices| == |rows| && forall r :: 0 <= r < |rows| ==>
      indices[r] < |groups| && groups[indices[r]].key == rows[r].key
  }

  lemma NewGroupFolded(q: Query, seen: seq<InputRow>, groups: seq<TypedGroup>, key: Row, states: seq<AggregateState>)
    requires AllFolded(q, seen, groups) && !HasGroup(seen, key)
    requires |states| == |q.aggs| && forall j :: 0 <= j < |q.aggs| ==> states[j] == Initial(q.aggs[j])
    ensures AllFolded(q, seen, groups + [TypedGroup(key, states)])
  {
    NoSuchGroup(seen, key);
    var all := groups + [TypedGroup(key, states)];
    forall j, g | 0 <= j < |q.aggs| && 0 <= g < |all| ensures FoldedTo(q, seen, all[g], j) {
      if g < |groups| { assert ColumnFolded(q, seen, groups, j); }
    }
  }

  /** The first loop of append_typed_aggregate_chunk: find or open the group of
      every row. */
  method AssignGroups(q: Query, layout: Layout, chunk: Chunk, lookup: map<seq<TypedGroupValue>, nat>,
                      groups: seq<TypedGroup>, ghost seen: seq<InputRow>)
    returns (lookup': map<seq<TypedGroupValue>, nat>, groups': seq<TypedGroup>, indices: seq<nat>)
    requires Supports(layout, chunk) && Indexed(seen, lookup, groups) && AllFolded(q, seen, groups)
    ensures Indexed(seen + ReadRows(layout, chunk, chunk.rowCount), lookup', groups') && AllFolded(q, seen, groups')
    ensures Assigned(ReadRows(layout, chunk, chunk.rowCount), groups', indices)
  {
    lookup', groups', indices := lookup, groups, [];
    assert seen + ReadRows(layout, chunk, 0) == seen;
    for row := 0 to chunk.rowCount
      invariant Indexed(seen + ReadRows(layout, chunk, row), lookup', groups') && AllFolded(q, seen, groups')
      invariant Assigned(ReadRows(layout, chunk, row), groups', indices)
    {
      ghost var before := ReadRows(layout, chunk, row);
      var key := TypedKey(chunk, layout.groupColumns, row);
      ghost var input: InputRow := Keyed(ReadRow(chunk, layout.groupColumns, row),
                                         ReadRow(chunk, layout.aggregateColumns, row));
      assert ReadRows(layout, chunk, row + 1) == before + [input];
      Assoc(seen, before, [input]);
      if key.value in lookup' {
        IndexedOld(seen + before, lookup', groups', input, key.value);
        indices := indices + [lookup'[key.value]];
      } else {
        var states := InitialStates(q.ops, q.aggs);
        IndexedNew(seen + before, lookup', groups', input, key.value, states);
        HasGroupAppend(seen, before, input.key);
        NewGroupFolded(q, seen, groups', input.key, states);
        indices := indices + [|groups'|];
        lookup' := lookup'[key.value := |groups'|];
        groups' := groups' + [TypedGroup(ReadRow(chunk, layout.groupColumns, row), states)];
      }
    }
  }

  lemma FoldedSame(q: Query, rows: seq<InputRow>, row: InputRow, group: TypedGroup, j: nat)
    requires j < |q.aggs| == |group.states| && FoldedTo(q, rows, group, j) && group.key != row.key
    ensures FoldedTo(q, rows + [row], group, j)
  {
    PickLast(rows, row, ItemOf(group.key));
    assert GroupOf(rows + [row], group.key) == GroupOf(rows, group.key);
  }

  lemma FoldedNext(q: Query, rows: seq<InputRow>, row: InputRow, group: TypedGroup, j: nat, s: AggregateState)
    requires j < |q.aggs| == |group.states| == |row.item| && FoldedTo(q, rows, group, j) && group.key == row.key
    requires UpdateState(q.ops, group.states[j], row.item[j]) == Ok(s)
    ensures FoldedTo(q, rows + [row], group.(states := group.states[j := s]), j)
  {
    PickLast(rows, row, ItemOf(group.key));
    GroupColumnLast(GroupOf(rows, group.key), row.item, j);
    FoldLast(q.ops, q.aggs[j], GroupColumn(GroupOf(rows, group.key), j), row.item[j]);
  }

  lemma {:induction false} PlainStays(ops: FloatOps, f: AggregateFunction, vs: seq<Value>)
    requires f != PercentileCont && FoldColumn(ops, f, vs).Ok?
    ensures !FoldColumn(ops, f, vs).value.PercentileState?
  {
    if vs != [] { PlainStays(ops, f, vs[..|vs| - 1]); }
  }

  function SetState(groups: seq<TypedGroup>, g: nat, j: nat, s: AggregateState): (out: seq<TypedGroup>)
    requires g < |groups| && j < |groups[g].states|
    ensures |out| == |groups|
    ensures forall h :: 0 <= h < |groups| ==> out[h].key == groups[h].key && |out[h].states| == |groups[h].states|
  {
    groups[g := groups[g].(states := groups[g].states[j := s])]
  }

  /** One row folded into its group's state j. */
  lemma RowFolded(q: Query, rows: seq<InputRow>, row: InputRow, groups: seq<TypedGroup>, g: nat, j: nat,
                  s: AggregateState)
    requires j < |q.aggs| == |row.item| && Wide(q, groups) && ColumnFolded(q, rows, groups, j) && DistinctKeys(groups)
    requires g < |groups| && groups[g].key == row.key && UpdateState(q.ops, groups[g].states[j], row.item[j]) == Ok(s)
    ensures Wide(q, SetState(groups, g, j, s)) && ColumnFolded(q, rows + [row], SetState(groups, g, j, s), j)
  {
    var out := SetState(groups, g, j, s);
    forall h | 0 <= h < |out| ensures FoldedTo(q, rows + [row], out[h], j) {
      assert FoldedTo(q, rows, groups[h], j);
      if h == g { FoldedNext(q, rows, row, groups[g], j, s); } else { FoldedSame(q, rows, row, groups[h], j); }
    }
  }

  /** Only state j differs. */
  ghost predicate OnlyState(before: seq<TypedGroup>, after: seq<TypedGroup>, j: nat)
  {
    |before| == |after| && forall g :: 0 <= g < |before| ==>
      && after[g].key == before[g].key && |after[g].states| == |before[g].states|
      && forall i :: 0 <= i < |before[g].states| && i != j ==> after[g].states[i] == before[g].states[i]
  }

  /** One row of update_grouped_valid_values. */
  method FoldTypedRow(q: Query, column: Column, r: nat, g: nat, groups: seq<TypedGroup>, j: nat,
                      ghost done: seq<InputRow>, ghost row: InputRow)
    returns (res: Result<seq<TypedGroup>>)
    requires j < |q.aggs| == |row.item| && q.aggs[j] != PercentileCont && !column.Boxed? && r < Len(column)
    requires row.item[j] == ValueAt(column, r)
    requires Wide(q, groups) && DistinctKeys(groups) && ColumnFolded(q, done, groups, j) && g < |groups|
    requires groups[g].key == row.key
    ensures res.Ok? ==>
              Wide(q, res.value) && OnlyState(groups, res.value, j) && ColumnFolded(q, done + [row], res.value, j)
  {
    assert FoldedTo(q, done, groups[g], j);
    PlainStays(q.ops, q.aggs[j], GroupColumn(GroupOf(done, groups[g].key), j));
    if !ValidAt(column, r) {
      RowFolded(q, done, row, groups, g, j, groups[g].states[j]);
      assert groups[g].states[j := groups[g].states[j]] == groups[g].states;
      assert SetState(groups, g, j, groups[g].states[j]) == groups;
      return Ok(groups);
    }
    var updated := TypedUpdate(q.ops, groups[g].states[j], ValueAt(column, r));
    if updated.Err? { return Err(updated.error); }
    TypedAgreesIff(q.ops, groups[g].states[j], ValueAt(column, r));
    RowFolded(q, done, row, groups, g, j, updated.value);
    res := Ok(SetState(groups, g, j, updated.value));
  }

  /** update_grouped_typed_column: state j of every row's group, row by row. */
  method FoldTypedColumn(q: Query, column: Column, indices: seq<nat>, groups: seq<TypedGroup>, j: nat,
                         ghost seen: seq<InputRow>, ghost rows: seq<InputRow>)
    returns (res: Result<seq<TypedGroup>>)
    requires j < |q.aggs| && q.aggs[j] != PercentileCont && !column.Boxed? && Len(column) == |rows|
    requires forall r :: 0 <= r < |rows| ==> |rows[r].item| == |q.aggs| && rows[r].item[j] == ValueAt(column, r)
    requires Wide(q, groups) && DistinctKeys(groups) && Assigned(rows, groups, indices)
    requires ColumnFolded(q, seen, groups, j)
    ensures res.Ok? ==>
              Wide(q, res.value) && OnlyState(groups, res.value, j) && ColumnFolded(q, seen + rows, res.value, j)
  {
    var out := groups;
    assert seen + rows[..0] == seen;
    for r := 0 to Len(column)
      invariant Wide(q, out) && OnlyState(groups, out, j) && ColumnFolded(q, seen + rows[..r], out, j)
    {
      Grow(seen, rows, r);
      var next := FoldTypedRow(q, column, r, indices[r], out, j, seen + rows[..r], rows[r]);
      if next.Err? { return next; }
      OnlyStateTwice(groups, out, next.value, j);
      out := next.value;
    }
    assert rows[..|rows|] == rows;
    res := Ok(out);
  }

  lemma OnlyStateTwice(a: seq<TypedGroup>, b: seq<TypedGroup>, c: seq<TypedGroup>, j: nat)
    requires OnlyState(a, b, j) && OnlyState(b, c, j)
    ensures OnlyState(a, c, j)
  {
  }

  /** append_typed_aggregate_chunk */
  method AppendTypedChunk(q: Query, layout: Layout, chunk: Chunk, lookup: map<seq<TypedGroupValue>, nat>,
                          groups: seq<TypedGroup>, ghost seen: seq<InputRow>)
    returns (res: Result<()>, lookup': map<seq<TypedGroupValue>, nat>, groups': seq<TypedGroup>)
    requires Plain(q) && |layout.aggregateColumns| == |q.aggs| && Supports(layout, chunk)
    requires Indexed(seen, lookup, groups) && AllFolded(q, seen, groups)
    ensures res.Ok? ==> Indexed(seen + ReadRows(layout, chunk, chunk.rowCount), lookup', groups')
    ensures res.Ok? ==> AllFolded(q, seen + ReadRows(layout, chunk, chunk.rowCount), groups')
  {
    var indices;
    lookup', groups', indices := AssignGroups(q, layout, chunk, lookup, groups, seen);
    ghost var rows := ReadRows(layout, chunk, chunk.rowCount);
    forall g, h | 0 <= g < h < |groups'|
      ensures groups'[g].key != groups'[h].key
    {
      IndexedDistinct(seen + rows, lookup', groups', g, h);
    }
    for j := 0 to |q.aggs|
      invariant Indexed(seen + rows, lookup', groups') && Wide(q, groups') && DistinctKeys(groups')
      invariant Assigned(rows, groups', indices)
      invariant forall i :: 0 <= i < j ==> ColumnFolded(q, seen + rows, groups', i)
      invariant forall i :: j <= i < |q.aggs| ==> ColumnFolded(q, seen, groups', i)
    {
      ghost var before := groups';
      assert Primitive(chunk, layout.aggregateColumns[j]);
      var folded := FoldTypedColumn(q, chunk.columns[layout.aggregateColumns[j]], indices, groups', j, seen, rows);
      if folded.Err? { return Err(folded.error), lookup', groups'; }
      groups' := folded.value;
      OthersKeep(q, seen, rows, before, groups', j);
      IndexedKeep(seen + rows, lookup', before, groups', j);
    }
    res := Ok(());
  }

  lemma OthersKeep(q: Query, seen: seq<InputRow>, rows: seq<InputRow>, before: seq<TypedGroup>, after: seq<TypedGroup>,
                   j: nat)
    requires j < |q.aggs| && Wide(q, before) && Wide(q, after) && OnlyState(before, after, j)
    requires forall i :: 0 <= i < j ==> ColumnFolded(q, seen + rows, before, i)
    requires forall i :: j <= i < |q.aggs| ==> ColumnFolded(q, seen, before, i)
    ensures forall i :: 0 <= i < j ==> ColumnFolded(q, seen + rows, after, i)
    ensures forall i :: j < i < |q.aggs| ==> ColumnFolded(q, seen, after, i)
  {
    forall i, g | 0 <= i < |q.aggs| && i != j && 0 <= g < |after|
      ensures i < j ==> FoldedTo(q, seen + rows, after[g], i)
      ensures i > j ==> FoldedTo(q, seen, after[g], i)
    {
      assert after[g].states[i] == before[g].states[i];
      if i < j {
        assert ColumnFolded(q, seen + rows, before, i);
        assert FoldedTo(q, seen + rows, before[g], i);
      } else {
        assert ColumnFolded(q, seen, before, i);
        assert FoldedTo(q, seen, before[g], i);
      }
    }
  }

  lemma IndexedKeep(rows: seq<InputRow>, lookup: map<seq<TypedGroupValue>, nat>, before: seq<TypedGroup>,
                    after: seq<TypedGroup>, j: nat)
    requires Indexed(rows, lookup, before) && OnlyState(before, after, j)
    ensures Indexed(rows, lookup, after)
  {
    forall i | 0 <= i < |rows| ensures GroupWith(after, rows[i].key) {
      assert GroupWith(before, rows[i].key);
      var g :| 0 <= g < |before| && before[g].key == rows[i].key;
      assert after[g].key == rows[i].key;
    }
    forall g | 0 <= g < |after| ensures HasGroup(rows, after[g].key) { assert after[g].key == before[g].key; }
  }

  // ----- finishing -----

  function CompareGroups(a: TypedGroup, b: TypedGroup): Result<Ordering>
  {
    CompareKeyTuples(a.key, b.key)
  }

  lemma CompareGroupsLawful(groups: seq<TypedGroup>)
    ensures Lawful(CompareGroups, groups)
  {
    forall i, j, k | 0 <= i < |groups| && 0 <= j < |groups| && 0 <= k < |groups|
      ensures LawfulAt(CompareGroups, groups[i], groups[j], groups[k])
    {
      CompareKeyTuplesLaws(groups[i].key, groups[j].key, groups[k].key);
    }
  }

  ghost function GroupKeys(groups: seq<TypedGroup>): (keys: seq<Row>)
    ensures |keys| == |groups| && forall g :: 0 <= g < |groups| ==> keys[g] == groups[g].key
  {
    seq(|groups|, g requires 0 <= g < |groups| => groups[g].key)
  }

  /** Sorted groups with distinct keys list the groups. */
  lemma SortedGroupsList(rows: seq<InputRow>, lookup: map<seq<TypedGroupValue>, nat>, groups: seq<TypedGroup>,
                         order: seq<nat>, groupCount: nat)
    requires Indexed(rows, lookup, groups) && IsStableOrder(CompareGroups, groups, order) && groupCount > 0
    ensures ListsGroups(groupCount, rows, GroupKeys(Permute(groups, order)))
  {
    var sorted := Permute(groups, order);
    var keys := GroupKeys(sorted);
    forall a, b | 0 <= a < b < |keys| ensures KeyOrder(keys[a], keys[b]) == Ok(Less) {
      assert Before(CompareGroups, groups, order[a], order[b]);
      var x, y := order[a], order[b];
      CoveringDistinct(order, |order|, a, b);
      IndexedDistinct(rows, lookup, groups, if x < y then x else y, if x < y then y else x);
      KeyOrderLaws(keys[a], keys[b], []);
    }
    forall k ensures k in keys <==> HasGroup(rows, k) {
      if k in keys {
        var g :| 0 <= g < |keys| && keys[g] == k;
        assert HasGroup(rows, groups[order[g]].key);
      }
      if HasGroup(rows, k) {
        var i :| 0 <= i < |rows| && rows[i].key == k;
        assert GroupWith(groups, rows[i].key);
        var g :| 0 <= g < |groups| && groups[g].key == k;
        assert g in order;
        var p :| 0 <= p < |order| && order[p] == g;
        assert keys[p] == k;
      }
    }
  }

  lemma GroupStates(q: Query, rows: seq<InputRow>, groups: seq<TypedGroup>, g: nat)
    requires Plain(q) && AllFolded(q, rows, groups) && g < |groups|
    ensures StatesFor(q, GroupOf(rows, groups[g].key), groups[g].states)
  {
    forall j | 0 <= j < |q.aggs|
      ensures ColumnState(q.ops, q.aggs[j], GroupColumn(GroupOf(rows, groups[g].key), j)) == Ok(groups[g].states[j])
    {
      assert ColumnFolded(q, rows, groups, j);
      assert FoldedTo(q, rows, groups[g], j);
    }
  }

  /** The finishing loop of finish_typed_groups. */
  method FinishSorted(q: Query, sorted: seq<TypedGroup>, ghost rows: seq<InputRow>) returns (res: Result<seq<Row>>)
    requires |q.aggs| == |q.types|
    requires forall g :: 0 <= g < |sorted| ==> StatesFor(q, GroupOf(rows, sorted[g].key), sorted[g].states)
    ensures res.Ok? ==> AnswersAll(GroupAnswer(q), rows, GroupKeys(sorted), res.value)
  {
    var out: seq<Row> := [];
    for g := 0 to |sorted|
      invariant |out| == g && forall h :: 0 <= h < g ==> AnswersGroup(GroupAnswer(q), rows, sorted[h].key, out[h])
    {
      var values := FinishGroup(q, sorted[g].states, GroupOf(rows, sorted[g].key));
      if values.Err? { return Err(values.error); }
      assert AnswersGroup(GroupAnswer(q), rows, sorted[g].key, sorted[g].key + values.value);
      out := out + [sorted[g].key + values.value];
    }
    res := Ok(out);
  }

  /** finish_typed_groups */
  method FinishTypedGroups(q: Query, groupCount: nat, groups: seq<TypedGroup>,
                           ghost lookup: map<seq<TypedGroupValue>, nat>, ghost rows: seq<InputRow>)
    returns (res: Result<seq<Row>>)
    requires Plain(q) && |q.aggs| == |q.types| && groupCount > 0
    requires Indexed(rows, lookup, groups) && AllFolded(q, rows, groups)
    ensures res.Ok? ==> IsAnswer(GroupAnswer(q), groupCount, rows, res.value)
  {
    CompareGroupsLawful(groups);
    var ok, sorted := StableSortBy(CompareGroups, groups);
    if ok.Err? { return Err(ok.error); }
    ghost var order: seq<nat> :| IsStableOrder(CompareGroups, groups, order) && sorted == Permute(groups, order);
    forall g | 0 <= g < |sorted| ensures StatesFor(q, GroupOf(rows, sorted[g].key), sorted[g].states) {
      GroupStates(q, rows, groups, order[g]);
    }
    res := FinishSorted(q, sorted, rows);
    if res.Ok? {
      SortedGroupsList(rows, lookup, groups, order, groupCount);
      assert ListsGroups(groupCount, rows, GroupKeys(sorted));
    }
  }
}
