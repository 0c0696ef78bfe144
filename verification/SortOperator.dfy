/** The Sort operator: buffer rows under a budget that may refuse any charge,
    spill sorted runs when it does, and merge them back. */
module SortOperator {
  import opened Values
  import opened ValueOrder
  import opened StableOrder
  import opened MergeSort
  import opened MergeProgress
  import opened SpillCodec
  import opened Budget
  import opened RunMerge
  import opened Spilling

  datatype SortRow = SortRow(values: Row, keys: Row)

  /** compare_sort_rows */
  function SortComparator(orders: seq<SortOrder>): Comparator<SortRow>
  {
    (a: SortRow, b: SortRow) => CompareDirected(orders, a.keys, b.keys)
  }

  /** decode_sort_spill_row: values first, keys last. */
  function DecodeSortRow(row: Row, valueCount: nat, keyCount: nat): Result<SortRow>
  {
    if |row| != valueCount + keyCount then Err(Corrupt)
    else Ok(SortRow(row[..valueCount], row[valueCount..]))
  }

  function ReadSortRow(valueCount: nat, keyCount: nat, file: seq<u8>): Result<Option<(SortRow, seq<u8>)>>
  {
    var next :- ReadRow(file);
    if next.None? then Ok(None)
    else
      var row :- DecodeSortRow(next.value.0, valueCount, keyCount);
      Ok(Some((row, next.value.1)))
  }

  function SortFormat(valueCount: nat, keyCount: nat): RunFormat<SortRow>
  {
    RunFormat(
      (row: SortRow) => FrameRow(row.values + row.keys),
      (file: seq<u8>) => ReadSortRow(valueCount, keyCount, file),
      (row: SortRow) => ValuesCharge(row.values + row.keys))
  }

  /** A buffered row is charged for its values and its keys. */
  lemma SortChargeMeans(valueCount: nat, keyCount: nat, row: SortRow)
    ensures SortFormat(valueCount, keyCount).charge(row) ==
            Charged(64 + ApproxTotal(row.values) + ApproxTotal(row.keys))
  {
    ValuesChargeMeans(row.values + row.keys);
    ApproxTotalAppend(row.values, row.keys);
  }

  /** validate_sort_keys: every key is NULL or orderable. */
  predicate ValidSortKeys(row: SortRow)
  {
    forall k :: 0 <= k < |row.keys| ==> row.keys[k].Null? || CompareOrderValues(row.keys[k], row.keys[k]).Ok?
  }

  /** Every sort key has an order. */
  ghost predicate AllOrderable(rows: seq<SortRow>)
  {
    forall i, k :: 0 <= i < |rows| && 0 <= k < |rows[i].keys| ==> Comparable(rows[i].keys[k], rows[i].keys[k])
  }

  lemma ValidKeysMean(rows: seq<SortRow>)
    ensures AllValid(ValidSortKeys, rows) <==> AllOrderable(rows)
  {
    forall i, k | 0 <= i < |rows| && 0 <= k < |rows[i].keys|
      ensures CompareOrderValues(rows[i].keys[k], rows[i].keys[k]).Ok? <==>
              Comparable(rows[i].keys[k], rows[i].keys[k])
    {
      CompareOrderValuesMeans(rows[i].keys[k], rows[i].keys[k]);
    }
    if AllOrderable(rows) {
      forall i | 0 <= i < |rows| ensures ValidSortKeys(rows[i]) {}
    }
  }

  /** What chunks guarantee about their rows: the declared widths and values
      built by the engine's constructors. */
  ghost predicate RowShape(row: SortRow, valueCount: nat, keyCount: nat)
  {
    |row.values| == valueCount && |row.keys| == keyCount && WellFormedRow(row.values) && WellFormedRow(row.keys)
  }

  ghost predicate RowsShape(rows: seq<SortRow>, valueCount: nat, keyCount: nat)
  {
    forall i :: 0 <= i < |rows| ==> RowShape(rows[i], valueCount, keyCount)
  }

  /** The key order obeys the laws of a fallible comparison on such rows. */
  lemma SortComparatorLawful(orders: seq<SortOrder>, rows: seq<SortRow>, valueCount: nat)
    requires RowsShape(rows, valueCount, |orders|)
    ensures Lawful(SortComparator(orders), rows)
  {
    forall i, j, k | 0 <= i < |rows| && 0 <= j < |rows| && 0 <= k < |rows|
      ensures LawfulAt(SortComparator(orders), rows[i], rows[j], rows[k])
    {
      assert RowShape(rows[i], valueCount, |orders|) && RowShape(rows[j], valueCount, |orders|) &&
             RowShape(rows[k], valueCount, |orders|);
      CompareDirectedLaws(orders, rows[i].keys, rows[j].keys, rows[k].keys);
    }
  }

  /** Row i is listed before row j: its keys come first, in each key's direction, or
      the keys are the same and row i came first. */
  ghost predicate KeysFirst(orders: seq<SortOrder>, rows: seq<SortRow>, i: nat, j: nat)
    requires i < |rows| && j < |rows|
  {
    && |rows[i].keys| == |rows[j].keys| == |orders|
    && (KeysBelow(orders, rows[i].keys, rows[j].keys) || (SameTo(rows[i].keys, rows[j].keys, |orders|) && i < j))
  }

  ghost predicate ListsByKeys(orders: seq<SortOrder>, rows: seq<SortRow>, order: seq<nat>)
  {
    && |order| == |rows| && Positions(rows, order) && (forall i :: 0 <= i < |rows| ==> i in order)
    && forall p, q :: 0 <= p < q < |order| ==> KeysFirst(orders, rows, order[p], order[q])
  }

  /** `out` lists exactly the rows, by their sort keys and then in input order. */
  ghost predicate SortedByKeys(orders: seq<SortOrder>, rows: seq<SortRow>, out: seq<SortRow>)
  {
    exists order: seq<nat> :: ListsByKeys(orders, rows, order) && out == Permute(rows, order)
  }

  lemma BeforeMeans(orders: seq<SortOrder>, rows: seq<SortRow>, valueCount: nat, i: nat, j: nat)
    requires RowsShape(rows, valueCount, |orders|) && i < |rows| && j < |rows|
    ensures Before(SortComparator(orders), rows, i, j) <==> KeysFirst(orders, rows, i, j)
  {
    assert RowShape(rows[i], valueCount, |orders|) && RowShape(rows[j], valueCount, |orders|);
    CompareDirectedMeans(orders, rows[i].keys, rows[j].keys);
  }

  /** The stable sort, in plain terms. */
  lemma StableSortMeans(orders: seq<SortOrder>, rows: seq<SortRow>, valueCount: nat, out: seq<SortRow>)
    requires RowsShape(rows, valueCount, |orders|)
    ensures IsStableSort(SortComparator(orders), rows, out) <==> SortedByKeys(orders, rows, out)
  {
    forall i, j | 0 <= i < |rows| && 0 <= j < |rows|
      ensures Before(SortComparator(orders), rows, i, j) <==> KeysFirst(orders, rows, i, j)
    {
      BeforeMeans(orders, rows, valueCount, i, j);
    }
    if IsStableSort(SortComparator(orders), rows, out) {
      var order: seq<nat> :| IsStableOrder(SortComparator(orders), rows, order) && out == Permute(rows, order);
      assert ListsByKeys(orders, rows, order);
    }
    if SortedByKeys(orders, rows, out) {
      var order: seq<nat> :| ListsByKeys(orders, rows, order) && out == Permute(rows, order);
      assert IsStableOrder(SortComparator(orders), rows, order);
    }
  }

  /** Every spilled sort row reads back as itself. */
  lemma SortFormatFaithful(rows: seq<SortRow>, valueCount: nat, keyCount: nat)
    requires RowsShape(rows, valueCount, keyCount)
    ensures Faithful(SortFormat(valueCount, keyCount), rows)
  {
    var format := SortFormat(valueCount, keyCount);
    forall i | 0 <= i < |rows| ensures ReadsBack(format, rows[i]) {
      var row := rows[i];
      assert RowShape(row, valueCount, keyCount);
      var encoded := row.values + row.keys;
      assert encoded[..valueCount] == row.values && encoded[valueCount..] == row.keys;
      forall rest | format.frame(row).Ok?
        ensures format.read(format.frame(row).value + rest) == Ok(Some((row, rest)))
      {
        SortRowReadsBack(row, valueCount, keyCount, rest);
      }
    }
  }

  lemma SortRowReadsBack(row: SortRow, valueCount: nat, keyCount: nat, rest: seq<u8>)
    requires RowShape(row, valueCount, keyCount) && FrameRow(row.values + row.keys).Ok?
    ensures ReadSortRow(valueCount, keyCount, FrameRow(row.values + row.keys).value + rest) == Ok(Some((row, rest)))
  {
    var encoded := row.values + row.keys;
    ReadFramedRow(encoded, rest);
    assert encoded[..valueCount] == row.values && encoded[valueCount..] == row.keys;
  }

  // ----- runs spilled so far -----

  /** The spilled rows in input order, how they were cut into runs, and how each
      run was sorted. */
  datatype SpillState<T> = SpillState(rows: seq<T>, bounds: seq<nat>, inner: seq<nat>)

  ghost predicate SpillOk<T>(cmp: Comparator<T>, format: RunFormat<T>, files: seq<seq<u8>>, s: SpillState<T>)
  {
    SortsEachRun(cmp, s.rows, s.bounds, s.inner) && AllHold(format, files, Permute(s.rows, s.inner), s.bounds)
  }

  ghost function Extend<T>(s: SpillState<T>, batch: seq<T>, order: seq<nat>): SpillState<T>
  {
    SpillState(s.rows + batch, s.bounds + [|s.rows| + |batch|], s.inner + Shift(order, |s.rows|))
  }

  lemma SpillMore<T>(cmp: Comparator<T>, format: RunFormat<T>, files: seq<seq<u8>>, s: SpillState<T>,
                     batch: seq<T>, order: seq<nat>, file: seq<u8>)
    requires SpillOk(cmp, format, files, s) && IsStableOrder(cmp, batch, order)
    requires FrameItems(format, Permute(batch, order)) == Ok(file)
    ensures SpillOk(cmp, format, files + [file], Extend(s, batch, order))
  {
    AppendSortedRun(cmp, s.rows, s.bounds, s.inner, batch, order);
    HoldsMore(format, files, Permute(s.rows, s.inner), s.bounds, Permute(batch, order), file);
  }

  /** Nothing but memory pressure can make these rows fail. */
  ghost predicate Clean<T>(cmp: Comparator<T>, format: RunFormat<T>, rows: seq<T>)
  {
    && AllComparable(cmp, rows)
    && forall i :: 0 <= i < |rows| ==> format.frame(rows[i]).Ok? && format.charge(rows[i]).Ok?
  }

  lemma {:induction false} FramesSucceed<T>(format: RunFormat<T>, items: seq<T>)
    requires forall i :: 0 <= i < |items| ==> format.frame(items[i]).Ok?
    ensures FrameItems(format, items).Ok?
  {
    if items != [] { FramesSucceed(format, items[1..]); }
  }

  /** spill_sort_run: sorts the buffer, writes it as one run and releases it. */
  method SpillSortRun<T(!new)>(cmp: Comparator<T>, format: RunFormat<T>, rows: ChargedRows<T>, files: seq<seq<u8>>,
                               ghost s: SpillState<T>)
    returns (res: Result<()>, files': seq<seq<u8>>, ghost s': SpillState<T>)
    requires rows.Valid() && Lawful(cmp, rows.rows) && SpillOk(cmp, format, files, s)
    modifies rows, rows.budget
    ensures rows.Valid() && rows.budget.charged - old(rows.budget.charged) == rows.charged - old(rows.charged)
    ensures SpillOk(cmp, format, files', s')
    ensures res.Ok? ==> rows.rows == [] && rows.charged == 0 && s'.rows == s.rows + old(rows.rows)
    ensures |files'| >= |files|
    ensures res.Ok? ==> |files'| == |files| + (if old(rows.rows) == [] then 0 else 1)
    ensures Clean(cmp, format, old(rows.rows)) ==> res.Ok?
  {
    files', s' := files, s;
    if rows.rows == [] {
      assert rows.sizes == [];
      return Ok(()), files', s';
    }
    ghost var batch := rows.rows;
    var sorted, out := StableSortBy(cmp, rows.rows);
    rows.rows := out;
    if sorted.Err? { return sorted, files', s'; }
    ghost var order: seq<nat> :| IsStableOrder(cmp, batch, order) && out == Permute(batch, order);
    var file := WriteRun(format, out);
    if file.Err? {
      if Clean(cmp, format, batch) { FramesSucceed(format, out); assert false; }
      return Err(file.error), files', s';
    }
    SpillMore(cmp, format, files, s, batch, order, file.value);
    files', s' := files + [file.value], Extend(s, batch, order);
    var dropped := rows.TakeRows();
    res := Ok(());
  }

  /** One step of the buffering loop: charge the row, spilling first when the
      budget refuses it. */
  method BufferRow<T(!new)>(cmp: Comparator<T>, format: RunFormat<T>, rows: ChargedRows<T>, row: T, files: seq<seq<u8>>,
                            ghost s: SpillState<T>)
    returns (res: Result<()>, files': seq<seq<u8>>, ghost s': SpillState<T>)
    requires rows.Valid() && Lawful(cmp, rows.rows) && SpillOk(cmp, format, files, s)
    modifies rows, rows.budget
    ensures rows.Valid() && rows.budget.charged - old(rows.budget.charged) == rows.charged - old(rows.charged)
    ensures SpillOk(cmp, format, files', s') && |files'| >= |files|
    ensures res.Ok? ==> s'.rows + rows.rows == s.rows + old(rows.rows) + [row] && |rows.rows| > 0
    ensures Clean(cmp, format, old(rows.rows)) && format.charge(row).Ok? ==> res.Ok? || res.error == BudgetExceeded
  {
    files', s' := files, s;
    var charge := format.charge(row);
    if charge.Err? { return Err(charge.error), files', s'; }
    var granted := rows.budget.Charge(charge.value);
    if !granted {
      res, files', s' := SpillSortRun(cmp, format, rows, files, s);
      if res.Err? { return res, files', s'; }
      granted := rows.budget.Charge(charge.value);
      if !granted { return Err(BudgetExceeded), files', s'; }
    }
    ghost var buffered := rows.rows;
    rows.PushCharged(row, charge.value);
    Assoc(s'.rows, buffered, [row]);
    res := Ok(());
  }

  // ----- the buffering phase -----

  lemma LawfulMiddle<T>(cmp: Comparator<T>, a: seq<T>, b: seq<T>, c: seq<T>)
    requires Lawful(cmp, a + b + c)
    ensures Lawful(cmp, b)
  {
    var all := a + b + c;
    forall i, j, k | 0 <= i < |b| && 0 <= j < |b| && 0 <= k < |b| ensures LawfulAt(cmp, b[i], b[j], b[k]) {
      assert LawfulAt(cmp, all[|a| + i], all[|a| + j], all[|a| + k]);
    }
  }

  lemma CleanMiddle<T>(cmp: Comparator<T>, format: RunFormat<T>, a: seq<T>, b: seq<T>, c: seq<T>)
    requires Clean(cmp, format, a + b + c)
    ensures Clean(cmp, format, b)
  {
    var all := a + b + c;
    forall i, j | 0 <= i < j < |b| ensures cmp(b[i], b[j]).Ok? {
      assert cmp(all[|a| + i], all[|a| + j]).Ok?;
    }
    forall i | 0 <= i < |b| ensures format.frame(b[i]).Ok? && format.charge(b[i]).Ok? {
      assert all[|a| + i] == b[i];
    }
  }

  lemma TailFacts<T>(cmp: Comparator<T>, format: RunFormat<T>, a: seq<T>, b: seq<T>)
    requires Lawful(cmp, a + b)
    ensures Lawful(cmp, b) && (Clean(cmp, format, a + b) ==> Clean(cmp, format, b))
  {
    assert a + b + [] == a + b;
    LawfulMiddle(cmp, a, b, []);
    if Clean(cmp, format, a + b) { CleanMiddle(cmp, format, a, b, []); }
  }

  /** Buffers one evaluated chunk; `input` is everything the upstream delivers. */
  method BufferChunk<T(!new)>(cmp: Comparator<T>, format: RunFormat<T>, rows: ChargedRows<T>, chunk: seq<T>,
                              files: seq<seq<u8>>,
                              ghost s: SpillState<T>, ghost input: seq<T>, ghost rest: seq<T>)
    returns (res: Result<()>, files': seq<seq<u8>>, ghost s': SpillState<T>)
    requires rows.Valid() && SpillOk(cmp, format, files, s)
    requires input == s.rows + rows.rows + (chunk + rest) && Lawful(cmp, input)
    modifies rows, rows.budget
    ensures rows.Valid() && rows.budget.charged - old(rows.budget.charged) == rows.charged - old(rows.charged)
    ensures SpillOk(cmp, format, files', s')
    ensures res.Ok? ==> input == s'.rows + rows.rows + rest
    ensures Clean(cmp, format, input) ==> res.Ok? || res.error == BudgetExceeded
  {
    files', s' := files, s;
    var i := 0;
    assert chunk[0..] == chunk;
    while i < |chunk|
      invariant 0 <= i <= |chunk|
      invariant rows.Valid() && rows.budget.charged - old(rows.budget.charged) == rows.charged - old(rows.charged)
      invariant SpillOk(cmp, format, files', s')
      invariant input == s'.rows + rows.rows + (chunk[i..] + rest)
    {
      ghost var before, tail := s'.rows + rows.rows, chunk[i + 1..] + rest;
      LawfulMiddle(cmp, s'.rows, rows.rows, chunk[i..] + rest);
      ghost var buffered := rows.rows;
      ghost var spilled := s'.rows;
      res, files', s' := BufferRow(cmp, format, rows, chunk[i], files', s');
      assert chunk[i..] + rest == [chunk[i]] + tail;
      if res.Err? {
        if Clean(cmp, format, input) {
          CleanMiddle(cmp, format, spilled, buffered, chunk[i..] + rest);
          assert input == before + [chunk[i]] + tail;
          CleanMiddle(cmp, format, before, [chunk[i]], tail);
          assert [chunk[i]][0] == chunk[i];
        }
        return res, files', s';
      }
      Assoc(before, [chunk[i]], tail);
      i := i + 1;
    }
    assert chunk[|chunk|..] + rest == rest;
    res := Ok(());
  }

  /** The pulling loop of initialize: evaluate, validate and buffer every chunk. */
  method PullAll<T(!new)>(cmp: Comparator<T>, format: RunFormat<T>, valid: T -> bool, rows: ChargedRows<T>,
                          source: Source<T>)
    returns (res: Result<()>, upstream: Source<T>, files: seq<seq<u8>>, ghost s: SpillState<T>)
    requires Lawful(cmp, RowsOf(source)) && rows.Valid() && rows.rows == []
    modifies rows, rows.budget
    ensures rows.Valid() && rows.budget.charged - old(rows.budget.charged) == rows.charged - old(rows.charged)
    ensures SpillOk(cmp, format, files, s)
    ensures res.Ok? ==> upstream == [] && AllOk(source) && RowsOf(source) == s.rows + rows.rows
    ensures res.Ok? ==> AllValid(valid, RowsOf(source))
    ensures AllOk(source) && AllValid(valid, RowsOf(source)) && Clean(cmp, format, RowsOf(source)) ==>
              res.Ok? || res.error == BudgetExceeded
  {
    s := SpillState([], [0], []);
    files, upstream := [], source;
    ghost var input := RowsOf(source);
    assert input == s.rows + rows.rows + RowsOf(upstream);
    while upstream != []
      invariant SpillOk(cmp, format, files, s)
      invariant rows.Valid() && rows.budget.charged - old(rows.budget.charged) == rows.charged - old(rows.charged)
      invariant input == s.rows + rows.rows + RowsOf(upstream)
      invariant (AllOk(source) <==> AllOk(upstream)) && AllValid(valid, s.rows + rows.rows)
      decreases |upstream|
    {
      ghost var before := s.rows + rows.rows;
      var next := upstream[0];
      RowsOfStep(upstream);
      upstream := upstream[1..];
      if next.Err? { return Err(next.error), upstream, files, s; }
      var accepted := ValidateAll(valid, next.value);
      if !accepted {
        InvalidInside(valid, s.rows + rows.rows, next.value, RowsOf(upstream));
        return Err(Corrupt), upstream, files, s;
      }
      res, files, s := BufferChunk(cmp, format, rows, next.value, files, s, input, RowsOf(upstream));
      if res.Err? { return res, upstream, files, s; }
      SameFront(before, next.value, s.rows + rows.rows, RowsOf(upstream));
    }
    assert s.rows + rows.rows + [] == s.rows + rows.rows;
    res := Ok(());
  }

  lemma SameFront<T>(before: seq<T>, chunk: seq<T>, after: seq<T>, rest: seq<T>)
    requires before + (chunk + rest) == after + rest
    ensures after == before + chunk
  {
    Assoc(before, chunk, rest);
    assert |after| == |before + chunk|;
    assert after == (after + rest)[..|after|] && before + chunk == (before + chunk + rest)[..|after|];
  }

  ghost predicate AllValid<T>(valid: T -> bool, rows: seq<T>)
  {
    forall i :: 0 <= i < |rows| ==> valid(rows[i])
  }

  method ValidateAll<T>(valid: T -> bool, rows: seq<T>) returns (accepted: bool)
    ensures accepted <==> AllValid(valid, rows)
  {
    for i := 0 to |rows|
      invariant forall j :: 0 <= j < i ==> valid(rows[j])
    {
      if !valid(rows[i]) { return false; }
    }
    accepted := true;
  }

  lemma InvalidInside<T>(valid: T -> bool, before: seq<T>, chunk: seq<T>, rest: seq<T>)
    requires !AllValid(valid, chunk)
    ensures !AllValid(valid, before + (chunk + rest))
  {
    var i :| 0 <= i < |chunk| && !valid(chunk[i]);
    assert (before + (chunk + rest))[|before| + i] == chunk[i];
  }

  // ----- the operator -----

  function ValuesOf(rows: seq<SortRow>): (values: seq<Row>)
    ensures |values| == |rows|
  {
    seq(|rows|, i requires 0 <= i < |rows| => rows[i].values)
  }

  lemma ValuesOfSplit(a: seq<SortRow>, b: seq<SortRow>)
    requires a <= b
    ensures ValuesOf(b) == ValuesOf(a) + ValuesOf(b[|a|..])
  {
  }

  class Sort {
    const orders: seq<SortOrder>
    const cmp: Comparator<SortRow>
    const format: RunFormat<SortRow>
    const budget: MemoryBudget
    var upstream: Source<SortRow>
    var files: seq<seq<u8>>
    var ready: bool
    /** initialization_error: the latch that replays a terminal failure. */
    var failed: Option<Error>
    /** SortOutput::InMemory */
    var chunks: seq<seq<SortRow>>
    /** SortOutput::External */
    var merge: RunMerger?<SortRow>

    /** Everything the upstream delivers, and what has been emitted of it. */
    ghost const valueCount: nat
    ghost const source: Source<SortRow>
    ghost var delivered: seq<SortRow>
    /** How the input was cut and sorted into runs. */
    ghost var bounds: seq<nat>
    ghost var inner: seq<nat>

    ghost function Input(): seq<SortRow>
    {
      RowsOf(source)
    }

    /** The comparison is by the sort keys, and every row carries one value for each. */
    ghost predicate Keyed()
    {
      cmp == SortComparator(orders) && RowsShape(Input(), valueCount, |orders|)
    }

    ghost predicate ReadyInMemory()
      reads this
    {
      IsStableSort(cmp, Input(), delivered + Flatten(chunks)) && GoodChunks(chunks)
    }

    ghost predicate ReadyExternal()
      reads this, merge, budget
      requires merge != null
    {
      && merge.budget == budget && merge.cmp == cmp && merge.spec == cmp && merge.format == format && merge.Valid()
      && SortsEachRun(cmp, Input(), bounds, inner)
      && merge.progress.rows == Permute(Input(), inner)
      && delivered == Permute(merge.progress.rows, merge.progress.emitted)
    }

    ghost predicate Valid()
      reads this, merge, budget
    {
      && Keyed() && Lawful(cmp, Input()) && Faithful(format, Input())
      && (!ready ==> merge == null && delivered == [] && (failed.None? ==> upstream == source && files == []))
      && (ready ==> AllOk(source) && AllValid(ValidSortKeys, Input()))
      && (ready ==> if merge == null then ReadyInMemory() else ReadyExternal())
    }

    /** The charge this operator still holds. */
    ghost function Held(): nat
      reads this, merge
    {
      if merge == null then 0 else HeldBytes(merge.cursors)
    }

    /** No failure other than a refused charge is possible. */
    ghost predicate OnlyBudgetCanFail()
    {
      AllOk(source) && Clean(cmp, format, Input()) && AllValid(ValidSortKeys, Input())
    }

    constructor (orders: seq<SortOrder>, valueCount: nat, budget: MemoryBudget, source: Source<SortRow>)
      requires RowsShape(RowsOf(source), valueCount, |orders|)
      ensures Valid() && !ready && failed.None? && this.source == source && this.budget == budget
      ensures this.orders == orders && cmp == SortComparator(orders) && format == SortFormat(valueCount, |orders|)
    {
      this.orders, this.valueCount := orders, valueCount;
      cmp, format := SortComparator(orders), SortFormat(valueCount, |orders|);
      this.budget, this.source, upstream := budget, source, source;
      files, ready, failed, chunks, merge, delivered := [], false, None, [], null, [];
      bounds, inner := [], [];
      new;
      SortComparatorLawful(orders, RowsOf(source), valueCount);
      SortFormatFaithful(RowsOf(source), valueCount, |orders|);
    }

    /** Sort::initialize. Every exit leaves exactly the output's charge behind. */
    method Initialize() returns (res: Result<()>)
      requires Valid() && !ready && failed.None?
      modifies this, budget
      ensures res.Ok? ==> Valid() && ready && delivered == []
      ensures res.Err? ==> !ready && merge == null && delivered == []
      ensures Held() == 0 && budget.charged == old(budget.charged)
      ensures merge != null ==> fresh(merge)
      ensures OnlyBudgetCanFail() ==> res.Ok? || res.error == BudgetExceeded
    {
      var rows := new ChargedRows<SortRow>(budget);
      ghost var s;
      res, upstream, files, s := PullAll(cmp, format, ValidSortKeys, rows, upstream);
      if res.Err? { rows.Release(); return; }
      res := Finish(rows, s);
      ready := res.Ok?;
    }

    /** The end of initialize: in memory, or from the runs when some were spilled. */
    method Finish(rows: ChargedRows<SortRow>, ghost s: SpillState<SortRow>) returns (res: Result<()>)
      requires Lawful(cmp, Input()) && Faithful(format, Input()) && merge == null && delivered == []
      requires rows.budget == budget && rows.Valid() && SpillOk(cmp, format, files, s) && Input() == s.rows + rows.rows
      modifies this`chunks, this`files, this`merge, this`bounds, this`inner, rows, budget
      ensures res.Ok? ==> if merge == null then ReadyInMemory() else fresh(merge) && ReadyExternal()
      ensures res.Err? ==> merge == null
      ensures Held() == 0 && budget.charged == old(budget.charged) - old(rows.charged)
      ensures Clean(cmp, format, Input()) ==> res.Ok?
    {
      TailFacts(cmp, format, s.rows, rows.rows);
      if files == [] {
        assert s.rows == [] && s.rows + rows.rows == rows.rows;
        res := FinishInMemory(rows);
      } else {
        res := FinishExternal(rows, s);
      }
    }

    /** No charge was refused: sort the buffer and cut it into chunks. */
    method FinishInMemory(rows: ChargedRows<SortRow>) returns (res: Result<()>)
      requires Lawful(cmp, Input()) && delivered == []
      requires rows.budget == budget && rows.Valid() && rows.rows == Input()
      modifies this`chunks, rows, budget
      ensures res.Ok? ==> ReadyInMemory()
      ensures budget.charged == old(budget.charged) - old(rows.charged)
      ensures AllComparable(cmp, Input()) ==> res.Ok?
    {
      var sorted, out := StableSortBy(cmp, rows.rows);
      rows.rows := out;
      if sorted.Err? { rows.Release(); return sorted; }
      var taken := rows.TakeRows();
      chunks := BuildOutputChunks(taken);
      assert delivered + Flatten(chunks) == out;
      res := Ok(());
    }

    /** Spill what is left and open the merge. */
    method FinishExternal(rows: ChargedRows<SortRow>, ghost s: SpillState<SortRow>) returns (res: Result<()>)
      requires Lawful(cmp, Input()) && Faithful(format, Input()) && merge == null && delivered == []
      requires rows.budget == budget && rows.Valid() && SpillOk(cmp, format, files, s) && Input() == s.rows + rows.rows
      requires Lawful(cmp, rows.rows)
      modifies this`files, this`merge, this`bounds, this`inner, rows, budget
      ensures res.Ok? ==> merge != null && fresh(merge) && ReadyExternal() && Held() == 0
      ensures res.Err? ==> merge == null
      ensures budget.charged == old(budget.charged) - old(rows.charged)
      ensures Clean(cmp, format, old(rows.rows)) ==> res.Ok?
    {
      ghost var t;
      res, files, t := SpillSortRun(cmp, format, rows, files, s);
      if res.Err? { rows.Release(); return; }
      bounds, inner := t.bounds, t.inner;
      OpenMerge();
    }

    method OpenMerge()
      requires Lawful(cmp, Input()) && Faithful(format, Input()) && delivered == []
      requires SpillOk(cmp, format, files, SpillState(Input(), bounds, inner))
      modifies this`merge
      ensures merge != null && fresh(merge) && ReadyExternal() && Held() == 0
    {
      SortedRunsAscend(cmp, Input(), bounds, inner);
      FaithfulPermute(format, Input(), inner);
      ExtendsItself(cmp, Permute(Input(), inner));
      merge := new RunMerger(cmp, cmp, format, budget, files, Permute(Input(), inner), bounds);
      assert merge.progress.emitted == [] && Permute(merge.progress.rows, []) == [];
    }

    lemma DeliveredBound()
      requires Valid() && ready
      ensures |delivered| <= |Input()|
    {
      if merge != null { EmittedFits(cmp, merge.progress); }
    }

    /** When the merge is exhausted, what was emitted is the stable sort of the input. */
    lemma ExternalComplete()
      requires Valid() && ready && merge != null
      requires IsStableOrder(cmp, merge.progress.rows, merge.progress.emitted)
      ensures IsStableSort(cmp, Input(), delivered)
    {
      var outer := merge.progress.emitted;
      RunsCompose(cmp, Input(), bounds, inner, outer);
      var order := Permute(inner, outer);
      assert IsStableOrder(cmp, Input(), order) && delivered == Permute(Input(), order);
    }

    lemma OnlyChargesFail()
      requires Valid() && ready && merge != null && OnlyBudgetCanFail()
      ensures AllComparable(cmp, merge.progress.rows)
      ensures forall i :: 0 <= i < |merge.progress.rows| ==> format.charge(merge.progress.rows[i]).Ok?
    {
      ComparablePermute(cmp, Input(), inner);
    }

    /** SortMerge::take_next_row */
    method TakeNextRow() returns (res: Result<Option<SortRow>>)
      requires Valid() && ready && merge != null
      modifies this`delivered, merge, budget
      ensures Valid()
      ensures budget.charged - old(budget.charged) == Held() - old(Held())
      ensures res.Ok? && res.value.Some? ==> delivered == old(delivered) + [res.value.value]
      ensures res.Err? || res.value.None? ==> delivered == old(delivered)
      ensures res == Ok(None) ==> IsStableSort(cmp, Input(), delivered)
      ensures OnlyBudgetCanFail() ==> res.Ok? || res.error == BudgetExceeded
    {
      if OnlyBudgetCanFail() { OnlyChargesFail(); }
      res := merge.TakeNext();
      if res.Ok? {
        if res.value.Some? {
          delivered := delivered + [res.value.value];
        } else {
          ExternalComplete();
        }
      }
    }

    /** SortMerge::next_chunk: rows from the merge until the chunk is full. */
    method NextMergeChunk() returns (res: Result<Option<seq<Row>>>)
      requires Valid() && ready && merge != null
      modifies this`delivered, merge, budget
      ensures Valid() && old(delivered) <= delivered
      ensures budget.charged - old(budget.charged) == Held() - old(Held())
      ensures res.Ok? && res.value.Some? ==>
                && 0 < |res.value.value| <= CHUNK_CAPACITY
                && res.value.value == ValuesOf(delivered[|old(delivered)|..])
      ensures res == Ok(None) ==> delivered == old(delivered) && IsStableSort(cmp, Input(), delivered)
      ensures OnlyBudgetCanFail() ==> res.Ok? || res.error == BudgetExceeded
    {
      var chunk: seq<Row> := [];
      ghost var taken: seq<SortRow> := [];
      while |chunk| < CHUNK_CAPACITY
        invariant Valid() && |chunk| <= CHUNK_CAPACITY
        invariant budget.charged - old(budget.charged) == Held() - old(Held())
        invariant delivered == old(delivered) + taken && chunk == ValuesOf(taken)
        decreases CHUNK_CAPACITY - |chunk|
      {
        var next := TakeNextRow();
        if next.Err? { return Err(next.error); }
        if next.value.None? { break; }
        Assoc(old(delivered), taken, [next.value.value]);
        taken := taken + [next.value.value];
        chunk := chunk + [next.value.value.values];
      }
      assert delivered[|old(delivered)|..] == taken;
      res := Ok(if chunk == [] then None else Some(chunk));
    }

    /** Sort::next_chunk. What has been emitted only grows, chunk by nonempty
        chunk; None means that the whole stable sort has been emitted; a failed
        initialization is replayed without touching the upstream again. */
    method NextChunk() returns (res: Result<Option<seq<Row>>>)
      requires Valid()
      modifies this, merge, budget
      ensures Valid() && old(delivered) <= delivered
      ensures merge != old(merge) ==> fresh(merge)
      ensures budget.charged - old(budget.charged) == Held() - old(Held())
      ensures res.Ok? ==> ready
      ensures res.Ok? && res.value.Some? ==>
                && 0 < |res.value.value| <= CHUNK_CAPACITY
                && res.value.value == ValuesOf(delivered[|old(delivered)|..])
      ensures res == Ok(None) ==> delivered == old(delivered) && IsStableSort(cmp, Input(), delivered)
      ensures old(failed).Some? && !old(ready) ==> res == Err(old(failed).value) && upstream == old(upstream)
      ensures (old(ready) || old(failed).None?) && OnlyBudgetCanFail() ==> res.Ok? || res.error == BudgetExceeded
    {
      if !ready {
        if failed.Some? { return Err(failed.value); }
        var started := Initialize();
        if started.Err? {
          failed := Some(started.error);
          return Err(started.error);
        }
      }
      if merge == null {
        if chunks == [] {
          assert delivered + Flatten(chunks) == delivered;
          return Ok(None);
        }
        var chunk := chunks[0];
        Assoc(delivered, chunk, Flatten(chunks[1..]));
        ghost var before := delivered;
        delivered := delivered + chunk;
        chunks := chunks[1..];
        assert delivered[|before|..] == chunk;
        res := Ok(Some(ValuesOf(chunk)));
      } else {
        res := NextMergeChunk();
      }
    }

    /** Pulls the operator dry: a successful run returns exactly the stable sort
        of the whole upstream, whatever charges were refused on the way. */
    method Collect() returns (res: Result<seq<Row>>)
      requires Valid() && !ready && failed.None?
      modifies this, merge, budget
      ensures res.Ok? ==> SortedByKeys(orders, Input(), delivered) && res.value == ValuesOf(delivered)
      ensures res.Ok? ==> IsStableSort(cmp, Input(), delivered)
      ensures res.Ok? ==> AllOk(source) && AllOrderable(Input())
      ensures Valid() && budget.charged - old(budget.charged) == Held()
      ensures OnlyBudgetCanFail() ==> res.Ok? || res.error == BudgetExceeded
    {
      var out: seq<Row> := [];
      var first := NextChunk();
      while first.Ok? && first.value.Some?
        invariant Valid() && (first.Ok? ==> ready)
        invariant merge != null ==> fresh(merge)
        invariant budget.charged - old(budget.charged) == Held()
        invariant first.Ok? && first.value.Some? ==> out + first.value.value == ValuesOf(delivered)
        invariant first == Ok(None) ==> out == ValuesOf(delivered) && IsStableSort(cmp, Input(), delivered)
        invariant OnlyBudgetCanFail() ==> first.Ok? || first.error == BudgetExceeded
        decreases if first.Ok? && first.value.Some? then |Input()| - |delivered| + 1 else 0
      {
        out := out + first.value.value;
        ghost var before := delivered;
        DeliveredBound();
        first := NextChunk();
        if first.Ok? {
          DeliveredBound();
          if first.value.Some? {
            ValuesOfSplit(before, delivered);
          }
        }
      }
      if first.Ok? {
        StableSortMeans(orders, Input(), valueCount, delivered);
        ValidKeysMean(Input());
      }
      res := if first.Ok? then Ok(out) else Err(first.error);
    }

    /** Dropping the operator returns everything it still holds. */
    method Drop()
      requires Valid() && Held() <= budget.charged
      modifies this`merge, merge, budget
      ensures merge == null && budget.charged == old(budget.charged) - old(Held())
    {
      if merge != null {
        merge.Drop();
        merge := null;
      }
    }
  }

  lemma FaithfulPermute<T>(format: RunFormat<T>, rows: seq<T>, order: seq<nat>)
    requires Faithful(format, rows) && Positions(rows, order)
    ensures Faithful(format, Permute(rows, order))
  {
    forall i | 0 <= i < |order| ensures ReadsBack(format, Permute(rows, order)[i]) {
      assert ReadsBack(format, rows[order[i]]);
    }
  }

  /** Two successful runs over the same upstream emit the same rows, whichever
      charges each of them saw refused. */
  lemma RefusalsAreInvisible(orders: seq<SortOrder>, rows: seq<SortRow>, valueCount: nat, a: seq<SortRow>,
                             b: seq<SortRow>)
    requires RowsShape(rows, valueCount, |orders|)
    requires IsStableSort(SortComparator(orders), rows, a) && IsStableSort(SortComparator(orders), rows, b)
    ensures ValuesOf(a) == ValuesOf(b)
  {
    SortComparatorLawful(orders, rows, valueCount);
    StableSortUnique(SortComparator(orders), rows, a, b);
  }
}
