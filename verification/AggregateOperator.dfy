/** The Aggregate operator: streaming, typed hash groups with fallback, buffered
    sort and external merge, all under a budget that may refuse any charge. */
module AggregateOperator {
  import opened Values
  import opened MergeSort
  import opened Budget
  import opened RunMerge
  import opened MergeProgress
  import opened Spilling
  import opened Grouping
  import opened Columns
  import opened AggregateStates
  import opened AggregateRecords
  import opened MergedGroups
  import opened AggregateSpill
  import opened AggregateRuns
  import opened AggregateGroups
  import opened AggregateMerges
  import opened TypedGroups
  import opened AggregateInputs
  import opened AggregateMeaning

  // ----- typed hash groups -----

  predicate AllDirect(ops: seq<Operand>)
  {
    forall i :: 0 <= i < |ops| ==> ops[i].Direct?
  }

  function Indices(ops: seq<Operand>): (s: seq<nat>)
    requires AllDirect(ops)
    ensures |s| == |ops| && forall i :: 0 <= i < |ops| ==> s[i] == ops[i].index
  {
    seq(|ops|, i requires 0 <= i < |ops| => ops[i].index)
  }

  /** typed_grouped_layout: only groupings of direct columns without percentiles. */
  function TypedLayout(p: Plan): (layout: Option<Layout>)
    ensures layout.Some? <==>
            p.group != [] && PercentileCont !in p.query.aggs && AllDirect(p.group) && AllDirect(p.operands)
  {
    if p.group == [] || PercentileCont in p.query.aggs || !AllDirect(p.group) || !AllDirect(p.operands) then None
    else Some(Layout(Indices(p.group), Indices(p.operands)))
  }

  /** On a supported chunk the columns hold exactly the evaluated inputs. */
  lemma LayoutReads(p: Plan, chunk: Chunk)
    requires TypedLayout(p).Some? && Supports(TypedLayout(p).value, chunk)
    ensures ChunkRows(p, chunk) == Ok(ReadRows(TypedLayout(p).value, chunk, chunk.rowCount))
  {
    var layout := TypedLayout(p).value;
    DirectReads(p.group, chunk);
    DirectReads(p.operands, chunk);
    var rows := ChunkRows(p, chunk).value;
    forall i | 0 <= i < chunk.rowCount ensures rows[i] == ReadRows(layout, chunk, chunk.rowCount)[i] {
      assert RowAt(AllValues(p.group, chunk).value, i) == ReadRow(chunk, layout.groupColumns, i);
      assert RowAt(AllValues(p.operands, chunk).value, i) == ReadRow(chunk, layout.aggregateColumns, i);
    }
    assert rows == ReadRows(layout, chunk, chunk.rowCount);
  }

  lemma DirectReads(ops: seq<Operand>, chunk: Chunk)
    requires AllDirect(ops) && AllPrimitive(chunk, Indices(ops))
    ensures AllValues(ops, chunk).Ok?
    ensures forall c :: 0 <= c < |ops| ==>
              Primitive(chunk, ops[c].index) &&
              AllValues(ops, chunk).value[c] == Materialized(chunk.columns[ops[c].index])
  {
    forall c | 0 <= c < |ops| ensures Primitive(chunk, ops[c].index) { assert Primitive(chunk, Indices(ops)[c]); }
  }

  /** typed_value_charge */
  function TypedValueCharge(c: Column, row: nat): nat
  {
    if c.Decimals? && IsValid(c.validity, row) then 24 else 16
  }

  /** typed_aggregate_chunk_charge */
  method TypedChunkCharge(chunk: Chunk, layout: Layout) returns (res: Result<nat>)
    requires Supports(layout, chunk)
    ensures res.Ok? ==> res.value >= BUFFERED_ROW_OVERHEAD_BYTES * chunk.rowCount
  {
    var total := 0;
    var columns := layout.groupColumns + layout.aggregateColumns;
    for row := 0 to chunk.rowCount
      invariant total >= BUFFERED_ROW_OVERHEAD_BYTES * row
    {
      var charge := BUFFERED_ROW_OVERHEAD_BYTES;
      for c := 0 to |columns|
        invariant charge >= BUFFERED_ROW_OVERHEAD_BYTES
      {
        assert Primitive(chunk, columns[c]) by {
          if c < |layout.groupColumns| { assert Primitive(chunk, layout.groupColumns[c]); }
          else { assert Primitive(chunk, layout.aggregateColumns[c - |layout.groupColumns|]); }
        }
        charge := charge + TypedValueCharge(chunk.columns[columns[c]], row);
        if charge > USIZE_MAX { return Err(InvalidArgument); }
      }
      total := total + charge;
      if total > USIZE_MAX { return Err(InvalidArgument); }
    }
    res := Ok(total);
  }

  /** TypedAggregateCharge */
  class TypedAggregateCharge {
    const budget: MemoryBudget
    var bytes: nat

    constructor (budget: MemoryBudget)
      ensures bytes == 0 && this.budget == budget
    {
      this.budget, bytes := budget, 0;
    }

    method TryGrow(more: nat) returns (res: Result<bool>)
      modifies this, budget
      ensures budget.charged - old(budget.charged) == bytes - old(bytes)
      ensures bytes == old(bytes) + if res == Ok(true) then more else 0
    {
      var total := bytes + more;
      if total > USIZE_MAX { return Err(InvalidArgument); }
      var granted := budget.Charge(more);
      if granted { bytes := total; }
      res := Ok(granted);
    }

    method Release()
      requires bytes <= budget.charged
      modifies this, budget
      ensures bytes == 0 && budget.charged == old(budget.charged) - old(bytes)
    {
      budget.Release(bytes);
      bytes := 0;
    }
  }

  /** What the typed strategy ends with: an answer, or the chunks to replay. */
  datatype TypedOutcome = Finished(rows: seq<Row>) | Fallback(consumed: seq<Chunk>)

  /** The chunks pulled so far, as the upstream delivered them. */
  ghost predicate Consumed(source: ChunkSource, consumed: seq<Chunk>)
  {
    |consumed| <= |source| && forall i :: 0 <= i < |consumed| ==> source[i] == Ok(consumed[i])
  }

  /** Whether the typed strategy may take the chunk: its columns are primitive and
      its charge is granted. */
  method Admit(layout: Layout, chunk: Chunk, charge: TypedAggregateCharge) returns (res: Result<bool>)
    modifies charge, charge.budget
    ensures charge.budget.charged - old(charge.budget.charged) == charge.bytes - old(charge.bytes)
    ensures charge.bytes >= old(charge.bytes)
    ensures res == Ok(true) ==> Supports(layout, chunk)
  {
    if !Supports(layout, chunk) { return Ok(false); }
    var bytes := TypedChunkCharge(chunk, layout);
    if bytes.Err? { return Err(bytes.error); }
    res := charge.TryGrow(bytes.value);
  }

  /** initialize_typed_grouped. On fallback, exactly the chunks pulled so far are
      handed over; on every exit the charge is back. */
  method TypedStrategy(p: Plan, layout: Layout, budget: MemoryBudget, source: ChunkSource)
    returns (res: Result<TypedOutcome>, pulled: nat)
    requires TypedLayout(p) == Some(layout) && |p.operands| == |p.query.aggs| == |p.query.types|
    modifies budget
    ensures budget.charged == old(budget.charged)
    ensures res.Ok? && res.value.Finished? ==>
              pulled == |source| && InputsOf(p, source).Ok? &&
              IsAnswer(GroupAnswer(p.query), |p.group|, InputsOf(p, source).value, res.value.rows)
    ensures res.Ok? && res.value.Fallback? ==> pulled == |res.value.consumed| && Consumed(source, res.value.consumed)
    ensures pulled <= |source|
  {
    var charge := new TypedAggregateCharge(budget);
    var consumed: seq<Chunk> := [];
    var lookup: map<seq<TypedGroupValue>, nat> := map[];
    var groups: seq<TypedGroup> := [];
    pulled := 0;
    assert InputsOf(p, source[..0]) == Ok([]);
    while pulled < |source|
      invariant pulled == |consumed| && Consumed(source, consumed)
      invariant budget.charged == old(budget.charged) + charge.bytes
      invariant InputsOf(p, source[..pulled]).Ok?
      invariant Indexed(InputsOf(p, source[..pulled]).value, lookup, groups)
      invariant AllFolded(p.query, InputsOf(p, source[..pulled]).value, groups)
    {
      var next := source[pulled];
      if next.Err? { charge.Release(); return Err(next.error), pulled + 1; }
      var chunk := next.value;
      var admitted := Admit(layout, chunk, charge);
      if admitted.Err? { charge.Release(); return Err(admitted.error), pulled + 1; }
      if !admitted.value {
        charge.Release();
        return Ok(Fallback(consumed + [chunk])), pulled + 1;
      }
      ghost var seen := InputsOf(p, source[..pulled]).value;
      var appended;
      appended, lookup, groups := AppendTypedChunk(p.query, layout, chunk, lookup, groups, seen);
      if appended.Err? { charge.Release(); return Err(appended.error), pulled + 1; }
      LayoutReads(p, chunk);
      InputsLast(p, source, pulled);
      consumed := consumed + [chunk];
      pulled := pulled + 1;
    }
    charge.Release();
    assert source[..pulled] == source;
    var rows := FinishTypedGroups(p.query, |p.group|, groups, lookup, InputsOf(p, source).value);
    if rows.Err? { return Err(rows.error), pulled; }
    res := Ok(Finished(rows.value));
  }

  // ----- buffering and spilling -----

  /** What has been buffered and spilled so far is `input`, in order. */
  ghost predicate BufferedTo(rows: ChargedRows<InputRow>, files: seq<seq<u8>>, g: Runs, done: seq<InputRow>,
                             input: seq<InputRow>, p: Plan)
    reads rows, rows.budget
  {
    && rows.Valid() && Spilled(files, g, done, |p.group|, p.query.aggs)
    && InputsShape(rows.rows, |p.group|, p.query.aggs)
    && done + rows.rows == input && (files == [] <==> done == [])
  }

  /** One row of buffer_aggregate_chunk: charge it, spilling first when refused. */
  method BufferRow(p: Plan, rows: ChargedRows<InputRow>, row: InputRow, files: seq<seq<u8>>, ghost g: Runs,
                   ghost done: seq<InputRow>, ghost input: seq<InputRow>)
    returns (res: Result<()>, files': seq<seq<u8>>, ghost g': Runs, ghost done': seq<InputRow>)
    requires BufferedTo(rows, files, g, done, input, p) && InputShape(row, |p.group|, p.query.aggs)
    modifies rows, rows.budget
    ensures rows.Valid() && rows.budget.charged - old(rows.budget.charged) == rows.charged - old(rows.charged)
    ensures res.Ok? ==> BufferedTo(rows, files', g', done', input + [row], p)
  {
    files', g', done' := files, g, done;
    var charge := RecordCharge(AsRecord(row));
    if charge.Err? { return Err(charge.error), files', g', done'; }
    var granted := rows.budget.Charge(charge.value);
    if !granted {
      done' := done + rows.rows;
      res, files', g' := SpillAggregateRun(rows, files, |p.group|, p.query.aggs, g, done);
      if res.Err? { return; }
      granted := rows.budget.Charge(charge.value);
      if !granted { res := Err(BudgetExceeded); return; }
    }
    ghost var buffered := rows.rows;
    rows.PushCharged(row, charge.value);
    Assoc(done', buffered, [row]);
    res := Ok(());
  }

  /** buffer_aggregate_chunk */
  method BufferChunk(p: Plan, rows: ChargedRows<InputRow>, chunk: Chunk, files: seq<seq<u8>>, ghost g: Runs,
                     ghost done: seq<InputRow>, ghost input: seq<InputRow>)
    returns (res: Result<()>, files': seq<seq<u8>>, ghost g': Runs, ghost done': seq<InputRow>)
    requires BufferedTo(rows, files, g, done, input, p)
    requires ChunkRows(p, chunk).Ok? ==> InputsShape(ChunkRows(p, chunk).value, |p.group|, p.query.aggs)
    modifies rows, rows.budget
    ensures rows.Valid() && rows.budget.charged - old(rows.budget.charged) == rows.charged - old(rows.charged)
    ensures res.Ok? ==>
              ChunkRows(p, chunk).Ok? && BufferedTo(rows, files', g', done', input + ChunkRows(p, chunk).value, p)
  {
    files', g', done' := files, g, done;
    var evaluated := ChunkRows(p, chunk);
    if evaluated.Err? { return Err(evaluated.error), files', g', done'; }
    var all := evaluated.value;
    assert input + all[..0] == input;
    for i := 0 to |all|
      invariant rows.budget.charged - old(rows.budget.charged) == rows.charged - old(rows.charged)
      invariant BufferedTo(rows, files', g', done', input + all[..i], p)
    {
      Grow(input, all, i);
      res, files', g', done' := BufferRow(p, rows, all[i], files', g', done', input + all[..i]);
      if res.Err? { return; }
    }
    assert all[..|all|] == all;
    res := Ok(());
  }

  /** Every evaluated input has the plan's widths and well-formed values. */
  ghost predicate GoodSource(p: Plan, source: ChunkSource)
  {
    forall c :: 0 <= c < |source| && source[c].Ok? && ChunkRows(p, source[c].value).Ok? ==>
      InputsShape(ChunkRows(p, source[c].value).value, |p.group|, p.query.aggs)
  }

  /** The buffering phase of initialize_buffered_legacy: the chunks handed over,
      which are the ones already pulled, then the rest of the upstream. */
  method BufferAll(p: Plan, rows: ChargedRows<InputRow>, initial: seq<Chunk>, source: ChunkSource, pulled: nat)
    returns (res: Result<()>, pulled': nat, files: seq<seq<u8>>, ghost g: Runs, ghost done: seq<InputRow>)
    requires rows.Valid() && rows.rows == [] && GoodSource(p, source)
    requires Consumed(source, initial) && pulled == |initial|
    modifies rows, rows.budget
    ensures rows.Valid() && rows.budget.charged - old(rows.budget.charged) == rows.charged - old(rows.charged)
    ensures pulled <= pulled' <= |source| && (res.Ok? ==> pulled' == |source|)
    ensures res.Ok? ==> InputsOf(p, source).Ok? && BufferedTo(rows, files, g, done, InputsOf(p, source).value, p)
  {
    pulled', files, g, done := pulled, [], Runs([], [0]), [];
    NothingSpilled(p.query.aggs);
    assert InputsOf(p, source[..0]) == Ok([]);
    var n := 0;
    while n < |initial| || pulled' < |source|
      invariant 0 <= n <= pulled' <= |source| && pulled <= pulled' && (n < |initial| ==> pulled' == pulled)
      invariant n >= |initial| ==> pulled' == n
      invariant InputsOf(p, source[..n]).Ok?
      invariant rows.budget.charged - old(rows.budget.charged) == rows.charged - old(rows.charged)
      invariant BufferedTo(rows, files, g, done, InputsOf(p, source[..n]).value, p)
      decreases |source| - n
    {
      var next;
      if n < |initial| {
        next := Ok(initial[n]);
      } else {
        next, pulled' := source[pulled'], pulled' + 1;
      }
      if next.Err? { return Err(next.error), pulled', files, g, done; }
      res, files, g, done := BufferChunk(p, rows, next.value, files, g, done, InputsOf(p, source[..n]).value);
      if res.Err? { return; }
      InputsLast(p, source, n);
      n := n + 1;
    }
    assert source[..|source|] == source;
    res := Ok(());
  }

  // ----- the operator -----

  lemma {:induction false} GoodInputs(p: Plan, source: ChunkSource)
    requires GoodSource(p, source) && InputsOf(p, source).Ok?
    ensures InputsShape(InputsOf(p, source).value, |p.group|, p.query.aggs)
    ensures KeyWidths(|p.group|, InputsOf(p, source).value)
  {
    if source != [] {
      var n := |source| - 1;
      GoodInputs(p, source[..n]);
      InputsLast(p, source, n);
      assert source[..n + 1] == source;
      assert InputsShape(ChunkRows(p, source[n].value).value, |p.group|, p.query.aggs);
    }
    InputsKeys(p, source);
  }

  /** What a successful run must emit. */
  ghost predicate IsResult(p: Plan, source: ChunkSource, out: seq<Row>)
    requires |p.query.aggs| == |p.query.types|
  {
    InputsOf(p, source).Ok? && IsAnswer(GroupAnswer(p.query), |p.group|, InputsOf(p, source).value, out)
  }

  /** The in-memory end of initialize_buffered_legacy. */
  method FinishBuffered(p: Plan, rows: ChargedRows<InputRow>, ghost input: seq<InputRow>)
    returns (res: Result<seq<Row>>)
    requires rows.Valid() && rows.rows == input && InputsShape(input, |p.group|, p.query.aggs)
    requires |p.query.aggs| == |p.query.types|
    modifies rows, rows.budget
    ensures rows.budget.charged == old(rows.budget.charged) - old(rows.charged)
    ensures res.Ok? ==> IsAnswer(GroupAnswer(p.query), |p.group|, input, res.value)
  {
    CompareKeysLawful(rows.rows);
    var ok, sorted := StableSortBy(CompareKeys, rows.rows);
    rows.rows := sorted;
    if ok.Err? { rows.Release(); return Err(ok.error); }
    SortedByKey(input, sorted);
    SameShapes(input, sorted, |p.group|, p.query.aggs);
    assert |sorted| == |multiset(sorted)| == |multiset(input)| == |input|;
    var taken := rows.TakeRows();
    res := AggregateSorted(p.query, |p.group|, taken, input);
  }

  class Aggregate {
    const plan: Plan
    const budget: MemoryBudget
    /** The upstream, chunk by chunk. */
    const source: ChunkSource
    var ready: bool
    /** initialization_error: the latch that replays a terminal failure. */
    var failed: Option<Error>
    /** AggregateOutput::InMemory */
    var chunks: seq<seq<Row>>
    /** AggregateOutput::External */
    var merge: AggregateMerge?
    /** AggregateOutput::External of an aggregation without functions: its run files. */
    var runs: seq<seq<u8>>
    /** How much of the upstream has been pulled. */
    var pulled: nat
    /** What has been emitted, and whether a pull failed after initialization. */
    ghost var delivered: seq<Row>
    ghost var broken: bool

    ghost predicate Typed() { |plan.operands| == |plan.query.aggs| == |plan.query.types| }

    ghost predicate ReadyInMemory()
      reads this
      requires Typed()
    {
      GoodChunks(chunks) && (!broken ==> IsResult(plan, source, delivered + Flatten(chunks)))
    }

    ghost predicate ReadyExternal()
      reads this, merge, if merge == null then {} else {merge.merger, merge.merger.budget}
      requires merge != null
    {
      && merge.Valid() && merge.Founded() && merge.query == plan.query && merge.groupCount == |plan.group|
      && merge.merger.budget == budget && InputsOf(plan, source) == Ok(merge.rows) && (broken <==> merge.broken)
      && (!broken ==> delivered == merge.emitted)
    }

    /** Runs that were written without aggregate functions cannot be read. */
    predicate Unreadable()
      reads this
    {
      runs != []
    }

    ghost predicate Valid()
      reads this, merge, if merge == null then {} else {merge.merger, merge.merger.budget}
    {
      && GoodSource(plan, source) && |plan.operands| == |plan.query.aggs| && pulled <= |source|
      && (!ready ==> merge == null && delivered == [] && !broken && !Unreadable() && (failed.None? ==> pulled == 0))
      && (ready ==> Typed() && pulled == |source|)
      && (ready && !Unreadable() ==> if merge == null then ReadyInMemory() else ReadyExternal())
      && (Unreadable() ==> merge == null && ReadRecord(|plan.group|, plan.query.aggs, runs[0]) == Err(Corrupt))
    }

    /** The charge this operator still holds. */
    ghost function Held(): nat
      reads this, merge, if merge == null then {} else {merge.merger}
    {
      if merge == null then 0 else HeldBytes(merge.merger.cursors)
    }

    constructor (plan: Plan, budget: MemoryBudget, source: ChunkSource)
      requires |plan.operands| == |plan.query.aggs| && GoodSource(plan, source)
      ensures Valid() && !ready && failed.None? && !broken
      ensures this.plan == plan && this.budget == budget && this.source == source
    {
      this.plan, this.budget, this.source := plan, budget, source;
      ready, failed, chunks, merge, runs, pulled, delivered, broken := false, None, [], null, [], 0, [], false;
    }

    /** Aggregate::initialize. Every exit leaves the budget as it was, and a
        successful one has pulled the whole upstream, each chunk once. */
    method Initialize() returns (res: Result<()>)
      requires Valid() && !ready && Typed() && failed.None?
      modifies this`ready, this`failed, this`chunks, this`merge, this`runs, this`pulled, budget
      ensures Valid() && (ready <==> res.Ok?) && failed == if res.Ok? then None else Some(res.error)
      ensures Held() == 0 && budget.charged == old(budget.charged)
      ensures merge != null ==> fresh(merge) && fresh(merge.merger)
    {
      res := Start();
      if res.Err? { failed := Some(res.error); }
    }

    /** Valid before anything is ready, wherever the upstream stands. */
    ghost predicate Starting()
      reads this
    {
      && GoodSource(plan, source) && Typed() && pulled <= |source|
      && !ready && failed.None? && merge == null && delivered == [] && !broken && !Unreadable()
    }

    method Start() returns (res: Result<()>)
      requires Starting() && pulled == 0
      modifies this`ready, this`chunks, this`merge, this`runs, this`pulled, budget
      ensures if res.Ok? then Valid() && ready else Starting()
      ensures Held() == 0 && budget.charged == old(budget.charged)
      ensures merge != null ==> fresh(merge) && fresh(merge.merger)
    {
      if plan.group == [] && PercentileCont !in plan.query.aggs {
        var row := Streaming(plan, source);
        pulled := |source|;
        if row.Err? { return Err(row.error); }
        Publish([row.value]);
        return Ok(());
      }
      var layout := TypedLayout(plan);
      if layout.None? {
        res := Legacy([]);
        return;
      }
      var typed;
      typed, pulled := TypedStrategy(plan, layout.value, budget, source);
      if typed.Err? { return Err(typed.error); }
      match typed.value
      case Finished(rows) =>
        Publish(rows);
        res := Ok(());
      case Fallback(consumed) =>
        res := Legacy(consumed);
    }

    method Publish(rows: seq<Row>)
      requires Starting() && pulled == |source| && IsResult(plan, source, rows)
      modifies this`ready, this`chunks
      ensures Valid() && ready
    {
      chunks := BuildOutputChunks(rows);
      assert delivered + Flatten(chunks) == rows;
      ready := true;
    }

    /** initialize_buffered_legacy */
    method Legacy(initial: seq<Chunk>) returns (res: Result<()>)
      requires Starting() && Consumed(source, initial) && pulled == |initial|
      modifies this`ready, this`chunks, this`merge, this`runs, this`pulled, budget
      ensures if res.Ok? then Valid() && ready else Starting()
      ensures Held() == 0 && budget.charged == old(budget.charged)
      ensures merge != null ==> fresh(merge) && fresh(merge.merger)
    {
      var rows := new ChargedRows<InputRow>(budget);
      var files;
      ghost var g, done;
      res, pulled, files, g, done := BufferAll(plan, rows, initial, source, pulled);
      if res.Err? { rows.Release(); return; }
      GoodInputs(plan, source);
      if files == [] {
        var out := FinishBuffered(plan, rows, InputsOf(plan, source).value);
        if out.Err? { return Err(out.error); }
        Publish(out.value);
      } else {
        res := External(rows, files, g, done);
      }
    }

    /** Spills what is left and opens the merge. */
    method External(rows: ChargedRows<InputRow>, files: seq<seq<u8>>, ghost g: Runs, ghost done: seq<InputRow>)
      returns (res: Result<()>)
      requires Starting() && pulled == |source| && files != [] && rows.budget == budget
      requires InputsOf(plan, source).Ok? && BufferedTo(rows, files, g, done, InputsOf(plan, source).value, plan)
      requires KeyWidths(|plan.group|, InputsOf(plan, source).value)
      modifies this`ready, this`merge, this`runs, rows, budget
      ensures if res.Ok? then Valid() && ready else Starting()
      ensures Held() == 0 && budget.charged == old(budget.charged) - old(rows.charged)
      ensures merge != null ==> fresh(merge) && fresh(merge.merger)
    {
      var spilled, all;
      ghost var h;
      spilled, all, h := SpillAggregateRun(rows, files, |plan.group|, plan.query.aggs, g, done);
      if spilled.Err? { rows.Release(); return spilled; }
      Open(all, h);
      res := Ok(());
    }

    method Open(files: seq<seq<u8>>, ghost g: Runs)
      requires Starting() && pulled == |source| && files != [] && InputsOf(plan, source).Ok?
      requires Spilled(files, g, InputsOf(plan, source).value, |plan.group|, plan.query.aggs)
      requires KeyWidths(|plan.group|, InputsOf(plan, source).value) && InputsOf(plan, source).value != []
      modifies this`ready, this`merge, this`runs
      ensures Valid() && ready && Held() == 0
      ensures merge != null ==> fresh(merge) && fresh(merge.merger)
    {
      if plan.query.aggs == [] {
        FirstReadFails(files, g, InputsOf(plan, source).value, |plan.group|);
        runs := files;
      } else {
        merge := new AggregateMerge(plan.query, |plan.group|, budget, files, InputsOf(plan, source).value, g);
      }
      ready := true;
    }

    /** Aggregate::next_chunk. What has been emitted only grows, chunk by nonempty
        chunk; None means that exactly the answer has been emitted. Nothing is pulled
        from the upstream once it has been tried. */
    method NextChunk() returns (res: Result<Option<seq<Row>>>)
      requires Valid() && !broken
      modifies this, merge, if merge == null then {} else {merge.merger}, budget
      ensures Valid() && old(delivered) <= delivered && (res.Ok? ==> ready && !broken && !Unreadable())
      ensures merge != old(merge) ==> merge != null && fresh(merge) && fresh(merge.merger)
      ensures old(ready) ==> ready && merge == old(merge)
      ensures old(ready) || old(failed).Some? ==> pulled == old(pulled)
      ensures budget.charged - old(budget.charged) == Held() - old(Held())
      ensures res.Ok? && res.value.Some? ==>
                0 < |res.value.value| <= CHUNK_CAPACITY && delivered == old(delivered) + res.value.value
      ensures res == Ok(None) ==> Typed() && delivered == old(delivered) && IsResult(plan, source, delivered)
      ensures !Typed() ==> res == Err(InvalidArgument)
      ensures Typed() && !old(ready) && old(failed).Some? ==> res == Err(old(failed).value)
      ensures res.Ok? && res.value.Some? && old(ready) ==> Left() < old(Left())
    {
      if |plan.query.types| != |plan.query.aggs| { return Err(InvalidArgument); }
      if !ready {
        if failed.Some? { return Err(failed.value); }
        var started := Initialize();
        if started.Err? { return Err(started.error); }
      }
      res := Emit();
    }

    /** next_chunk once the output is ready. */
    method Emit() returns (res: Result<Option<seq<Row>>>)
      requires Valid() && ready && !broken
      modifies this`chunks, this`delivered, this`broken, merge, if merge == null then {} else {merge.merger}, budget
      ensures Valid() && old(delivered) <= delivered && (res.Ok? ==> !broken && !Unreadable())
      ensures budget.charged - old(budget.charged) == Held() - old(Held())
      ensures res.Ok? && res.value.Some? ==>
                0 < |res.value.value| <= CHUNK_CAPACITY && delivered == old(delivered) + res.value.value
      ensures res == Ok(None) ==> delivered == old(delivered) && IsResult(plan, source, delivered)
      ensures res.Ok? && res.value.Some? ==> Left() < old(Left())
    {
      if Unreadable() {
        // The merge fills its first cursor by reading the first run.
        var first := ReadRecord(|plan.group|, plan.query.aggs, runs[0]);
        broken := true;
        return Err(first.error);
      }
      if merge == null { res := PopChunk(); } else { res := PullChunk(); }
    }

    method PopChunk() returns (res: Result<Option<seq<Row>>>)
      requires Valid() && ready && !Unreadable() && !broken && merge == null
      modifies this`chunks, this`delivered
      ensures Valid() && res.Ok?
      ensures delivered == old(delivered) + if res.value.Some? then res.value.value else []
      ensures res.value.Some? ==> 0 < |res.value.value| <= CHUNK_CAPACITY && |chunks| < |old(chunks)|
      ensures res.value.None? ==> IsResult(plan, source, delivered)
    {
      if chunks == [] {
        assert delivered + Flatten(chunks) == delivered;
        return Ok(None);
      }
      var chunk := chunks[0];
      Assoc(delivered, chunk, Flatten(chunks[1..]));
      delivered := delivered + chunk;
      chunks := chunks[1..];
      res := Ok(Some(chunk));
    }

    method PullChunk() returns (res: Result<Option<seq<Row>>>)
      requires Valid() && ready && !Unreadable() && !broken && merge != null
      modifies this`delivered, this`broken, merge, merge.merger, budget
      ensures Valid() && (broken <==> res.Err?) && old(delivered) <= delivered
      ensures budget.charged - old(budget.charged) == Held() - old(Held())
      ensures res.Ok? && res.value.Some? ==>
                0 < |res.value.value| <= CHUNK_CAPACITY && delivered == old(delivered) + res.value.value
      ensures res.Ok? && res.value.Some? ==> Left() < old(Left())
      ensures res == Ok(None) ==> delivered == old(delivered) && IsResult(plan, source, delivered)
    {
      res := merge.NextChunk();
      if res.Err? {
        broken := true;
      } else if res.value.Some? {
        delivered := delivered + res.value.value;
        EmittedFits(merge.merger.spec, merge.merger.progress);
      } else {
        merge.ExhaustedAnswers();
      }
    }

    /** How many more chunks the output can still hold, at most. */
    ghost function Left(): int
      reads this, merge, if merge == null then {} else {merge.merger}
    {
      if merge == null then |chunks| else |merge.merger.progress.rows| - |merge.merger.progress.emitted|
    }

    lemma LeftIsNatural()
      requires Valid() && ready && !Unreadable()
      ensures Left() >= 0
    {
      if merge != null { EmittedFits(merge.merger.spec, merge.merger.progress); }
    }

    /** Pulls the operator dry: a successful run returns exactly the answer over
        the whole upstream, whichever strategy ran and whatever was refused. */
    method Collect() returns (res: Result<seq<Row>>)
      requires Valid() && !ready && failed.None?
      modifies this, budget
      ensures Valid() && budget.charged - old(budget.charged) == Held()
      ensures res.Ok? ==> Typed() && IsResult(plan, source, res.value)
      ensures res.Ok? ==> IsReport(plan.query, |plan.group|, InputsOf(plan, source).value, res.value)
    {
      var out: seq<Row> := [];
      var next := NextChunk();
      while next.Ok? && next.value.Some?
        invariant Valid() && (next.Ok? ==> ready && !broken && !Unreadable())
        invariant merge != null ==> fresh(merge) && fresh(merge.merger)
        invariant budget.charged - old(budget.charged) == Held()
        invariant next.Ok? && next.value.Some? ==> out + next.value.value == delivered
        invariant next == Ok(None) ==> Typed() && out == delivered && IsResult(plan, source, delivered)
        decreases next.Ok? && next.value.Some?, Left()
      {
        LeftIsNatural();
        out := out + next.value.value;
        next := NextChunk();
      }
      if next.Ok? { AnswerMeans(plan.query, |plan.group|, InputsOf(plan, source).value, out); }
      res := if next.Ok? then Ok(out) else Err(next.error);
    }

    /** Dropping the operator returns everything it still holds. */
    method Drop()
      requires Valid() && Held() <= budget.charged && (merge != null ==> merge.merger.budget == budget)
      modifies this`merge, if merge == null then {} else {merge.merger}, budget
      ensures merge == null && budget.charged == old(budget.charged) - old(Held())
    {
      if merge != null {
        merge.merger.Drop();
        merge := null;
      }
    }
  }

  /** Two successful runs over the same upstream return the same rows, whichever
      strategies ran and whichever charges were refused. */
  lemma StrategiesAgree(p: Plan, source: ChunkSource, a: seq<Row>, b: seq<Row>)
    requires |p.query.aggs| == |p.query.types| && IsResult(p, source, a) && IsResult(p, source, b)
    ensures a == b
  {
    AnswerUnique(GroupAnswer(p.query), |p.group|, InputsOf(p, source).value, a, b);
  }

  /** How the upstream cuts its rows into chunks does not matter either. */
  lemma ChunkingIsInvisible(p: Plan, x: ChunkSource, y: ChunkSource, a: seq<Row>, b: seq<Row>)
    requires |p.query.aggs| == |p.query.types| && InputsOf(p, x) == InputsOf(p, y)
    requires IsResult(p, x, a) && IsResult(p, y, b)
    ensures a == b
  {
    AnswerUnique(GroupAnswer(p.query), |p.group|, InputsOf(p, x).value, a, b);
  }
}
