/** The exact k-nearest-neighbour scan: a bounded heap over (distance, row order). */
module KnnScans {
  import opened Values
  import opened ValueOrder
  import opened Budget
  import opened Spilling
  import opened TopK

  /** An f32 distance by its bits, compared with total_cmp. */
  function DistanceKey(bits: u32): int
  {
    if bits < 0x8000_0000 then bits else 0x7FFF_FFFF - bits
  }

  datatype Candidate = Candidate(distance: u32, rowOrder: nat, values: Row)

  /** Candidate::cmp, not greater. */
  predicate Closer(a: Candidate, b: Candidate)
  {
    DistanceKey(a.distance) < DistanceKey(b.distance) ||
    (DistanceKey(a.distance) == DistanceKey(b.distance) && a.rowOrder <= b.rowOrder)
  }

  lemma CloserIsOrder()
    ensures IsOrder(Closer)
  {
  }

  /** row_distance: None for a NULL vector, an error for anything that is not a
      vector of the query's length. */
  type DistanceOf = Row -> Result<Option<u32>>

  /** A non-NULL row with its distance, numbered by its place in the scan. */
  function CandidateAt(distance: DistanceOf): (Row, nat) -> Result<Option<Candidate>>
  {
    (row: Row, order: nat) =>
      match distance(row)
      case Err(error) => Err(error)
      case Ok(None) => Ok(None)
      case Ok(Some(d)) => Ok(Some(Candidate(d, order, row)))
  }

  function Candidates(distance: DistanceOf, rows: seq<Row>): Result<seq<Candidate>>
  {
    Gather(CandidateAt(distance), rows)
  }

  /** The k nearest rows, nearest first, ties by row order. */
  function Nearest(distance: DistanceOf, rows: seq<Row>, k: nat): seq<Candidate>
    requires Candidates(distance, rows).Ok?
  {
    FirstK(Sorted(Closer, Candidates(distance, rows).value), k)
  }

  // ----- the meaning -----

  /** The sign bit of an f32. */
  const SIGN32 := 0x8000_0000

  /** Distance a comes before distance b, by their bits: nearer ones first. */
  predicate DistanceBelow(a: u32, b: u32) { SignedBelow(SIGN32, a, b) }

  lemma DistanceMeans(a: u32, b: u32)
    ensures DistanceKey(a) < DistanceKey(b) <==> DistanceBelow(a, b)
    ensures DistanceKey(a) == DistanceKey(b) <==> a == b
  {
  }

  /** A candidate comes first when it is nearer, or as near and not later; distances
      that are not negative compare like their bits. */
  lemma CloserMeans(a: Candidate, b: Candidate)
    ensures Closer(a, b) <==>
            DistanceBelow(a.distance, b.distance) || (a.distance == b.distance && a.rowOrder <= b.rowOrder)
    ensures a.distance < SIGN32 && b.distance < SIGN32 ==>
              (Closer(a, b) <==> a.distance < b.distance || (a.distance == b.distance && a.rowOrder <= b.rowOrder))
  {
    DistanceMeans(a.distance, b.distance);
  }

  /** Row `order` at distance d comes after the candidate. */
  predicate ComesBefore(c: Candidate, d: u32, order: nat)
  {
    DistanceBelow(c.distance, d) || (c.distance == d && c.rowOrder < order)
  }

  predicate Listed(out: seq<Candidate>, order: nat)
  {
    exists i :: 0 <= i < |out| && out[i].rowOrder == order
  }

  /** Every candidate kept is a row with its distance. */
  ghost predicate AreRows(distance: DistanceOf, rows: seq<Row>, out: seq<Candidate>)
  {
    forall i :: 0 <= i < |out| ==>
      && out[i].rowOrder < |rows| && out[i].values == rows[out[i].rowOrder]
      && distance(out[i].values) == Ok(Some(out[i].distance))
  }

  /** Nearest first, ties in row order, no row twice. */
  ghost predicate AreOrdered(out: seq<Candidate>)
  {
    forall i, j :: 0 <= i < j < |out| ==> ComesBefore(out[i], out[j].distance, out[j].rowOrder)
  }

  /** Row r has no vector, or all of the k rows kept come before it. */
  ghost predicate MissesNothing(distance: DistanceOf, rows: seq<Row>, k: nat, out: seq<Candidate>, r: nat)
    requires r < |rows|
  {
    && distance(rows[r]).Ok?
    && (distance(rows[r]).value.Some? ==>
          |out| == k && forall i :: 0 <= i < |out| ==> ComesBefore(out[i], distance(rows[r]).value.value, r))
  }

  /** `out` holds k rows with their distances, nearest first and ties in row order;
      a row with a vector is missing only if k rows come before it. */
  ghost predicate IsNearest(distance: DistanceOf, rows: seq<Row>, k: nat, out: seq<Candidate>)
  {
    && |out| <= k && AreRows(distance, rows, out) && AreOrdered(out)
    && forall r :: 0 <= r < |rows| && !Listed(out, r) ==> MissesNothing(distance, rows, k, out, r)
  }

  lemma {:induction false} CandidateOrders(distance: DistanceOf, rows: seq<Row>)
    requires Candidates(distance, rows).Ok?
    ensures var cs := Candidates(distance, rows).value;
            && (forall i :: 0 <= i < |cs| ==> cs[i].rowOrder < |rows|)
            && forall i, j :: 0 <= i < j < |cs| ==> cs[i].rowOrder < cs[j].rowOrder
  {
    if rows != [] {
      var n := |rows| - 1;
      CandidateOrders(distance, rows[..n]);
      assert rows == rows[..n] + [rows[n]];
      GatherLast(CandidateAt(distance), rows[..n], rows[n]);
    }
  }

  /** What Nearest selects, in plain terms. */
  lemma NearestMeans(distance: DistanceOf, rows: seq<Row>, k: nat)
    requires Candidates(distance, rows).Ok?
    ensures IsNearest(distance, rows, k, Nearest(distance, rows, k))
  {
    var cs, out := Candidates(distance, rows).value, Nearest(distance, rows, k);
    CloserIsOrder();
    FirstKMeans(Closer, cs, k);
    NearestAreRows(distance, rows, out);
    forall i, j | 0 <= i < j < |out| ensures ComesBefore(out[i], out[j].distance, out[j].rowOrder) {
      CloserMeans(out[i], out[j]);
      NearestDistinct(distance, rows, k, i, j);
    }
    forall r | 0 <= r < |rows| && !Listed(out, r) ensures MissesNothing(distance, rows, k, out, r) {
      NearestMissesNothing(distance, rows, k, out, r);
    }
  }

  lemma NearestAreRows(distance: DistanceOf, rows: seq<Row>, out: seq<Candidate>)
    requires Candidates(distance, rows).Ok? && forall c :: c in out ==> c in Candidates(distance, rows).value
    ensures AreRows(distance, rows, out)
  {
    GatherMembers(CandidateAt(distance), rows);
    forall i | 0 <= i < |out|
      ensures out[i].rowOrder < |rows| && out[i].values == rows[out[i].rowOrder]
      ensures distance(out[i].values) == Ok(Some(out[i].distance))
    {
      assert out[i] in Candidates(distance, rows).value;
    }
  }

  lemma NearestMissesNothing(distance: DistanceOf, rows: seq<Row>, k: nat, out: seq<Candidate>, r: nat)
    requires Candidates(distance, rows).Ok? && r < |rows| && !Listed(out, r)
    requires forall c :: c in Candidates(distance, rows).value && c !in out ==>
               |out| == k && forall i :: 0 <= i < |out| ==> Closer(out[i], c)
    ensures MissesNothing(distance, rows, k, out, r)
  {
    GatherMembers(CandidateAt(distance), rows);
    assert CandidateAt(distance)(rows[r], r).Ok?;
    if distance(rows[r]).value.Some? {
      var c := Candidate(distance(rows[r]).value.value, r, rows[r]);
      assert c in Candidates(distance, rows).value && c !in out;
      forall i | 0 <= i < |out| ensures ComesBefore(out[i], c.distance, r) { CloserMeans(out[i], c); }
    }
  }

  /** No row is kept twice. */
  lemma NearestDistinct(distance: DistanceOf, rows: seq<Row>, k: nat, i: nat, j: nat)
    requires Candidates(distance, rows).Ok? && i < j < |Nearest(distance, rows, k)|
    ensures Nearest(distance, rows, k)[i].rowOrder != Nearest(distance, rows, k)[j].rowOrder
  {
    var cs := Candidates(distance, rows).value;
    CandidateOrders(distance, rows);
    SortedDistinct(Closer, cs, i, j);
    var a, b := Sorted(Closer, cs)[i], Sorted(Closer, cs)[j];
    var p :| 0 <= p < |cs| && cs[p] == a;
    var q :| 0 <= q < |cs| && cs[q] == b;
  }

  // ----- charges -----

  /** buffered_values_charge of this scan, without a row overhead. */
  function RowCharge(values: Row): Result<nat>
  {
    if values == [] then Ok(0)
    else
      var total :- RowCharge(values[..|values| - 1]);
      var next := total + ApproxBytes(values[|values| - 1]);
      if next > USIZE_MAX then Err(InvalidArgument) else Ok(next)
  }

  /** A retained row is charged the estimates of its values. */
  lemma {:induction false} RowChargeMeans(values: Row)
    ensures RowCharge(values) == Charged(ApproxTotal(values))
  {
    if values != [] { RowChargeMeans(values[..|values| - 1]); }
  }

  /** What the retained rows were charged. */
  function BytesOf(c: Candidate): nat { if RowCharge(c.values).Ok? then RowCharge(c.values).value else 0 }

  predicate IsCharged(c: Candidate) { RowCharge(c.values).Ok? }

  ghost function HeapBytes(heap: seq<Candidate>): nat { Weight(heap, BytesOf) }

  ghost predicate AllCharged(heap: seq<Candidate>)
  {
    forall i :: 0 <= i < |heap| ==> IsCharged(heap[i])
  }

  lemma InsertBytes(heap: seq<Candidate>, x: Candidate)
    requires AllCharged(heap) && RowCharge(x.values).Ok?
    ensures HeapBytes(Insert(Closer, heap, x)) == HeapBytes(heap) + RowCharge(x.values).value
    ensures AllCharged(Insert(Closer, heap, x))
  {
    InsertWeight(Closer, heap, x, BytesOf);
    InsertAll(Closer, heap, x, IsCharged);
  }

  /** A row that can be scanned: it has a distance or a NULL vector, and its size can
      be charged. */
  predicate Scannable(distance: DistanceOf, row: Row) { distance(row).Ok? && RowCharge(row).Ok? }

  ghost predicate AllScannable(distance: DistanceOf, rows: seq<Row>)
  {
    forall i :: 0 <= i < |rows| ==> Scannable(distance, rows[i])
  }

  lemma ScannablePart(distance: DistanceOf, a: seq<Row>, b: seq<Row>, c: seq<Row>)
    requires AllScannable(distance, a + (b + c))
    ensures AllScannable(distance, b)
  {
    forall i | 0 <= i < |b| ensures Scannable(distance, b[i]) { assert (a + (b + c))[|a| + i] == b[i]; }
  }

  class KnnScan {
    const k: nat
    const distance: DistanceOf
    const budget: MemoryBudget
    var chargedBytes: nat
    var output: seq<seq<Candidate>>
    /** The retained rows whose charge the scan still holds. */
    ghost var retained: seq<Candidate>

    ghost predicate Accounted()
      reads this, budget
    {
      chargedBytes == HeapBytes(retained) <= budget.charged && AllCharged(retained)
    }

    constructor (k: nat, distance: DistanceOf, budget: MemoryBudget)
      ensures Accounted() && chargedBytes == 0 && retained == [] && output == []
      ensures this.k == k && this.distance == distance && this.budget == budget
    {
      this.k, this.distance, this.budget := k, distance, budget;
      chargedBytes, output, retained := 0, [], [];
    }

    /** retain_candidate: charged before it is kept, the evicted row released. */
    method RetainCandidate(heap: seq<Candidate>, candidate: Candidate) returns (res: Result<()>, out: seq<Candidate>)
      requires Accounted() && retained == heap && |heap| <= k && k > 0
      modifies this`chargedBytes, this`retained, budget
      ensures Accounted() && retained == out && budget.charged - old(budget.charged) == chargedBytes - old(chargedBytes)
      ensures res.Ok? ==> out == HeapStep(Closer, heap, k, candidate)
      ensures res.Err? ==> out == heap && (res.error == BudgetExceeded || RowCharge(candidate.values).Err?)
    {
      out := heap;
      var bytes := RowCharge(candidate.values);
      if bytes.Err? { return Err(bytes.error), out; }
      if |heap| == k && Closer(heap[k - 1], candidate) { return Ok(()), out; }
      var granted := budget.Charge(bytes.value);
      if !granted { return Err(BudgetExceeded), out; }
      // The budget's total is a usize, so this sum cannot overflow one.
      assert chargedBytes + bytes.value <= USIZE_MAX;
      chargedBytes := chargedBytes + bytes.value;
      if |heap| == k {
        var released := RowCharge(heap[k - 1].values).value;
        chargedBytes := chargedBytes - released;
        budget.Release(released);
        InsertBytes(heap[..k - 1], candidate);
        out := Insert(Closer, heap[..k - 1], candidate);
      } else {
        InsertBytes(heap, candidate);
        out := Insert(Closer, heap, candidate);
      }
      retained := out;
      res := Ok(());
    }

    /** scan_chunk: the rows of one chunk, after `done` earlier rows. */
    method ScanChunk(chunk: seq<Row>, first: nat, heap: seq<Candidate>, ghost done: seq<Row>)
      returns (res: Result<()>, out: seq<Candidate>)
      requires Accounted() && retained == heap && k > 0
      requires first == |done| && Candidates(distance, done).Ok? && heap == Nearest(distance, done, k)
      modifies this`chargedBytes, this`retained, budget
      ensures Accounted() && retained == out && budget.charged - old(budget.charged) == chargedBytes - old(chargedBytes)
      ensures res.Ok? ==> Candidates(distance, done + chunk).Ok? && out == Nearest(distance, done + chunk, k)
      ensures res.Err? && AllScannable(distance, chunk) ==> res.error == BudgetExceeded
    {
      out := heap;
      assert done + chunk[..0] == done;
      for row := 0 to |chunk|
        invariant Accounted() && retained == out
        invariant budget.charged - old(budget.charged) == chargedBytes - old(chargedBytes)
        invariant Candidates(distance, done + chunk[..row]).Ok? && out == Nearest(distance, done + chunk[..row], k)
      {
        res, out := ScanRow(chunk[row], first + row, out, done + chunk[..row]);
        if res.Err? { return; }
        Grow(done, chunk, row);
      }
      assert chunk[..|chunk|] == chunk;
      res := Ok(());
    }

    method ScanRow(row: Row, order: nat, heap: seq<Candidate>, ghost before: seq<Row>)
      returns (res: Result<()>, out: seq<Candidate>)
      requires Accounted() && retained == heap && k > 0
      requires order == |before| && Candidates(distance, before).Ok? && heap == Nearest(distance, before, k)
      modifies this`chargedBytes, this`retained, budget
      ensures Accounted() && retained == out && budget.charged - old(budget.charged) == chargedBytes - old(chargedBytes)
      ensures res.Ok? ==> Candidates(distance, before + [row]).Ok? && out == Nearest(distance, before + [row], k)
      ensures res.Err? && Scannable(distance, row) ==> res.error == BudgetExceeded
    {
      out := heap;
      var d := distance(row);
      if d.Err? { return Err(d.error), out; }
      GatherLast(CandidateAt(distance), before, row);
      if d.value.None? { return Ok(()), out; }
      var candidate := Candidate(d.value.value, order, row);
      CloserIsOrder();
      HeapHoldsFirstK(Closer, Candidates(distance, before).value, k, candidate);
      res, out := RetainCandidate(out, candidate);
    }

    /** KnnScan::initialize: a scan for no rows does not read its source. */
    method Initialize(source: Source<Row>) returns (res: Result<()>)
      requires Accounted() && retained == [] && output == []
      modifies this`chargedBytes, this`retained, this`output, budget
      ensures Accounted() && budget.charged - old(budget.charged) == chargedBytes - old(chargedBytes)
      ensures k == 0 ==> res.Ok? && output == []
      ensures k > 0 && res.Ok? ==> AllOk(source) && Candidates(distance, RowsOf(source)).Ok?
      ensures k > 0 && res.Ok? ==> Flatten(output) == Nearest(distance, RowsOf(source), k) && GoodChunks(output)
      ensures k > 0 && res.Ok? ==> IsNearest(distance, RowsOf(source), k, Flatten(output))
      ensures res.Err? && AllOk(source) && AllScannable(distance, RowsOf(source)) ==> res.error == BudgetExceeded
    {
      if k == 0 { return Ok(()); }
      var heap, rest, first := [], source, 0;
      ghost var done: seq<Row> := [];
      assert done + RowsOf(rest) == RowsOf(source);
      while rest != []
        invariant Accounted() && retained == heap
        invariant budget.charged - old(budget.charged) == chargedBytes - old(chargedBytes)
        invariant done + RowsOf(rest) == RowsOf(source) && (AllOk(source) <==> AllOk(rest)) && first == |done|
        invariant Candidates(distance, done).Ok? && heap == Nearest(distance, done, k)
        decreases |rest|
      {
        var next := rest[0];
        RowsOfStep(rest);
        rest := rest[1..];
        if next.Err? { return Err(next.error); }
        if AllScannable(distance, RowsOf(source)) { ScannablePart(distance, done, next.value, RowsOf(rest)); }
        res, heap := ScanChunk(next.value, first, heap, done);
        if res.Err? { return; }
        Assoc(done, next.value, RowsOf(rest));
        first := first + |next.value|;
        done := done + next.value;
      }
      assert done + [] == done;
      NearestMeans(distance, done, k);
      output := BuildOutputChunks(heap);
      res := Ok(());
    }

    /** next_chunk after initialization: chunk by chunk, nearest rows first. */
    method NextChunk() returns (chunk: Option<seq<Candidate>>)
      modifies this`output
      ensures chunk.None? <==> old(output) == []
      ensures chunk.Some? ==> chunk.value == old(output)[0] && output == old(output)[1..]
      ensures Flatten(old(output)) == (if chunk.Some? then chunk.value else []) + Flatten(output)
    {
      if output == [] { return None; }
      chunk := Some(output[0]);
      output := output[1..];
    }

    /** Dropping the scan returns the charge of its retained rows. */
    method Drop()
      requires Accounted()
      modifies this`chargedBytes, this`retained, budget
      ensures chargedBytes == 0 && budget.charged == old(budget.charged) - old(HeapBytes(retained))
    {
      budget.Release(chargedBytes);
      chargedBytes, retained := 0, [];
    }
  }
}
