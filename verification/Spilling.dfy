/** Pieces shared by the blocking operators: charged row buffers, run files and
    output chunks. */
module Spilling {
  import opened Values
  import opened Budget
  import opened RunMerge

  const CHUNK_CAPACITY := 2048
  const BUFFERED_ROW_OVERHEAD_BYTES := 64

  /** buffered_values_charge: a row's overhead plus its values, refusing sums
      that leave the address space. */
  function ValuesCharge(values: Row): (r: Result<nat>)
    ensures r.Ok? ==> r.value >= BUFFERED_ROW_OVERHEAD_BYTES
  {
    if values == [] then Ok(BUFFERED_ROW_OVERHEAD_BYTES)
    else
      var total :- ValuesCharge(values[..|values| - 1]);
      var next := total + ApproxBytes(values[|values| - 1]);
      if next > USIZE_MAX then Err(InvalidArgument) else Ok(next)
  }

  /** The summed estimates of a row's values. */
  function ApproxTotal(values: Row): nat
  {
    if values == [] then 0 else ApproxTotal(values[..|values| - 1]) + ApproxBytes(values[|values| - 1])
  }

  /** A row is charged its overhead and the estimates of its values, and cannot be
      charged exactly when that sum leaves the address space. */
  lemma {:induction false} ValuesChargeMeans(values: Row)
    ensures ValuesCharge(values) == Charged(64 + ApproxTotal(values))
  {
    if values != [] { ValuesChargeMeans(values[..|values| - 1]); }
  }

  lemma {:induction false} ApproxTotalAppend(a: Row, b: Row)
    ensures ApproxTotal(a + b) == ApproxTotal(a) + ApproxTotal(b)
  {
    if b == [] {
      assert a + b == a;
    } else {
      ApproxTotalAppend(a, b[..|b| - 1]);
      assert (a + b)[..|a + b| - 1] == a + b[..|b| - 1];
    }
  }

  /** A sum as a charge, refused when it leaves the address space. */
  function Charged(bytes: nat): Result<nat>
  {
    if bytes <= USIZE_MAX then Ok(bytes) else Err(InvalidArgument)
  }

  function TotalBytes(sizes: seq<nat>): nat
  {
    if sizes == [] then 0 else TotalBytes(sizes[..|sizes| - 1]) + sizes[|sizes| - 1]
  }

  /** ChargedRows: buffered rows together with what was charged for them. */
  class ChargedRows<T> {
    var rows: seq<T>
    const budget: MemoryBudget
    var charged: nat
    /** The charge of each buffered row. */
    ghost var sizes: seq<nat>

    ghost predicate Valid()
      reads this, budget
    {
      |sizes| == |rows| && charged == TotalBytes(sizes) <= budget.charged
    }

    constructor (budget: MemoryBudget)
      ensures Valid() && rows == [] && this.budget == budget
    {
      this.budget, rows, charged, sizes := budget, [], 0, [];
    }

    /** push_charged: the caller has already charged `bytes`. */
    method PushCharged(row: T, bytes: nat)
      requires |sizes| == |rows| && charged == TotalBytes(sizes) && charged + bytes <= budget.charged
      modifies this
      ensures Valid() && rows == old(rows) + [row] && charged == old(charged) + bytes
    {
      charged := charged + bytes;
      rows := rows + [row];
      sizes := sizes + [bytes];
      assert sizes[..|sizes| - 1] == old(sizes);
    }

    /** take_rows: hands the rows over and gives the whole charge back. */
    method TakeRows() returns (taken: seq<T>)
      requires Valid()
      modifies this, budget
      ensures Valid() && taken == old(rows) && rows == [] && charged == 0
      ensures budget.charged == old(budget.charged) - old(charged)
    {
      taken := rows;
      rows, sizes := [], [];
      Release();
    }

    /** release, also what dropping the buffer does. */
    method Release()
      requires charged <= budget.charged
      modifies this`charged, budget
      ensures charged == 0 && budget.charged == old(budget.charged) - old(charged)
    {
      budget.Release(charged);
      charged := 0;
    }
  }

  /** write_run: frames row after row; nothing is kept of a run that fails. */
  method WriteRun<T>(format: RunFormat<T>, items: seq<T>) returns (file: Result<seq<u8>>)
    ensures file == FrameItems(format, items)
  {
    var written: seq<u8> := [];
    var i := 0;
    assert items[0..] == items;
    if FrameItems(format, items).Ok? {
      assert written + FrameItems(format, items).value == FrameItems(format, items).value;
    }
    while i < |items|
      invariant 0 <= i <= |items|
      invariant var rest := FrameItems(format, items[i..]);
                if FrameItems(format, items).Ok? then
                  rest.Ok? && FrameItems(format, items).value == written + rest.value
                else rest == FrameItems(format, items)
    {
      ghost var rest := items[i..];
      assert rest[0] == items[i] && rest[1..] == items[i + 1..];
      var framed := format.frame(items[i]);
      if framed.Err? { return Err(framed.error); }
      if FrameItems(format, items).Ok? { Assoc(written, framed.value, FrameItems(format, rest[1..]).value); }
      written := written + framed.value;
      i := i + 1;
    }
    assert written + [] == written;
    file := Ok(written);
  }

  function Flatten<T>(chunks: seq<seq<T>>): seq<T>
  {
    if chunks == [] then [] else chunks[0] + Flatten(chunks[1..])
  }

  lemma {:induction false} FlattenAppend<T>(chunks: seq<seq<T>>, last: seq<T>)
    ensures Flatten(chunks + [last]) == Flatten(chunks) + last
  {
    if chunks == [] {
      assert Flatten([last]) == last + Flatten([last][1..]);
    } else {
      FlattenAppend(chunks[1..], last);
      assert (chunks + [last])[1..] == chunks[1..] + [last];
      Assoc(chunks[0], Flatten(chunks[1..]), last);
    }
  }

  ghost predicate GoodChunks<T>(chunks: seq<seq<T>>)
  {
    forall c :: 0 <= c < |chunks| ==> 0 < |chunks[c]| <= CHUNK_CAPACITY
  }

  /** build_output_chunks: full chunks, then whatever is pending. */
  method BuildOutputChunks<T>(rows: seq<T>) returns (chunks: seq<seq<T>>)
    ensures Flatten(chunks) == rows && GoodChunks(chunks)
  {
    chunks := [];
    var pending: seq<T> := [];
    for i := 0 to |rows|
      invariant Flatten(chunks) + pending == rows[..i]
      invariant GoodChunks(chunks) && |pending| < CHUNK_CAPACITY
    {
      Assoc(Flatten(chunks), pending, [rows[i]]);
      assert rows[..i + 1] == rows[..i] + [rows[i]];
      pending := pending + [rows[i]];
      if |pending| == CHUNK_CAPACITY {
        FlattenAppend(chunks, pending);
        chunks := chunks + [pending];
        pending := [];
      }
    }
    assert rows[..|rows|] == rows;
    if pending != [] {
      FlattenAppend(chunks, pending);
      chunks := chunks + [pending];
    }
  }

  // ----- the upstream -----

  /** What the upstream and the key evaluation deliver, chunk by chunk. */
  type Source<T> = seq<Result<seq<T>>>

  /** The rows before the first upstream failure. */
  function RowsOf<T>(source: Source<T>): seq<T>
  {
    if source == [] || source[0].Err? then [] else source[0].value + RowsOf(source[1..])
  }

  predicate AllOk<T>(source: Source<T>)
  {
    forall c :: 0 <= c < |source| ==> source[c].Ok?
  }

  lemma RowsOfStep<T>(source: Source<T>)
    requires source != []
    ensures source[0].Ok? ==> RowsOf(source) == source[0].value + RowsOf(source[1..])
    ensures AllOk(source) <==> source[0].Ok? && AllOk(source[1..])
  {
    assert AllOk(source[1..]) && source[0].Ok? ==> AllOk(source) by {
      if AllOk(source[1..]) && source[0].Ok? {
        forall c | 0 <= c < |source| ensures source[c].Ok? {
          if c > 0 { assert source[c] == source[1..][c - 1]; }
        }
      }
    }
  }
}
