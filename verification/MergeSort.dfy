/** The hand-written fallible stable merge sort over row indices. */
module MergeSort {
  import opened Values
  import opened StableOrder

  // ----- the functional reading of merge_indices and merge_sort_indices -----

  function MergeSeq<T>(cmp: Comparator<T>, rows: seq<T>, left: seq<nat>, right: seq<nat>): (r: Result<seq<nat>>)
    requires forall p :: 0 <= p < |left| ==> left[p] < |rows|
    requires forall p :: 0 <= p < |right| ==> right[p] < |rows|
    ensures r.Ok? ==> |r.value| == |left| + |right|
    decreases |left| + |right|
  {
    if right == [] then Ok(left)
    else if left == [] then Ok(right)
    else
      var c :- cmp(rows[left[0]], rows[right[0]]);
      if c != Greater then
        var rest :- MergeSeq(cmp, rows, left[1..], right);
        Ok([left[0]] + rest)
      else
        var rest :- MergeSeq(cmp, rows, left, right[1..]);
        Ok([right[0]] + rest)
  }

  function SortSeq<T>(cmp: Comparator<T>, rows: seq<T>, indices: seq<nat>): (r: Result<seq<nat>>)
    requires forall p :: 0 <= p < |indices| ==> indices[p] < |rows|
    ensures r.Ok? ==> |r.value| == |indices| && forall p :: 0 <= p < |indices| ==> r.value[p] < |rows|
    decreases |indices|
  {
    if |indices| < 2 then Ok(indices)
    else
      var middle := |indices| / 2;
      var left :- SortSeq(cmp, rows, indices[..middle]);
      var right :- SortSeq(cmp, rows, indices[middle..]);
      var merged := MergeSeq(cmp, rows, left, right);
      assert merged.Ok? ==> forall p :: 0 <= p < |merged.value| ==> merged.value[p] < |rows| by {
        if merged.Ok? { MergePositions(cmp, rows, left, right); }
      }
      merged
  }

  lemma SortSeqStep<T>(cmp: Comparator<T>, rows: seq<T>, indices: seq<nat>, middle: nat)
    requires Positions(rows, indices) && |indices| >= 2 && middle == |indices| / 2
    ensures SortSeq(cmp, rows, indices) ==
            var l, r := SortSeq(cmp, rows, indices[..middle]), SortSeq(cmp, rows, indices[middle..]);
            if l.Err? then l else if r.Err? then r else MergeSeq(cmp, rows, l.value, r.value)
  {
  }

  lemma {:induction false} MergePositions<T>(cmp: Comparator<T>, rows: seq<T>, left: seq<nat>, right: seq<nat>)
    requires Positions(rows, left) && Positions(rows, right)
    requires MergeSeq(cmp, rows, left, right).Ok?
    ensures Positions(rows, MergeSeq(cmp, rows, left, right).value)
    ensures forall i :: i in MergeSeq(cmp, rows, left, right).value <==> i in left || i in right
    decreases |left| + |right|
  {
    if left != [] && right != [] {
      assert left == [left[0]] + left[1..] && right == [right[0]] + right[1..];
      if cmp(rows[left[0]], rows[right[0]]).value != Greater {
        MergePositions(cmp, rows, left[1..], right);
      } else {
        MergePositions(cmp, rows, left, right[1..]);
      }
    }
  }

  /** Merging two ascending listings, the left one entirely earlier in the
      input, gives an ascending listing. */
  lemma {:induction false} MergeAscending<T>(cmp: Comparator<T>, rows: seq<T>, left: seq<nat>, right: seq<nat>)
    requires Lawful(cmp, rows) && Positions(rows, left) && Positions(rows, right)
    requires Ascending(cmp, rows, left) && Ascending(cmp, rows, right)
    requires forall p, q :: 0 <= p < |left| && 0 <= q < |right| ==> left[p] < right[q]
    requires MergeSeq(cmp, rows, left, right).Ok?
    ensures var m := MergeSeq(cmp, rows, left, right).value;
            Positions(rows, m) && Ascending(cmp, rows, m)
    decreases |left| + |right|
  {
    if left != [] && right != [] {
      var l, r := left[0], right[0];
      assert LawfulAt(cmp, rows[l], rows[r], rows[l]);
      if cmp(rows[l], rows[r]).value != Greater {
        MergeAscending(cmp, rows, left[1..], right);
        HeadFirst(cmp, rows, l, MergeSeq(cmp, rows, left[1..], right).value);
      } else {
        MergeAscending(cmp, rows, left, right[1..]);
        HeadFirst(cmp, rows, r, MergeSeq(cmp, rows, left, right[1..]).value);
      }
    }
  }

  lemma HeadFirst<T>(cmp: Comparator<T>, rows: seq<T>, head: nat, rest: seq<nat>)
    requires Lawful(cmp, rows) && head < |rows| && Positions(rows, rest) && Ascending(cmp, rows, rest)
    requires rest != [] ==> Before(cmp, rows, head, rest[0])
    ensures Positions(rows, [head] + rest) && Ascending(cmp, rows, [head] + rest)
  {
    var all := [head] + rest;
    forall p, q | 0 <= p < q < |all| ensures Before(cmp, rows, all[p], all[q]) {
      if p > 0 {
        assert all[p] == rest[p - 1] && all[q] == rest[q - 1];
      } else if q > 1 {
        BeforeChain(cmp, rows, head, rest[0], rest[q - 1]);
      }
    }
  }

  lemma {:induction false} SortSeqAscending<T>(cmp: Comparator<T>, rows: seq<T>, lo: nat, indices: seq<nat>)
    requires Lawful(cmp, rows) && Positions(rows, indices)
    requires forall p :: 0 <= p < |indices| ==> indices[p] == lo + p
    requires SortSeq(cmp, rows, indices).Ok?
    ensures var s := SortSeq(cmp, rows, indices).value;
            && Ascending(cmp, rows, s) && (forall i :: i in s <==> i in indices)
    decreases |indices|
  {
    if |indices| >= 2 {
      var middle := |indices| / 2;
      SortSeqAscending(cmp, rows, lo, indices[..middle]);
      SortSeqAscending(cmp, rows, lo + middle, indices[middle..]);
      var left := SortSeq(cmp, rows, indices[..middle]).value;
      var right := SortSeq(cmp, rows, indices[middle..]).value;
      forall p, q | 0 <= p < |left| && 0 <= q < |right| ensures left[p] < right[q] {
        assert left[p] in left && right[q] in right;
        assert left[p] in indices[..middle] && right[q] in indices[middle..];
      }
      MergeAscending(cmp, rows, left, right);
      MergePositions(cmp, rows, left, right);
      assert indices == indices[..middle] + indices[middle..];
    }
  }

  /** On success the index sort lists the positions in stable order. */
  lemma SortSeqStable<T>(cmp: Comparator<T>, rows: seq<T>)
    requires Lawful(cmp, rows) && SortSeq(cmp, rows, Iota(|rows|)).Ok?
    ensures IsStableOrder(cmp, rows, SortSeq(cmp, rows, Iota(|rows|)).value)
  {
    SortSeqAscending(cmp, rows, 0, Iota(|rows|));
    var s := SortSeq(cmp, rows, Iota(|rows|)).value;
    forall i | 0 <= i < |rows| ensures i in s {
      assert Iota(|rows|)[i] in Iota(|rows|);
    }
  }

  lemma {:induction false} MergeFailure<T>(cmp: Comparator<T>, rows: seq<T>, left: seq<nat>, right: seq<nat>)
    returns (i: nat, j: nat)
    requires Positions(rows, left) && Positions(rows, right)
    requires MergeSeq(cmp, rows, left, right).Err?
    ensures i in left && j in right
    ensures cmp(rows[i], rows[j]) == Err(MergeSeq(cmp, rows, left, right).error)
    decreases |left| + |right|
  {
    var c := cmp(rows[left[0]], rows[right[0]]);
    if c.Err? {
      i, j := left[0], right[0];
    } else if c.value != Greater {
      i, j := MergeFailure(cmp, rows, left[1..], right);
    } else {
      i, j := MergeFailure(cmp, rows, left, right[1..]);
    }
  }

  lemma {:induction false} SortSeqFailure<T>(cmp: Comparator<T>, rows: seq<T>, lo: nat, indices: seq<nat>)
    returns (i: nat, j: nat)
    requires Lawful(cmp, rows) && Positions(rows, indices)
    requires forall p :: 0 <= p < |indices| ==> indices[p] == lo + p
    requires SortSeq(cmp, rows, indices).Err?
    ensures i < j < |rows| && cmp(rows[i], rows[j]) == Err(SortSeq(cmp, rows, indices).error)
    decreases |indices|
  {
    var middle := |indices| / 2;
    if SortSeq(cmp, rows, indices[..middle]).Err? {
      i, j := SortSeqFailure(cmp, rows, lo, indices[..middle]);
    } else if SortSeq(cmp, rows, indices[middle..]).Err? {
      i, j := SortSeqFailure(cmp, rows, lo + middle, indices[middle..]);
    } else {
      var left := SortSeq(cmp, rows, indices[..middle]).value;
      var right := SortSeq(cmp, rows, indices[middle..]).value;
      i, j := MergeFailure(cmp, rows, left, right);
      SortSeqAscending(cmp, rows, lo, indices[..middle]);
      SortSeqAscending(cmp, rows, lo + middle, indices[middle..]);
      assert i in indices[..middle] && j in indices[middle..];
    }
  }

  /** The sort succeeds exactly when every pair of rows is comparable: a pair
      it never compares directly cannot hide a failure. */
  lemma SortSucceedsIffComparable<T>(cmp: Comparator<T>, rows: seq<T>)
    requires Lawful(cmp, rows)
    ensures SortSeq(cmp, rows, Iota(|rows|)).Ok? <==> AllComparable(cmp, rows)
  {
    if SortSeq(cmp, rows, Iota(|rows|)).Ok? {
      SortSeqStable(cmp, rows);
      StableOrderComparable(cmp, rows, SortSeq(cmp, rows, Iota(|rows|)).value);
    } else {
      var i, j := SortSeqFailure(cmp, rows, 0, Iota(|rows|));
    }
  }

  // ----- the in-place code -----

  /** merge_indices: fills `output[lo..]` from two sorted slices. */
  method MergeIndices<T>(cmp: Comparator<T>, rows: seq<T>, output: array<nat>, lo: nat, left: seq<nat>, right: seq<nat>)
    returns (r: Result<()>)
    requires lo + |left| + |right| <= output.Length
    requires Positions(rows, left) && Positions(rows, right)
    modifies output
    ensures forall p :: 0 <= p < output.Length && !(lo <= p < lo + |left| + |right|) ==> output[p] == old(output[p])
    ensures match MergeSeq(cmp, rows, left, right)
            case Ok(merged) => r.Ok? && output[lo..lo + |left| + |right|] == merged
            case Err(e) => r == Err(e)
  {
    var leftIndex, rightIndex := 0, 0;
    ghost var goal := MergeSeq(cmp, rows, left, right);
    assert left[0..] == left && right[0..] == right;
    while leftIndex + rightIndex < |left| + |right|
      invariant leftIndex <= |left| && rightIndex <= |right|
      invariant forall p :: 0 <= p < output.Length && !(lo <= p < lo + |left| + |right|) ==> output[p] == old(output[p])
      invariant var rest := MergeSeq(cmp, rows, left[leftIndex..], right[rightIndex..]);
                if goal.Ok? then rest.Ok? && goal.value == output[lo..lo + leftIndex + rightIndex] + rest.value
                else rest == goal
    {
      var next;
      ghost var done := output[lo..lo + leftIndex + rightIndex];
      ghost var l, rr := left[leftIndex..], right[rightIndex..];
      if leftIndex < |left| && rightIndex < |right| {
        var c := cmp(rows[left[leftIndex]], rows[right[rightIndex]]);
        if c.Err? { return Err(c.error); }
        if c.value != Greater {
          next := left[leftIndex];
          leftIndex := leftIndex + 1;
          assert l[1..] == left[leftIndex..];
        } else {
          next := right[rightIndex];
          rightIndex := rightIndex + 1;
          assert rr[1..] == right[rightIndex..];
        }
      } else if leftIndex < |left| {
        next := left[leftIndex];
        leftIndex := leftIndex + 1;
        assert l == [next] + left[leftIndex..];
      } else {
        next := right[rightIndex];
        rightIndex := rightIndex + 1;
        assert rr == [next] + right[rightIndex..];
      }
      output[lo + leftIndex + rightIndex - 1] := next;
      assert output[lo..lo + leftIndex + rightIndex] == done + [next];
      ghost var rest := MergeSeq(cmp, rows, left[leftIndex..], right[rightIndex..]);
      if goal.Ok? {
        assert MergeSeq(cmp, rows, l, rr).value == [next] + rest.value;
        Assoc(done, [next], rest.value);
      }
    }
    r := Ok(());
  }

  /** merge_sort_indices over the slice `indices[lo..hi]`. */
  method MergeSortIndices<T>(cmp: Comparator<T>, rows: seq<T>, indices: array<nat>, scratch: array<nat>, lo: nat,
                             hi: nat)
    returns (r: Result<()>)
    requires indices != scratch && lo <= hi <= indices.Length && hi <= scratch.Length
    requires Positions(rows, indices[lo..hi])
    modifies indices, scratch
    ensures forall p :: 0 <= p < indices.Length && !(lo <= p < hi) ==> indices[p] == old(indices[p])
    ensures match SortSeq(cmp, rows, old(indices[lo..hi]))
            case Ok(sorted) => r.Ok? && indices[lo..hi] == sorted
            case Err(e) => r == Err(e)
    decreases hi - lo, 1
  {
    if hi - lo < 2 { return Ok(()); }
    var middle := lo + (hi - lo) / 2;
    ghost var input := indices[lo..hi];
    assert indices[lo..middle] == input[..middle - lo] && indices[middle..hi] == input[middle - lo..];
    SortSeqStep(cmp, rows, input, middle - lo);
    r := SortHalves(cmp, rows, indices, scratch, lo, middle, hi);
    if r.Err? { return; }
    CopySlices(indices, scratch, lo, middle, hi);
    r := MergeIndices(cmp, rows, indices, lo, scratch[lo..middle], scratch[middle..hi]);
  }

  /** The two recursive calls of merge_sort_indices. */
  method SortHalves<T>(cmp: Comparator<T>, rows: seq<T>, indices: array<nat>, scratch: array<nat>, lo: nat, middle: nat,
                       hi: nat)
    returns (r: Result<()>)
    requires indices != scratch && lo < middle < hi <= indices.Length && hi <= scratch.Length
    requires Positions(rows, indices[lo..middle]) && Positions(rows, indices[middle..hi])
    modifies indices, scratch
    ensures forall p :: 0 <= p < indices.Length && !(lo <= p < hi) ==> indices[p] == old(indices[p])
    ensures var left := SortSeq(cmp, rows, old(indices[lo..middle]));
            var right := SortSeq(cmp, rows, old(indices[middle..hi]));
            if left.Err? then r == Err(left.error)
            else if right.Err? then r == Err(right.error)
            else r.Ok? && indices[lo..middle] == left.value && indices[middle..hi] == right.value
    decreases hi - lo, 0
  {
    ghost var rightInput := indices[middle..hi];
    r := MergeSortIndices(cmp, rows, indices, scratch, lo, middle);
    if r.Err? { return; }
    ghost var left := indices[lo..middle];
    assert indices[middle..hi] == rightInput;
    r := MergeSortIndices(cmp, rows, indices, scratch, middle, hi);
    assert indices[lo..middle] == left;
  }

  method CopySlices(from: array<nat>, to: array<nat>, lo: nat, middle: nat, hi: nat)
    requires from != to && lo <= middle <= hi <= from.Length && hi <= to.Length
    modifies to
    ensures to[lo..middle] == from[lo..middle] && to[middle..hi] == from[middle..hi]
  {
    for p := lo to hi
      invariant forall q :: lo <= q < p ==> to[q] == from[q]
    {
      to[p] := from[p];
    }
  }

  method SortedOrder<T>(cmp: Comparator<T>, rows: seq<T>) returns (r: Result<seq<nat>>)
    ensures r == SortSeq(cmp, rows, Iota(|rows|))
  {
    var order := new nat[|rows|](i => i);
    var scratch := new nat[|rows|](_ => 0);
    assert order[0..|rows|] == Iota(|rows|);
    var sorted := MergeSortIndices(cmp, rows, order, scratch, 0, |rows|);
    r := if sorted.Ok? then Ok(order[0..|rows|]) else Err(sorted.error);
  }

  method TakeRows<T>(rows: seq<T>, order: seq<nat>) returns (out: seq<T>)
    requires Positions(rows, order)
    ensures out == Permute(rows, order)
  {
    out := [];
    for p := 0 to |order|
      invariant |out| == p
      invariant forall q :: 0 <= q < p ==> out[q] == rows[order[q]]
    {
      out := out + [rows[order[p]]];
    }
  }

  /** stable_sort_by: the stable sort of `rows`, or the rows untouched. */
  method StableSortBy<T(!new)>(cmp: Comparator<T>, rows: seq<T>) returns (r: Result<()>, out: seq<T>)
    requires Lawful(cmp, rows)
    ensures r.Ok? <==> AllComparable(cmp, rows)
    ensures r.Ok? ==> IsStableSort(cmp, rows, out)
    ensures r.Err? ==> out == rows && exists i, j :: 0 <= i < j < |rows| && cmp(rows[i], rows[j]) == Err(r.error)
  {
    SortSucceedsIffComparable(cmp, rows);
    var order := SortedOrder(cmp, rows);
    if order.Err? {
      ghost var i, j := SortSeqFailure(cmp, rows, 0, Iota(|rows|));
      return Err(order.error), rows;
    }
    SortSeqStable(cmp, rows);
    out := TakeRows(rows, order.value);
    r := Ok(());
  }
}
