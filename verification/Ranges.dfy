/** Inclusive u64 key ranges: in-place merging and binary-search membership. */
module Ranges {
  import opened Values
  import opened StableOrder
  import opened MergeSort

  datatype Range = Range(lo: u64, hi: u64)

  const U64_MAX := 0xFFFF_FFFF_FFFF_FFFF

  ghost predicate Proper(rs: seq<Range>)
  {
    forall i :: 0 <= i < |rs| ==> rs[i].lo <= rs[i].hi
  }

  ghost predicate Covers(rs: seq<Range>, x: int)
  {
    exists i :: 0 <= i < |rs| && rs[i].lo <= x <= rs[i].hi
  }

  /** Sorted, disjoint and not even adjacent. */
  ghost predicate Normal(rs: seq<Range>)
  {
    Proper(rs) && forall i, j :: 0 <= i < j < |rs| ==> rs[i].hi + 1 < rs[j].lo
  }

  ghost predicate SortedByLo(rs: seq<Range>)
  {
    forall i, j :: 0 <= i < j < |rs| ==> rs[i].lo <= rs[j].lo
  }

  function CompareRanges(a: Range, b: Range): Result<Ordering>
  {
    Ok(if a.lo != b.lo then CompareInt(a.lo, b.lo) else CompareInt(a.hi, b.hi))
  }

  lemma CompareRangesLawful(rs: seq<Range>)
    ensures Lawful(CompareRanges, rs) && AllComparable(CompareRanges, rs)
  {
  }

  /** sort_unstable on pairs. */
  method SortRanges(a: array<Range>)
    modifies a
    ensures SortedByLo(a[..]) && (Proper(old(a[..])) ==> Proper(a[..]))
    ensures forall x :: Covers(a[..], x) <==> Covers(old(a[..]), x)
  {
    ghost var rs := a[..];
    CompareRangesLawful(rs);
    var r, out := StableSortBy(CompareRanges, a[..]);
    for i := 0 to a.Length
      invariant forall k :: 0 <= k < i ==> a[k] == out[k]
    {
      a[i] := out[i];
    }
    assert a[..] == out;
    SortedRanges(rs, out);
  }

  /** Sorting ranges orders them by their lower ends and keeps what they cover. */
  lemma SortedRanges(rs: seq<Range>, out: seq<Range>)
    requires IsStableSort(CompareRanges, rs, out)
    ensures SortedByLo(out) && (Proper(rs) ==> Proper(out)) && forall x :: Covers(out, x) <==> Covers(rs, x)
  {
    var order: seq<nat> :| IsStableOrder(CompareRanges, rs, order) && out == Permute(rs, order);
    PermuteCovers(rs, order);
    forall i, j | 0 <= i < j < |out| ensures out[i].lo <= out[j].lo {
      assert Before(CompareRanges, rs, order[i], order[j]);
    }
  }

  lemma PermuteCovers(rs: seq<Range>, order: seq<nat>)
    requires |order| == |rs| && Positions(rs, order) && forall i :: 0 <= i < |rs| ==> i in order
    ensures forall x :: Covers(Permute(rs, order), x) <==> Covers(rs, x)
    ensures Proper(rs) ==> Proper(Permute(rs, order))
  {
    var out := Permute(rs, order);
    forall x ensures Covers(out, x) <==> Covers(rs, x) {
      if Covers(rs, x) {
        var i :| 0 <= i < |rs| && rs[i].lo <= x <= rs[i].hi;
        assert i in order;
        var p :| 0 <= p < |order| && order[p] == i;
        assert out[p] == rs[i];
      }
      if Covers(out, x) {
        var p :| 0 <= p < |out| && out[p].lo <= x <= out[p].hi;
        assert rs[order[p]] == out[p];
      }
    }
  }

  function SaturatingSucc(x: u64): u64
  {
    if x == U64_MAX then x else x + 1
  }

  lemma CoversAppend(rs: seq<Range>, r: Range, x: int)
    ensures Covers(rs + [r], x) <==> Covers(rs, x) || r.lo <= x <= r.hi
  {
    var all := rs + [r];
    if Covers(rs, x) {
      var i :| 0 <= i < |rs| && rs[i].lo <= x <= rs[i].hi;
      assert all[i] == rs[i];
    }
    if r.lo <= x <= r.hi { assert all[|rs|] == r; }
  }

  /** Taking one more sorted range into a merged list. */
  function Absorb(rs: seq<Range>, r: Range): (out: seq<Range>)
  {
    if rs != [] && r.lo <= SaturatingSucc(rs[|rs| - 1].hi) then
      var last := rs[|rs| - 1];
      rs[..|rs| - 1] + [Range(last.lo, if last.hi < r.hi then r.hi else last.hi)]
    else rs + [r]
  }

  lemma AbsorbExact(rs: seq<Range>, r: Range)
    requires Normal(rs) && r.lo <= r.hi && (rs != [] ==> rs[|rs| - 1].lo <= r.lo)
    ensures Normal(Absorb(rs, r)) && Absorb(rs, r) != [] && Absorb(rs, r)[|Absorb(rs, r)| - 1].lo <= r.lo
    ensures forall x :: Covers(Absorb(rs, r), x) <==> Covers(rs, x) || r.lo <= x <= r.hi
  {
    forall x ensures Covers(Absorb(rs, r), x) <==> Covers(rs, x) || r.lo <= x <= r.hi {
      if rs != [] && r.lo <= SaturatingSucc(rs[|rs| - 1].hi) {
        var front, last := rs[..|rs| - 1], rs[|rs| - 1];
        assert rs == front + [last];
        CoversAppend(front, last, x);
        CoversAppend(front, Range(last.lo, if last.hi < r.hi then r.hi else last.hi), x);
      } else {
        CoversAppend(rs, r, x);
      }
    }
  }

  /** merge_ranges: sorts, then folds each range into the last one kept, reading
      and writing the same vector. The first `write` slots are the result. */
  method MergeRanges(a: array<Range>) returns (write: nat)
    requires Proper(a[..])
    modifies a
    ensures write <= a.Length && Normal(a[..write])
    ensures forall x :: Covers(a[..write], x) <==> Covers(old(a[..]), x)
  {
    SortRanges(a);
    ghost var sorted := a[..];
    write := 0;
    for read := 0 to a.Length
      invariant write <= read
      invariant a[read..] == sorted[read..]
      invariant MergedTo(a[..write], sorted, read)
    {
      assert a[read] == a[read..][0] == sorted[read];
      MergeStep(a[..write], sorted, read);
      assert a[read..][1..] == a[read + 1..] && sorted[read..][1..] == sorted[read + 1..];
      write := FoldIn(a, write, read);
    }
    assert sorted[..a.Length] == sorted;
  }

  /** The loop body of merge_ranges: extends the last range kept, or keeps one more. */
  method FoldIn(a: array<Range>, write: nat, read: nat) returns (kept: nat)
    requires write <= read < a.Length
    modifies a
    ensures kept <= read + 1 && a[..kept] == Absorb(old(a[..write]), old(a[read]))
    ensures a[read + 1..] == old(a[read + 1..])
  {
    kept := write;
    if write > 0 && a[read].lo <= SaturatingSucc(a[write - 1].hi) {
      a[write - 1] := Range(a[write - 1].lo, if a[write - 1].hi < a[read].hi then a[read].hi else a[write - 1].hi);
    } else {
      a[write] := a[read];
      kept := write + 1;
    }
  }

  /** The first sorted ranges, merged. */
  ghost predicate MergedTo(kept: seq<Range>, sorted: seq<Range>, read: nat)
    requires read <= |sorted|
  {
    && Normal(kept) && (kept != [] ==> read > 0 && kept[|kept| - 1].lo <= sorted[read - 1].lo)
    && forall x :: Covers(kept, x) <==> Covers(sorted[..read], x)
  }

  lemma MergeStep(kept: seq<Range>, sorted: seq<Range>, read: nat)
    requires read < |sorted| && MergedTo(kept, sorted, read) && SortedByLo(sorted) && Proper(sorted)
    ensures MergedTo(Absorb(kept, sorted[read]), sorted, read + 1)
  {
    AbsorbExact(kept, sorted[read]);
    var next := Absorb(kept, sorted[read]);
    assert sorted[..read + 1] == sorted[..read] + [sorted[read]];
    forall x ensures Covers(next, x) <==> Covers(sorted[..read + 1], x) {
      CoversAppend(sorted[..read], sorted[read], x);
    }
  }

  /** range_contains: the last range starting at or before the key decides. */
  method RangeContains(rs: seq<Range>, key: int) returns (found: bool)
    requires Normal(rs)
    ensures found <==> Covers(rs, key)
  {
    var lo, hi := 0, |rs|;
    while lo < hi
      invariant lo <= hi <= |rs|
      invariant forall i :: 0 <= i < lo ==> rs[i].lo <= key
      invariant forall i :: hi <= i < |rs| ==> key < rs[i].lo
    {
      var mid := (lo + hi) / 2;
      if rs[mid].lo <= key {
        forall i | 0 <= i < mid ensures rs[i].lo <= key { assert rs[i].hi + 1 < rs[mid].lo; }
        lo := mid + 1;
      } else {
        forall i | mid < i < |rs| ensures key < rs[i].lo { assert rs[mid].hi + 1 < rs[i].lo; }
        hi := mid;
      }
    }
    found := lo != 0 && key <= rs[lo - 1].hi;
    LastDecides(rs, key, lo);
  }

  lemma LastDecides(rs: seq<Range>, key: int, n: nat)
    requires Normal(rs) && n <= |rs|
    requires forall i :: 0 <= i < n ==> rs[i].lo <= key
    requires forall i :: n <= i < |rs| ==> key < rs[i].lo
    ensures Covers(rs, key) <==> n != 0 && key <= rs[n - 1].hi
  {
    assert n > 0 ==> rs[n - 1].lo <= key;
    if Covers(rs, key) {
      var i :| 0 <= i < |rs| && rs[i].lo <= key <= rs[i].hi;
      if i < n - 1 { assert false; }
    }
  }

  /** Two normal lists with the same union are the same list. */
  lemma {:induction false} NormalUnique(a: seq<Range>, b: seq<Range>)
    requires Normal(a) && Normal(b)
    requires forall x :: Covers(a, x) <==> Covers(b, x)
    ensures a == b
    decreases |a|
  {
    if a != [] { FirstFacts(a); }
    if b != [] { FirstFacts(b); }
    if a != [] && b != [] {
      SameFirst(a, b);
      forall x ensures Covers(a[1..], x) <==> Covers(b[1..], x) {
        TailCovers(a, x);
        TailCovers(b, x);
      }
      NormalUnique(a[1..], b[1..]);
      assert a == [a[0]] + a[1..] && b == [b[0]] + b[1..];
    }
  }

  lemma TailCovers(rs: seq<Range>, x: int)
    requires Normal(rs) && rs != []
    ensures Covers(rs[1..], x) <==> Covers(rs, x) && x > rs[0].hi
  {
    if Covers(rs, x) && x > rs[0].hi {
      var i :| 0 <= i < |rs| && rs[i].lo <= x <= rs[i].hi;
      assert rs[1..][i - 1] == rs[i];
    }
    if Covers(rs[1..], x) {
      var i :| 0 <= i < |rs| - 1 && rs[1..][i].lo <= x <= rs[1..][i].hi;
      assert rs[i + 1] == rs[1..][i];
      assert rs[0].hi + 1 < rs[i + 1].lo;
    }
  }

  lemma SameFirst(a: seq<Range>, b: seq<Range>)
    requires Normal(a) && Normal(b) && a != [] && b != []
    requires forall x :: Covers(a, x) <==> Covers(b, x)
    ensures a[0] == b[0]
  {
    FirstFacts(a);
    FirstFacts(b);
    assert Covers(b, a[0].lo) && Covers(a, b[0].lo);
    assert a[0].lo == b[0].lo;
    if a[0].hi < b[0].hi { assert false; }
    if b[0].hi < a[0].hi { assert false; }
  }

  lemma FirstFacts(rs: seq<Range>)
    requires Normal(rs) && rs != []
    ensures Covers(rs, rs[0].lo) && !Covers(rs, rs[0].hi + 1)
    ensures forall x :: Covers(rs, x) ==> rs[0].lo <= x
  {
    forall x | Covers(rs, x) ensures rs[0].lo <= x && x != rs[0].hi + 1 {
      var i :| 0 <= i < |rs| && rs[i].lo <= x <= rs[i].hi;
      if i > 0 { assert rs[0].hi + 1 < rs[i].lo; }
    }
  }
}
