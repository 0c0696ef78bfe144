/** What it means to sort stably under a comparison that may fail. A sort is
    described by the order in which it emits the original row positions. */
module StableOrder {
  import opened Values

  type Comparator<!T> = (T, T) -> Result<Ordering>

  ghost predicate LawfulAt<T>(cmp: Comparator<T>, a: T, b: T, c: T)
  {
    Mirrored(cmp(a, b), cmp(b, a)) && Chained(cmp(a, b), cmp(b, c), cmp(a, c))
  }

  /** The laws a fallible comparison obeys on the rows being sorted. */
  ghost predicate Lawful<T>(cmp: Comparator<T>, rows: seq<T>)
  {
    forall i, j, k {:trigger LawfulAt(cmp, rows[i], rows[j], rows[k])} ::
      0 <= i < |rows| && 0 <= j < |rows| && 0 <= k < |rows| ==>
      LawfulAt(cmp, rows[i], rows[j], rows[k])
  }

  /** Position i must be emitted before position j: its row is smaller, or the
      rows tie and i came first. */
  ghost predicate Before<T>(cmp: Comparator<T>, rows: seq<T>, i: nat, j: nat)
    requires i < |rows| && j < |rows|
  {
    var c := cmp(rows[i], rows[j]);
    c.Ok? && (c.value == Less || (c.value == Equal && i < j))
  }

  ghost predicate Positions<T>(rows: seq<T>, order: seq<nat>)
  {
    forall p :: 0 <= p < |order| ==> order[p] < |rows|
  }

  ghost predicate Ascending<T>(cmp: Comparator<T>, rows: seq<T>, order: seq<nat>)
    requires Positions(rows, order)
  {
    forall p, q :: 0 <= p < q < |order| ==> Before(cmp, rows, order[p], order[q])
  }

  /** `order` lists every position exactly once, in stable ascending order. */
  ghost predicate IsStableOrder<T>(cmp: Comparator<T>, rows: seq<T>, order: seq<nat>)
  {
    && |order| == |rows|
    && Positions(rows, order)
    && (forall i :: 0 <= i < |rows| ==> i in order)
    && Ascending(cmp, rows, order)
  }

  function Permute<T>(rows: seq<T>, order: seq<nat>): (out: seq<T>)
    requires forall p :: 0 <= p < |order| ==> order[p] < |rows|
    ensures |out| == |order|
    ensures forall p :: 0 <= p < |order| ==> out[p] == rows[order[p]]
  {
    seq(|order|, p requires 0 <= p < |order| => rows[order[p]])
  }

  lemma PermuteAppend<T>(rows: seq<T>, order: seq<nat>, p: nat)
    requires Positions(rows, order) && p < |rows|
    ensures Positions(rows, order + [p])
    ensures Permute(rows, order + [p]) == Permute(rows, order) + [rows[p]]
  {
  }

  /** `out` is the stable sort of `rows`. */
  ghost predicate IsStableSort<T(!new)>(cmp: Comparator<T>, rows: seq<T>, out: seq<T>)
  {
    exists order: seq<nat> :: IsStableOrder(cmp, rows, order) && out == Permute(rows, order)
  }

  ghost predicate AllComparable<T>(cmp: Comparator<T>, rows: seq<T>)
  {
    forall i, j :: 0 <= i < j < |rows| ==> cmp(rows[i], rows[j]).Ok?
  }

  function Iota(n: nat): (s: seq<nat>)
    ensures |s| == n && forall i :: 0 <= i < n ==> s[i] == i
  {
    seq(n, i => i)
  }

  // ----- Before is a strict order -----

  lemma BeforeChain<T>(cmp: Comparator<T>, rows: seq<T>, i: nat, j: nat, k: nat)
    requires Lawful(cmp, rows) && i < |rows| && j < |rows| && k < |rows|
    requires Before(cmp, rows, i, j) && Before(cmp, rows, j, k)
    ensures Before(cmp, rows, i, k)
  {
    assert LawfulAt(cmp, rows[i], rows[j], rows[k]);
  }

  lemma BeforeAsymmetric<T>(cmp: Comparator<T>, rows: seq<T>, i: nat, j: nat)
    requires Lawful(cmp, rows) && i < |rows| && j < |rows|
    requires Before(cmp, rows, i, j)
    ensures !Before(cmp, rows, j, i)
  {
    assert LawfulAt(cmp, rows[i], rows[j], rows[i]);
  }

  /** Two ascending listings of the same positions are the same listing. */
  lemma {:induction false} AscendingUnique<T>(cmp: Comparator<T>, rows: seq<T>, a: seq<nat>, b: seq<nat>)
    requires Lawful(cmp, rows) && Positions(rows, a) && Positions(rows, b)
    requires Ascending(cmp, rows, a) && Ascending(cmp, rows, b)
    requires forall i :: i in a <==> i in b
    ensures a == b
    decreases |a|
  {
    if a != [] { assert a[0] in a; }
    if b != [] { assert b[0] in b; }
    if a != [] && b != [] {
      if a[0] != b[0] {
        assert a[0] in b && b[0] in a;
        var p :| 0 <= p < |b| && b[p] == a[0];
        var q :| 0 <= q < |a| && a[q] == b[0];
        BeforeAsymmetric(cmp, rows, a[0], b[0]);
        assert false;
      }
      HeadNotInTail(cmp, rows, a);
      HeadNotInTail(cmp, rows, b);
      assert a == [a[0]] + a[1..] && b == [b[0]] + b[1..];
      forall i ensures i in a[1..] <==> i in b[1..] {
        assert i in a <==> i == a[0] || i in a[1..];
        assert i in b <==> i == b[0] || i in b[1..];
      }
      AscendingUnique(cmp, rows, a[1..], b[1..]);
    }
  }

  lemma HeadNotInTail<T>(cmp: Comparator<T>, rows: seq<T>, a: seq<nat>)
    requires Lawful(cmp, rows) && Positions(rows, a) && a != [] && Ascending(cmp, rows, a)
    ensures a[0] !in a[1..]
  {
    if a[0] in a[1..] {
      var p :| 1 <= p < |a| && a[p] == a[0];
      BeforeAsymmetric(cmp, rows, a[0], a[p]);
      assert false;
    }
  }

  lemma {:induction false} DistinctFits(order: seq<nat>, n: nat)
    requires forall p :: 0 <= p < |order| ==> order[p] < n
    requires forall p, q :: 0 <= p < q < |order| ==> order[p] != order[q]
    ensures |order| <= n
    ensures |order| == n ==> forall i :: 0 <= i < n ==> i in order
    decreases n
  {
    if order != [] { assert order[0] < n; }
    if n == 0 {
    } else if exists p :: 0 <= p < |order| && order[p] == n - 1 {
      var p :| 0 <= p < |order| && order[p] == n - 1;
      var rest := order[..p] + order[p + 1..];
      DistinctFits(rest, n - 1);
      forall i | |order| == n && 0 <= i < n ensures i in order {
        if i < n - 1 { assert i in rest; }
      }
    } else {
      DistinctFits(order, n - 1);
    }
  }

  lemma {:induction false} CoversAll(order: seq<nat>, n: nat)
    requires forall i :: 0 <= i < n ==> i in order
    ensures |order| >= n
    decreases n
  {
    if n > 0 {
      assert n - 1 in order;
      var p :| 0 <= p < |order| && order[p] == n - 1;
      var rest := order[..p] + order[p + 1..];
      forall i | 0 <= i < n - 1 ensures i in rest {
        assert i in order;
        var q :| 0 <= q < |order| && order[q] == i;
        assert rest[if q < p then q else q - 1] == i;
      }
      CoversAll(rest, n - 1);
    }
  }

  lemma CoveringDistinct(order: seq<nat>, n: nat, p: nat, q: nat)
    requires |order| == n && (forall i :: 0 <= i < n ==> i in order)
    requires p < q < n
    ensures order[p] != order[q]
  {
    if order[p] == order[q] {
      var rest := order[..p] + order[p + 1..];
      forall i | 0 <= i < n ensures i in rest {
        assert i in order;
        var k :| 0 <= k < |order| && order[k] == i;
        var k' := if k == p then q else k;
        assert rest[if k' < p then k' else k' - 1] == i;
      }
      CoversAll(rest, n);
      assert false;
    }
  }

  lemma ComparablePermute<T>(cmp: Comparator<T>, rows: seq<T>, order: seq<nat>)
    requires Lawful(cmp, rows) && AllComparable(cmp, rows)
    requires |order| == |rows| && Positions(rows, order) && (forall i :: 0 <= i < |rows| ==> i in order)
    ensures AllComparable(cmp, Permute(rows, order))
  {
    forall p, q | 0 <= p < q < |order| ensures cmp(rows[order[p]], rows[order[q]]).Ok? {
      CoveringDistinct(order, |rows|, p, q);
      assert LawfulAt(cmp, rows[order[p]], rows[order[q]], rows[order[p]]);
    }
  }

  /** An ascending listing of all positions lists each of them once. */
  lemma ListingLength<T>(cmp: Comparator<T>, rows: seq<T>, order: seq<nat>)
    requires Lawful(cmp, rows) && Positions(rows, order) && Ascending(cmp, rows, order)
    requires forall i :: 0 <= i < |rows| ==> i in order
    ensures |order| == |rows|
  {
    forall p, q | 0 <= p < q < |order| ensures order[p] != order[q] {
      if order[p] == order[q] {
        BeforeAsymmetric(cmp, rows, order[p], order[q]);
        assert false;
      }
    }
    DistinctFits(order, |rows|);
    CoversAll(order, |rows|);
  }

  /** A stable sort has one answer. */
  lemma StableSortUnique<T(!new)>(cmp: Comparator<T>, rows: seq<T>, a: seq<T>, b: seq<T>)
    requires Lawful(cmp, rows)
    requires IsStableSort(cmp, rows, a) && IsStableSort(cmp, rows, b)
    ensures a == b
  {
    var p: seq<nat> :| IsStableOrder(cmp, rows, p) && a == Permute(rows, p);
    var q: seq<nat> :| IsStableOrder(cmp, rows, q) && b == Permute(rows, q);
    AscendingUnique(cmp, rows, p, q);
  }

  /** Success of any stable sort means that every pair of rows was comparable. */
  lemma StableOrderComparable<T>(cmp: Comparator<T>, rows: seq<T>, order: seq<nat>)
    requires Lawful(cmp, rows) && IsStableOrder(cmp, rows, order)
    ensures AllComparable(cmp, rows)
  {
    forall i, j | 0 <= i < j < |rows| ensures cmp(rows[i], rows[j]).Ok? {
      assert i in order && j in order;
      var p :| 0 <= p < |order| && order[p] == i;
      var q :| 0 <= q < |order| && order[q] == j;
      assert LawfulAt(cmp, rows[i], rows[j], rows[i]);
      assert Before(cmp, rows, order[p], order[q]) || Before(cmp, rows, order[q], order[p]);
    }
  }

  // ----- sorting block by block -----

  /** `blocks` cuts `[0, n)` into consecutive runs. */
  ghost predicate IsCut(bounds: seq<nat>, n: nat)
  {
    && |bounds| >= 1 && bounds[0] == 0 && bounds[|bounds| - 1] == n
    && forall r, s :: 0 <= r <= s < |bounds| ==> bounds[r] <= bounds[s]
  }

  ghost function RunEnd(bounds: seq<nat>, r: nat): nat
    requires r + 1 < |bounds|
  {
    bounds[r + 1]
  }

  ghost predicate InRun(bounds: seq<nat>, r: nat, i: int)
    requires r + 1 < |bounds|
  {
    bounds[r] <= i < RunEnd(bounds, r)
  }

  /** Every run of `rows` is already in stable ascending order. */
  ghost predicate RunsAscending<T>(cmp: Comparator<T>, rows: seq<T>, bounds: seq<nat>)
  {
    && IsCut(bounds, |rows|)
    && forall r, p, q :: 0 <= r < |bounds| - 1 && InRun(bounds, r, p) && InRun(bounds, r, q) && p < q ==>
         p < |rows| && q < |rows| && Before(cmp, rows, p, q)
  }

  /** `inner` sorts every run of `rows` inside its own block. */
  ghost predicate SortsEachRun<T>(cmp: Comparator<T>, rows: seq<T>, bounds: seq<nat>, inner: seq<nat>)
  {
    && |inner| == |rows| && IsCut(bounds, |rows|) && Positions(rows, inner)
    && (forall i :: 0 <= i < |rows| ==> i in inner)
    && (forall r, p :: 0 <= r < |bounds| - 1 && InRun(bounds, r, p) ==> InRun(bounds, r, inner[p]))
    && (forall r, p, q :: 0 <= r < |bounds| - 1 && InRun(bounds, r, p) && InRun(bounds, r, q) && p < q ==>
          Before(cmp, rows, inner[p], inner[q]))
  }

  lemma {:induction false} FindRun(bounds: seq<nat>, n: nat, i: nat) returns (r: nat)
    requires IsCut(bounds, n) && i < n
    ensures r + 1 < |bounds| && InRun(bounds, r, i)
  {
    r := 0;
    while !InRun(bounds, r, i)
      invariant r + 1 < |bounds| && bounds[r] <= i
      decreases |bounds| - r
    {
      r := r + 1;
    }
  }

  /** Sorting each run and then stably sorting the concatenated runs is the
      stable sort of the whole input, however the input was cut. */
  lemma RunsCompose<T>(cmp: Comparator<T>, rows: seq<T>, bounds: seq<nat>, inner: seq<nat>, outer: seq<nat>)
    requires Lawful(cmp, rows)
    requires SortsEachRun(cmp, rows, bounds, inner)
    requires IsStableOrder(cmp, Permute(rows, inner), outer)
    ensures IsStableOrder(cmp, rows, Permute(inner, outer))
  {
    var sorted := Permute(rows, inner);
    var order := Permute(inner, outer);
    forall p, q | 0 <= p < q < |order| ensures Before(cmp, rows, order[p], order[q]) {
      var i, j := outer[p], outer[q];
      assert Before(cmp, sorted, i, j);
      assert sorted[i] == rows[order[p]] && sorted[j] == rows[order[q]];
      if cmp(sorted[i], sorted[j]).value == Equal {
        var r := FindRun(bounds, |rows|, i);
        var s := FindRun(bounds, |rows|, j);
        assert InRun(bounds, r, inner[i]) && InRun(bounds, s, inner[j]);
        if r == s {
          assert Before(cmp, rows, inner[i], inner[j]);
        } else {
          assert r < s;
          assert bounds[r + 1] <= bounds[s];
        }
      }
    }
    forall i | 0 <= i < |rows| ensures i in order {
      assert i in inner;
      var p :| 0 <= p < |inner| && inner[p] == i;
      assert p in outer;
      var q :| 0 <= q < |outer| && outer[q] == p;
      assert order[q] == i;
    }
  }

  /** Sorting each run leaves every run ascending. */
  lemma SortedRunsAscend<T>(cmp: Comparator<T>, rows: seq<T>, bounds: seq<nat>, inner: seq<nat>)
    requires Lawful(cmp, rows) && SortsEachRun(cmp, rows, bounds, inner)
    ensures RunsAscending(cmp, Permute(rows, inner), bounds)
    ensures Lawful(cmp, Permute(rows, inner))
  {
    var flat := Permute(rows, inner);
    PermuteLawful(cmp, rows, inner);
    forall r, p, q | 0 <= r < |bounds| - 1 && InRun(bounds, r, p) && InRun(bounds, r, q) && p < q
      ensures p < |flat| && q < |flat| && Before(cmp, flat, p, q)
    {
      assert RunEnd(bounds, r) <= bounds[|bounds| - 1];
      assert Before(cmp, rows, inner[p], inner[q]);
    }
  }

  lemma PermuteLawful<T>(cmp: Comparator<T>, rows: seq<T>, order: seq<nat>)
    requires Lawful(cmp, rows) && Positions(rows, order)
    ensures Lawful(cmp, Permute(rows, order))
  {
    var flat := Permute(rows, order);
    forall i, j, k | 0 <= i < |flat| && 0 <= j < |flat| && 0 <= k < |flat|
      ensures LawfulAt(cmp, flat[i], flat[j], flat[k])
    {
      assert LawfulAt(cmp, rows[order[i]], rows[order[j]], rows[order[k]]);
    }
  }

  function Shift(order: seq<nat>, offset: nat): (s: seq<nat>)
    ensures |s| == |order| && forall p :: 0 <= p < |order| ==> s[p] == order[p] + offset
  {
    seq(|order|, p requires 0 <= p < |order| => order[p] + offset)
  }

  lemma AppendCovers(inner: seq<nat>, order: seq<nat>, n: nat, m: nat)
    requires |inner| == n && (forall i :: 0 <= i < n ==> i in inner) && (forall i :: 0 <= i < m ==> i in order)
    ensures forall i :: 0 <= i < n + m ==> i in inner + Shift(order, n)
  {
    var next := inner + Shift(order, n);
    forall i | 0 <= i < n + m ensures i in next {
      if i < n {
        assert i in inner;
      } else {
        assert i - n in order;
        var p :| 0 <= p < |order| && order[p] == i - n;
        assert next[n + p] == i;
      }
    }
  }

  /** Appending one more sorted batch. */
  lemma AppendSortedRun<T>(cmp: Comparator<T>, rows: seq<T>, bounds: seq<nat>, inner: seq<nat>, batch: seq<T>,
                           order: seq<nat>)
    requires SortsEachRun(cmp, rows, bounds, inner) && IsStableOrder(cmp, batch, order)
    ensures SortsEachRun(cmp, rows + batch, bounds + [|rows| + |batch|], inner + Shift(order, |rows|))
    ensures Permute(rows + batch, inner + Shift(order, |rows|)) == Permute(rows, inner) + Permute(batch, order)
  {
    var all, cut, next := rows + batch, bounds + [|rows| + |batch|], inner + Shift(order, |rows|);
    AppendCovers(inner, order, |rows|, |batch|);
    forall r, p | 0 <= r < |cut| - 1 && InRun(cut, r, p) ensures InRun(cut, r, next[p]) {
      if r < |bounds| - 1 {
        AppendRunCase(bounds, |rows|, |batch|, r, p);
        assert InRun(bounds, r, inner[p]) && next[p] == inner[p];
      } else {
        assert next[p] == order[p - |rows|] + |rows|;
      }
    }
    forall r, p, q | 0 <= r < |cut| - 1 && InRun(cut, r, p) && InRun(cut, r, q) && p < q
      ensures Before(cmp, all, next[p], next[q])
    {
      if r < |bounds| - 1 {
        AppendRunCase(bounds, |rows|, |batch|, r, p);
        AppendRunCase(bounds, |rows|, |batch|, r, q);
        assert Before(cmp, rows, inner[p], inner[q]);
      } else {
        assert Before(cmp, batch, order[p - |rows|], order[q - |rows|]);
      }
    }
  }

  lemma AppendRunCase(bounds: seq<nat>, n: nat, m: nat, r: nat, p: int)
    requires IsCut(bounds, n) && r < |bounds| - 1 && InRun(bounds + [n + m], r, p)
    ensures InRun(bounds, r, p) && 0 <= p < n
    ensures RunEnd(bounds, r) == RunEnd(bounds + [n + m], r)
  {
    assert RunEnd(bounds, r) == RunEnd(bounds + [n + m], r);
    assert bounds[r + 1] <= bounds[|bounds| - 1];
  }
}
