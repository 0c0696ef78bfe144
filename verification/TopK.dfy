/** Bounded heaps: keeping the k smallest elements seen so far is the same as
    taking the first k of the sorted sequence. */
module TopK {
  import opened Values

  /** A total order that tells any two different elements of interest apart only up
      to ties, which keep their input order. */
  ghost predicate IsOrder<T(!new)>(le: (T, T) -> bool)
  {
    && (forall a, b :: le(a, b) || le(b, a))
    && (forall a, b, c :: le(a, b) && le(b, c) ==> le(a, c))
  }

  ghost predicate InOrder<T>(le: (T, T) -> bool, s: seq<T>)
  {
    forall i, j :: 0 <= i < j < |s| ==> le(s[i], s[j])
  }

  /** Places an element after everything not greater. */
  function Insert<T>(le: (T, T) -> bool, s: seq<T>, x: T): (r: seq<T>)
    ensures |r| == |s| + 1
  {
    if s == [] then [x]
    else
      var n := |s| - 1;
      if le(s[n], x) then s + [x] else Insert(le, s[..n], x) + [s[n]]
  }

  function Sorted<T>(le: (T, T) -> bool, s: seq<T>): (r: seq<T>)
    ensures |r| == |s|
  {
    if s == [] then []
    else
      var n := |s| - 1;
      Insert(le, Sorted(le, s[..n]), s[n])
  }

  function FirstK<T>(s: seq<T>, k: nat): (r: seq<T>)
    ensures |r| == if |s| < k then |s| else k
  {
    if |s| < k then s else s[..k]
  }

  lemma {:induction false} InsertBound<T>(le: (T, T) -> bool, s: seq<T>, x: T, top: T)
    requires le(x, top) && forall i :: 0 <= i < |s| ==> le(s[i], top)
    ensures forall i :: 0 <= i < |Insert(le, s, x)| ==> le(Insert(le, s, x)[i], top)
  {
    if s != [] && !le(s[|s| - 1], x) { InsertBound(le, s[..|s| - 1], x, top); }
  }

  lemma {:induction false} InsertKeeps<T>(le: (T, T) -> bool, s: seq<T>, x: T)
    ensures multiset(Insert(le, s, x)) == multiset(s) + multiset{x}
  {
    if s != [] {
      var n := |s| - 1;
      assert s == s[..n] + [s[n]];
      if !le(s[n], x) { InsertKeeps(le, s[..n], x); }
    }
  }

  /** Sorting neither adds nor loses anything. */
  lemma {:induction false} SortedKeeps<T>(le: (T, T) -> bool, s: seq<T>)
    ensures multiset(Sorted(le, s)) == multiset(s)
  {
    if s != [] {
      var n := |s| - 1;
      assert s == s[..n] + [s[n]];
      SortedKeeps(le, s[..n]);
      InsertKeeps(le, Sorted(le, s[..n]), s[n]);
    }
  }

  lemma {:induction false} InsertInOrder<T(!new)>(le: (T, T) -> bool, s: seq<T>, x: T)
    requires IsOrder(le) && InOrder(le, s)
    ensures InOrder(le, Insert(le, s, x))
  {
    if s != [] {
      var n := |s| - 1;
      if le(s[n], x) {
        forall i | 0 <= i < |s| ensures le(s[i], x) { if i < n { assert le(s[i], s[n]); } }
      } else {
        InsertInOrder(le, s[..n], x);
        InsertBound(le, s[..n], x, s[n]);
      }
    }
  }

  lemma {:induction false} SortedInOrder<T(!new)>(le: (T, T) -> bool, s: seq<T>)
    requires IsOrder(le)
    ensures InOrder(le, Sorted(le, s))
  {
    if s != [] {
      SortedInOrder(le, s[..|s| - 1]);
      InsertInOrder(le, Sorted(le, s[..|s| - 1]), s[|s| - 1]);
    }
  }

  /** An element not smaller than position p is inserted after it. */
  lemma {:induction false} InsertAfter<T(!new)>(le: (T, T) -> bool, s: seq<T>, x: T, p: nat)
    requires IsOrder(le) && InOrder(le, s) && p < |s| && le(s[p], x)
    ensures Insert(le, s, x)[..p + 1] == s[..p + 1]
  {
    var n := |s| - 1;
    if !le(s[n], x) {
      InsertAfter(le, s[..n], x, p);
      assert Insert(le, s, x)[..p + 1] == Insert(le, s[..n], x)[..p + 1];
    }
  }

  /** An element smaller than position p is inserted before it. */
  lemma {:induction false} InsertBefore<T(!new)>(le: (T, T) -> bool, s: seq<T>, x: T, p: nat)
    requires IsOrder(le) && InOrder(le, s) && p < |s| && !le(s[p], x)
    ensures Insert(le, s, x) == Insert(le, s[..p], x) + s[p..]
  {
    var n := |s| - 1;
    if p < n {
      InsertBefore(le, s[..n], x, p);
      assert s[..n][..p] == s[..p] && s[..n][p..] + [s[n]] == s[p..];
      Assoc(Insert(le, s[..p], x), s[..n][p..], [s[n]]);
    } else {
      assert s[p..] == [s[n]];
    }
  }

  /** What a bounded heap does with one more element: below capacity it keeps it;
      at capacity it keeps it in place of the worst one, if it is better. */
  function HeapStep<T>(le: (T, T) -> bool, heap: seq<T>, k: nat, x: T): seq<T>
    requires |heap| <= k
  {
    if |heap| < k then Insert(le, heap, x)
    else if k == 0 || le(heap[k - 1], x) then heap
    else Insert(le, heap[..k - 1], x)
  }

  /** The heap holds the first k of the sorted input, one element at a time. */
  lemma HeapHoldsFirstK<T(!new)>(le: (T, T) -> bool, s: seq<T>, k: nat, x: T)
    requires IsOrder(le)
    ensures HeapStep(le, FirstK(Sorted(le, s), k), k, x) == FirstK(Sorted(le, s + [x]), k)
  {
    var t := Sorted(le, s);
    SortedInOrder(le, s);
    assert (s + [x])[..|s|] == s;
    var next := Insert(le, t, x);
    if |t| < k {
      assert next[..|next|] == next;
    } else if k > 0 {
      if le(t[k - 1], x) {
        InsertAfter(le, t, x, k - 1);
      } else {
        InsertBefore(le, t, x, k - 1);
        assert t[..k][..k - 1] == t[..k - 1];
        assert next[..k] == Insert(le, t[..k - 1], x);
      }
    }
  }

  /** The first k of the sorted sequence are the k best: nothing left out is
      better than anything kept. */
  lemma FirstKAreBest<T(!new)>(le: (T, T) -> bool, s: seq<T>, k: nat, i: nat, j: nat)
    requires IsOrder(le) && i < |FirstK(Sorted(le, s), k)| <= j < |s|
    ensures le(FirstK(Sorted(le, s), k)[i], Sorted(le, s)[j])
  {
    SortedInOrder(le, s);
  }

  /** The summed weight of what a heap holds. */
  function Weight<T>(s: seq<T>, w: T -> nat): nat
  {
    if s == [] then 0 else Weight(s[..|s| - 1], w) + w(s[|s| - 1])
  }

  lemma WeightLast<T>(s: seq<T>, x: T, w: T -> nat)
    ensures Weight(s + [x], w) == Weight(s, w) + w(x)
  {
    assert (s + [x])[..|s|] == s;
  }

  lemma {:induction false} InsertWeight<T>(le: (T, T) -> bool, s: seq<T>, x: T, w: T -> nat)
    ensures Weight(Insert(le, s, x), w) == Weight(s, w) + w(x)
  {
    WeightLast(s, x, w);
    if s == [] {
      assert s + [x] == [x];
    } else if !le(s[|s| - 1], x) {
      InsertWeight(le, s[..|s| - 1], x, w);
      WeightLast(Insert(le, s[..|s| - 1], x), s[|s| - 1], w);
    }
  }

  lemma {:induction false} SortedWeight<T>(le: (T, T) -> bool, s: seq<T>, w: T -> nat)
    ensures Weight(Sorted(le, s), w) == Weight(s, w)
  {
    if s != [] {
      var n := |s| - 1;
      SortedWeight(le, s[..n], w);
      InsertWeight(le, Sorted(le, s[..n]), s[n], w);
    }
  }

  lemma {:induction false} PrefixWeight<T>(s: seq<T>, k: nat, w: T -> nat)
    requires k <= |s|
    ensures Weight(s[..k], w) <= Weight(s, w)
    decreases |s|
  {
    if k == |s| {
      assert s[..k] == s;
    } else {
      PrefixWeight(s[..|s| - 1], k, w);
      assert s[..|s| - 1][..k] == s[..k];
    }
  }

  /** A heap never weighs more than everything it has seen. */
  lemma FirstKWeight<T>(le: (T, T) -> bool, s: seq<T>, k: nat, w: T -> nat)
    ensures Weight(FirstK(Sorted(le, s), k), w) <= Weight(s, w)
  {
    SortedWeight(le, s, w);
    PrefixWeight(Sorted(le, s), |FirstK(Sorted(le, s), k)|, w);
    assert FirstK(Sorted(le, s), k) == Sorted(le, s)[..|FirstK(Sorted(le, s), k)|];
  }

  lemma {:induction false} InsertAll<T>(le: (T, T) -> bool, s: seq<T>, x: T, p: T -> bool)
    requires p(x) && forall i :: 0 <= i < |s| ==> p(s[i])
    ensures forall i :: 0 <= i < |Insert(le, s, x)| ==> p(Insert(le, s, x)[i])
  {
    if s != [] && !le(s[|s| - 1], x) { InsertAll(le, s[..|s| - 1], x, p); }
  }

  /** The candidates a scan finds: `f` says for each row, by its place, whether it
      is one; a failure anywhere fails the scan. */
  function Gather<R, T>(f: (R, nat) -> Result<Option<T>>, rows: seq<R>): Result<seq<T>>
  {
    if rows == [] then Ok([])
    else
      var n := |rows| - 1;
      var front :- Gather(f, rows[..n]);
      var found :- f(rows[n], n);
      Ok(if found.None? then front else front + [found.value])
  }

  lemma GatherLast<R, T>(f: (R, nat) -> Result<Option<T>>, rows: seq<R>, row: R)
    requires Gather(f, rows).Ok? && f(row, |rows|).Ok?
    ensures Gather(f, rows + [row]) ==
            Ok(if f(row, |rows|).value.None? then Gather(f, rows).value
               else Gather(f, rows).value + [f(row, |rows|).value.value])
  {
    var all := rows + [row];
    assert all[..|all| - 1] == rows && all[|all| - 1] == row;
  }

  /** Every candidate is found in some row, and every row's candidate is listed. */
  lemma {:induction false} GatherMembers<R, T>(f: (R, nat) -> Result<Option<T>>, rows: seq<R>)
    requires Gather(f, rows).Ok?
    ensures forall x :: x in Gather(f, rows).value ==> exists i: nat :: i < |rows| && f(rows[i], i) == Ok(Some(x))
    ensures forall i: nat :: i < |rows| ==> f(rows[i], i).Ok?
    ensures forall i: nat :: i < |rows| && f(rows[i], i).value.Some? ==>
              f(rows[i], i).value.value in Gather(f, rows).value
  {
    if rows != [] {
      var n := |rows| - 1;
      var front := rows[..n];
      GatherMembers(f, front);
      forall x | x in Gather(f, rows).value
        ensures exists i: nat :: i < |rows| && f(rows[i], i) == Ok(Some(x))
      {
        if x in Gather(f, front).value {
          var i: nat :| i < |front| && f(front[i], i) == Ok(Some(x));
          assert rows[i] == front[i];
        }
      }
      forall i: nat | i < |rows|
        ensures f(rows[i], i).Ok?
        ensures f(rows[i], i).value.Some? ==> f(rows[i], i).value.value in Gather(f, rows).value
      {
        if i < n { assert front[i] == rows[i] && f(front[i], i).Ok?; }
      }
    }
  }

  /** Sorting distinct elements leaves them distinct. */
  lemma SortedDistinct<T(!new)>(le: (T, T) -> bool, s: seq<T>, i: nat, j: nat)
    requires (forall p, q :: 0 <= p < q < |s| ==> s[p] != s[q]) && i < j < |s|
    ensures Sorted(le, s)[i] != Sorted(le, s)[j] && Sorted(le, s)[i] in s && Sorted(le, s)[j] in s
  {
    var t := Sorted(le, s);
    SortedKeeps(le, s);
    assert t[i] in multiset(t) && t[j] in multiset(t);
    OnceOnly(s, t[i]);
    if t[i] == t[j] { Twice(t, i, j); }
  }

  lemma Twice<T>(t: seq<T>, i: nat, j: nat)
    requires i < j < |t| && t[i] == t[j]
    ensures multiset(t)[t[i]] >= 2
  {
    var a, b := t[..j], t[j..];
    assert t == a + b && a[i] in multiset(a) && b[0] in multiset(b);
  }

  lemma {:induction false} OnceOnly<T>(s: seq<T>, x: T)
    requires forall p, q :: 0 <= p < q < |s| ==> s[p] != s[q]
    ensures multiset(s)[x] <= 1
  {
    if s != [] {
      var n := |s| - 1;
      OnceOnly(s[..n], x);
      assert s == s[..n] + [s[n]];
      assert s[n] !in s[..n];
    }
  }

  /** The first k in order, told by membership: all are of the sequence, in order,
      and whatever is left out is not better than anything kept. */
  lemma FirstKMeans<T(!new)>(le: (T, T) -> bool, s: seq<T>, k: nat)
    requires IsOrder(le)
    ensures var out := FirstK(Sorted(le, s), k);
            && InOrder(le, out) && (forall x :: x in out ==> x in s)
            && forall x :: x in s && x !in out ==> |out| == k && forall i :: 0 <= i < |out| ==> le(out[i], x)
  {
    var all, out := Sorted(le, s), FirstK(Sorted(le, s), k);
    SortedInOrder(le, s);
    SortedKeeps(le, s);
    forall x | x in out ensures x in s { assert x in multiset(all); }
    forall x | x in s && x !in out
      ensures |out| == k && forall i :: 0 <= i < |out| ==> le(out[i], x)
    {
      assert x in multiset(all);
      var j :| 0 <= j < |all| && all[j] == x;
    }
  }

  function Mapped<T, U>(s: seq<T>, f: T -> U): (r: seq<U>)
    ensures |r| == |s| && forall i :: 0 <= i < |s| ==> r[i] == f(s[i])
  {
    seq(|s|, i requires 0 <= i < |s| => f(s[i]))
  }

  lemma {:induction false} MappedInsert<T, U>(le: (T, T) -> bool, ge: (U, U) -> bool, f: T -> U, s: seq<T>, x: T)
    requires forall a, b :: ge(f(a), f(b)) == le(a, b)
    ensures Insert(ge, Mapped(s, f), f(x)) == Mapped(Insert(le, s, x), f)
  {
    if s != [] {
      var n := |s| - 1;
      assert Mapped(s, f)[..n] == Mapped(s[..n], f) && Mapped(s, f)[n] == f(s[n]);
      if !le(s[n], x) { MappedInsert(le, ge, f, s[..n], x); }
    }
  }

  /** An order-preserving renaming commutes with taking the first k in order. */
  lemma {:induction false} MappedSorted<T, U>(le: (T, T) -> bool, ge: (U, U) -> bool, f: T -> U, s: seq<T>)
    requires forall a, b :: ge(f(a), f(b)) == le(a, b)
    ensures Sorted(ge, Mapped(s, f)) == Mapped(Sorted(le, s), f)
  {
    if s != [] {
      var n := |s| - 1;
      MappedSorted(le, ge, f, s[..n]);
      assert Mapped(s, f)[..n] == Mapped(s[..n], f) && Mapped(s, f)[n] == f(s[n]);
      MappedInsert(le, ge, f, Sorted(le, s[..n]), s[n]);
    }
  }
}
