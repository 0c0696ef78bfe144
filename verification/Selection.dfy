/** Picking the elements of a sequence that a partial function answers, and how
    picking commutes with appending, sorting and permuting. */
module Selection {
  import opened Values
  import opened StableOrder

  /** The answers of `f` over `rows`, in order. */
  function Pick<T, U>(rows: seq<T>, f: T -> Option<U>): seq<U>
  {
    if rows == [] then []
    else Pick(rows[..|rows| - 1], f) + Answer(f, rows[|rows| - 1])
  }

  function Answer<T, U>(f: T -> Option<U>, t: T): (s: seq<U>)
    ensures |s| <= 1
  {
    match f(t) case Some(u) => [u] case None => []
  }

  lemma PickLast<T, U>(rows: seq<T>, last: T, f: T -> Option<U>)
    ensures Pick(rows + [last], f) == Pick(rows, f) + Answer(f, last)
  {
    assert (rows + [last])[..|rows|] == rows;
  }

  lemma {:induction false} PickAppend<T, U>(a: seq<T>, b: seq<T>, f: T -> Option<U>)
    ensures Pick(a + b, f) == Pick(a, f) + Pick(b, f)
    decreases |b|
  {
    if b == [] {
      assert a + b == a && Pick(a, f) + [] == Pick(a, f);
    } else {
      var front, last := b[..|b| - 1], b[|b| - 1];
      PickAppend(a, front, f);
      assert b == front + [last] && a + b == (a + front) + [last];
      PickLast(a + front, last, f);
      PickLast(front, last, f);
      Assoc(Pick(a, f), Pick(front, f), Answer(f, last));
    }
  }

  lemma {:induction false} PickNone<T, U>(rows: seq<T>, f: T -> Option<U>)
    requires forall i :: 0 <= i < |rows| ==> f(rows[i]).None?
    ensures Pick(rows, f) == []
  {
    if rows != [] { PickNone(rows[..|rows| - 1], f); }
  }

  /** Everything picked comes from an element. */
  lemma {:induction false} PickedFrom<T, U>(rows: seq<T>, f: T -> Option<U>, u: U)
    requires u in Pick(rows, f)
    ensures exists i :: 0 <= i < |rows| && f(rows[i]) == Some(u)
  {
    var n := |rows| - 1;
    if u in Pick(rows[..n], f) {
      PickedFrom(rows[..n], f, u);
      var i :| 0 <= i < n && f(rows[..n][i]) == Some(u);
      assert f(rows[i]) == Some(u);
    } else {
      assert f(rows[n]) == Some(u);
    }
  }

  lemma {:induction false} PickMember<T, U>(rows: seq<T>, f: T -> Option<U>, i: nat)
    requires i < |rows| && f(rows[i]).Some?
    ensures f(rows[i]).value in Pick(rows, f)
  {
    var n := |rows| - 1;
    if i < n {
      PickMember(rows[..n], f, i);
    }
  }

  /** Picking twice is picking once with the composed answer. */
  function Then<T, U, V>(f: T -> Option<U>, g: U -> Option<V>): T -> Option<V>
  {
    t => match f(t) case Some(u) => g(u) case None => None
  }

  lemma {:induction false} PickThen<T, U, V>(rows: seq<T>, f: T -> Option<U>, g: U -> Option<V>)
    ensures Pick(Pick(rows, f), g) == Pick(rows, Then(f, g))
  {
    if rows != [] {
      var front, last := rows[..|rows| - 1], rows[|rows| - 1];
      PickThen(front, f, g);
      PickAppend(Pick(front, f), Answer(f, last), g);
      PickSingle(f, g, last);
    }
  }

  lemma PickSingle<T, U, V>(f: T -> Option<U>, g: U -> Option<V>, t: T)
    ensures Pick(Answer(f, t), g) == Answer(Then(f, g), t)
  {
    if f(t).Some? {
      PickLast([], f(t).value, g);
      assert [] + [f(t).value] == [f(t).value];
    }
  }

  /** Two functions that agree on the elements pick the same. */
  lemma {:induction false} PickAgree<T, U>(rows: seq<T>, f: T -> Option<U>, g: T -> Option<U>)
    requires forall i :: 0 <= i < |rows| ==> f(rows[i]) == g(rows[i])
    ensures Pick(rows, f) == Pick(rows, g)
  {
    if rows != [] { PickAgree(rows[..|rows| - 1], f, g); }
  }

  // ----- permutations -----

  lemma PickInsert<T, U>(before: seq<T>, t: T, after: seq<T>, f: T -> Option<U>)
    ensures multiset(Pick(before + ([t] + after), f)) == multiset(Pick(before + after, f)) + multiset(Answer(f, t))
  {
    PickAppend(before, after, f);
    PickAppend(before, [t] + after, f);
    PickAppend([t], after, f);
    PickLast([], t, f);
    assert [] + [t] == [t];
  }

  lemma {:induction false} PickPermuted<T, U>(a: seq<T>, b: seq<T>, f: T -> Option<U>)
    requires multiset(a) == multiset(b)
    ensures multiset(Pick(a, f)) == multiset(Pick(b, f))
    decreases |a|
  {
    if a == [] {
      assert |b| == |multiset(b)|;
    } else {
      var front, last := a[..|a| - 1], a[|a| - 1];
      assert a == front + [last];
      assert last in multiset(b);
      var i :| 0 <= i < |b| && b[i] == last;
      var before, after := b[..i], b[i + 1..];
      assert b == before + ([last] + after);
      assert multiset(front) == multiset(a) - multiset{last};
      assert multiset(before + after) == multiset(b) - multiset{last};
      PickPermuted(front, before + after, f);
      PickInsert(before, last, after, f);
      PickLast(front, last, f);
    }
  }

  lemma DropPosition(order: seq<nat>, p: nat, n: nat)
    requires |order| == n + 1 && p <= n && order[p] == n && forall i :: 0 <= i <= n ==> i in order
    requires forall a :: 0 <= a < |order| ==> order[a] <= n
    ensures var rest := order[..p] + order[p + 1..];
            (forall i :: 0 <= i < n ==> i in rest) && forall a :: 0 <= a < |rest| ==> rest[a] < n
    ensures forall a :: 0 <= a < |order| && a != p ==> order[a] < n
  {
    var rest := order[..p] + order[p + 1..];
    forall i | 0 <= i < n ensures i in rest { assert i in order; }
    forall a | 0 <= a <= n && a != p ensures order[a] < n {
      CoveringDistinct(order, n + 1, if a < p then a else p, if a < p then p else a);
    }
  }

  lemma {:induction false} PermuteMultiset<T>(rows: seq<T>, order: seq<nat>)
    requires Positions(rows, order) && |order| == |rows| && forall i :: 0 <= i < |rows| ==> i in order
    ensures multiset(Permute(rows, order)) == multiset(rows)
    decreases |rows|
  {
    if rows != [] {
      var n := |rows| - 1;
      assert n in order;
      var p :| 0 <= p < |order| && order[p] == n;
      DropPosition(order, p, n);
      var front, rest := rows[..n], order[..p] + order[p + 1..];
      PermuteMultiset(front, rest);
      assert rows == front + [rows[n]];
      PermuteAround(rows, order, p);
    }
  }

  lemma PermuteAround<T>(rows: seq<T>, order: seq<nat>, p: nat)
    requires Positions(rows, order) && p < |order| && order[p] == |rows| - 1
    requires forall a :: 0 <= a < |order| && a != p ==> order[a] < |rows| - 1
    ensures var n := |rows| - 1;
            && Positions(rows[..n], order[..p] + order[p + 1..])
            && multiset(Permute(rows, order)) ==
                 multiset(Permute(rows[..n], order[..p] + order[p + 1..])) + multiset{rows[n]}
  {
    var n := |rows| - 1;
    var out := Permute(rows, order);
    assert out == out[..p] + [rows[n]] + out[p + 1..];
    assert Permute(rows[..n], order[..p] + order[p + 1..]) == out[..p] + out[p + 1..];
  }

  // ----- stable permutations -----

  ghost predicate Increasing(s: seq<nat>)
  {
    forall a, b :: 0 <= a < b < |s| ==> s[a] < s[b]
  }

  lemma {:induction false} IncreasingUnique(a: seq<nat>, b: seq<nat>)
    requires Increasing(a) && Increasing(b)
    requires forall i :: i in a <==> i in b
    ensures a == b
  {
    if a != [] { assert a[|a| - 1] in b; }
    if b != [] { assert b[|b| - 1] in a; }
    if a != [] && b != [] {
      var m, n := |a| - 1, |b| - 1;
      assert a[m] == b[n];
      assert forall i :: i in a[..m] <==> i in a && i != a[m];
      assert forall i :: i in b[..n] <==> i in b && i != b[n];
      IncreasingUnique(a[..m], b[..n]);
      assert a == a[..m] + [a[m]] && b == b[..n] + [b[n]];
    }
  }

  /** The positions, among those listed, whose rows `f` answers. */
  function Answered<T, U>(rows: seq<T>, f: T -> Option<U>): nat -> Option<nat>
  {
    (i: nat) => if i < |rows| && f(rows[i]).Some? then Some(i) else None
  }

  lemma {:induction false} PickPositions<T, U>(rows: seq<T>, order: seq<nat>, f: T -> Option<U>)
    requires Positions(rows, order)
    ensures Pick(Permute(rows, order), f) == Pick(Pick(order, Answered(rows, f)), AnswerAt(rows, f))
  {
    if order != [] {
      var front, last := order[..|order| - 1], order[|order| - 1];
      PickPositions(rows, front, f);
      PermuteAppend(rows, front, last);
      assert order == front + [last];
      PickLast(Permute(rows, front), rows[last], f);
      PickAppend(Pick(front, Answered(rows, f)), Answer(Answered(rows, f), last), AnswerAt(rows, f));
      PickSingle(Answered(rows, f), AnswerAt(rows, f), last);
    }
  }

  function AnswerAt<T, U>(rows: seq<T>, f: T -> Option<U>): nat -> Option<U>
  {
    (i: nat) => if i < |rows| then f(rows[i]) else None
  }

  lemma {:induction false} PickIncreasing<T, U>(rows: seq<T>, order: seq<nat>, f: T -> Option<U>)
    requires Positions(rows, order)
    requires forall a, b :: 0 <= a < b < |order| && f(rows[order[a]]).Some? && f(rows[order[b]]).Some? ==>
               order[a] < order[b]
    ensures Increasing(Pick(order, Answered(rows, f)))
    ensures forall i: nat :: i in Pick(order, Answered(rows, f)) <==> i in order && f(rows[i]).Some?
  {
    if order != [] {
      var n := |order| - 1;
      var front, last := order[..n], order[n];
      PickIncreasing(rows, front, f);
      var kept := Pick(front, Answered(rows, f));
      forall a | 0 <= a < |kept| && f(rows[last]).Some? ensures kept[a] < last {
        assert kept[a] in front;
        var b :| 0 <= b < n && front[b] == kept[a];
        assert order[b] == kept[a];
      }
      assert order == front + [last];
    }
  }

  lemma PickWhole<T, U>(rows: seq<T>, f: T -> Option<U>)
    ensures Pick(rows, f) == Pick(Pick(Iota(|rows|), Answered(rows, f)), AnswerAt(rows, f))
    ensures Increasing(Pick(Iota(|rows|), Answered(rows, f)))
    ensures forall i: nat :: i in Pick(Iota(|rows|), Answered(rows, f)) <==> i < |rows| && f(rows[i]).Some?
  {
    var same := Iota(|rows|);
    PickPositions(rows, same, f);
    assert Permute(rows, same) == rows;
    PickIncreasing(rows, same, f);
    forall i: nat ensures i in same <==> i < |rows| {
      if i < |rows| { assert same[i] == i; }
    }
  }

  /** Sorting keeps the order of the picked rows when the sort never moves one of
      them past another. */
  lemma PickStable<T, U>(cmp: Comparator<T>, rows: seq<T>, order: seq<nat>, f: T -> Option<U>)
    requires IsStableOrder(cmp, rows, order)
    requires forall i, j ::
               0 <= i < |rows| && 0 <= j < |rows| && f(rows[i]).Some? && f(rows[j]).Some? && Before(cmp, rows, i, j) ==>
                 i < j
    ensures Pick(Permute(rows, order), f) == Pick(rows, f)
  {
    PickPositions(rows, order, f);
    PickWhole(rows, f);
    forall a, b | 0 <= a < b < |order| && f(rows[order[a]]).Some? && f(rows[order[b]]).Some?
      ensures order[a] < order[b]
    {
      assert Before(cmp, rows, order[a], order[b]);
    }
    PickIncreasing(rows, order, f);
    IncreasingUnique(Pick(order, Answered(rows, f)), Pick(Iota(|rows|), Answered(rows, f)));
  }
}
