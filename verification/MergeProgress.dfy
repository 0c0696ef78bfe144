/** The order in which a k-way merge must emit the rows of sorted runs. */
module MergeProgress {
  import opened StableOrder

  /** All runs laid end to end and cut at `bounds`; `next` is the first position
      of each run not yet emitted, `emitted` the positions emitted so far. */
  datatype Progress<T> = Progress(rows: seq<T>, bounds: seq<nat>, next: seq<nat>, emitted: seq<nat>) {
    ghost predicate Shape()
    {
      && |bounds| == |next| + 1 && IsCut(bounds, |rows|)
      && (forall r {:trigger next[r]} :: 0 <= r < |next| ==> bounds[r] <= next[r] <= RunEnd(bounds, r))
    }

    ghost predicate Pending(r: nat, p: int)
      requires Shape() && r < |next|
    {
      next[r] <= p < RunEnd(bounds, r)
    }

    ghost predicate Sound(cmp: Comparator<T>)
    {
      && Shape() && Lawful(cmp, rows) && RunsAscending(cmp, rows, bounds)
      && Positions(rows, emitted) && Ascending(cmp, rows, emitted)
      && AllPassed() && AllLater(cmp)
    }

    /** Whatever lies before a run's next position has been emitted. */
    ghost predicate AllPassed()
      requires Shape()
    {
      forall r, p :: 0 <= r < |next| && InRun(bounds, r, p) && p < next[r] ==> p in emitted
    }

    /** Everything emitted precedes everything pending. */
    ghost predicate AllLater(cmp: Comparator<T>)
      requires Shape() && Positions(rows, emitted)
    {
      forall e, r, p :: 0 <= e < |emitted| && 0 <= r < |next| && Pending(r, p) ==> Precedes(cmp, rows, emitted[e], p)
    }

    /** The front of run r precedes the front of run s. */
    ghost predicate FrontFirst(cmp: Comparator<T>, r: nat, s: nat)
      requires Shape() && r < |next| && s < |next|
    {
      && next[r] < RunEnd(bounds, r)
      && (next[s] < RunEnd(bounds, s) ==>
            next[s] < |rows| && next[r] < |rows| && (r == s || Before(cmp, rows, next[r], next[s])))
    }

    /** The front of run r precedes everything still pending. */
    ghost predicate IsNext(cmp: Comparator<T>, r: nat)
      requires Shape() && r < |next|
    {
      && next[r] < RunEnd(bounds, r) <= |rows|
      && forall s, p :: 0 <= s < |next| && Pending(s, p) && p != next[r] ==>
           p < |rows| && Before(cmp, rows, next[r], p)
    }

    ghost function Advance(r: nat): Progress<T>
      requires Shape() && r < |next|
    {
      this.(next := next[r := next[r] + 1], emitted := emitted + [next[r]])
    }
  }

  ghost predicate Precedes<T>(cmp: Comparator<T>, rows: seq<T>, i: nat, p: int)
  {
    i < |rows| && 0 <= p < |rows| && Before(cmp, rows, i, p)
  }

  ghost function Start<T>(rows: seq<T>, bounds: seq<nat>): Progress<T>
    requires |bounds| >= 1
  {
    Progress(rows, bounds, bounds[..|bounds| - 1], [])
  }

  lemma StartSound<T>(cmp: Comparator<T>, rows: seq<T>, bounds: seq<nat>)
    requires Lawful(cmp, rows) && RunsAscending(cmp, rows, bounds)
    ensures Start(rows, bounds).Sound(cmp)
  {
  }

  lemma RunInside(bounds: seq<nat>, n: nat, r: nat)
    requires IsCut(bounds, n) && r + 1 < |bounds|
    ensures bounds[r] <= RunEnd(bounds, r) <= n
  {
  }

  lemma FrontIsNext<T>(cmp: Comparator<T>, g: Progress<T>, r: nat)
    requires g.Sound(cmp) && r < |g.next|
    requires forall s :: 0 <= s < |g.next| ==> g.FrontFirst(cmp, r, s)
    ensures g.IsNext(cmp, r)
  {
    assert g.FrontFirst(cmp, r, r);
    RunInside(g.bounds, |g.rows|, r);
    forall s, p | 0 <= s < |g.next| && g.Pending(s, p) && p != g.next[r]
      ensures p < |g.rows| && Before(cmp, g.rows, g.next[r], p)
    {
      assert g.FrontFirst(cmp, r, s);
      RunInside(g.bounds, |g.rows|, s);
      var front := g.next[s];
      if p != front {
        assert InRun(g.bounds, s, front) && InRun(g.bounds, s, p);
        assert Before(cmp, g.rows, front, p);
        if s != r { BeforeChain(cmp, g.rows, g.next[r], front, p); }
      }
    }
  }

  /** A smaller front of a later run takes over as the first one. */
  lemma SmallerFront<T>(cmp: Comparator<T>, g: Progress<T>, best: nat, index: nat, s: nat)
    requires g.Sound(cmp) && best < |g.next| && index < |g.next| && s < |g.next|
    requires g.FrontFirst(cmp, best, s) && g.FrontFirst(cmp, index, best)
    ensures g.FrontFirst(cmp, index, s)
  {
    RunInside(g.bounds, |g.rows|, s);
    RunInside(g.bounds, |g.rows|, best);
    if g.next[s] < RunEnd(g.bounds, s) && s != best && index != best && s != index {
      BeforeChain(cmp, g.rows, g.next[index], g.next[best], g.next[s]);
    }
  }

  lemma EmittedStaysAscending<T>(cmp: Comparator<T>, g: Progress<T>, r: nat)
    requires g.Sound(cmp) && r < |g.next| && g.IsNext(cmp, r)
    ensures Positions(g.rows, g.Advance(r).emitted) && Ascending(cmp, g.rows, g.Advance(r).emitted)
  {
    var b, emitted := g.next[r], g.Advance(r).emitted;
    assert g.Pending(r, b);
    forall p, q | 0 <= p < q < |emitted| ensures Before(cmp, g.rows, emitted[p], emitted[q]) {
      if q == |g.emitted| { assert Precedes(cmp, g.rows, g.emitted[p], b); }
    }
  }

  lemma PendingStaysLater<T>(cmp: Comparator<T>, g: Progress<T>, r: nat, e: nat, s: nat, p: int)
    requires g.Sound(cmp) && r < |g.next| && g.IsNext(cmp, r)
    requires g.Advance(r).Shape() && e <= |g.emitted| && s < |g.next| && g.Advance(r).Pending(s, p)
    ensures Precedes(cmp, g.rows, g.Advance(r).emitted[e], p)
  {
    var b := g.next[r];
    if s != r { RunsDisjoint(g.bounds, |g.rows|, r, s, b); }
    assert g.Pending(s, p) && p != b;
  }

  /** Emitting the first pending position keeps the merge sound. */
  lemma AdvanceSound<T>(cmp: Comparator<T>, g: Progress<T>, r: nat)
    requires g.Sound(cmp) && r < |g.next| && g.IsNext(cmp, r)
    ensures g.Advance(r).Sound(cmp)
  {
    EmittedStaysAscending(cmp, g, r);
    AdvanceShape(cmp, g, r);
    AdvancePassed(cmp, g, r);
    AdvanceLater(cmp, g, r);
  }

  lemma AdvanceShape<T>(cmp: Comparator<T>, g: Progress<T>, r: nat)
    requires g.Sound(cmp) && r < |g.next| && g.IsNext(cmp, r)
    ensures g.Advance(r).Shape()
  {
  }

  lemma AdvancePassed<T>(cmp: Comparator<T>, g: Progress<T>, r: nat)
    requires g.Sound(cmp) && r < |g.next| && g.IsNext(cmp, r) && g.Advance(r).Shape()
    ensures g.Advance(r).AllPassed()
  {
    var h := g.Advance(r);
    forall s, p | 0 <= s < |h.next| && InRun(h.bounds, s, p) && p < h.next[s] ensures p in h.emitted {
      if p < g.next[s] { assert p in g.emitted; } else { assert h.emitted[|g.emitted|] == p; }
    }
  }

  lemma AdvanceLater<T>(cmp: Comparator<T>, g: Progress<T>, r: nat)
    requires g.Sound(cmp) && r < |g.next| && g.IsNext(cmp, r) && g.Advance(r).Shape()
    requires Positions(g.rows, g.Advance(r).emitted)
    ensures g.Advance(r).AllLater(cmp)
  {
    var h := g.Advance(r);
    forall e, s, p | 0 <= e < |h.emitted| && 0 <= s < |h.next| && h.Pending(s, p)
      ensures Precedes(cmp, h.rows, h.emitted[e], p)
    {
      PendingStaysLater(cmp, g, r, e, s, p);
    }
  }

  lemma RunsDisjoint(bounds: seq<nat>, n: nat, r: nat, s: nat, p: nat)
    requires IsCut(bounds, n) && r + 1 < |bounds| && s + 1 < |bounds|
    requires InRun(bounds, r, p) && r != s
    ensures !InRun(bounds, s, p)
  {
  }

  /** When no run has anything left, the emitted order is the stable order. */
  lemma AllEmitted<T>(cmp: Comparator<T>, g: Progress<T>)
    requires g.Sound(cmp)
    requires forall s :: 0 <= s < |g.next| ==> g.next[s] == RunEnd(g.bounds, s)
    ensures IsStableOrder(cmp, g.rows, g.emitted)
  {
    forall i | 0 <= i < |g.rows| ensures i in g.emitted {
      var r := FindRun(g.bounds, |g.rows|, i);
      assert InRun(g.bounds, r, i);
    }
    ListingLength(cmp, g.rows, g.emitted);
  }

  /** No position is emitted twice. */
  lemma EmittedFits<T>(cmp: Comparator<T>, g: Progress<T>)
    requires g.Sound(cmp)
    ensures |g.emitted| <= |g.rows|
  {
    forall p, q | 0 <= p < q < |g.emitted| ensures g.emitted[p] != g.emitted[q] {
      if g.emitted[p] == g.emitted[q] {
        BeforeAsymmetric(cmp, g.rows, g.emitted[p], g.emitted[q]);
        assert false;
      }
    }
    DistinctFits(g.emitted, |g.rows|);
  }
}
