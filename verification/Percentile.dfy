/** percentile_cont: counting first and then streaming ascending values through
    the state retains the two middle order statistics. */
module Percentile {
  import opened Values
  import opened Selection
  import opened AggregateStates

  function DecimalIn(v: Value): Option<Decimal>
  {
    if v.Decimal? then Some(v.d) else None
  }

  ghost predicate SameScale(ds: seq<Decimal>)
  {
    forall i, j :: 0 <= i < |ds| && 0 <= j < |ds| ==> ds[i].scale == ds[j].scale
  }

  ghost predicate DigitsAscend(ds: seq<Decimal>)
  {
    forall i, j :: 0 <= i < j < |ds| ==> ds[i].digits <= ds[j].digits
  }

  /** Ascending by digits, with nothing added or lost. */
  function SortDigits(ds: seq<Decimal>): (s: seq<Decimal>)
    ensures |s| == |ds| && multiset(s) == multiset(ds)
  {
    if ds == [] then []
    else
      var n := |ds| - 1;
      assert ds == ds[..n] + [ds[n]];
      InsertDigits(SortDigits(ds[..n]), ds[n])
  }

  function InsertDigits(s: seq<Decimal>, d: Decimal): (r: seq<Decimal>)
    ensures |r| == |s| + 1 && multiset(r) == multiset(s) + multiset{d}
  {
    if s == [] then [d]
    else
      var n := |s| - 1;
      assert s == s[..n] + [s[n]];
      if s[n].digits <= d.digits then s + [d] else InsertDigits(s[..n], d) + [s[n]]
  }

  lemma InsertBelow(s: seq<Decimal>, d: Decimal, bound: int)
    requires d.digits <= bound && forall i :: 0 <= i < |s| ==> s[i].digits <= bound
    ensures forall i :: 0 <= i < |InsertDigits(s, d)| ==> InsertDigits(s, d)[i].digits <= bound
  {
    var r := InsertDigits(s, d);
    forall i | 0 <= i < |r| ensures r[i].digits <= bound {
      assert r[i] in multiset(r);
    }
  }

  lemma {:induction false} InsertAscends(s: seq<Decimal>, d: Decimal)
    requires DigitsAscend(s)
    ensures DigitsAscend(InsertDigits(s, d))
  {
    if s != [] && s[|s| - 1].digits > d.digits {
      InsertAscends(s[..|s| - 1], d);
      InsertBelow(s[..|s| - 1], d, s[|s| - 1].digits);
    }
  }

  lemma {:induction false} SortAscends(ds: seq<Decimal>)
    ensures DigitsAscend(SortDigits(ds))
  {
    if ds != [] {
      SortAscends(ds[..|ds| - 1]);
      InsertAscends(SortDigits(ds[..|ds| - 1]), ds[|ds| - 1]);
    }
  }

  lemma SameScaleOfMultiset(a: seq<Decimal>, b: seq<Decimal>)
    requires SameScale(a) && multiset(a) == multiset(b)
    ensures SameScale(b)
  {
    forall i, j | 0 <= i < |b| && 0 <= j < |b| ensures b[i].scale == b[j].scale {
      assert b[i] in multiset(a) && b[j] in multiset(a);
    }
  }

  lemma FrontMultiset(a: seq<Decimal>)
    requires a != []
    ensures multiset(a[..|a| - 1]) == multiset(a) - multiset{a[|a| - 1]}
  {
    assert a == a[..|a| - 1] + [a[|a| - 1]];
  }

  lemma LargestEqual(a: seq<Decimal>, b: seq<Decimal>)
    requires DigitsAscend(a) && DigitsAscend(b) && SameScale(a) && multiset(a) == multiset(b) && a != [] && |a| == |b|
    ensures a[|a| - 1] == b[|b| - 1]
  {
    SameScaleOfMultiset(a, b);
    var n := |a| - 1;
    assert a[n] in multiset(b) && b[n] in multiset(a);
    var i :| 0 <= i < |b| && b[i] == a[n];
    var j :| 0 <= j < |a| && a[j] == b[n];
    assert b[i].digits <= b[n].digits && a[j].digits <= a[n].digits;
  }

  lemma FrontsAgree(a: seq<Decimal>, b: seq<Decimal>)
    requires DigitsAscend(a) && DigitsAscend(b) && SameScale(a) && multiset(a) == multiset(b) && a != [] && |a| == |b|
    ensures a[|a| - 1] == b[|b| - 1] && multiset(a[..|a| - 1]) == multiset(b[..|b| - 1])
    ensures DigitsAscend(a[..|a| - 1]) && DigitsAscend(b[..|b| - 1]) && SameScale(a[..|a| - 1])
  {
    LargestEqual(a, b);
    FrontMultiset(a);
    FrontMultiset(b);
  }

  /** Decimals of one scale have one ascending arrangement. */
  lemma {:induction false} AscendingArrangement(a: seq<Decimal>, b: seq<Decimal>)
    requires DigitsAscend(a) && DigitsAscend(b) && SameScale(a) && multiset(a) == multiset(b)
    ensures a == b
  {
    assert |a| == |multiset(a)| == |multiset(b)| == |b|;
    if a != [] {
      var n := |a| - 1;
      FrontsAgree(a, b);
      AscendingArrangement(a[..n], b[..n]);
      assert a == a[..n] + [a[n]] && b == b[..n] + [b[n]];
    }
  }

  /** The state a group's percentile column must reach: the count and the two
      middle order statistics of its non-NULL decimals. */
  ghost function MedianState(s: seq<Decimal>): AggregateState
    requires |s| <= U64_MAX
  {
    var n := |s|;
    PercentileState(n, n, if n == 0 then None else Some(s[0].scale),
                    if n == 0 then None else Some(s[LowerRank(n)]),
                    if n == 0 then None else Some(s[UpperRank(n)]))
  }

  /** validate_percentile_rows over a column: NULLs and decimals of one scale. */
  ghost predicate PercentileColumn(vs: seq<Value>)
  {
    (forall i :: 0 <= i < |vs| ==> vs[i].Null? || vs[i].Decimal?) && SameScale(Pick(vs, DecimalIn))
  }

  /** The state of one aggregate over a whole column, in input order. */
  ghost function ColumnState(ops: FloatOps, f: AggregateFunction, vs: seq<Value>): Result<AggregateState>
  {
    if f != PercentileCont then FoldColumn(ops, f, vs)
    else if !PercentileColumn(vs) then Err(Corrupt)
    else
      var s := SortDigits(Pick(vs, DecimalIn));
      if |s| > U64_MAX then Err(InvalidArgument) else Ok(MedianState(s))
  }

  /** Feeding values into a state, in order. */
  ghost function FoldValues(s: AggregateState, ds: seq<Decimal>): Result<AggregateState>
  {
    if ds == [] then Ok(s)
    else
      var t :- FoldValues(s, ds[..|ds| - 1]);
      UpdatePercentileValue(t, ds[|ds| - 1])
  }

  lemma FoldValuesLast(s: AggregateState, ds: seq<Decimal>, d: Decimal)
    ensures FoldValues(s, ds + [d]) ==
            if FoldValues(s, ds).Err? then FoldValues(s, ds) else UpdatePercentileValue(FoldValues(s, ds).value, d)
  {
    assert (ds + [d])[..|ds|] == ds;
  }

  ghost function Counted(n: nat): AggregateState
    requires n <= U64_MAX
  {
    PercentileState(n, 0, None, None, None)
  }

  ghost function Kept(ds: seq<Decimal>, rank: nat): Option<Decimal>
  {
    if rank < |ds| then Some(ds[rank]) else None
  }

  /** Once n values are announced, feeding at most n of them fails exactly when
      two scales differ: the check for surplus values never fires. */
  lemma {:induction false} FoldValuesIff(n: nat, ds: seq<Decimal>)
    requires |ds| <= n <= U64_MAX
    ensures FoldValues(Counted(n), ds).Ok? <==> SameScale(ds)
    ensures SameScale(ds) ==>
              FoldValues(Counted(n), ds).value ==
              PercentileState(n, |ds|, if ds == [] then None else Some(ds[0].scale), Kept(ds, LowerRank(n)),
                              Kept(ds, UpperRank(n)))
  {
    if ds != [] {
      var m := |ds| - 1;
      var front, d := ds[..m], ds[m];
      FoldValuesIff(n, front);
      if SameScale(ds) {
        assert SameScale(front);
        if m > 0 { assert ds[0].scale == ds[m].scale; }
      } else if SameScale(front) {
        assert m > 0;
        assert front[0].scale != d.scale by {
          if front[0].scale == d.scale {
            forall i, j | 0 <= i < |ds| && 0 <= j < |ds| ensures ds[i].scale == ds[j].scale {
              assert ds[i].scale == front[0].scale && ds[j].scale == front[0].scale by {
                if i < m { assert front[i].scale == front[0].scale; }
                if j < m { assert front[j].scale == front[0].scale; }
              }
            }
            assert false;
          }
        }
      }
    }
  }

  /** Announcing all values and feeding them ascending reaches the median state. */
  lemma CountThenValues(ds: seq<Decimal>)
    requires |ds| <= U64_MAX && SameScale(ds)
    ensures FoldValues(Counted(|ds|), ds) == Ok(MedianState(ds))
  {
    FoldValuesIff(|ds|, ds);
  }

  // ----- what the answer is -----

  function UpTo(bound: int): Decimal -> Option<Decimal>
  {
    (d: Decimal) => if d.digits <= bound then Some(d) else None
  }

  ghost function CountUpTo(ds: seq<Decimal>, bound: int): nat
  {
    |Pick(ds, UpTo(bound))|
  }

  lemma CountUpToPermuted(a: seq<Decimal>, b: seq<Decimal>, bound: int)
    requires multiset(a) == multiset(b)
    ensures CountUpTo(a, bound) == CountUpTo(b, bound)
  {
    PickPermuted(a, b, UpTo(bound));
    assert |multiset(Pick(a, UpTo(bound)))| == |Pick(a, UpTo(bound))|;
    assert |multiset(Pick(b, UpTo(bound)))| == |Pick(b, UpTo(bound))|;
  }

  /** `d` stands at `rank` in the ascending order of `ds`, said by counting. */
  ghost predicate HasRank(ds: seq<Decimal>, d: Decimal, rank: nat)
  {
    d in ds && CountUpTo(ds, d.digits) > rank && CountUpTo(ds, d.digits - 1) <= rank
  }

  lemma {:induction false} CountSorted(s: seq<Decimal>, bound: int, rank: nat)
    requires DigitsAscend(s) && rank <= |s|
    ensures (rank < |s| && s[rank].digits <= bound) ==> CountUpTo(s, bound) > rank
    ensures (rank == |s| || s[rank].digits > bound) ==> CountUpTo(s, bound) <= rank
  {
    if s != [] {
      var n := |s| - 1;
      CountSorted(s[..n], bound, if rank <= n then rank else n);
      if rank == n > 0 { CountSorted(s[..n], bound, n - 1); }
    }
  }

  /** A value half way between the two middle order statistics: with n values counted
      from zero, those of rank (n - 1) / 2 and n / 2. */
  ghost predicate IsMedian(ds: seq<Decimal>, lower: Decimal, upper: Decimal, m: Decimal)
  {
    && ds != [] && HasRank(ds, lower, (|ds| - 1) / 2) && HasRank(ds, upper, |ds| / 2)
    && 2 * m.digits == lower.digits + upper.digits && m.scale == lower.scale == upper.scale
  }

  /** The finished percentile is the exact median: NULL for no values, and else
      half the sum of the two middle order statistics of the group. */
  lemma FinishedMedian(ops: FloatOps, vs: seq<Value>, t: LogicalType)
    requires PercentileColumn(vs) && |Pick(vs, DecimalIn)| <= U64_MAX
    requires FinishState(ops, ColumnState(ops, PercentileCont, vs).value, t).Ok?
    ensures var r := FinishState(ops, ColumnState(ops, PercentileCont, vs).value, t).value;
            if Pick(vs, DecimalIn) == [] then r == Null
            else r.Decimal? && exists lower, upper :: IsMedian(Pick(vs, DecimalIn), lower, upper, r.d)
  {
    var ds := Pick(vs, DecimalIn);
    if ds != [] {
      var s := SortDigits(ds);
      var lower, upper := s[LowerRank(|s|)], s[UpperRank(|s|)];
      MiddleRanks(ds);
      FinishedMean(|s|, lower, upper, t);
      var r := FinishState(ops, ColumnState(ops, PercentileCont, vs).value, t).value;
      assert IsMedian(ds, lower, upper, r.d);
    }
  }

  /** The two middle values of the sorted digits have the middle ranks. */
  lemma MiddleRanks(ds: seq<Decimal>)
    requires ds != []
    ensures HasRank(ds, SortDigits(ds)[LowerRank(|ds|)], LowerRank(|ds|))
    ensures HasRank(ds, SortDigits(ds)[UpperRank(|ds|)], UpperRank(|ds|))
  {
    var s := SortDigits(ds);
    SortAscends(ds);
    SortedRank(s, ds, LowerRank(|s|));
    SortedRank(s, ds, UpperRank(|s|));
  }

  lemma FinishedMean(n: nat, lower: Decimal, upper: Decimal, t: LogicalType)
    requires FinishPercentile(n, n, Some(lower), Some(upper), t).Ok?
    ensures var r := FinishPercentile(n, n, Some(lower), Some(upper), t).value;
            r.Decimal? && 2 * r.d.digits == lower.digits + upper.digits && r.d.scale == lower.scale == upper.scale
  {
    ExactMeanIsExact(lower, upper);
  }

  lemma SameMembers(a: seq<Decimal>, b: seq<Decimal>, i: nat)
    requires multiset(a) == multiset(b) && i < |a|
    ensures a[i] in b
  {
    assert a[i] in multiset(b);
  }

  lemma RankCounts(s: seq<Decimal>, ds: seq<Decimal>, rank: nat)
    requires DigitsAscend(s) && multiset(s) == multiset(ds) && rank < |s|
    ensures CountUpTo(ds, s[rank].digits) > rank && CountUpTo(ds, s[rank].digits - 1) <= rank
  {
    var digits: int := s[rank].digits;
    CountSorted(s, digits, rank);
    CountSorted(s, digits - 1, rank);
    CountUpToPermuted(s, ds, digits);
    CountUpToPermuted(s, ds, digits - 1);
  }

  /** Rank r of an ascending arrangement has rank r by counting. */
  lemma SortedRank(s: seq<Decimal>, ds: seq<Decimal>, rank: nat)
    requires DigitsAscend(s) && multiset(s) == multiset(ds) && rank < |s|
    ensures HasRank(ds, s[rank], rank)
  {
    RankCounts(s, ds, rank);
    SameMembers(s, ds, rank);
  }
}
