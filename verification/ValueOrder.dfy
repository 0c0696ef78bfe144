/** What the comparisons mean, in plain terms: which of two values, texts, key
    tuples and rows comes first. */
module ValueOrder {
  import opened Values

  // ----- bit patterns and texts -----

  /** Patterns with a sign bit: negative ones come first, from the largest pattern
      down, and then the others, from the smallest pattern up. */
  predicate SignedBelow(sign: nat, a: nat, b: nat)
  {
    if a >= sign then b < sign || a > b else b < sign && a < b
  }

  /** The texts agree up to position n; there the first one ends or is smaller. */
  predicate SplitsAt(a: seq<u8>, b: seq<u8>, n: nat)
  {
    n <= |a| && n < |b| && a[..n] == b[..n] && (n < |a| ==> a[n] < b[n])
  }

  ghost predicate TextBelow(a: seq<u8>, b: seq<u8>)
  {
    exists n :: SplitsAt(a, b, n)
  }

  lemma {:induction false} SplitMeansLess(a: seq<u8>, b: seq<u8>, n: nat)
    requires SplitsAt(a, b, n)
    ensures CompareBytes(a, b) == Less
    decreases n
  {
    if n > 0 {
      assert a[0] == a[..n][0] == b[..n][0] == b[0];
      assert a[1..][..n - 1] == a[..n][1..] == b[..n][1..] == b[1..][..n - 1];
      SplitMeansLess(a[1..], b[1..], n - 1);
    }
  }

  lemma {:induction false} LessMeansSplit(a: seq<u8>, b: seq<u8>) returns (n: nat)
    requires CompareBytes(a, b) == Less
    ensures SplitsAt(a, b, n)
    decreases |a|
  {
    n := 0;
    if a != [] && a[0] == b[0] {
      var m := LessMeansSplit(a[1..], b[1..]);
      n := m + 1;
      assert a[..n] == [a[0]] + a[1..][..m] && b[..n] == [b[0]] + b[1..][..m];
    }
  }

  /** Texts are ordered by their first difference, or by which one ends first. */
  lemma CompareBytesMeans(a: seq<u8>, b: seq<u8>)
    ensures CompareBytes(a, b) == Less <==> TextBelow(a, b)
    ensures CompareBytes(a, b) == Greater <==> TextBelow(b, a)
    ensures CompareBytes(a, b) == Equal <==> a == b
  {
    CompareBytesLaws(a, b, []);
    CompareBytesLaws(b, a, []);
    if TextBelow(a, b) {
      var n :| SplitsAt(a, b, n);
      SplitMeansLess(a, b, n);
    }
    if TextBelow(b, a) {
      var n :| SplitsAt(b, a, n);
      SplitMeansLess(b, a, n);
    }
    if CompareBytes(a, b) == Less { var n := LessMeansSplit(a, b); }
    if CompareBytes(b, a) == Less { var n := LessMeansSplit(b, a); }
  }

  // ----- values -----

  /** Two values can be compared: one is NULL, or both are of one orderable type,
      decimals at one scale. */
  predicate Comparable(a: Value, b: Value)
  {
    || a.Null? || b.Null?
    || (a.Bool? && b.Bool?) || (a.Int64? && b.Int64?) || (a.Float64? && b.Float64?)
    || (a.String? && b.String?) || (a.Timestamp? && b.Timestamp?)
    || (a.Decimal? && b.Decimal? && a.d.scale == b.d.scale)
  }

  /** The first value comes before the second: NULL before everything, false before
      true, smaller numbers and instants first, texts by their first difference. */
  ghost predicate Below(a: Value, b: Value)
  {
    match (a, b)
    case (Null, _) => !b.Null?
    case (Bool(x), Bool(y)) => !x && y
    case (Int64(x), Int64(y)) => x < y
    case (Float64(x), Float64(y)) => SignedBelow(0x8000_0000_0000_0000, x, y)
    case (String(x), String(y)) => TextBelow(x, y)
    case (Timestamp(x), Timestamp(y)) => x < y
    case (Decimal(x), Decimal(y)) => x.scale == y.scale && x.digits < y.digits
    case (_, _) => false
  }

  /** compare_order_values answers exactly for comparable values, and with their order. */
  lemma CompareOrderValuesMeans(a: Value, b: Value)
    ensures CompareOrderValues(a, b).Ok? <==> Comparable(a, b)
    ensures CompareOrderValues(a, b) == Ok(Less) <==> Below(a, b)
    ensures CompareOrderValues(a, b) == Ok(Greater) <==> Below(b, a)
    ensures CompareOrderValues(a, b) == Ok(Equal) <==> Comparable(a, b) && a == b
  {
    if a.String? && b.String? { CompareBytesMeans(a.text, b.text); }
  }

  // ----- key tuples -----

  /** Equal components that the order can look past. */
  predicate SameTo(l: Row, r: Row, i: nat)
    requires i <= |l| && i <= |r|
  {
    forall j :: 0 <= j < i ==> l[j] == r[j] && Comparable(l[j], r[j])
  }

  /** The tuples agree up to component i; there the first one ends or comes first. */
  ghost predicate TupleSplitsAt(l: Row, r: Row, i: nat)
  {
    i <= |l| && i < |r| && SameTo(l, r, i) && (i < |l| ==> Below(l[i], r[i]))
  }

  ghost predicate TupleBelow(l: Row, r: Row)
  {
    exists i :: TupleSplitsAt(l, r, i)
  }

  lemma {:induction false} TupleSplitMeansLess(l: Row, r: Row, i: nat)
    requires TupleSplitsAt(l, r, i)
    ensures CompareKeyTuples(l, r) == Ok(Less)
    decreases i
  {
    if l != [] { CompareOrderValuesMeans(l[0], r[0]); }
    if i > 0 {
      assert SameTo(l[1..], r[1..], i - 1);
      TupleSplitMeansLess(l[1..], r[1..], i - 1);
    }
  }

  lemma {:induction false} LessMeansTupleSplit(l: Row, r: Row) returns (i: nat)
    requires CompareKeyTuples(l, r) == Ok(Less)
    ensures TupleSplitsAt(l, r, i)
    decreases |l|
  {
    i := 0;
    if l != [] {
      CompareOrderValuesMeans(l[0], r[0]);
      if !Below(l[0], r[0]) {
        var m := LessMeansTupleSplit(l[1..], r[1..]);
        i := m + 1;
        forall j | 0 <= j < i ensures l[j] == r[j] && Comparable(l[j], r[j]) {
          if j > 0 { assert l[j] == l[1..][j - 1] && r[j] == r[1..][j - 1]; }
        }
      }
    }
  }

  /** Group keys are ordered by their first differing component. */
  lemma CompareKeyTuplesMeans(l: Row, r: Row)
    ensures CompareKeyTuples(l, r) == Ok(Less) <==> TupleBelow(l, r)
    ensures CompareKeyTuples(l, r) == Ok(Greater) <==> TupleBelow(r, l)
  {
    CompareKeyTuplesLaws(l, r, []);
    CompareKeyTuplesLaws(r, l, []);
    if TupleBelow(l, r) {
      var i :| TupleSplitsAt(l, r, i);
      TupleSplitMeansLess(l, r, i);
    }
    if TupleBelow(r, l) {
      var i :| TupleSplitsAt(r, l, i);
      TupleSplitMeansLess(r, l, i);
    }
    if CompareKeyTuples(l, r) == Ok(Less) { var i := LessMeansTupleSplit(l, r); }
    if CompareKeyTuples(r, l) == Ok(Less) { var i := LessMeansTupleSplit(r, l); }
  }

  // ----- sort keys -----

  /** The keys agree up to key i; there the first one comes first in that key's
      direction: smaller values under Asc, larger ones under Desc. */
  ghost predicate DecidesAt(orders: seq<SortOrder>, l: Row, r: Row, i: nat)
    requires |l| == |r| == |orders|
  {
    i < |orders| && SameTo(l, r, i) && if orders[i] == Asc then Below(l[i], r[i]) else Below(r[i], l[i])
  }

  ghost predicate KeysBelow(orders: seq<SortOrder>, l: Row, r: Row)
    requires |l| == |r| == |orders|
  {
    exists i :: DecidesAt(orders, l, r, i)
  }

  lemma {:induction false} DecisionMeansLess(orders: seq<SortOrder>, l: Row, r: Row, i: nat)
    requires |l| == |r| == |orders| && DecidesAt(orders, l, r, i)
    ensures CompareDirected(orders, l, r) == Ok(Less)
    decreases i
  {
    CompareOrderValuesMeans(l[0], r[0]);
    if i > 0 {
      assert SameTo(l[1..], r[1..], i - 1);
      DecisionMeansLess(orders[1..], l[1..], r[1..], i - 1);
    }
  }

  lemma {:induction false} LessMeansDecision(orders: seq<SortOrder>, l: Row, r: Row) returns (i: nat)
    requires |l| == |r| == |orders| && CompareDirected(orders, l, r) == Ok(Less)
    ensures DecidesAt(orders, l, r, i)
    decreases |orders|
  {
    i := 0;
    CompareOrderValuesMeans(l[0], r[0]);
    if CompareOrderValues(l[0], r[0]) == Ok(Equal) {
      var m := LessMeansDecision(orders[1..], l[1..], r[1..]);
      i := m + 1;
      forall j | 0 <= j < i ensures l[j] == r[j] && Comparable(l[j], r[j]) {
        if j > 0 { assert l[j] == l[1..][j - 1] && r[j] == r[1..][j - 1]; }
      }
    }
  }

  lemma {:induction false} EqualMeansSame(orders: seq<SortOrder>, l: Row, r: Row)
    requires |l| == |r| == |orders|
    ensures CompareDirected(orders, l, r) == Ok(Equal) <==> SameTo(l, r, |l|)
    decreases |orders|
  {
    if orders != [] {
      CompareOrderValuesMeans(l[0], r[0]);
      EqualMeansSame(orders[1..], l[1..], r[1..]);
      assert SameTo(l, r, |l|) <==> l[0] == r[0] && Comparable(l[0], r[0]) && SameTo(l[1..], r[1..], |l| - 1) by {
        if SameTo(l[1..], r[1..], |l| - 1) {
          assert forall j :: 1 <= j < |l| ==> l[j] == l[1..][j - 1] && r[j] == r[1..][j - 1];
        }
      }
    }
  }

  /** The sort order of rows that carry one value per key: decided by the first key
      on which they differ, in that key's direction. */
  lemma CompareDirectedMeans(orders: seq<SortOrder>, l: Row, r: Row)
    requires |l| == |r| == |orders|
    ensures CompareDirected(orders, l, r) == Ok(Less) <==> KeysBelow(orders, l, r)
    ensures CompareDirected(orders, l, r) == Ok(Greater) <==> KeysBelow(orders, r, l)
    ensures CompareDirected(orders, l, r) == Ok(Equal) <==> SameTo(l, r, |l|)
  {
    CompareDirectedLaws(orders, l, r, l);
    if KeysBelow(orders, l, r) {
      var i :| DecidesAt(orders, l, r, i);
      DecisionMeansLess(orders, l, r, i);
    }
    if KeysBelow(orders, r, l) {
      var i :| DecidesAt(orders, r, l, i);
      DecisionMeansLess(orders, r, l, i);
    }
    if CompareDirected(orders, l, r) == Ok(Less) { var i := LessMeansDecision(orders, l, r); }
    if CompareDirected(orders, r, l) == Ok(Less) { var i := LessMeansDecision(orders, r, l); }
    EqualMeansSame(orders, l, r);
  }

  // ----- extremes -----

  ghost predicate AllNull(vs: seq<Value>)
  {
    forall i :: 0 <= i < |vs| ==> vs[i].Null?
  }

  /** One of the values, before or equal to every value that is not NULL; NULL when
      there is none. */
  ghost predicate IsLeast(vs: seq<Value>, v: Value)
  {
    if AllNull(vs) then v == Null
    else v in vs && !v.Null? && forall i :: 0 <= i < |vs| && !vs[i].Null? ==> vs[i] == v || Below(v, vs[i])
  }

  ghost predicate IsGreatest(vs: seq<Value>, v: Value)
  {
    if AllNull(vs) then v == Null
    else v in vs && !v.Null? && forall i :: 0 <= i < |vs| && !vs[i].Null? ==> vs[i] == v || Below(vs[i], v)
  }

  ghost predicate IsExtreme(vs: seq<Value>, v: Value, replacement: Ordering)
  {
    if replacement == Less then IsLeast(vs, v) else IsGreatest(vs, v)
  }

  lemma BelowChains(a: Value, b: Value, c: Value)
    requires Below(a, b) && (b == c || Below(b, c))
    ensures Below(a, c)
  {
    CompareOrderValuesMeans(a, b);
    CompareOrderValuesMeans(b, c);
    CompareOrderValuesMeans(a, c);
    CompareOrderValuesLaws(a, b, c);
  }

  /** One more value: it becomes the extreme if there was none, or if it compares
      with the old one as the replacement says. */
  lemma ExtremeMore(vs: seq<Value>, v: Value, x: Value, replacement: Ordering)
    requires replacement != Equal && IsExtreme(vs, v, replacement)
    ensures x.Null? ==> IsExtreme(vs + [x], v, replacement)
    ensures !x.Null? && v.Null? ==> IsExtreme(vs + [x], x, replacement)
    ensures !x.Null? && !v.Null? && CompareOrderValues(x, v).Ok? ==>
              IsExtreme(vs + [x], if CompareOrderValues(x, v).value == replacement then x else v, replacement)
  {
    var all := vs + [x];
    assert AllNull(all) <==> AllNull(vs) && x.Null? by {
      if AllNull(all) {
        assert all[|vs|].Null?;
        forall i | 0 <= i < |vs| ensures vs[i].Null? { assert all[i].Null?; }
      }
    }
    assert all[|vs|] == x;
    CompareOrderValuesMeans(x, v);
    if !v.Null? && (Below(x, v) || Below(v, x)) {
      forall i | 0 <= i < |vs| && !vs[i].Null?
        ensures replacement == Less && Below(x, v) ==> Below(x, vs[i])
        ensures replacement == Greater && Below(v, x) ==> Below(vs[i], x)
      {
        if replacement == Less && Below(x, v) { BelowChains(x, v, vs[i]); }
        if replacement == Greater && Below(v, x) && vs[i] != v { BelowChains(vs[i], v, x); }
      }
    }
  }
}
