/** Assembling an approximate nearest-neighbour answer: rescored index candidates
    together with an exactly scanned tail, and the exact fallback. The graph search
    itself is not modelled. */
module HnswScans {
  import opened Values
  import opened Budget
  import opened Spilling
  import opened TopK
  import opened KnnScans

  datatype Node = Node(distance: u32, offset: nat, values: Option<Row>)

  /** compare_candidates, not greater. */
  predicate Nearer(a: Node, b: Node)
  {
    DistanceKey(a.distance) < DistanceKey(b.distance) ||
    (DistanceKey(a.distance) == DistanceKey(b.distance) && a.offset <= b.offset)
  }

  predicate StrictlyNearer(a: Node, b: Node) { !Nearer(b, a) }

  lemma NearerIsOrder()
    ensures IsOrder(Nearer)
  {
  }

  /** A node comes first when its distance does, or at one distance when its offset
      does; distances that are not negative compare like their bits. */
  lemma NearerMeans(a: Node, b: Node)
    ensures Nearer(a, b) <==>
            DistanceBelow(a.distance, b.distance) || (a.distance == b.distance && a.offset <= b.offset)
    ensures a.distance < SIGN32 && b.distance < SIGN32 ==>
              (Nearer(a, b) <==> a.distance < b.distance || (a.distance == b.distance && a.offset <= b.offset))
  {
    DistanceMeans(a.distance, b.distance);
  }

  // ----- the k best by offset -----

  ghost predicate DistinctOffsets(s: seq<Node>)
  {
    forall i, j :: 0 <= i < j < |s| ==> s[i].offset != s[j].offset
  }

  ghost predicate Covered(s: seq<Node>, offset: nat)
  {
    exists i :: 0 <= i < |s| && s[i].offset == offset
  }

  /** A node of `all` that no node with the same offset beats. */
  ghost predicate IsClosest(all: seq<Node>, x: Node)
  {
    x in all && forall i :: 0 <= i < |all| && all[i].offset == x.offset ==>
      DistanceKey(x.distance) <= DistanceKey(all[i].distance)
  }

  /** `out` is the k best of `all` by (distance, offset), one node per offset. */
  ghost predicate IsBestK(all: seq<Node>, out: seq<Node>, k: nat)
  {
    && |out| <= k && InOrder(Nearer, out) && DistinctOffsets(out)
    && (forall i :: 0 <= i < |out| ==> IsClosest(all, out[i]))
    && (forall c :: 0 <= c < |all| && !Covered(out, all[c].offset) ==>
          |out| == k && forall i :: 0 <= i < |out| ==> StrictlyNearer(out[i], all[c]))
  }

  /** Node b is not before node a. */
  predicate NotBefore(a: Node, b: Node)
  {
    DistanceBelow(a.distance, b.distance) || (a.distance == b.distance && a.offset <= b.offset)
  }

  /** The k best, in plain terms: nearest first, no offset twice, each node the
      nearest with its offset, and an offset missing only if k nodes come before. */
  lemma BestKMeans(all: seq<Node>, out: seq<Node>, k: nat)
    requires IsBestK(all, out, k)
    ensures |out| <= k
    ensures forall i, j :: 0 <= i < j < |out| ==> NotBefore(out[i], out[j]) && out[i].offset != out[j].offset
    ensures forall i :: 0 <= i < |out| ==> out[i] in all
    ensures forall i, c :: 0 <= i < |out| && 0 <= c < |all| && all[c].offset == out[i].offset ==>
              NotBefore(out[i], all[c])
    ensures forall i, c :: 0 <= i < |out| && 0 <= c < |all| && !Covered(out, all[c].offset) ==>
              |out| == k && NotBefore(out[i], all[c])
  {
    forall i, j | 0 <= i < j < |out| ensures NotBefore(out[i], out[j]) { NearerMeans(out[i], out[j]); }
    forall i, c | 0 <= i < |out| && 0 <= c < |all| && all[c].offset == out[i].offset
      ensures NotBefore(out[i], all[c])
    {
      assert IsClosest(all, out[i]);
      DistanceMeans(out[i].distance, all[c].distance);
    }
    forall i, c | 0 <= i < |out| && 0 <= c < |all| && !Covered(out, all[c].offset)
      ensures |out| == k && NotBefore(out[i], all[c])
    {
      assert StrictlyNearer(out[i], all[c]);
      NearerMeans(out[i], all[c]);
      NearerMeans(all[c], out[i]);
    }
  }

  lemma DistanceBits(a: u32, b: u32)
    requires DistanceKey(a) == DistanceKey(b)
    ensures a == b
  {
  }

  /** An offset of one answer that another answer lacks would crowd the other out. */
  lemma SameOffsets(all: seq<Node>, a: seq<Node>, b: seq<Node>, k: nat, i: nat)
    requires IsBestK(all, a, k) && IsBestK(all, b, k) && i < |a|
    ensures Covered(b, a[i].offset)
  {
    if !Covered(b, a[i].offset) {
      assert IsClosest(all, a[i]);
      var c :| 0 <= c < |all| && all[c] == a[i];
      forall j | 0 <= j < |b| ensures b[j].offset in Offsets(a[..i] + a[i + 1..]) {
        assert StrictlyNearer(b[j], all[c]);
        assert IsClosest(all, b[j]);
        var d :| 0 <= d < |all| && all[d] == b[j];
        assert !Covered(a, all[d].offset) ==> StrictlyNearer(a[i], all[d]);
        assert Covered(a, all[d].offset);
        var h :| 0 <= h < |a| && a[h].offset == b[j].offset;
        assert h != i;
        assert (a[..i] + a[i + 1..])[if h < i then h else h - 1].offset == b[j].offset;
      }
      OffsetCount(b);
      OffsetCount(a[..i] + a[i + 1..]);
      SubsetCount(Offsets(b), Offsets(a[..i] + a[i + 1..]));
      assert false;
    }
  }

  /** The k best are determined: two answers agree in every offset and distance. */
  lemma BestKUnique(all: seq<Node>, a: seq<Node>, b: seq<Node>, k: nat)
    requires IsBestK(all, a, k) && IsBestK(all, b, k)
    ensures |a| == |b| && forall i :: 0 <= i < |a| ==> a[i].offset == b[i].offset && a[i].distance == b[i].distance
  {
    forall i | 0 <= i < |a| ensures Listed(a[i], b) {
      SameOffsets(all, a, b, k, i);
      ClosestAgree(all, a, b, i);
    }
    forall i | 0 <= i < |b| ensures Listed(b[i], a) {
      SameOffsets(all, b, a, k, i);
      ClosestAgree(all, b, a, i);
    }
    SameListing(a, b);
  }

  ghost predicate Same(x: Node, y: Node) { x.offset == y.offset && x.distance == y.distance }

  ghost predicate Listed(x: Node, s: seq<Node>)
  {
    exists j :: 0 <= j < |s| && Same(x, s[j])
  }

  ghost predicate AllListed(a: seq<Node>, b: seq<Node>)
  {
    forall i {:trigger Listed(a[i], b)} :: 0 <= i < |a| ==> Listed(a[i], b)
  }

  lemma ClosestAgree(all: seq<Node>, a: seq<Node>, b: seq<Node>, i: nat)
    requires i < |a| && Covered(b, a[i].offset)
    requires forall j :: 0 <= j < |a| ==> IsClosest(all, a[j])
    requires forall j :: 0 <= j < |b| ==> IsClosest(all, b[j])
    ensures Listed(a[i], b)
  {
    var j :| 0 <= j < |b| && b[j].offset == a[i].offset;
    assert IsClosest(all, a[i]) && IsClosest(all, b[j]);
    DistanceBits(a[i].distance, b[j].distance);
    assert Same(a[i], b[j]);
  }

  lemma {:induction false} SameListing(a: seq<Node>, b: seq<Node>)
    requires InOrder(Nearer, a) && InOrder(Nearer, b) && DistinctOffsets(a) && DistinctOffsets(b)
    requires AllListed(a, b) && AllListed(b, a)
    ensures |a| == |b| && forall i :: 0 <= i < |a| ==> Same(a[i], b[i])
  {
    if a != [] { assert Listed(a[0], b); }
    if b != [] { assert Listed(b[0], a); }
    if a != [] && b != [] {
      var m, n := |a| - 1, |b| - 1;
      LastSame(a, b);
      FrontListed(a, b);
      FrontListed(b, a);
      SameListing(a[..m], b[..n]);
      forall i | 0 <= i < |a| ensures Same(a[i], b[i]) {
        if i < m { assert Same(a[..m][i], b[..n][i]); }
      }
    }
  }

  lemma LastSame(a: seq<Node>, b: seq<Node>)
    requires a != [] && b != [] && InOrder(Nearer, a) && InOrder(Nearer, b)
    requires Listed(a[|a| - 1], b)
    requires Listed(b[|b| - 1], a)
    ensures Same(a[|a| - 1], b[|b| - 1])
  {
    var m, n := |a| - 1, |b| - 1;
    var j :| 0 <= j < |b| && Same(a[m], b[j]);
    var h :| 0 <= h < |a| && Same(b[n], a[h]);
    assert (h < m ==> Nearer(a[h], a[m])) && (j < n ==> Nearer(b[j], b[n]));
    if DistanceKey(a[m].distance) == DistanceKey(b[n].distance) { DistanceBits(a[m].distance, b[n].distance); }
  }

  lemma FrontListed(a: seq<Node>, b: seq<Node>)
    requires a != [] && b != [] && DistinctOffsets(a) && Same(a[|a| - 1], b[|b| - 1])
    requires AllListed(a, b)
    ensures AllListed(a[..|a| - 1], b[..|b| - 1])
  {
    var p, q := a[..|a| - 1], b[..|b| - 1];
    forall i | 0 <= i < |p| ensures Listed(p[i], q) {
      assert Listed(a[i], b);
      var j :| 0 <= j < |b| && Same(a[i], b[j]);
      assert j != |b| - 1;
      assert Same(p[i], q[j]);
    }
  }

  // ----- union_and_select -----

  /** should_replace */
  predicate ShouldReplace(current: Node, candidate: Node)
  {
    DistanceKey(candidate.distance) < DistanceKey(current.distance) ||
    (DistanceKey(candidate.distance) == DistanceKey(current.distance) && current.values.None? && candidate.values.Some?)
  }

  /** One node per offset, each a closest one. */
  ghost predicate IsUnion(all: seq<Node>, union: seq<Node>)
  {
    && DistinctOffsets(union)
    && (forall u :: 0 <= u < |union| ==> IsClosest(all, union[u]))
    && (forall c :: 0 <= c < |all| ==> Covered(union, all[c].offset))
  }

  lemma ClosestStays(all: seq<Node>, x: Node, c: Node)
    requires IsClosest(all, x) && (c.offset == x.offset ==> DistanceKey(x.distance) <= DistanceKey(c.distance))
    ensures IsClosest(all + [c], x)
  {
  }

  /** The union loop: the map is kept as its values; the key is the offset. */
  method Union(candidates: seq<Node>) returns (union: seq<Node>)
    ensures IsUnion(candidates, union)
  {
    union := [];
    for i := 0 to |candidates|
      invariant IsUnion(candidates[..i], union)
    {
      var c := candidates[i];
      var p := FindOffset(union, c.offset);
      ghost var before := union;
      if p == |union| {
        union := union + [c];
        UnionInserted(candidates[..i], before, c);
      } else {
        if ShouldReplace(union[p], c) { union := union[p := c]; }
        UnionUpdated(candidates[..i], before, p, c, union);
      }
      assert candidates[..i + 1] == candidates[..i] + [c];
    }
    assert candidates[..|candidates|] == candidates;
  }

  method FindOffset(union: seq<Node>, offset: nat) returns (p: nat)
    ensures p <= |union| && (p < |union| ==> union[p].offset == offset) && (p == |union| ==> !Covered(union, offset))
  {
    p := 0;
    while p < |union| && union[p].offset != offset
      invariant p <= |union| && forall i :: 0 <= i < p ==> union[i].offset != offset
    {
      p := p + 1;
    }
  }

  lemma UnionInserted(all: seq<Node>, union: seq<Node>, c: Node)
    requires IsUnion(all, union) && !Covered(union, c.offset)
    ensures IsUnion(all + [c], union + [c])
  {
    var after, more := union + [c], all + [c];
    forall u | 0 <= u < |after| ensures IsClosest(more, after[u]) {
      if u < |union| {
        ClosestStays(all, union[u], c);
      } else {
        forall i | 0 <= i < |all| ensures all[i].offset != c.offset { assert Covered(union, all[i].offset); }
      }
    }
    forall i | 0 <= i < |more| ensures Covered(after, more[i].offset) {
      if i < |all| {
        assert Covered(union, all[i].offset);
        var u :| 0 <= u < |union| && union[u].offset == all[i].offset;
        assert after[u].offset == more[i].offset;
      } else {
        assert after[|union|].offset == more[i].offset;
      }
    }
  }

  lemma UnionUpdated(all: seq<Node>, union: seq<Node>, p: nat, c: Node, after: seq<Node>)
    requires IsUnion(all, union) && p < |union| && union[p].offset == c.offset
    requires after == if ShouldReplace(union[p], c) then union[p := c] else union
    ensures IsUnion(all + [c], after)
  {
    var more := all + [c];
    assert IsClosest(all, union[p]);
    forall u | 0 <= u < |after| ensures IsClosest(more, after[u]) {
      if after[u] == union[u] {
        ClosestStays(all, union[u], c);
      } else {
        assert more[|all|] == c;
      }
    }
    forall i | 0 <= i < |more| ensures Covered(after, more[i].offset) {
      if i < |all| {
        assert Covered(union, all[i].offset);
        var u :| 0 <= u < |union| && union[u].offset == all[i].offset;
        assert after[u].offset == more[i].offset;
      } else {
        assert after[p].offset == more[i].offset;
      }
    }
  }

  /** union_and_select: the k best, no offset twice. */
  method UnionAndSelect(candidates: seq<Node>, k: nat) returns (out: seq<Node>)
    ensures IsBestK(candidates, out, k)
  {
    var union := Union(candidates);
    out := FirstK(Sorted(Nearer, union), k);
    SelectedAreBest(candidates, union, k);
  }

  lemma SortedMembers(union: seq<Node>)
    ensures forall x :: x in Sorted(Nearer, union) <==> x in union
    ensures DistinctOffsets(union) ==> DistinctOffsets(Sorted(Nearer, union))
  {
    var s := Sorted(Nearer, union);
    SortedKeeps(Nearer, union);
    forall x
      ensures x in s <==> x in union
    {
      assert x in s <==> x in multiset(s);
      assert x in union <==> x in multiset(union);
    }
    if DistinctOffsets(union) {
      forall i, j | 0 <= i < j < |s| ensures s[i].offset != s[j].offset {
        if s[i].offset == s[j].offset {
          assert s[i] in union && s[j] in union;
          assert s[i] == s[j];
          assert multiset(s)[s[i]] >= 2 by { TwiceInside(s, i, j); }
          OnceInside(union, s[i]);
          assert false;
        }
      }
    }
  }

  lemma TwiceInside(s: seq<Node>, i: nat, j: nat)
    requires i < j < |s| && s[i] == s[j]
    ensures multiset(s)[s[i]] >= 2
  {
    assert s == s[..j] + [s[j]] + s[j + 1..];
    assert s[i] in multiset(s[..j]) by { assert s[..j][i] == s[i]; }
  }

  lemma {:induction false} OnceInside(s: seq<Node>, x: Node)
    requires DistinctOffsets(s)
    ensures multiset(s)[x] <= 1
  {
    if s != [] {
      var n := |s| - 1;
      assert s == s[..n] + [s[n]];
      OnceInside(s[..n], x);
      if s[n] == x {
        assert x !in s[..n];
        assert x !in multiset(s[..n]);
      }
    }
  }

  lemma SelectedAreBest(all: seq<Node>, union: seq<Node>, k: nat)
    requires IsUnion(all, union)
    ensures IsBestK(all, FirstK(Sorted(Nearer, union), k), k)
  {
    var s := Sorted(Nearer, union);
    var out := FirstK(s, k);
    NearerIsOrder();
    SortedInOrder(Nearer, union);
    SortedMembers(union);
    forall i | 0 <= i < |out| ensures IsClosest(all, out[i]) { assert s[i] in union; }
    forall c | 0 <= c < |all| && !Covered(out, all[c].offset)
      ensures |out| == k && forall i :: 0 <= i < |out| ==> StrictlyNearer(out[i], all[c])
    {
      LeftOutIsWorse(all, union, k, c);
    }
  }

  lemma LeftOutIsWorse(all: seq<Node>, union: seq<Node>, k: nat, c: nat)
    requires IsUnion(all, union) && c < |all| && !Covered(FirstK(Sorted(Nearer, union), k), all[c].offset)
    requires InOrder(Nearer, Sorted(Nearer, union)) && DistinctOffsets(Sorted(Nearer, union))
    requires forall x :: x in Sorted(Nearer, union) <==> x in union
    ensures |FirstK(Sorted(Nearer, union), k)| == k
    ensures forall i :: 0 <= i < k ==> StrictlyNearer(FirstK(Sorted(Nearer, union), k)[i], all[c])
  {
    var s := Sorted(Nearer, union);
    var out := FirstK(s, k);
    assert Covered(union, all[c].offset);
    var u :| 0 <= u < |union| && union[u].offset == all[c].offset;
    assert union[u] in s;
    var p :| 0 <= p < |s| && s[p] == union[u];
    assert p >= |out|;
    assert IsClosest(all, union[u]);
    forall i | 0 <= i < k ensures StrictlyNearer(out[i], all[c]) {
      assert Nearer(s[i], s[p]) && s[i].offset != s[p].offset;
    }
  }

  // ----- cutting the tail first -----

  ghost function Offsets(s: seq<Node>): set<nat>
  {
    set i | 0 <= i < |s| :: s[i].offset
  }

  lemma {:induction false} OffsetCount(s: seq<Node>)
    ensures |Offsets(s)| <= |s| && (DistinctOffsets(s) ==> |Offsets(s)| == |s|)
  {
    if s == [] {
      assert Offsets(s) == {};
    } else {
      var n := |s| - 1;
      OffsetCount(s[..n]);
      assert Offsets(s) == Offsets(s[..n]) + {s[n].offset};
      if DistinctOffsets(s) {
        assert s[n].offset !in Offsets(s[..n]);
      }
    }
  }

  lemma SubsetCount(a: set<nat>, b: set<nat>)
    requires a <= b
    ensures |a| <= |b|
  {
    assert b == a + (b - a);
  }

  /** A tail node that is cut off is beaten by k tail nodes. */
  lemma CutOff(b: seq<Node>, k: nat, x: Node)
    requires DistinctOffsets(b) && x in b && x !in FirstK(Sorted(Nearer, b), k)
    ensures var cut := FirstK(Sorted(Nearer, b), k);
            |cut| == k && DistinctOffsets(cut) && forall i :: 0 <= i < k ==> StrictlyNearer(cut[i], x)
  {
    var s := Sorted(Nearer, b);
    NearerIsOrder();
    SortedInOrder(Nearer, b);
    SortedMembers(b);
    assert x in s;
    var p :| 0 <= p < |s| && s[p] == x;
    var cut := FirstK(s, k);
    assert p >= |cut|;
    forall i | 0 <= i < k ensures StrictlyNearer(cut[i], x) { assert Nearer(s[i], s[p]) && s[i].offset != s[p].offset; }
  }

  /** If some result did not beat `x`, the k nodes that do would all have to fit
      into the other results. */
  lemma CoveredElsewhere(all: seq<Node>, out: seq<Node>, k: nat, cut: seq<Node>, x: Node, i: nat)
    requires IsBestK(all, out, k) && i < |out| && Nearer(x, out[i])
    requires forall t :: 0 <= t < |cut| ==> cut[t] in all && StrictlyNearer(cut[t], x)
    ensures Offsets(cut) <= Offsets(out[..i] + out[i + 1..])
  {
    var rest := out[..i] + out[i + 1..];
    forall t | 0 <= t < |cut| ensures cut[t].offset in Offsets(rest) {
      var c :| 0 <= c < |all| && all[c] == cut[t];
      assert !Covered(out, all[c].offset) ==> StrictlyNearer(out[i], all[c]);
      assert Covered(out, all[c].offset);
      var j :| 0 <= j < |out| && out[j].offset == cut[t].offset;
      assert IsClosest(all, out[j]);
      assert j != i;
      assert rest[if j < i then j else j - 1].offset == cut[t].offset;
    }
  }

  /** Every result beats a node that was cut off, and there are k of them. */
  lemma Crowded(a: seq<Node>, b: seq<Node>, out: seq<Node>, k: nat, x: Node)
    requires DistinctOffsets(b) && IsBestK(a + FirstK(Sorted(Nearer, b), k), out, k)
    requires x in b && x !in FirstK(Sorted(Nearer, b), k)
    ensures |out| == k && forall i :: 0 <= i < |out| ==> StrictlyNearer(out[i], x)
  {
    var cut := FirstK(Sorted(Nearer, b), k);
    var all := a + cut;
    CutOff(b, k, x);
    OffsetCount(cut);
    forall t | 0 <= t < |cut| ensures cut[t] in all { assert all[|a| + t] == cut[t]; }
    if |out| < k {
      forall t | 0 <= t < |cut| ensures cut[t].offset in Offsets(out) { assert Covered(out, all[|a| + t].offset); }
      SubsetCount(Offsets(cut), Offsets(out));
      OffsetCount(out);
      assert false;
    }
    forall i | 0 <= i < |out| ensures StrictlyNearer(out[i], x) {
      if Nearer(x, out[i]) {
        CoveredElsewhere(all, out, k, cut, x, i);
        var rest := out[..i] + out[i + 1..];
        SubsetCount(Offsets(cut), Offsets(rest));
        OffsetCount(rest);
        assert false;
      }
    }
  }

  /** Cutting the tail to its own k best before the union loses nothing. */
  lemma TailCutLosesNothing(a: seq<Node>, b: seq<Node>, out: seq<Node>, k: nat)
    requires DistinctOffsets(b) && IsBestK(a + FirstK(Sorted(Nearer, b), k), out, k)
    ensures IsBestK(a + b, out, k)
  {
    var cut := FirstK(Sorted(Nearer, b), k);
    var few, all := a + cut, a + b;
    SortedMembers(b);
    forall i | 0 <= i < |out| ensures IsClosest(all, out[i]) {
      assert IsClosest(few, out[i]);
      CutMember(a, b, k, out[i]);
      forall c | 0 <= c < |all| && all[c].offset == out[i].offset
        ensures DistanceKey(out[i].distance) <= DistanceKey(all[c].distance)
      {
        CutCase(a, b, k, c);
        if all[c] !in few { Crowded(a, b, out, k, all[c]); }
      }
    }
    forall c | 0 <= c < |all| && !Covered(out, all[c].offset)
      ensures |out| == k && forall i :: 0 <= i < |out| ==> StrictlyNearer(out[i], all[c])
    {
      CutCase(a, b, k, c);
      if all[c] !in few {
        Crowded(a, b, out, k, all[c]);
      } else {
        var d :| 0 <= d < |few| && few[d] == all[c];
      }
    }
  }

  lemma CutMember(a: seq<Node>, b: seq<Node>, k: nat, x: Node)
    requires x in a + FirstK(Sorted(Nearer, b), k)
    ensures x in a + b
  {
    SortedMembers(b);
    var s, cut := Sorted(Nearer, b), FirstK(Sorted(Nearer, b), k);
    if x !in a {
      assert x in cut;
      var i :| 0 <= i < |cut| && cut[i] == x;
      assert s[i] == x;
      assert x in b;
    }
  }

  lemma CutCase(a: seq<Node>, b: seq<Node>, k: nat, c: nat)
    requires c < |a + b|
    ensures (a + b)[c] in a + FirstK(Sorted(Nearer, b), k) ||
            ((a + b)[c] in b && (a + b)[c] !in FirstK(Sorted(Nearer, b), k))
  {
    var few := a + FirstK(Sorted(Nearer, b), k);
    if c < |a| { assert few[c] == (a + b)[c]; }
  }

  // ----- materializing and rescoring -----

  ghost predicate Wanted(missing: map<nat, nat>, selected: seq<Node>)
  {
    forall o :: o in missing ==> missing[o] < |selected| && selected[missing[o]].offset == o
  }

  /** Candidates still without their row, by offset; a later duplicate replaces an
      earlier one. */
  method MissingRows(selected: seq<Node>) returns (missing: map<nat, nat>)
    ensures Wanted(missing, selected)
    ensures forall i :: 0 <= i < |selected| ==> Awaited(missing, selected, i)
  {
    missing := map[];
    for i := 0 to |selected|
      invariant Wanted(missing, selected)
      invariant forall j :: 0 <= j < i ==> Awaited(missing, selected, j)
      invariant forall o :: o in missing ==> missing[o] < i
    {
      ghost var before := missing;
      if selected[i].values.None? { missing := missing[selected[i].offset := i]; }
      forall j | 0 <= j <= i ensures Awaited(missing, selected, j) {
        if j < i { assert Awaited(before, selected, j); }
      }
    }
  }

  /** A candidate without its row is itself awaited, or gives way to a later one
      with its offset that is awaited or filled. */
  ghost predicate Awaited(missing: map<nat, nat>, nodes: seq<Node>, i: nat)
    requires i < |nodes|
  {
    nodes[i].values.Some? || (nodes[i].offset in missing && i <= missing[nodes[i].offset]) || FilledLater(nodes, i)
  }

  ghost predicate FilledLater(nodes: seq<Node>, i: nat)
    requires i < |nodes|
  {
    exists j :: i < j < |nodes| && nodes[j].offset == nodes[i].offset && nodes[j].values.Some?
  }

  /** Every filled candidate carries the table's row at its offset. */
  ghost predicate FromTable(table: seq<Row>, selected: seq<Node>)
  {
    forall i :: 0 <= i < |selected| && selected[i].values.Some? ==>
      selected[i].offset < |table| && selected[i].values.value == table[selected[i].offset]
  }

  ghost predicate AllInTable(table: seq<Row>, selected: seq<Node>)
  {
    forall i :: 0 <= i < |selected| ==> selected[i].offset < |table|
  }

  /** The same candidates, apart from filled rows. */
  ghost predicate SameNodes(a: seq<Node>, b: seq<Node>)
  {
    |a| == |b| && forall i :: 0 <= i < |a| ==> a[i].offset == b[i].offset && a[i].distance == b[i].distance
  }

  /** One row of materialize_chunk: the candidate awaiting this offset gets it. */
  lemma RowFilled(table: seq<Row>, selected: seq<Node>, nodes: seq<Node>, missing: map<nat, nat>, offset: nat)
    requires SameNodes(selected, nodes) && FromTable(table, nodes) && Wanted(missing, selected)
    requires offset in missing && offset < |table| && forall i :: 0 <= i < |nodes| ==> Awaited(missing, nodes, i)
    ensures var filled := nodes[missing[offset] := nodes[missing[offset]].(values := Some(table[offset]))];
            && SameNodes(selected, filled) && FromTable(table, filled) && Wanted(missing - {offset}, selected)
            && forall i :: 0 <= i < |filled| ==> Awaited(missing - {offset}, filled, i)
  {
    var index := missing[offset];
    var filled := nodes[index := nodes[index].(values := Some(table[offset]))];
    forall i | 0 <= i < |filled| ensures Awaited(missing - {offset}, filled, i) {
      assert Awaited(missing, nodes, i);
      if nodes[i].offset == offset && i < index {
        assert filled[index].offset == filled[i].offset;
      }
      if FilledLater(nodes, i) {
        var j :| i < j < |nodes| && nodes[j].offset == nodes[i].offset && nodes[j].values.Some?;
        assert filled[j].offset == filled[i].offset && filled[j].values.Some?;
      }
    }
  }

  /** materialize_indexed_rows: fills the missing rows in place as their offsets
      come by. On success only a candidate repeated later stays without its row. */
  method Materialize(selected: seq<Node>, source: Source<Row>) returns (res: Result<()>, filled: seq<Node>)
    requires FromTable(RowsOf(source), selected)
    ensures SameNodes(selected, filled) && (res.Ok? ==> FromTable(RowsOf(source), filled))
    ensures res.Ok? ==> forall i :: 0 <= i < |filled| ==> filled[i].values.Some? || FilledLater(filled, i)
    ensures AllOk(source) && AllInTable(RowsOf(source), selected) ==> res.Ok?
  {
    filled := selected;
    var missing: map<nat, nat> := MissingRows(selected);
    ghost var table := RowsOf(source);
    var rest := source;
    var offset: nat := 0;
    while missing != map[] && rest != []
      invariant 0 <= offset <= |table| && table[offset..] == RowsOf(rest)
      invariant (AllOk(source) <==> AllOk(rest)) && forall o :: o in missing ==> offset <= o
      invariant SameNodes(selected, filled) && FromTable(table, filled) && Wanted(missing, selected)
      invariant forall i :: 0 <= i < |filled| ==> Awaited(missing, filled, i)
      decreases |rest|
    {
      var next := rest[0];
      RowsOfStep(rest);
      rest := rest[1..];
      if next.Err? { return Err(next.error), filled; }
      ghost var start := offset;
      assert |table[start..]| == |next.value| + |RowsOf(rest)|;
      for row := 0 to |next.value|
        invariant offset == start + row && start + |next.value| <= |table|
        invariant forall o :: o in missing ==> offset <= o
        invariant SameNodes(selected, filled) && FromTable(table, filled) && Wanted(missing, selected)
        invariant forall i :: 0 <= i < |filled| ==> Awaited(missing, filled, i)
      {
        assert table[start..][row] == next.value[row];
        if offset in missing {
          RowFilled(table, selected, filled, missing, offset);
          var index := missing[offset];
          filled := filled[index := filled[index].(values := Some(next.value[row]))];
          missing := missing - {offset};
        }
        offset := offset + 1;
      }
      assert table[start..][|next.value|..] == table[offset..];
    }
    if missing != map[] {
      ghost var o :| o in missing;
      assert selected[missing[o]].offset == o >= |table|;
      return Err(Corrupt), filled;
    }
    forall i | 0 <= i < |filled| ensures filled[i].values.Some? || FilledLater(filled, i) {
      assert Awaited(missing, filled, i);
    }
    res := Ok(());
  }

  /** Every candidate carries its row and that row's exact distance. */
  ghost predicate Exact(distance: DistanceOf, table: seq<Row>, nodes: seq<Node>)
  {
    forall i :: 0 <= i < |nodes| ==>
      && nodes[i].offset < |table| && nodes[i].values == Some(table[nodes[i].offset])
      && distance(table[nodes[i].offset]) == Ok(Some(nodes[i].distance))
  }

  /** A candidate with its row and a vector in it. */
  predicate HasDistance(distance: DistanceOf, n: Node)
  {
    n.values.Some? && distance(n.values.value).Ok? && distance(n.values.value).value.Some?
  }

  /** rescore_materialized: a candidate without a row or with a NULL vector is
      corruption. */
  method Rescore(distance: DistanceOf, nodes: seq<Node>, ghost table: seq<Row>) returns (res: Result<seq<Node>>)
    requires FromTable(table, nodes)
    ensures res.Ok? ==> Exact(distance, table, res.value) && |res.value| == |nodes|
    ensures res.Ok? ==> forall i :: 0 <= i < |nodes| ==> res.value[i].offset == nodes[i].offset
    ensures (forall i :: 0 <= i < |nodes| ==> HasDistance(distance, nodes[i])) ==> res.Ok?
  {
    var out: seq<Node> := [];
    for i := 0 to |nodes|
      invariant |out| == i && Exact(distance, table, out) && forall j :: 0 <= j < i ==> out[j].offset == nodes[j].offset
    {
      if nodes[i].values.None? { return Err(Corrupt); }
      var d := distance(nodes[i].values.value);
      if d.Err? { return Err(d.error); }
      if d.value.None? { return Err(Corrupt); }
      out := out + [nodes[i].(distance := d.value.value)];
    }
    res := Ok(out);
  }

  // ----- the exact tail -----

  /** A tail row keeps its place in the table: its row order after the covered rows. */
  function TailNode(covered: nat): Candidate -> Node
  {
    (c: Candidate) => Node(c.distance, covered + c.rowOrder, Some(c.values))
  }

  /** Every non-NULL tail row. */
  function TailNodes(distance: DistanceOf, rows: seq<Row>, covered: nat): seq<Node>
    requires Candidates(distance, rows).Ok?
  {
    Mapped(Candidates(distance, rows).value, TailNode(covered))
  }

  /** The tail nodes are exactly the tail rows with a vector, at their places after
      the covered rows. */
  lemma TailNodesMean(distance: DistanceOf, rows: seq<Row>, covered: nat, n: Node)
    requires Candidates(distance, rows).Ok?
    ensures n in TailNodes(distance, rows, covered) <==>
            && covered <= n.offset < covered + |rows| && n.values == Some(rows[n.offset - covered])
            && distance(rows[n.offset - covered]) == Ok(Some(n.distance))
  {
    var cs := Candidates(distance, rows).value;
    GatherMembers(CandidateAt(distance), rows);
    if n in TailNodes(distance, rows, covered) {
      var i :| 0 <= i < |cs| && TailNode(covered)(cs[i]) == n;
      assert cs[i] in cs;
    }
    if covered <= n.offset < covered + |rows| && distance(rows[n.offset - covered]) == Ok(Some(n.distance)) {
      var r := n.offset - covered;
      var c := Candidate(n.distance, r, rows[r]);
      assert CandidateAt(distance)(rows[r], r) == Ok(Some(c));
      var i :| 0 <= i < |cs| && cs[i] == c;
      assert TailNodes(distance, rows, covered)[i] == TailNode(covered)(c);
    }
  }

  lemma TailOffsets(distance: DistanceOf, rows: seq<Row>, covered: nat)
    requires Candidates(distance, rows).Ok?
    ensures DistinctOffsets(TailNodes(distance, rows, covered))
  {
    CandidateOrders(distance, rows);
  }

  /** The exact scan of the tail yields the k best tail nodes. */
  lemma TailIsCut(distance: DistanceOf, rows: seq<Row>, covered: nat, k: nat)
    requires Candidates(distance, rows).Ok?
    ensures Mapped(Nearest(distance, rows, k), TailNode(covered)) ==
              FirstK(Sorted(Nearer, TailNodes(distance, rows, covered)), k)
  {
    var cs := Candidates(distance, rows).value;
    MappedSorted(Closer, Nearer, TailNode(covered), cs);
    assert Mapped(Nearest(distance, rows, k), TailNode(covered)) ==
             FirstK(Mapped(Sorted(Closer, cs), TailNode(covered)), k);
  }

  // ----- the operator -----

  /** Runs the exact scan over a row source; it has a budget of its own. */
  method ExactScan(distance: DistanceOf, k: nat, source: Source<Row>) returns (res: Result<seq<Candidate>>)
    requires k > 0
    ensures res.Ok? ==>
              AllOk(source) && Candidates(distance, RowsOf(source)).Ok? &&
              res.value == Nearest(distance, RowsOf(source), k)
    ensures res.Err? && AllOk(source) && AllScannable(distance, RowsOf(source)) ==> res.error == BudgetExceeded
  {
    var own := new MemoryBudget();
    var scan := new KnnScan(k, distance, own);
    var done := scan.Initialize(source);
    if done.Err? { return Err(done.error); }
    var out: seq<Candidate> := [];
    while true
      invariant out + Flatten(scan.output) == Nearest(distance, RowsOf(source), k)
      decreases |scan.output|
    {
      var chunk := scan.NextChunk();
      if chunk.None? {
        assert out + [] == out;
        return Ok(out);
      }
      Assoc(out, chunk.value, Flatten(scan.output));
      out := out + chunk.value;
    }
  }

  /** The scan's inputs: the rows of the snapshot, the rows after the index, what
      the graph search found, and size estimates. */
  datatype Plan = Plan(k: nat, distance: DistanceOf, supported: bool, found: Result<seq<Node>>, covered: nat,
                       table: Source<Row>, tail: Source<Row>, workingBytes: nat, outputBytes: seq<Node> -> nat)

  /** A search hit before its row is materialized. */
  function Bare(n: Node): Node { n.(values := None) }

  /** The k nearest hits the graph search reports. */
  function BestFound(p: Plan): seq<Node>
    requires p.found.Ok?
  {
    FirstK(Sorted(Nearer, Mapped(p.found.value, Bare)), p.k)
  }

  /** Exactly the k nearest hits of the search, each with its row and exact distance. */
  ghost predicate Hits(p: Plan, hits: seq<Node>)
  {
    && p.found.Ok? && |hits| == |BestFound(p)| && Exact(p.distance, RowsOf(p.table), hits)
    && forall i :: 0 <= i < |hits| ==> hits[i].offset == BestFound(p)[i].offset
  }

  /** A plan has one list of rescored hits. */
  lemma HitsUnique(p: Plan, a: seq<Node>, b: seq<Node>)
    requires Hits(p, a) && Hits(p, b)
    ensures a == b
  {
    forall i | 0 <= i < |a| ensures a[i] == b[i] { assert a[i].offset == b[i].offset; }
  }

  /** The k best of the rescored index hits together with every non-NULL tail row. */
  ghost predicate IsAnnAnswer(p: Plan, out: seq<Node>)
  {
    && Candidates(p.distance, RowsOf(p.tail)).Ok?
    && exists hits :: Hits(p, hits) && IsBestK(hits + TailNodes(p.distance, RowsOf(p.tail), p.covered), out, p.k)
  }

  /** An attempt has one answer, in order: the same offsets at the same distances. */
  lemma AnnAnswerUnique(p: Plan, a: seq<Node>, b: seq<Node>)
    requires IsAnnAnswer(p, a) && IsAnnAnswer(p, b)
    ensures |a| == |b| && forall i :: 0 <= i < |a| ==> a[i].offset == b[i].offset && a[i].distance == b[i].distance
  {
    var tail := TailNodes(p.distance, RowsOf(p.tail), p.covered);
    var x :| Hits(p, x) && IsBestK(x + tail, a, p.k);
    var y :| Hits(p, y) && IsBestK(y + tail, b, p.k);
    HitsUnique(p, x, y);
    BestKUnique(x + tail, a, b, p.k);
  }

  /** The exact scan's answer over the whole snapshot. */
  ghost predicate IsExactAnswer(p: Plan, out: seq<Node>)
  {
    Candidates(p.distance, RowsOf(p.table)).Ok? && out == Mapped(Nearest(p.distance, RowsOf(p.table), p.k), TailNode(0))
  }

  /** The search succeeded with different rows of the snapshot, which have vectors. */
  ghost predicate IndexSound(p: Plan)
  {
    && p.found.Ok? && AllOk(p.table) && AllInTable(RowsOf(p.table), BestFound(p)) && DistinctOffsets(BestFound(p))
    && forall i :: 0 <= i < |BestFound(p)| ==>
         var d := p.distance(RowsOf(p.table)[BestFound(p)[i].offset]); d.Ok? && d.value.Some?
  }

  /** Nothing but a refused charge can fail an attempt. */
  ghost predicate AttemptSound(p: Plan)
  {
    IndexSound(p) && AllOk(p.tail) && AllScannable(p.distance, RowsOf(p.tail))
  }

  /** Nothing but a refused charge can fail the exact scan. */
  ghost predicate TableSound(p: Plan)
  {
    AllOk(p.table) && AllScannable(p.distance, RowsOf(p.table))
  }

  /** The best k search hits, materialized and rescored. */
  method IndexedCandidates(p: Plan) returns (res: Result<seq<Node>>)
    requires p.found.Ok?
    ensures res.Ok? ==> Hits(p, res.value)
    ensures IndexSound(p) ==> res.Ok?
  {
    var bare := Mapped(p.found.value, Bare);
    var best := FirstK(Sorted(Nearer, bare), p.k);
    SortedMembers(bare);
    forall i | 0 <= i < |best| ensures best[i].values.None? { assert Sorted(Nearer, bare)[i] in bare; }
    var done, filled := Materialize(best, p.table);
    if done.Err? { return Err(done.error); }
    if IndexSound(p) { HitsHaveDistances(p, filled); }
    res := Rescore(p.distance, filled, RowsOf(p.table));
  }

  lemma HitsHaveDistances(p: Plan, filled: seq<Node>)
    requires IndexSound(p) && SameNodes(BestFound(p), filled) && FromTable(RowsOf(p.table), filled)
    requires forall i :: 0 <= i < |filled| ==> filled[i].values.Some? || FilledLater(filled, i)
    ensures forall i :: 0 <= i < |filled| ==> HasDistance(p.distance, filled[i])
  {
    forall i | 0 <= i < |filled| ensures HasDistance(p.distance, filled[i]) {
      assert !FilledLater(filled, i) by {
        forall j | i < j < |filled| ensures filled[j].offset != filled[i].offset {
          assert BestFound(p)[i].offset != BestFound(p)[j].offset;
        }
      }
      assert filled[i].offset == BestFound(p)[i].offset;
    }
  }

  class HnswScan {
    const plan: Plan
    const budget: MemoryBudget
    var output: seq<Node>
    var outputCharge: nat

    constructor (plan: Plan, budget: MemoryBudget)
      ensures output == [] && outputCharge == 0 && this.plan == plan && this.budget == budget
    {
      this.plan, this.budget, output, outputCharge := plan, budget, [], 0;
    }

    /** try_ann: the charge of a failed attempt is given back. */
    method TryAnn() returns (res: Result<seq<Node>>, charge: nat, ghost refused: bool)
      requires plan.k > 0
      modifies budget
      ensures budget.charged == old(budget.charged) + charge && (res.Err? ==> charge == 0)
      ensures res.Ok? ==> IsAnnAnswer(plan, res.value)
      ensures refused ==> res == Err(BudgetExceeded)
      ensures res.Err? && AttemptSound(plan) ==> res.error == BudgetExceeded
    {
      charge, refused := 0, false;
      var granted := budget.Charge(plan.workingBytes);
      if !granted { return Err(BudgetExceeded), 0, true; }
      var out := Assemble(plan);
      if out.Err? {
        budget.Release(plan.workingBytes);
        return Err(out.error), 0, refused;
      }
      granted := budget.Charge(plan.outputBytes(out.value));
      if !granted {
        budget.Release(plan.workingBytes);
        return Err(BudgetExceeded), 0, true;
      }
      res, charge := Ok(out.value), plan.workingBytes + plan.outputBytes(out.value);
    }

    /** run_full_brute */
    method RunFullBrute() returns (res: Result<seq<Node>>, charge: nat)
      requires plan.k > 0
      modifies budget
      ensures budget.charged == old(budget.charged) + charge && (res.Err? ==> charge == 0)
      ensures res.Ok? ==> IsExactAnswer(plan, res.value)
      ensures res.Err? && TableSound(plan) ==> res.error == BudgetExceeded
    {
      charge := 0;
      var scanned := ExactScan(plan.distance, plan.k, plan.table);
      if scanned.Err? { return Err(scanned.error), 0; }
      var out := Mapped(scanned.value, TailNode(0));
      var granted := budget.Charge(plan.outputBytes(out));
      if !granted { return Err(BudgetExceeded), 0; }
      res, charge := Ok(out), plan.outputBytes(out);
    }

    /** initialize: an attempt refused by the budget, or one the index cannot
        serve, returns the exact scan's answer. */
    method Initialize() returns (res: Result<()>, ghost attempt: Option<Result<seq<Node>>>, ghost refused: bool)
      requires output == [] && outputCharge == 0
      modifies this, budget
      ensures budget.charged - old(budget.charged) == outputCharge
      ensures attempt.Some? <==> plan.k > 0 && plan.supported
      ensures refused ==> attempt == Some(Err(BudgetExceeded))
      ensures res.Ok? && plan.k == 0 ==> output == []
      ensures res.Ok? && plan.k > 0 ==>
                if attempt.None? || attempt == Some(Err(BudgetExceeded)) then IsExactAnswer(plan, output)
                else attempt == Some(Ok(output)) && IsAnnAnswer(plan, output)
      ensures attempt.Some? && attempt.value.Err? && attempt.value.error != BudgetExceeded ==>
                res == Err(attempt.value.error)
      ensures res.Err? && TableSound(plan) && (plan.supported ==> AttemptSound(plan)) ==> res.error == BudgetExceeded
    {
      attempt, refused := None, false;
      if plan.k == 0 { return Ok(()), attempt, refused; }
      if plan.supported {
        var tried, charge;
        tried, charge, refused := TryAnn();
        attempt := Some(tried);
        if tried.Ok? {
          output, outputCharge := tried.value, charge;
          return Ok(()), attempt, refused;
        }
        if tried.error != BudgetExceeded { return Err(tried.error), attempt, refused; }
      }
      var scanned, charge := RunFullBrute();
      if scanned.Err? { return Err(scanned.error), attempt, refused; }
      output, outputCharge := scanned.value, charge;
      res := Ok(());
    }

    /** The output's charge goes back once the output is drained or dropped. */
    method Drop()
      requires outputCharge <= budget.charged
      modifies this, budget
      ensures outputCharge == 0 && budget.charged == old(budget.charged) - old(outputCharge)
    {
      budget.Release(outputCharge);
      outputCharge, output := 0, [];
    }
  }

  /** The assembly inside try_ann. */
  method Assemble(p: Plan) returns (res: Result<seq<Node>>)
    requires p.k > 0
    ensures res.Ok? ==> IsAnnAnswer(p, res.value)
    ensures res.Err? && AttemptSound(p) ==> res.error == BudgetExceeded
  {
    if p.found.Err? { return Err(p.found.error); }
    var hits := IndexedCandidates(p);
    if hits.Err? { return Err(hits.error); }
    var tail := ExactScan(p.distance, p.k, p.tail);
    if tail.Err? { return Err(tail.error); }
    var cut := Mapped(tail.value, TailNode(p.covered));
    TailIsCut(p.distance, RowsOf(p.tail), p.covered, p.k);
    TailOffsets(p.distance, RowsOf(p.tail), p.covered);
    var out := UnionAndSelect(hits.value + cut, p.k);
    TailCutLosesNothing(hits.value, TailNodes(p.distance, RowsOf(p.tail), p.covered), out, p.k);
    assert Hits(p, hits.value);
    res := Ok(out);
  }
}
