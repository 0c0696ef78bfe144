/** Rows with group keys, the groups of a key-sorted sequence, and what it means
    for an output to be the answer of a grouping. */
module Grouping {
  import opened Values
  import opened Selection
  import opened Spilling

  datatype Keyed<+T> = Keyed(key: Row, item: T)

  /** The items of one group, in order. */
  function GroupOf<T>(rows: seq<Keyed<T>>, key: Row): seq<T>
  {
    Pick(rows, ItemOf(key))
  }

  function ItemOf<T>(key: Row): Keyed<T> -> Option<T>
  {
    (r: Keyed<T>) => if r.key == key then Some(r.item) else None
  }

  predicate HasGroup<T>(rows: seq<Keyed<T>>, key: Row)
  {
    exists i :: 0 <= i < |rows| && rows[i].key == key
  }

  /** The order of group keys: compare_key_tuples, with a key equal to itself
      even when one of its components has no order. */
  function KeyOrder(a: Row, b: Row): Result<Ordering>
  {
    if a == b then Ok(Equal) else CompareKeyTuples(a, b)
  }

  lemma KeyOrderLaws(a: Row, b: Row, c: Row)
    ensures Mirrored(KeyOrder(a, b), KeyOrder(b, a))
    ensures Chained(KeyOrder(a, b), KeyOrder(b, c), KeyOrder(a, c))
    ensures KeyOrder(a, b) == Ok(Equal) <==> a == b
    ensures CompareKeyTuples(a, b).Ok? ==> KeyOrder(a, b) == CompareKeyTuples(a, b)
  {
    CompareKeyTuplesLaws(a, b, c);
    CompareKeyTuplesLaws(b, c, a);
    CompareKeyTuplesLaws(b, a, b);
    if a == b { CompareKeyTuplesLaws(a, a, a); }
  }

  ghost predicate KeysAscend<T>(rows: seq<Keyed<T>>)
  {
    forall p, q :: 0 <= p < q < |rows| ==> AtMost(KeyOrder(rows[p].key, rows[q].key))
  }

  // ----- cutting a sorted sequence into groups -----

  ghost predicate IsGroup<T>(slice: seq<Keyed<T>>)
  {
    slice != [] && forall i :: 0 <= i < |slice| ==> slice[i].key == slice[0].key
  }

  ghost predicate KeyChanges<T>(slices: seq<seq<Keyed<T>>>, g: nat)
    requires g + 1 < |slices|
  {
    slices[g] != [] && slices[g + 1] != [] && slices[g][0].key != slices[g + 1][0].key
  }

  /** Maximal stretches of equal keys. */
  ghost predicate Grouped<T>(slices: seq<seq<Keyed<T>>>)
  {
    (forall g :: 0 <= g < |slices| ==> IsGroup(slices[g])) && forall g :: 0 <= g < |slices| - 1 ==>
      KeyChanges(slices, g)
  }

  ghost function KeysOf<T>(slices: seq<seq<Keyed<T>>>): (keys: seq<Row>)
    requires Grouped(slices)
    ensures |keys| == |slices| && forall g :: 0 <= g < |slices| ==> keys[g] == slices[g][0].key
  {
    seq(|slices|, g requires 0 <= g < |slices| => assert IsGroup(slices[g]); slices[g][0].key)
  }

  /** Distinct keys in ascending order. */
  ghost predicate IsListing(keys: seq<Row>)
  {
    forall a, b :: 0 <= a < b < |keys| ==> KeyOrder(keys[a], keys[b]) == Ok(Less)
  }

  lemma GroupedFront<T>(slices: seq<seq<Keyed<T>>>)
    requires Grouped(slices) && slices != []
    ensures Grouped(slices[..|slices| - 1])
  {
    var front := slices[..|slices| - 1];
    forall g | 0 <= g < |front| - 1 ensures KeyChanges(front, g) {
      assert KeyChanges(slices, g);
    }
  }

  lemma GroupedMore<T>(slices: seq<seq<Keyed<T>>>, slice: seq<Keyed<T>>)
    requires Grouped(slices) && IsGroup(slice)
    requires slices != [] ==> slices[|slices| - 1] != [] && slices[|slices| - 1][0].key != slice[0].key
    ensures Grouped(slices + [slice])
  {
    var all := slices + [slice];
    forall g | 0 <= g < |all| - 1 ensures KeyChanges(all, g) {
      if g < |slices| - 1 { assert KeyChanges(slices, g); }
    }
  }

  /** Every row of the sequence lies in a group with its key. */
  lemma {:induction false} InSomeGroup<T>(slices: seq<seq<Keyed<T>>>, i: nat) returns (g: nat)
    requires Grouped(slices) && i < |Flatten(slices)|
    ensures g < |slices| && slices[g] != [] && slices[g][0].key == Flatten(slices)[i].key
    decreases |slices|
  {
    var n := |slices| - 1;
    FlattenAppend(slices[..n], slices[n]);
    assert slices == slices[..n] + [slices[n]];
    var m := |Flatten(slices[..n])|;
    if i < m {
      GroupedFront(slices);
      g := InSomeGroup(slices[..n], i);
    } else {
      assert IsGroup(slices[n]) && slices[n][i - m].key == Flatten(slices)[i].key;
      g := n;
    }
  }

  /** The last group of a sorted sequence comes after all the others. */
  lemma {:induction false} LastIsGreatest<T>(slices: seq<seq<Keyed<T>>>, g: nat)
    requires Grouped(slices) && KeysAscend(Flatten(slices)) && g < |slices| - 1
    ensures IsGroup(slices[g]) && IsGroup(slices[|slices| - 1])
    ensures KeyOrder(slices[g][0].key, slices[|slices| - 1][0].key) == Ok(Less)
    decreases |slices|
  {
    var n := |slices| - 1;
    var front := slices[..n];
    FlattenAppend(front, slices[n]);
    assert slices == front + [slices[n]];
    GroupedFront(slices);
    assert KeyChanges(slices, n - 1) && IsGroup(slices[n]) && IsGroup(slices[n - 1]);
    KeysAscendFront(Flatten(front), slices[n]);
    LastRowKey(front);
    var last := |Flatten(front)| - 1;
    assert Flatten(slices)[last].key == slices[n - 1][0].key && Flatten(slices)[last + 1].key == slices[n][0].key;
    KeyOrderLaws(slices[n - 1][0].key, slices[n][0].key, []);
    if g < n - 1 {
      LastIsGreatest(front, g);
      KeyOrderLaws(slices[g][0].key, slices[n - 1][0].key, slices[n][0].key);
    }
  }

  lemma KeysAscendFront<T>(a: seq<Keyed<T>>, b: seq<Keyed<T>>)
    requires KeysAscend(a + b)
    ensures KeysAscend(a)
  {
    forall p, q | 0 <= p < q < |a| ensures AtMost(KeyOrder(a[p].key, a[q].key)) {
      assert (a + b)[p] == a[p] && (a + b)[q] == a[q];
    }
  }

  lemma LastRowKey<T>(slices: seq<seq<Keyed<T>>>)
    requires Grouped(slices) && slices != []
    ensures Flatten(slices) != [] && slices[|slices| - 1] != []
    ensures Flatten(slices)[|Flatten(slices)| - 1].key == slices[|slices| - 1][0].key
  {
    var n := |slices| - 1;
    FlattenAppend(slices[..n], slices[n]);
    assert slices == slices[..n] + [slices[n]];
    assert IsGroup(slices[n]);
  }

  ghost function Items<T>(slice: seq<Keyed<T>>): (items: seq<T>)
    ensures |items| == |slice| && forall i :: 0 <= i < |slice| ==> items[i] == slice[i].item
  {
    seq(|slice|, i requires 0 <= i < |slice| => slice[i].item)
  }

  lemma {:induction false} PickGroup<T>(slice: seq<Keyed<T>>, key: Row)
    requires forall i :: 0 <= i < |slice| ==> slice[i].key == key
    ensures GroupOf(slice, key) == Items(slice)
  {
    if slice != [] {
      var n := |slice| - 1;
      PickGroup(slice[..n], key);
      assert Items(slice) == Items(slice[..n]) + [slice[n].item];
    }
  }

  lemma NoSuchGroup<T>(rows: seq<Keyed<T>>, key: Row)
    requires forall i :: 0 <= i < |rows| ==> rows[i].key != key
    ensures GroupOf(rows, key) == []
  {
    PickNone(rows, ItemOf(key));
  }

  /** The keys of the groups of a sorted sequence are a listing of its keys. */
  lemma {:induction false} GroupKeysListing<T>(slices: seq<seq<Keyed<T>>>)
    requires Grouped(slices) && KeysAscend(Flatten(slices))
    ensures IsListing(KeysOf(slices))
    ensures forall k :: k in KeysOf(slices) <==> HasGroup(Flatten(slices), k)
  {
    var keys, rows := KeysOf(slices), Flatten(slices);
    forall a, b | 0 <= a < b < |keys| ensures KeyOrder(keys[a], keys[b]) == Ok(Less) {
      var upTo := slices[..b + 1];
      PrefixGrouped(slices, b + 1);
      LastIsGreatest(upTo, a);
    }
    forall k ensures k in keys <==> HasGroup(rows, k) {
      if k in keys {
        var g :| 0 <= g < |keys| && keys[g] == k;
        var i := GroupStart(slices, g);
      }
      if HasGroup(rows, k) {
        var i :| 0 <= i < |rows| && rows[i].key == k;
        var g := InSomeGroup(slices, i);
        assert keys[g] == k;
      }
    }
  }

  lemma {:induction false} PrefixGrouped<T>(slices: seq<seq<Keyed<T>>>, n: nat)
    requires Grouped(slices) && KeysAscend(Flatten(slices)) && n <= |slices|
    ensures Grouped(slices[..n]) && KeysAscend(Flatten(slices[..n]))
    decreases |slices|
  {
    if n == |slices| {
      assert slices[..n] == slices;
    } else {
      var m := |slices| - 1;
      GroupedFront(slices);
      FlattenAppend(slices[..m], slices[m]);
      assert slices == slices[..m] + [slices[m]];
      KeysAscendFront(Flatten(slices[..m]), slices[m]);
      PrefixGrouped(slices[..m], n);
      assert slices[..m][..n] == slices[..n];
    }
  }

  lemma {:induction false} GroupStart<T>(slices: seq<seq<Keyed<T>>>, g: nat) returns (i: nat)
    requires Grouped(slices) && g < |slices|
    ensures i < |Flatten(slices)| && slices[g] != [] && Flatten(slices)[i].key == slices[g][0].key
    decreases |slices|
  {
    var n := |slices| - 1;
    FlattenAppend(slices[..n], slices[n]);
    assert slices == slices[..n] + [slices[n]];
    assert IsGroup(slices[g]);
    if g == n {
      i := |Flatten(slices[..n])|;
    } else {
      GroupedFront(slices);
      i := GroupStart(slices[..n], g);
    }
  }

  /** A slice is the whole group of its key. */
  lemma {:induction false} SliceIsGroup<T>(slices: seq<seq<Keyed<T>>>, g: nat)
    requires Grouped(slices) && KeysAscend(Flatten(slices)) && g < |slices|
    ensures IsGroup(slices[g]) && GroupOf(Flatten(slices), slices[g][0].key) == Items(slices[g])
    decreases |slices|
  {
    var n := |slices| - 1;
    var front := slices[..n];
    FlattenAppend(front, slices[n]);
    assert slices == front + [slices[n]];
    GroupedFront(slices);
    KeysAscendFront(Flatten(front), slices[n]);
    assert IsGroup(slices[g]) && IsGroup(slices[n]);
    var key := slices[g][0].key;
    PickAppend(Flatten(front), slices[n], ItemOf(key));
    if g == n {
      forall i | 0 <= i < |Flatten(front)| ensures Flatten(front)[i].key != key {
        var h := InSomeGroup(front, i);
        LastIsGreatest(slices, h);
      }
      NoSuchGroup(Flatten(front), key);
      PickGroup(slices[n], key);
    } else {
      SliceIsGroup(front, g);
      LastIsGreatest(slices, g);
      forall i | 0 <= i < |slices[n]| ensures slices[n][i].key != key {}
      NoSuchGroup(slices[n], key);
    }
  }

  /** group_end: where the group starting at `start` ends. */
  method GroupEnd<T>(rows: seq<Keyed<T>>, start: nat) returns (res: Result<nat>)
    requires start < |rows|
    ensures res.Ok? ==> start < res.value <= |rows| && IsGroup(rows[start..res.value])
    ensures res.Ok? && res.value < |rows| ==> rows[res.value].key != rows[start].key
  {
    var end := start + 1;
    while end < |rows|
      invariant start < end <= |rows|
      invariant forall i :: start <= i < end ==> rows[i].key == rows[start].key
    {
      var order := CompareKeyTuples(rows[start].key, rows[end].key);
      if order.Err? { return Err(order.error); }
      KeyOrderLaws(rows[start].key, rows[end].key, []);
      if order.value != Equal { break; }
      end := end + 1;
    }
    res := Ok(end);
  }

  /** The groups found so far end at `start`, and the next one there is new. */
  ghost predicate CutTo<T>(rows: seq<Keyed<T>>, slices: seq<seq<Keyed<T>>>, start: nat)
  {
    && start <= |rows| && Grouped(slices) && Flatten(slices) == rows[..start]
    && (slices != [] && start < |rows| ==> slices[|slices| - 1] != [] && slices[|slices| - 1][0].key != rows[start].key)
  }

  lemma CutMore<T>(rows: seq<Keyed<T>>, slices: seq<seq<Keyed<T>>>, start: nat, end: nat)
    requires CutTo(rows, slices, start) && start < end <= |rows| && IsGroup(rows[start..end])
    requires end < |rows| ==> rows[end].key != rows[start].key
    ensures CutTo(rows, slices + [rows[start..end]], end)
  {
    GroupedMore(slices, rows[start..end]);
    FlattenAppend(slices, rows[start..end]);
    assert rows[..end] == rows[..start] + rows[start..end];
  }

  // ----- the answer of a grouping -----

  /** `keys` lists the groups; without grouping there is always the one group
      with the empty key. */
  ghost predicate ListsGroups<T>(groupCount: nat, rows: seq<Keyed<T>>, keys: seq<Row>)
  {
    IsListing(keys) && forall k :: k in keys <==> HasGroup(rows, k) || (groupCount == 0 && k == [])
  }

  ghost predicate AnswersGroup<T>(answer: seq<T> -> Result<Row>, rows: seq<Keyed<T>>, key: Row, out: Row)
  {
    answer(GroupOf(rows, key)).Ok? && out == key + answer(GroupOf(rows, key)).value
  }

  ghost predicate AnswersAll<T>(answer: seq<T> -> Result<Row>, rows: seq<Keyed<T>>, keys: seq<Row>, out: seq<Row>)
  {
    |out| == |keys| && forall g :: 0 <= g < |keys| ==> AnswersGroup(answer, rows, keys[g], out[g])
  }

  /** One row per group, in ascending key order: the key, then the answer over
      the group's items in input order. */
  ghost predicate IsAnswer<T>(answer: seq<T> -> Result<Row>, groupCount: nat, rows: seq<Keyed<T>>, out: seq<Row>)
  {
    exists keys: seq<Row> :: ListsGroups(groupCount, rows, keys) && AnswersAll(answer, rows, keys, out)
  }

  lemma {:induction false} ListingUnique(a: seq<Row>, b: seq<Row>)
    requires IsListing(a) && IsListing(b) && forall k :: k in a <==> k in b
    ensures a == b
  {
    if a != [] { assert a[0] in b; }
    if b != [] { assert b[0] in a; }
    if a != [] && b != [] {
      KeyOrderLaws(a[0], b[0], a[0]);
      if a[0] != b[0] { assert false; }
      ListingTail(a);
      ListingTail(b);
      ListingUnique(a[1..], b[1..]);
      assert a == [a[0]] + a[1..] && b == [b[0]] + b[1..];
    }
  }

  lemma ListingTail(a: seq<Row>)
    requires IsListing(a) && a != []
    ensures IsListing(a[1..]) && forall k :: k in a[1..] <==> k in a && k != a[0]
  {
    forall k ensures k in a[1..] <==> k in a && k != a[0] {
      KeyOrderLaws(a[0], a[0], a[0]);
      assert a == [a[0]] + a[1..];
      if k in a[1..] {
        var p :| 1 <= p < |a| && a[p] == k;
        assert KeyOrder(a[0], a[p]) == Ok(Less);
      }
    }
  }

  /** A grouping has one answer. */
  lemma AnswerUnique<T>(answer: seq<T> -> Result<Row>, groupCount: nat, rows: seq<Keyed<T>>, a: seq<Row>, b: seq<Row>)
    requires IsAnswer(answer, groupCount, rows, a) && IsAnswer(answer, groupCount, rows, b)
    ensures a == b
  {
    var ka: seq<Row> :| ListsGroups(groupCount, rows, ka) && AnswersAll(answer, rows, ka, a);
    var kb: seq<Row> :| ListsGroups(groupCount, rows, kb) && AnswersAll(answer, rows, kb, b);
    ListingUnique(ka, kb);
    forall g | 0 <= g < |ka| ensures a[g] == b[g] {
      assert AnswersGroup(answer, rows, ka[g], a[g]) && AnswersGroup(answer, rows, kb[g], b[g]);
    }
  }

  /** Without grouping every row has the empty key. */
  ghost predicate KeyWidths<T>(groupCount: nat, rows: seq<Keyed<T>>)
  {
    forall i :: 0 <= i < |rows| ==> |rows[i].key| == groupCount
  }

  /** Answering the groups of a key-sorted sequence one after the other answers
      the grouping. */
  lemma FromGroups<S, T>(answer: seq<T> -> Result<Row>, groupCount: nat, rows: seq<Keyed<T>>,
                         slices: seq<seq<Keyed<S>>>, out: seq<Row>)
    requires Grouped(slices) && KeysAscend(Flatten(slices))
    requires forall k :: HasGroup(Flatten(slices), k) <==> HasGroup(rows, k)
    requires KeyWidths(groupCount, rows) && (groupCount == 0 ==> rows != [])
    requires |out| == |slices|
    requires forall g :: 0 <= g < |slices| ==> AnswersGroup(answer, rows, KeysOf(slices)[g], out[g])
    ensures IsAnswer(answer, groupCount, rows, out)
  {
    var keys := KeysOf(slices);
    GroupKeysListing(slices);
    if groupCount == 0 {
      assert rows[0].key == [];
      assert HasGroup(rows, []);
    }
    assert ListsGroups(groupCount, rows, keys) && AnswersAll(answer, rows, keys, out);
  }

  /** A grouping of no rows. */
  lemma FromNothing<T>(answer: seq<T> -> Result<Row>, groupCount: nat, out: seq<Row>)
    requires if groupCount == 0 then |out| == 1 && answer([]) == Ok(out[0]) else out == []
    ensures IsAnswer(answer, groupCount, [], out)
  {
    var keys: seq<Row> := if groupCount == 0 then [[]] else [];
    var rows: seq<Keyed<T>> := [];
    if groupCount == 0 {
      assert AnswersGroup(answer, rows, keys[0], out[0]);
    }
    assert ListsGroups(groupCount, rows, keys) && AnswersAll(answer, rows, keys, out);
  }
}
