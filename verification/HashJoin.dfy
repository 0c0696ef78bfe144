/** The right-build, left-probe hash join, against an ordered nested loop. */
module HashJoins {
  import opened Values
  import opened Selection
  import opened Budget
  import opened Spilling
  import opened ScalarOps
  import opened JoinKeys

  /** A row with its evaluated join keys. */
  datatype JoinRow = JoinRow(values: Row, keys: seq<Value>)

  // ----- the meaning -----

  /** The output row of a pair whose keys are equal. */
  function Matched(n: Numerics, l: JoinRow): JoinRow -> Option<Row>
  {
    (r: JoinRow) => if AllEqTrue(n, l.keys, r.keys) then Some(l.values + r.values) else None
  }

  function Nulls(width: nat): (row: Row) { seq(width, i => Null) }

  /** What one left row produces: its matches in right order, or the padded row of
      a left join that found none. */
  function JoinOne(j: Join, l: JoinRow, rights: seq<JoinRow>): seq<Row>
  {
    var matches := Pick(rights, Matched(j.numerics, l));
    if matches == [] && j.leftJoin then [l.values + Nulls(j.rightWidth)] else matches
  }

  datatype Join = Join(numerics: Numerics, leftJoin: bool, keyCount: nat, rightWidth: nat)

  /** Left order first, then right order. */
  function NestedLoop(j: Join, lefts: seq<JoinRow>, rights: seq<JoinRow>): seq<Row>
  {
    if lefts == [] then [] else JoinOne(j, lefts[0], rights) + NestedLoop(j, lefts[1..], rights)
  }

  // ----- the output, in plain terms -----

  /** A right row has every key equal to the left row's. */
  predicate Meets(j: Join, l: JoinRow, r: JoinRow) { AllEqTrue(j.numerics, l.keys, r.keys) }

  ghost predicate Unmatched(j: Join, l: JoinRow, rights: seq<JoinRow>)
  {
    forall p :: 0 <= p < |rights| ==> !Meets(j, l, rights[p])
  }

  /** The left values, followed by NULL in every column of the right side. */
  ghost predicate IsPadded(j: Join, l: JoinRow, row: Row)
  {
    && |row| == |l.values| + j.rightWidth && row[..|l.values|] == l.values
    && forall c :: |l.values| <= c < |row| ==> row[c] == Null
  }

  /** `at` lists exactly the right rows that meet the left one, in right order, and
      the output holds the left values followed by each of theirs. */
  ghost predicate PairsUp(j: Join, l: JoinRow, rights: seq<JoinRow>, out: seq<Row>, at: seq<nat>)
  {
    && |at| == |out| && Increasing(at)
    && (forall p: nat :: p in at <==> p < |rights| && Meets(j, l, rights[p]))
    && forall i :: 0 <= i < |out| ==> at[i] < |rights| && out[i] == l.values + rights[at[i]].values
  }

  /** What one left row contributes: its pairs; without any, one padded row in a left
      join and nothing in an inner one. */
  ghost predicate Contributes(j: Join, l: JoinRow, rights: seq<JoinRow>, out: seq<Row>)
  {
    if Unmatched(j, l, rights) then (if j.leftJoin then |out| == 1 && IsPadded(j, l, out[0]) else out == [])
    else exists at: seq<nat> :: PairsUp(j, l, rights, out, at)
  }

  ghost predicate AllContribute(j: Join, lefts: seq<JoinRow>, rights: seq<JoinRow>, parts: seq<seq<Row>>)
  {
    |parts| == |lefts| && forall i :: 0 <= i < |lefts| ==> Contributes(j, lefts[i], rights, parts[i])
  }

  /** The output is the contributions of the left rows, one after the other. */
  ghost predicate IsJoin(j: Join, lefts: seq<JoinRow>, rights: seq<JoinRow>, out: seq<Row>)
  {
    exists parts: seq<seq<Row>> :: AllContribute(j, lefts, rights, parts) && Flatten(parts) == out
  }

  lemma PairMet(j: Join, l: JoinRow, rights: seq<JoinRow>, r: JoinRow, out: seq<Row>, at: seq<nat>)
    requires PairsUp(j, l, rights, out, at) && Meets(j, l, r)
    ensures PairsUp(j, l, rights + [r], out + [l.values + r.values], at + [|rights|])
  {
    var more := at + [|rights|];
    forall p: nat ensures p in more <==> p < |rights + [r]| && Meets(j, l, (rights + [r])[p]) {
      assert p in more <==> p in at || p == |rights|;
    }
    forall a | 0 <= a < |at| ensures at[a] < |rights| { assert at[a] in at; }
  }

  lemma PairMissed(j: Join, l: JoinRow, rights: seq<JoinRow>, r: JoinRow, out: seq<Row>, at: seq<nat>)
    requires PairsUp(j, l, rights, out, at) && !Meets(j, l, r)
    ensures PairsUp(j, l, rights + [r], out, at)
  {
    forall p: nat ensures p in at <==> p < |rights + [r]| && Meets(j, l, (rights + [r])[p]) {
      assert p in at <==> p < |rights| && Meets(j, l, rights[p]);
    }
  }

  lemma {:induction false} Pairs(j: Join, l: JoinRow, rights: seq<JoinRow>) returns (at: seq<nat>)
    ensures PairsUp(j, l, rights, Pick(rights, Matched(j.numerics, l)), at)
  {
    at := [];
    if rights != [] {
      var n := |rights| - 1;
      at := Pairs(j, l, rights[..n]);
      var found := Pick(rights[..n], Matched(j.numerics, l));
      PickLast(rights[..n], rights[n], Matched(j.numerics, l));
      assert rights == rights[..n] + [rights[n]];
      if Meets(j, l, rights[n]) {
        PairMet(j, l, rights[..n], rights[n], found, at);
        at := at + [n];
      } else {
        PairMissed(j, l, rights[..n], rights[n], found, at);
        assert found + [] == found;
      }
    }
  }

  lemma OneContributes(j: Join, l: JoinRow, rights: seq<JoinRow>)
    ensures Contributes(j, l, rights, JoinOne(j, l, rights))
  {
    if Unmatched(j, l, rights) {
      PickNone(rights, Matched(j.numerics, l));
    } else {
      var at := Pairs(j, l, rights);
      var p: nat :| p < |rights| && Meets(j, l, rights[p]);
      assert p in at;
    }
  }

  ghost function Parts(j: Join, lefts: seq<JoinRow>, rights: seq<JoinRow>): (parts: seq<seq<Row>>)
    ensures |parts| == |lefts| && forall i :: 0 <= i < |lefts| ==> parts[i] == JoinOne(j, lefts[i], rights)
  {
    seq(|lefts|, i requires 0 <= i < |lefts| => JoinOne(j, lefts[i], rights))
  }

  lemma {:induction false} PartsFlatten(j: Join, lefts: seq<JoinRow>, rights: seq<JoinRow>)
    ensures Flatten(Parts(j, lefts, rights)) == NestedLoop(j, lefts, rights)
  {
    if lefts != [] {
      PartsFlatten(j, lefts[1..], rights);
      assert Parts(j, lefts, rights)[1..] == Parts(j, lefts[1..], rights);
    }
  }

  /** The nested loop, in plain terms. */
  lemma NestedLoopMeans(j: Join, lefts: seq<JoinRow>, rights: seq<JoinRow>)
    ensures IsJoin(j, lefts, rights, NestedLoop(j, lefts, rights))
  {
    var parts := Parts(j, lefts, rights);
    PartsFlatten(j, lefts, rights);
    forall i | 0 <= i < |lefts| ensures Contributes(j, lefts[i], rights, parts[i]) {
      OneContributes(j, lefts[i], rights);
    }
    assert AllContribute(j, lefts, rights, parts);
  }

  // ----- the build table -----

  type HashKey = seq<HashValue>

  function WithKey(key: HashKey): JoinRow -> Option<Row>
  {
    (r: JoinRow) => if HashKeyOf(r.keys) == Ok(Some(key)) then Some(r.values) else None
  }

  function Bucket(buckets: map<HashKey, seq<Row>>, key: HashKey): seq<Row>
  {
    if key in buckets then buckets[key] else []
  }

  /** Every bucket holds the right rows with its key, in insertion order. */
  ghost predicate TableOf(buckets: map<HashKey, seq<Row>>, rights: seq<JoinRow>)
  {
    forall key :: Bucket(buckets, key) == Pick(rights, WithKey(key))
  }

  /** Every key of the rights hashes, and none mixes integers with equal floats. */
  ghost predicate Hashable(rights: seq<JoinRow>)
  {
    forall i :: 0 <= i < |rights| ==> HashKeyOf(rights[i].keys).Ok?
  }

  ghost predicate SameTyped(n: Numerics, l: JoinRow, rights: seq<JoinRow>)
  {
    forall i :: 0 <= i < |rights| ==> NoneMixed(n, l.keys, rights[i].keys)
  }

  function Prefixed(left: Row, rows: seq<Row>): (out: seq<Row>)
    ensures |out| == |rows| && forall i :: 0 <= i < |rows| ==> out[i] == left + rows[i]
  {
    seq(|rows|, i requires 0 <= i < |rows| => left + rows[i])
  }

  /** A right row matches exactly when it carries the left row's key. */
  lemma MatchByHash(n: Numerics, l: JoinRow, r: JoinRow)
    requires HashKeyOf(l.keys).Ok? && HashKeyOf(r.keys).Ok? && NoneMixed(n, l.keys, r.keys)
    ensures var key := HashKeyOf(l.keys).value;
            && (key.None? ==> Matched(n, l)(r).None?)
            && (key.Some? && WithKey(key.value)(r).None? ==> Matched(n, l)(r).None?)
            && (key.Some? && WithKey(key.value)(r).Some? ==>
                  Matched(n, l)(r) == Some(l.values + r.values) && WithKey(key.value)(r) == Some(r.values))
  {
    KeysMeanEqual(n, l.keys, r.keys);
  }

  lemma PrefixedLast(left: Row, rows: seq<Row>, row: Row)
    ensures Prefixed(left, rows + [row]) == Prefixed(left, rows) + [left + row]
  {
  }

  /** Probing by hash key finds exactly the rows with equal keys. */
  ghost predicate FoundByHash(n: Numerics, l: JoinRow, rights: seq<JoinRow>)
    requires HashKeyOf(l.keys).Ok?
  {
    var key := HashKeyOf(l.keys).value;
    Pick(rights, Matched(n, l)) == if key.None? then [] else Prefixed(l.values, Pick(rights, WithKey(key.value)))
  }

  lemma OneMoreFound(n: Numerics, l: JoinRow, rights: seq<JoinRow>, r: JoinRow)
    requires HashKeyOf(l.keys).Ok? && HashKeyOf(r.keys).Ok? && NoneMixed(n, l.keys, r.keys)
    requires FoundByHash(n, l, rights)
    ensures FoundByHash(n, l, rights + [r])
  {
    MatchByHash(n, l, r);
    PickLast(rights, r, Matched(n, l));
    var key := HashKeyOf(l.keys).value;
    if key.Some? {
      PickLast(rights, r, WithKey(key.value));
      PrefixedLast(l.values, Pick(rights, WithKey(key.value)), r.values);
    }
  }

  lemma {:induction false} MatchesByHash(n: Numerics, l: JoinRow, rights: seq<JoinRow>)
    requires HashKeyOf(l.keys).Ok? && Hashable(rights) && SameTyped(n, l, rights)
    ensures FoundByHash(n, l, rights)
  {
    if rights != [] {
      var m := |rights| - 1;
      MatchesByHash(n, l, rights[..m]);
      OneMoreFound(n, l, rights[..m], rights[m]);
      assert rights[..m] + [rights[m]] == rights;
    }
  }

  /** BuildTable */
  class BuildTable {
    var buckets: map<HashKey, seq<Row>>
    const budget: MemoryBudget
    var charged: nat
    /** The charge of every inserted row. */
    ghost var sizes: seq<nat>

    ghost predicate Valid()
      reads this, budget
    {
      charged == TotalBytes(sizes) <= budget.charged
    }

    constructor (budget: MemoryBudget)
      ensures Valid() && buckets == map[] && charged == 0 && this.budget == budget
    {
      this.budget, buckets, charged, sizes := budget, map[], 0, [];
    }

    /** insert: the charge is taken before the row is kept. */
    method Insert(key: HashKey, row: Row, bytes: nat) returns (res: Result<()>)
      requires Valid()
      modifies this, budget
      ensures Valid() && budget.charged - old(budget.charged) == charged - old(charged)
      ensures res.Ok? ==> buckets == old(buckets)[key := Bucket(old(buckets), key) + [row]]
      ensures res.Err? ==> res.error == BudgetExceeded
    {
      var granted := budget.Charge(bytes);
      if !granted { return Err(BudgetExceeded); }
      // The budget's total is a usize, so the checked sum cannot overflow.
      assert charged + bytes <= USIZE_MAX;
      charged := charged + bytes;
      sizes := sizes + [bytes];
      assert sizes[..|sizes| - 1] == old(sizes);
      buckets := buckets[key := Bucket(buckets, key) + [row]];
      res := Ok(());
    }
  }

  /** Key bytes: the approximate size of each key value. */
  function KeyCharge(keys: seq<Value>): nat
  {
    if keys == [] then 0 else KeyCharge(keys[..|keys| - 1]) + ApproxBytes(keys[|keys| - 1])
  }

  /** build_row_charge */
  function BuildRowCharge(r: JoinRow): Result<nat>
  {
    var row :- ValuesCharge(r.values);
    if row + KeyCharge(r.keys) > USIZE_MAX then Err(InvalidArgument) else Ok(row + KeyCharge(r.keys))
  }

  lemma {:induction false} KeyChargeMeans(keys: seq<Value>)
    ensures KeyCharge(keys) == ApproxTotal(keys)
  {
    if keys != [] { KeyChargeMeans(keys[..|keys| - 1]); }
  }

  /** A built row is charged for its values and its keys. */
  lemma BuildRowChargeMeans(r: JoinRow)
    ensures BuildRowCharge(r) == Charged(64 + ApproxTotal(r.values) + ApproxTotal(r.keys))
  {
    ValuesChargeMeans(r.values);
    KeyChargeMeans(r.keys);
  }

  /** A right row that can be built in: its keys hash and its size can be charged. */
  predicate Buildable(r: JoinRow) { HashKeyOf(r.keys).Ok? && BuildRowCharge(r).Ok? }

  ghost predicate AllBuildable(rows: seq<JoinRow>)
  {
    forall i :: 0 <= i < |rows| ==> Buildable(rows[i])
  }

  lemma BuildablePart(a: seq<JoinRow>, b: seq<JoinRow>, c: seq<JoinRow>)
    requires AllBuildable(a + (b + c))
    ensures AllBuildable(b)
  {
    forall i | 0 <= i < |b| ensures Buildable(b[i]) { assert (a + (b + c))[|a| + i] == b[i]; }
  }

  lemma TableGrows(buckets: map<HashKey, seq<Row>>, rights: seq<JoinRow>, r: JoinRow)
    requires TableOf(buckets, rights) && HashKeyOf(r.keys).Ok?
    ensures var key := HashKeyOf(r.keys).value;
            TableOf(if key.None? then buckets else buckets[key.value := Bucket(buckets, key.value) + [r.values]],
                    rights + [r])
  {
    var key := HashKeyOf(r.keys).value;
    var after := if key.None? then buckets else buckets[key.value := Bucket(buckets, key.value) + [r.values]];
    forall k ensures Bucket(after, k) == Pick(rights + [r], WithKey(k)) {
      PickLast(rights, r, WithKey(k));
      assert Bucket(buckets, k) == Pick(rights, WithKey(k));
      if key != Some(k) { assert Pick(rights, WithKey(k)) + [] == Pick(rights, WithKey(k)); }
    }
  }

  /** One row of append_build_chunk: a row without a key is skipped, not kept. */
  method AppendBuildRow(build: BuildTable, r: JoinRow, ghost rights: seq<JoinRow>) returns (res: Result<()>)
    requires build.Valid() && TableOf(build.buckets, rights)
    modifies build, build.budget
    ensures build.Valid() && build.budget.charged - old(build.budget.charged) == build.charged - old(build.charged)
    ensures res.Ok? ==> HashKeyOf(r.keys).Ok? && TableOf(build.buckets, rights + [r])
    ensures res.Err? && Buildable(r) ==> res.error == BudgetExceeded
  {
    var key := HashKeyOf(r.keys);
    if key.Err? { return Err(key.error); }
    TableGrows(build.buckets, rights, r);
    if key.value.None? { return Ok(()); }
    var charge := BuildRowCharge(r);
    if charge.Err? { return Err(charge.error); }
    res := build.Insert(key.value.value, r.values, charge.value);
  }

  /** append_build_chunk */
  method AppendBuildChunk(build: BuildTable, chunk: seq<JoinRow>, ghost rights: seq<JoinRow>) returns (res: Result<()>)
    requires build.Valid() && TableOf(build.buckets, rights) && Hashable(rights)
    modifies build, build.budget
    ensures build.Valid() && build.budget.charged - old(build.budget.charged) == build.charged - old(build.charged)
    ensures res.Ok? ==> TableOf(build.buckets, rights + chunk) && Hashable(rights + chunk)
    ensures res.Err? && AllBuildable(chunk) ==> res.error == BudgetExceeded
  {
    assert rights + chunk[..0] == rights;
    for i := 0 to |chunk|
      invariant build.Valid() && build.budget.charged - old(build.budget.charged) == build.charged - old(build.charged)
      invariant TableOf(build.buckets, rights + chunk[..i]) && Hashable(rights + chunk[..i])
    {
      res := AppendBuildRow(build, chunk[i], rights + chunk[..i]);
      if res.Err? { return; }
      Grow(rights, chunk, i);
    }
    assert chunk[..|chunk|] == chunk;
    res := Ok(());
  }

  // ----- probing -----

  /** ProbeChunk: a left chunk and how far it has been probed. */
  datatype ProbeChunk = ProbeChunk(rows: seq<JoinRow>, nextRow: nat)

  /** PendingProbe: a left row whose matches are being emitted. */
  datatype PendingProbe = PendingProbe(left: Option<Row>, rowIndex: nat, key: Option<HashKey>, nextMatch: nat)

  /** The left row of a pending probe, and its hash key. */
  ghost predicate PendingOf(p: PendingProbe, probe: ProbeChunk)
  {
    && p.rowIndex < |probe.rows| && HashKeyOf(probe.rows[p.rowIndex].keys) == Ok(p.key)
    && (p.left.Some? ==> p.left.value == probe.rows[p.rowIndex].values)
  }

  /** Taking the next output of a pending row: its next match, or its padding. */
  lemma NextOutput(j: Join, l: JoinRow, rights: seq<JoinRow>, buckets: map<HashKey, seq<Row>>, key: Option<HashKey>,
                   next: nat)
    requires HashKeyOf(l.keys) == Ok(key) && Hashable(rights) && SameTyped(j.numerics, l, rights)
    requires TableOf(buckets, rights)
    requires next == 0 || next < |JoinOne(j, l, rights)|
    ensures var found := if key.None? then [] else Bucket(buckets, key.value); var out := JoinOne(j, l, rights);
            && (next < |found| ==> |out| == |found| && out[next..] == [l.values + found[next]] + out[next + 1..])
            && (next >= |found| ==> next == 0 && out == if j.leftJoin then [l.values + Nulls(j.rightWidth)] else [])
  {
    MatchesByHash(j.numerics, l, rights);
    if key.Some? { assert Bucket(buckets, key.value) == Pick(rights, WithKey(key.value)); }
  }

  /** Join keys have one type per key column, so no integer meets an equal float. */
  ghost predicate Typed(n: Numerics, rows: seq<JoinRow>, rights: seq<JoinRow>)
  {
    forall i :: 0 <= i < |rows| ==> SameTyped(n, rows[i], rights)
  }

  lemma TypedParts(n: Numerics, a: seq<JoinRow>, b: seq<JoinRow>, rights: seq<JoinRow>)
    requires Typed(n, a + b, rights)
    ensures Typed(n, a, rights) && Typed(n, b, rights)
  {
    var all := a + b;
    forall i | 0 <= i < |a| ensures SameTyped(n, a[i], rights) { assert all[i] == a[i]; }
    forall i | 0 <= i < |b| ensures SameTyped(n, b[i], rights) { assert all[|a| + i] == b[i]; }
  }

  /** How far the left side has been probed. */
  datatype Probing = Probing(left: Source<JoinRow>, probe: Option<ProbeChunk>, pending: Option<PendingProbe>) {
    ghost predicate Shape()
    {
      && (probe.Some? ==> probe.value.nextRow <= |probe.value.rows|)
      && (pending.Some? ==> probe.Some? && PendingOf(pending.value, probe.value))
    }

    /** Left rows not yet probed. */
    ghost function Todo(): seq<JoinRow>
      requires Shape()
    {
      (if probe.Some? then probe.value.rows[probe.value.nextRow..] else []) + RowsOf(left)
    }

    ghost function PendingRow(): JoinRow
      requires Shape() && pending.Some?
    {
      probe.value.rows[pending.value.rowIndex]
    }

    /** Outputs the pending row still owes. */
    ghost function Owed(j: Join, rights: seq<JoinRow>): seq<Row>
      requires Shape()
    {
      if pending.None? then []
      else
        var out := JoinOne(j, PendingRow(), rights);
        if pending.value.nextMatch <= |out| then out[pending.value.nextMatch..] else []
    }

    ghost predicate Ok(j: Join, rights: seq<JoinRow>)
    {
      && Shape() && Typed(j.numerics, Todo(), rights)
      && (pending.Some? ==>
            && SameTyped(j.numerics, PendingRow(), rights)
            && (pending.value.nextMatch == 0 || pending.value.nextMatch < |JoinOne(j, PendingRow(), rights)|))
    }

    /** Everything still to be emitted. */
    ghost function Remaining(j: Join, rights: seq<JoinRow>): seq<Row>
      requires Shape()
    {
      Owed(j, rights) + NestedLoop(j, Todo(), rights)
    }
  }

  /** ProbeChunk::next_row */
  method StartProbe(j: Join, s: Probing, ghost rights: seq<JoinRow>) returns (res: Result<()>, t: Probing)
    requires s.Ok(j, rights) && s.pending.None? && s.probe.Some? && s.probe.value.nextRow < |s.probe.value.rows|
    ensures res.Ok? ==>
              t.Ok(j, rights) && t.pending.Some? && t.left == s.left && t.Remaining(j, rights) == s.Remaining(j, rights)
    ensures res.Ok? ==> |t.Todo()| < |s.Todo()| && t.Todo() == s.Todo()[1..]
    ensures res.Err? ==> s.Todo() != [] && HashKeyOf(s.Todo()[0].keys).Err?
  {
    t := s;
    assert s.Todo()[0] == s.probe.value.rows[s.probe.value.nextRow];
    var rows, row := s.probe.value.rows, s.probe.value.nextRow;
    var key := HashKeyOf(rows[row].keys);
    if key.Err? { return Err(key.error), t; }
    t := s.(probe := Some(ProbeChunk(rows, row + 1)), pending := Some(PendingProbe(None, row, key.value, 0)));
    ghost var todo := s.Todo();
    assert todo[0] == rows[row] && todo[1..] == t.Todo() && todo == [rows[row]] + t.Todo();
    TypedParts(j.numerics, [rows[row]], t.Todo(), rights);
    assert [rows[row]][0] == rows[row];
    ghost var out := JoinOne(j, rows[row], rights);
    assert out[0..] == out && s.Owed(j, rights) + NestedLoop(j, todo, rights) == NestedLoop(j, todo, rights);
    res := Ok(());
  }

  /** next_probe_row: pulls left chunks until one has a row; false when the left
      side is exhausted. */
  method NextProbeRow(j: Join, s: Probing, ghost rights: seq<JoinRow>) returns (res: Result<bool>, t: Probing)
    requires s.Ok(j, rights) && s.pending.None?
    ensures res.Ok? ==>
              t.Ok(j, rights) && (t.pending.Some? <==> res.value) && t.Remaining(j, rights) == s.Remaining(j, rights)
    ensures res.Ok? ==> (AllOk(s.left) <==> AllOk(t.left))
    ensures res == Ok(true) ==> |t.Todo()| < |s.Todo()|
    ensures res == Ok(false) ==> t.left == [] && t.Todo() == []
    ensures Hashable(s.Todo()) && AllOk(s.left) ==> res.Ok? && Hashable(t.Todo())
  {
    t := s;
    while (t.probe.None? || t.probe.value.nextRow == |t.probe.value.rows|) && t.left != []
      invariant t.Ok(j, rights) && t.pending.None? && t.Todo() == s.Todo() && (AllOk(s.left) <==> AllOk(t.left))
      decreases |t.left|
    {
      var next := t.left[0];
      RowsOfStep(t.left);
      if next.Err? { return Err(next.error), t; }
      ghost var before := t.Todo();
      t := Probing(t.left[1..], Some(ProbeChunk(next.value, 0)), None);
      assert next.value[0..] == next.value && t.Todo() == before;
    }
    if t.probe.None? || t.probe.value.nextRow == |t.probe.value.rows| { return Ok(false), t; }
    var started;
    started, t := StartProbe(j, t, rights);
    res := if started.Ok? then Ok(true) else Err(started.error);
  }

  /** take_pending_output: one output row of the pending probe, if it has any. */
  method TakePendingOutput(j: Join, buckets: map<HashKey, seq<Row>>, s: Probing, ghost rights: seq<JoinRow>)
    returns (out: Option<Row>, t: Probing)
    requires s.Ok(j, rights) && s.pending.Some? && Hashable(rights) && TableOf(buckets, rights)
    ensures t.Ok(j, rights) && t.left == s.left && t.Todo() == s.Todo()
    ensures s.Remaining(j, rights) == Emitted(out) + t.Remaining(j, rights)
    ensures if out.Some? then |t.Owed(j, rights)| + 1 == |s.Owed(j, rights)|
            else t.pending.None? && s.Owed(j, rights) == []
  {
    var p, probe := s.pending.value, s.probe.value;
    var found := if p.key.None? then [] else Bucket(buckets, p.key.value);
    t := s.(pending := None);
    if p.nextMatch < |found| {
      var next := p.nextMatch + 1;
      var values := if p.left.None? then probe.rows[p.rowIndex].values else p.left.value;
      if next < |found| { t := s.(pending := Some(PendingProbe(Some(values), p.rowIndex, p.key, next))); }
      out := Some(values + found[p.nextMatch]);
      MatchTaken(j, buckets, s, t, rights, found);
    } else {
      out := if j.leftJoin then Some(probe.rows[p.rowIndex].values + Nulls(j.rightWidth)) else None;
      PaddingTaken(j, buckets, s, rights, found);
    }
    TookRemaining(j, s, t, out, rights);
  }

  ghost function Emitted(out: Option<Row>): seq<Row> { if out.Some? then [out.value] else [] }

  /** One output was taken from what the pending row owes, or it owed none. */
  ghost predicate Took(j: Join, s: Probing, t: Probing, out: Option<Row>, rights: seq<JoinRow>)
    requires s.Shape() && t.Shape()
  {
    && t.left == s.left && t.Todo() == s.Todo() && s.Owed(j, rights) == Emitted(out) + t.Owed(j, rights)
    && (out.None? ==> t.pending.None?)
  }

  lemma TookRemaining(j: Join, s: Probing, t: Probing, out: Option<Row>, rights: seq<JoinRow>)
    requires s.Shape() && t.Shape() && Took(j, s, t, out, rights)
    ensures s.Remaining(j, rights) == Emitted(out) + t.Remaining(j, rights)
    ensures if out.Some? then |t.Owed(j, rights)| + 1 == |s.Owed(j, rights)| else s.Owed(j, rights) == []
  {
    Assoc(Emitted(out), t.Owed(j, rights), NestedLoop(j, s.Todo(), rights));
  }

  lemma MatchTaken(j: Join, buckets: map<HashKey, seq<Row>>, s: Probing, t: Probing, rights: seq<JoinRow>,
                   found: seq<Row>)
    requires s.Ok(j, rights) && s.pending.Some? && Hashable(rights) && TableOf(buckets, rights)
    requires found == if s.pending.value.key.None? then [] else Bucket(buckets, s.pending.value.key.value)
    requires s.pending.value.nextMatch < |found|
    requires var p := s.pending.value;
             var next := PendingProbe(Some(s.PendingRow().values), p.rowIndex, p.key, p.nextMatch + 1);
             t == s.(pending := if p.nextMatch + 1 < |found| then Some(next) else None)
    ensures t.Ok(j, rights)
    ensures Took(j, s, t, Some(s.PendingRow().values + found[s.pending.value.nextMatch]), rights)
  {
    var p := s.pending.value;
    NextOutput(j, s.PendingRow(), rights, buckets, p.key, p.nextMatch);
  }

  lemma PaddingTaken(j: Join, buckets: map<HashKey, seq<Row>>, s: Probing, rights: seq<JoinRow>, found: seq<Row>)
    requires s.Ok(j, rights) && s.pending.Some? && Hashable(rights) && TableOf(buckets, rights)
    requires found == if s.pending.value.key.None? then [] else Bucket(buckets, s.pending.value.key.value)
    requires s.pending.value.nextMatch >= |found|
    ensures s.(pending := None).Ok(j, rights)
    ensures var padding := if j.leftJoin then Some(s.PendingRow().values + Nulls(j.rightWidth)) else None;
            Took(j, s, s.(pending := None), padding, rights)
  {
    var p := s.pending.value;
    NextOutput(j, s.PendingRow(), rights, buckets, p.key, p.nextMatch);
  }

  /** The loop of next_chunk: fills a chunk, or finds the left side exhausted. */
  method FillChunk(j: Join, buckets: map<HashKey, seq<Row>>, s: Probing, ghost rights: seq<JoinRow>)
    returns (res: Result<bool>, chunk: seq<Row>, t: Probing)
    requires s.Ok(j, rights) && Hashable(rights) && TableOf(buckets, rights)
    ensures res.Ok? ==>
              t.Ok(j, rights) && s.Remaining(j, rights) == chunk + t.Remaining(j, rights) && |chunk| <= CHUNK_CAPACITY
    ensures res.Ok? ==> (AllOk(s.left) <==> AllOk(t.left))
    ensures res.Ok? ==> if res.value then t.left == [] && t.Remaining(j, rights) == [] else |chunk| == CHUNK_CAPACITY
    ensures Hashable(s.Todo()) && AllOk(s.left) ==> res.Ok? && Hashable(t.Todo())
  {
    chunk, t := [], s;
    assert chunk + t.Remaining(j, rights) == t.Remaining(j, rights);
    while |chunk| < CHUNK_CAPACITY
      invariant t.Ok(j, rights) && s.Remaining(j, rights) == chunk + t.Remaining(j, rights) && |chunk| <= CHUNK_CAPACITY
      invariant AllOk(s.left) <==> AllOk(t.left)
      invariant Hashable(s.Todo()) && AllOk(s.left) ==> Hashable(t.Todo())
      decreases |t.Todo()|, |t.Owed(j, rights)|, if t.pending.Some? then 1 else 0
    {
      if t.pending.None? {
        var more;
        more, t := NextProbeRow(j, t, rights);
        if more.Err? || !more.value { return (if more.Ok? then Ok(true) else Err(more.error)), chunk, t; }
      }
      var out, after := TakePendingOutput(j, buckets, t, rights);
      Assoc(chunk, Emitted(out), after.Remaining(j, rights));
      chunk := chunk + (if out.Some? then [out.value] else []);
      t := after;
    }
    res := Ok(false);
  }

  class HashJoin {
    const join: Join
    const budget: MemoryBudget
    var right: Source<JoinRow>
    var build: BuildTable?
    /** What is left of the left side, its current chunk and pending row. */
    var state: Probing
    var initialized: bool
    var finished: bool
    /** The whole inputs, what has been emitted, and whether a pull has failed. */
    ghost const lefts: Source<JoinRow>
    ghost const rights: Source<JoinRow>
    ghost var delivered: seq<Row>
    ghost var broken: bool

    ghost function Expected(): seq<Row>
    {
      NestedLoop(join, RowsOf(lefts), RowsOf(rights))
    }

    ghost predicate Midway()
      reads this, build, budget
    {
      && build != null && AllOk(rights) && Hashable(RowsOf(rights)) && TableOf(build.buckets, RowsOf(rights))
      && state.Ok(join, RowsOf(rights)) && (AllOk(lefts) <==> AllOk(state.left))
      && delivered + state.Remaining(join, RowsOf(rights)) == Expected()
      && (AllOk(lefts) && Hashable(RowsOf(lefts)) ==> Hashable(state.Todo()))
    }

    /** No failure other than a refused charge is possible. */
    ghost predicate OnlyBudgetCanFail()
    {
      && join.keyCount > 0 && AllOk(lefts) && AllOk(rights)
      && Hashable(RowsOf(lefts)) && AllBuildable(RowsOf(rights))
    }

    ghost predicate Valid()
      reads this, build, budget
    {
      && Typed(join.numerics, RowsOf(lefts), RowsOf(rights))
      && (!broken && !initialized ==>
            && build == null && state == Probing(lefts, None, None) && right == rights
            && !finished && delivered == [])
      && (!broken && initialized && !finished ==> Midway())
      && (!broken && finished ==>
            initialized && build == null && AllOk(lefts) && AllOk(rights) && delivered == Expected())
      && (build != null ==> build.budget == budget && build.Valid())
    }

    /** The charge the join still holds. */
    ghost function Held(): nat
      reads this, build
    {
      if build == null then 0 else build.charged
    }

    constructor (join: Join, budget: MemoryBudget, left: Source<JoinRow>, right: Source<JoinRow>)
      requires Typed(join.numerics, RowsOf(left), RowsOf(right))
      ensures Valid() && !broken && !initialized && !finished
      ensures this.join == join && this.budget == budget && lefts == left && rights == right
    {
      this.join, this.budget, this.right, lefts, rights := join, budget, right, left, right;
      state := Probing(left, None, None);
      build, initialized, finished, delivered, broken := null, false, false, [], false;
    }

    /** HashJoin::initialize: reads the whole right side into the table. */
    method Initialize() returns (res: Result<()>)
      requires Valid() && !broken && !initialized
      modifies this`right, this`build, this`initialized, budget
      ensures res.Ok? ==> initialized && Valid() && fresh(build)
      ensures res.Err? ==> build == null
      ensures budget.charged - old(budget.charged) == Held()
      ensures res.Err? && OnlyBudgetCanFail() ==> res.error == BudgetExceeded
    {
      if join.keyCount == 0 { return Err(InvalidArgument); }
      var table := new BuildTable(budget);
      res, right := BuildFrom(table, right);
      if res.Err? {
        budget.Release(table.charged);
        return;
      }
      build, initialized := table, true;
      assert state.Todo() == RowsOf(lefts) && delivered + state.Remaining(join, RowsOf(rights)) == Expected();
    }

    /** HashJoin::next_chunk: never an empty chunk, and None only when everything
        has been emitted, which is exactly the nested loop's output. */
    method NextChunk() returns (res: Result<Option<seq<Row>>>)
      requires Valid() && !broken
      modifies this, build, budget
      ensures Valid() && (broken <==> res.Err?)
      ensures build != null ==> build == old(build) || fresh(build)
      ensures budget.charged - old(budget.charged) == Held() - old(Held())
      ensures res.Ok? && res.value.Some? ==>
                0 < |res.value.value| <= CHUNK_CAPACITY && delivered == old(delivered) + res.value.value
      ensures res == Ok(None) ==> finished && delivered == old(delivered) == Expected()
      ensures res.Err? && OnlyBudgetCanFail() ==> res.error == BudgetExceeded
    {
      if finished { return Ok(None); }
      if !initialized {
        var started := Initialize();
        if started.Err? {
          broken := true;
          return Err(started.error);
        }
      }
      res := Emit();
    }

    /** The loop of next_chunk, once the table is built. */
    method Emit() returns (res: Result<Option<seq<Row>>>)
      requires Valid() && !broken && initialized && !finished
      modifies this`state, this`delivered, this`broken, this`build, this`finished, budget
      ensures Valid() && (broken <==> res.Err?) && (build == null || build == old(build))
      ensures budget.charged - old(budget.charged) == Held() - old(Held())
      ensures res.Ok? && res.value.Some? ==>
                0 < |res.value.value| <= CHUNK_CAPACITY && delivered == old(delivered) + res.value.value
      ensures res == Ok(None) ==> finished && delivered == old(delivered) == Expected()
      ensures OnlyBudgetCanFail() ==> res.Ok?
    {
      var full, chunk, next := FillChunk(join, build.buckets, state, RowsOf(rights));
      if full.Err? {
        broken := true;
        return Err(full.error);
      }
      Deliver(chunk, next);
      if full.value { Finish(); }
      res := Ok(if chunk == [] then None else Some(chunk));
    }

    /** Takes over what a filled chunk leaves behind. */
    method Deliver(chunk: seq<Row>, next: Probing)
      requires Valid() && !broken && initialized && !finished
      requires next.Ok(join, RowsOf(rights)) && (AllOk(state.left) <==> AllOk(next.left))
      requires state.Remaining(join, RowsOf(rights)) == chunk + next.Remaining(join, RowsOf(rights))
      requires AllOk(lefts) && Hashable(RowsOf(lefts)) ==> Hashable(next.Todo())
      modifies this`state, this`delivered
      ensures Valid() && state == next && delivered == old(delivered) + chunk
    {
      Assoc(delivered, chunk, next.Remaining(join, RowsOf(rights)));
      state := next;
      delivered := delivered + chunk;
    }

    /** finish: drops the table and with it the join's charge. */
    method Finish()
      requires Valid() && !broken && initialized && !finished && state.left == []
      requires state.Remaining(join, RowsOf(rights)) == []
      modifies this`build, this`state, this`finished, budget
      ensures Valid() && finished && build == null
      ensures budget.charged == old(budget.charged) - old(Held())
    {
      budget.Release(build.charged);
      assert delivered + [] == delivered;
      build, finished, state := null, true, Probing([], None, None);
    }

    /** Pulls the join dry. */
    method Collect() returns (res: Result<seq<Row>>)
      requires Valid() && !broken && !initialized
      modifies this, budget
      ensures Valid()
      ensures res.Ok? ==>
                res.value == Expected() && AllOk(lefts) && AllOk(rights) && budget.charged == old(budget.charged)
      ensures res.Ok? ==> IsJoin(join, RowsOf(lefts), RowsOf(rights), res.value)
      ensures res.Err? && OnlyBudgetCanFail() ==> res.error == BudgetExceeded
      ensures budget.charged - old(budget.charged) == Held()
    {
      NestedLoopMeans(join, RowsOf(lefts), RowsOf(rights));
      var out: seq<Row> := [];
      while true
        invariant Valid() && !broken && delivered == out && (build != null ==> fresh(build))
        invariant budget.charged - old(budget.charged) == Held()
        invariant |delivered| <= |Expected()|
        decreases |Expected()| - |delivered|
      {
        var next := NextChunk();
        if next.Err? { return Err(next.error); }
        if next.value.None? { return Ok(out); }
        out := out + next.value.value;
        DeliveredFits();
      }
    }

    lemma DeliveredFits()
      requires Valid() && !broken
      ensures |delivered| <= |Expected()|
    {
      if initialized && !finished { assert Expected()[..|delivered|] == delivered; }
    }

    /** Dropping the join returns what its table still holds. */
    method Drop()
      requires Valid()
      modifies this`build, budget
      ensures build == null && budget.charged == old(budget.charged) - old(Held())
    {
      if build != null {
        budget.Release(build.charged);
        build := null;
      }
    }
  }

  /** The loop of initialize over the right side. */
  method BuildFrom(table: BuildTable, source: Source<JoinRow>) returns (res: Result<()>, right: Source<JoinRow>)
    requires table.Valid() && table.buckets == map[]
    modifies table, table.budget
    ensures table.Valid() && table.budget.charged - old(table.budget.charged) == table.charged - old(table.charged)
    ensures res.Ok? ==> AllOk(source) && Hashable(RowsOf(source)) && TableOf(table.buckets, RowsOf(source))
    ensures res.Err? && AllOk(source) && AllBuildable(RowsOf(source)) ==> res.error == BudgetExceeded
  {
    right := source;
    ghost var done: seq<JoinRow> := [];
    assert done + RowsOf(right) == RowsOf(source);
    while right != []
      invariant table.Valid() && table.budget.charged - old(table.budget.charged) == table.charged - old(table.charged)
      invariant done + RowsOf(right) == RowsOf(source) && (AllOk(source) <==> AllOk(right))
      invariant Hashable(done) && TableOf(table.buckets, done)
      decreases |right|
    {
      var next := right[0];
      RowsOfStep(right);
      right := right[1..];
      if next.Err? { return Err(next.error), right; }
      if AllBuildable(RowsOf(source)) { BuildablePart(done, next.value, RowsOf(right)); }
      res := AppendBuildChunk(table, next.value, done);
      if res.Err? { return; }
      Assoc(done, next.value, RowsOf(right));
      done := done + next.value;
    }
    assert done + [] == done;
    res := Ok(());
  }
}
