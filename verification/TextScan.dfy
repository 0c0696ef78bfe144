/** Full-text top-k: a bounded heap by score descending, then key ascending, under
    reservations that are resized as rows come and go. */
module TextScans {
  import opened Values
  import opened ValueOrder
  import opened Budget
  import opened Spilling
  import opened TopK

  /** An owned reservation of working memory. */
  class Reservation {
    const budget: MemoryBudget
    var bytes: nat

    constructor (budget: MemoryBudget)
      ensures bytes == 0 && this.budget == budget
    {
      this.budget, bytes := budget, 0;
    }

    /** resize: a refusal leaves the reservation as it was. */
    method Resize(target: nat) returns (res: Result<()>)
      requires bytes <= budget.charged
      modifies this, budget
      ensures bytes == (if res.Ok? then target else old(bytes)) <= budget.charged
      ensures budget.charged - old(budget.charged) == bytes - old(bytes)
      ensures target <= old(bytes) ==> res.Ok?
      ensures res.Err? ==> res.error == BudgetExceeded
    {
      if target > bytes {
        var granted := budget.Charge(target - bytes);
        if !granted { return Err(BudgetExceeded); }
      }
      if target < bytes { budget.Release(bytes - target); }
      bytes := target;
      res := Ok(());
    }

    method Drop()
      requires bytes <= budget.charged
      modifies this, budget
      ensures bytes == 0 && budget.charged == old(budget.charged) - old(bytes)
    {
      budget.Release(bytes);
      bytes := 0;
    }
  }

  /** A scored row with its primary key and its retained size. */
  datatype Scored = Scored(score: int, key: Value, values: Row, bytes: nat)

  /** compare_key */
  function CompareKey(a: Value, b: Value): Ordering
  {
    match (a, b)
    case (Int64(x), Int64(y)) => CompareInt(x, y)
    case (String(x), String(y)) => CompareBytes(x, y)
    case (_, _) => Equal
  }

  /** Candidate::cmp, not greater: better score first, then smaller key. */
  predicate Better(a: Scored, b: Scored)
  {
    a.score > b.score || (a.score == b.score && CompareKey(a.key, b.key) != Greater)
  }

  /** A primary key column has one of the two key types. */
  datatype KeyType = IntegerKeys | StringKeys

  /** The order restricted to one key type, with everything else last. */
  function Ranked(t: KeyType): (Scored, Scored) -> bool
  {
    (a: Scored, b: Scored) => RankedAt(t, a, b)
  }

  predicate KeyRank(t: KeyType, key: Value)
  {
    match t case IntegerKeys => key.Int64? case StringKeys => key.String?
  }

  predicate RankedAt(t: KeyType, a: Scored, b: Scored)
  {
    if !KeyRank(t, b.key) then true
    else if !KeyRank(t, a.key) then false
    else Better(a, b)
  }

  lemma RankedIsOrder(t: KeyType)
    ensures IsOrder(Ranked(t))
  {
    forall a, b ensures RankedAt(t, a, b) || RankedAt(t, b, a) { KeysOrdered(a.key, b.key, b.key); }
    forall a, b, c | RankedAt(t, a, b) && RankedAt(t, b, c)
      ensures RankedAt(t, a, c)
    {
      KeysOrdered(a.key, b.key, c.key);
    }
  }

  lemma KeysOrdered(a: Value, b: Value, c: Value)
    ensures CompareKey(a, b) == Reverse(CompareKey(b, a))
    ensures (a.Int64? && b.Int64? && c.Int64?) || (a.String? && b.String? && c.String?) ==>
              (CompareKey(a, b) != Greater && CompareKey(b, c) != Greater ==> CompareKey(a, c) != Greater)
  {
    if a.String? && b.String? {
      CompareBytesLaws(a.text, b.text, if c.String? then c.text else []);
      CompareBytesLaws(b.text, a.text, []);
    }
  }

  // ----- the meaning -----

  /** How rows are scored and keyed; the scorer itself is not modelled. */
  datatype Ranking = Ranking(scorer: Row -> Result<Option<int>>, keyColumn: nat, keyType: KeyType, rowBytes: Row -> nat)

  /** One scored row, if it matches the query. */
  function Score(r: Ranking, row: Row): Result<Option<Scored>>
  {
    var score :- r.scorer(row);
    if score.None? then Ok(None)
    else if r.keyColumn >= |row| || !(row[r.keyColumn].Int64? || row[r.keyColumn].String?) then Err(InvalidArgument)
    else Ok(Some(Scored(score.value, row[r.keyColumn], row, r.rowBytes(row))))
  }

  function ScoreAt(r: Ranking): (Row, nat) -> Result<Option<Scored>> { (row: Row, order: nat) => Score(r, row) }

  function ScoredRows(r: Ranking, rows: seq<Row>): Result<seq<Scored>>
  {
    Gather(ScoreAt(r), rows)
  }

  /** The k best rows: score descending, then key ascending. */
  function Best(r: Ranking, rows: seq<Row>, k: nat): seq<Scored>
    requires ScoredRows(r, rows).Ok?
  {
    FirstK(Sorted(Ranked(r.keyType), ScoredRows(r, rows).value), k)
  }

  /** A scored row comes before another: a higher score, or the same score and a key
      that is not after the other's. */
  ghost predicate Outranks(a: Scored, score: int, key: Value)
  {
    a.score > score || (a.score == score && (a.key == key || Below(a.key, key)))
  }

  lemma BetterMeans(a: Scored, b: Scored)
    requires (a.key.Int64? && b.key.Int64?) || (a.key.String? && b.key.String?)
    ensures Better(a, b) <==> Outranks(a, b.score, b.key)
  {
    CompareOrderValuesMeans(a.key, b.key);
  }

  /** Row r matches the query with a score. */
  predicate Scores(r: Ranking, row: Row) { r.scorer(row).Ok? && r.scorer(row).value.Some? && r.keyColumn < |row| }

  /** The row with its score, key and size. */
  function ScoredRow(r: Ranking, row: Row): Scored
    requires Scores(r, row)
  {
    Scored(r.scorer(row).value.value, row[r.keyColumn], row, r.rowBytes(row))
  }

  /** `out` holds k matching rows, highest score first and equal scores by key; a
      matching row is missing only if k rows outrank it. */
  ghost predicate IsBest(r: Ranking, rows: seq<Row>, k: nat, out: seq<Scored>)
  {
    && |out| <= k
    && (forall i :: 0 <= i < |out| ==>
          out[i].values in rows && Scores(r, out[i].values) && out[i] == ScoredRow(r, out[i].values))
    && (forall i, j :: 0 <= i < j < |out| ==> Outranks(out[i], out[j].score, out[j].key))
    && (forall row :: row in rows && Scores(r, row) && ScoredRow(r, row) !in out ==>
          |out| == k && forall i :: 0 <= i < |out| ==>
            Outranks(out[i], r.scorer(row).value.value, row[r.keyColumn]))
  }

  lemma RankedMeans(r: Ranking, a: Scored, b: Scored)
    requires KeyRank(r.keyType, a.key) && KeyRank(r.keyType, b.key)
    ensures Ranked(r.keyType)(a, b) <==> Outranks(a, b.score, b.key)
  {
    BetterMeans(a, b);
  }

  /** What Best selects, in plain terms. */
  lemma BestMeans(r: Ranking, rows: seq<Row>, k: nat)
    requires ScoredRows(r, rows).Ok? && Keyed(r, rows)
    ensures IsBest(r, rows, k, Best(r, rows, k))
  {
    var all, out := ScoredRows(r, rows).value, Best(r, rows, k);
    RankedIsOrder(r.keyType);
    FirstKMeans(Ranked(r.keyType), all, k);
    GatherMembers(ScoreAt(r), rows);
    forall x | x in all
      ensures x.values in rows && Scores(r, x.values) && x == ScoredRow(r, x.values) && KeyRank(r.keyType, x.key)
    {
      var i: nat :| i < |rows| && ScoreAt(r)(rows[i], i) == Ok(Some(x));
    }
    forall i | 0 <= i < |out| ensures out[i] in all { assert out[i] in out; }
    forall i, j | 0 <= i < j < |out| ensures Outranks(out[i], out[j].score, out[j].key) {
      RankedMeans(r, out[i], out[j]);
    }
    forall row | row in rows && Scores(r, row) && ScoredRow(r, row) !in out
      ensures |out| == k
      ensures forall i :: 0 <= i < |out| ==> Outranks(out[i], r.scorer(row).value.value, row[r.keyColumn])
    {
      var n: nat :| n < |rows| && rows[n] == row;
      var x := ScoredRow(r, row);
      assert ScoreAt(r)(rows[n], n) == Ok(Some(x));
      forall i | 0 <= i < |out| ensures Outranks(out[i], x.score, x.key) { RankedMeans(r, out[i], x); }
    }
  }

  /** Every key of the column has the column's type. */
  ghost predicate Keyed(r: Ranking, rows: seq<Row>)
  {
    forall i :: 0 <= i < |rows| && r.keyColumn < |rows[i]| ==> KeyRank(r.keyType, rows[i][r.keyColumn])
  }

  lemma KeyedPart(r: Ranking, a: seq<Row>, b: seq<Row>, c: seq<Row>)
    requires Keyed(r, (a + b) + c)
    ensures Keyed(r, b)
  {
    var all := (a + b) + c;
    forall i | 0 <= i < |b| && r.keyColumn < |b[i]|
      ensures KeyRank(r.keyType, b[i][r.keyColumn])
    {
      assert all[|a| + i] == b[i];
    }
  }

  ghost predicate HeapKeyed(r: Ranking, heap: seq<Scored>)
  {
    forall i :: 0 <= i < |heap| ==> HasRank(r)(heap[i])
  }

  function BytesOf(x: Scored): nat { x.bytes }

  function HasRank(r: Ranking): Scored -> bool { (x: Scored) => KeyRank(r.keyType, x.key) }

  ghost function HeapSize(heap: seq<Scored>): nat { Weight(heap, BytesOf) }

  lemma InsertKeyed(r: Ranking, heap: seq<Scored>, x: Scored)
    requires HeapKeyed(r, heap) && KeyRank(r.keyType, x.key)
    ensures HeapKeyed(r, Insert(Ranked(r.keyType), heap, x))
    ensures HeapSize(Insert(Ranked(r.keyType), heap, x)) == HeapSize(heap) + x.bytes
  {
    InsertWeight(Ranked(r.keyType), heap, x, BytesOf);
    InsertAll(Ranked(r.keyType), heap, x, HasRank(r));
  }

  /** The rows can be scored, and a heap of them all could be reserved. */
  ghost predicate AllScorable(r: Ranking, rows: seq<Row>)
  {
    ScoredRows(r, rows).Ok? && 3 * HeapSize(ScoredRows(r, rows).value) <= USIZE_MAX
  }

  lemma {:induction false} ScorablePrefix(r: Ranking, a: seq<Row>, b: seq<Row>)
    requires AllScorable(r, a + b)
    ensures AllScorable(r, a)
    decreases |b|
  {
    if b == [] {
      assert a + b == a;
    } else {
      var n := |b| - 1;
      var all := a + b;
      assert all[..|all| - 1] == a + b[..n] && all[|all| - 1] == b[n];
      var front := ScoredRows(r, a + b[..n]).value;
      var found := ScoreAt(r)(b[n], |all| - 1).value;
      if found.Some? { WeightLast(front, found.value, BytesOf); }
      ScorablePrefix(r, a, b[..n]);
    }
  }

  function Reversed<T>(s: seq<T>): (r: seq<T>)
    ensures |r| == |s| && forall i :: 0 <= i < |s| ==> r[i] == s[|s| - 1 - i]
  {
    seq(|s|, i requires 0 <= i < |s| => s[|s| - 1 - i])
  }

  class TextScan {
    const ranking: Ranking
    const k: nat
    const budget: MemoryBudget
    /** The working set of retained rows, and the heap's own slots. */
    const rows: Reservation
    const slots: Reservation
    var retainedBytes: nat
    /** The ranked rows not yet emitted, worst first. */
    var pending: Option<seq<Scored>>

    ghost predicate Accounted()
      reads this, rows, slots, budget
    {
      rows != slots && rows.budget == budget && slots.budget == budget && rows.bytes + slots.bytes <= budget.charged
    }

    /** What the heap holds is what its reservation covers, three times. */
    ghost predicate Covers(heap: seq<Scored>)
      reads this, rows
    {
      |heap| <= k && HeapKeyed(ranking, heap) && retainedBytes == HeapSize(heap) && rows.bytes == 3 * retainedBytes
    }

    /** TextScan::new; the slots are reserved before anything is allocated. */
    constructor (ranking: Ranking, k: nat, rows: Reservation, slots: Reservation, budget: MemoryBudget)
      requires rows != slots && rows.budget == budget && slots.budget == budget && rows.bytes == 0
      requires slots.bytes <= budget.charged
      ensures Accounted() && pending.None? && retainedBytes == 0 && Covers([])
      ensures this.ranking == ranking && this.k == k && this.budget == budget && this.rows == rows
      ensures this.slots == slots
    {
      this.ranking, this.k, this.rows, this.slots, this.budget := ranking, k, rows, slots, budget;
      retainedBytes, pending := 0, None;
    }

    /** consider: keeps a scored row if it is among the k best so far. */
    method Consider(heap: seq<Scored>, x: Scored) returns (res: Result<()>, out: seq<Scored>)
      requires Accounted() && Covers(heap) && KeyRank(ranking.keyType, x.key)
      modifies this`retainedBytes, rows, budget
      ensures Accounted() && budget.charged - old(budget.charged) == rows.bytes - old(rows.bytes)
      ensures res.Ok? ==> out == HeapStep(Ranked(ranking.keyType), heap, k, x) && Covers(out)
      ensures res.Err? && 3 * (HeapSize(heap) + x.bytes) <= USIZE_MAX ==> res.error == BudgetExceeded
    {
      out := heap;
      if |heap| == k {
        if k == 0 { return Ok(()), out; }
        var worst := heap[k - 1];
        KeysOrdered(x.key, worst.key, x.key);
        if x.score < worst.score || (x.score == worst.score && CompareKey(x.key, worst.key) != Less) {
          return Ok(()), out;
        }
        out := heap[..k - 1];
        retainedBytes := retainedBytes - worst.bytes;
      }
      var total := retainedBytes + x.bytes;
      if 3 * total > USIZE_MAX { return Err(InvalidArgument), out; }
      res := rows.Resize(3 * total);
      if res.Err? { return; }
      InsertKeyed(ranking, out, x);
      out := Insert(Ranked(ranking.keyType), out, x);
      retainedBytes := total;
    }

    /** TextScan::initialize: scores every row and ranks the k best. */
    method Initialize(source: Source<Row>) returns (res: Result<()>)
      requires Accounted() && Covers([]) && Keyed(ranking, RowsOf(source))
      modifies this`retainedBytes, this`pending, rows, budget
      ensures Accounted() && budget.charged - old(budget.charged) == rows.bytes - old(rows.bytes)
      ensures res.Ok? ==> AllOk(source) && ScoredRows(ranking, RowsOf(source)).Ok?
      ensures res.Ok? ==> pending.Some? && Reversed(pending.value) == Best(ranking, RowsOf(source), k)
      ensures res.Ok? ==> Covers(Best(ranking, RowsOf(source), k))
      ensures res.Ok? ==> IsBest(ranking, RowsOf(source), k, Reversed(pending.value))
      ensures res.Err? && AllOk(source) && AllScorable(ranking, RowsOf(source)) ==> res.error == BudgetExceeded
    {
      var heap;
      res, heap := RankAll(source);
      if res.Err? { return; }
      BestMeans(ranking, RowsOf(source), k);
      assert Reversed(Reversed(heap)) == heap;
      pending := Some(Reversed(heap));
    }

    /** Scores every row, keeping the best k. */
    method RankAll(source: Source<Row>) returns (res: Result<()>, heap: seq<Scored>)
      requires Accounted() && Covers([]) && Keyed(ranking, RowsOf(source))
      modifies this`retainedBytes, rows, budget
      ensures Accounted() && budget.charged - old(budget.charged) == rows.bytes - old(rows.bytes)
      ensures res.Ok? ==> AllOk(source) && ScoredRows(ranking, RowsOf(source)).Ok?
      ensures res.Ok? ==> heap == Best(ranking, RowsOf(source), k) && Covers(heap)
      ensures res.Err? && AllOk(source) && AllScorable(ranking, RowsOf(source)) ==> res.error == BudgetExceeded
    {
      var rest := source;
      heap := [];
      ghost var done: seq<Row> := [];
      assert done + RowsOf(rest) == RowsOf(source);
      while rest != []
        invariant Accounted() && Covers(heap) && budget.charged - old(budget.charged) == rows.bytes - old(rows.bytes)
        invariant done + RowsOf(rest) == RowsOf(source) && (AllOk(source) <==> AllOk(rest))
        invariant ScoredRows(ranking, done).Ok? && heap == Best(ranking, done, k)
        decreases |rest|
      {
        var next := rest[0];
        RowsOfStep(rest);
        rest := rest[1..];
        if next.Err? { return Err(next.error), heap; }
        Assoc(done, next.value, RowsOf(rest));
        KeyedPart(ranking, done, next.value, RowsOf(rest));
        if AllScorable(ranking, RowsOf(source)) { ScorablePrefix(ranking, done + next.value, RowsOf(rest)); }
        res, heap := ScanChunk(next.value, heap, done);
        if res.Err? { return; }
        done := done + next.value;
      }
      assert done + [] == done;
      res := Ok(());
    }

    method ScanChunk(chunk: seq<Row>, heap: seq<Scored>, ghost done: seq<Row>)
      returns (res: Result<()>, out: seq<Scored>)
      requires Accounted() && Covers(heap) && Keyed(ranking, chunk)
      requires ScoredRows(ranking, done).Ok? && heap == Best(ranking, done, k)
      modifies this`retainedBytes, rows, budget
      ensures Accounted() && budget.charged - old(budget.charged) == rows.bytes - old(rows.bytes)
      ensures res.Ok? ==> Covers(out) && ScoredRows(ranking, done + chunk).Ok? && out == Best(ranking, done + chunk, k)
      ensures res.Err? && AllScorable(ranking, done + chunk) ==> res.error == BudgetExceeded
    {
      out := heap;
      assert done + chunk[..0] == done;
      for row := 0 to |chunk|
        invariant Accounted() && Covers(out) && budget.charged - old(budget.charged) == rows.bytes - old(rows.bytes)
        invariant ScoredRows(ranking, done + chunk[..row]).Ok? && out == Best(ranking, done + chunk[..row], k)
      {
        Grow(done, chunk, row);
        if AllScorable(ranking, done + chunk) {
          Assoc(done, chunk[..row + 1], chunk[row + 1..]);
          assert chunk[..row + 1] + chunk[row + 1..] == chunk;
          ScorablePrefix(ranking, done + chunk[..row + 1], chunk[row + 1..]);
        }
        res, out := ScanRow(chunk[row], out, done + chunk[..row]);
        if res.Err? { return; }
      }
      assert chunk[..|chunk|] == chunk;
      res := Ok(());
    }

    method ScanRow(row: Row, heap: seq<Scored>, ghost before: seq<Row>) returns (res: Result<()>, out: seq<Scored>)
      requires Accounted() && Covers(heap)
      requires ranking.keyColumn < |row| ==> KeyRank(ranking.keyType, row[ranking.keyColumn])
      requires ScoredRows(ranking, before).Ok? && heap == Best(ranking, before, k)
      modifies this`retainedBytes, rows, budget
      ensures Accounted() && budget.charged - old(budget.charged) == rows.bytes - old(rows.bytes)
      ensures res.Ok? ==>
                Covers(out) && ScoredRows(ranking, before + [row]).Ok? && out == Best(ranking, before + [row], k)
      ensures res.Err? && AllScorable(ranking, before + [row]) ==> res.error == BudgetExceeded
    {
      out := heap;
      assert (before + [row])[..|before|] == before;
      var scored := Score(ranking, row);
      if scored.Err? { return Err(scored.error), out; }
      GatherLast(ScoreAt(ranking), before, row);
      if scored.value.None? { return Ok(()), out; }
      RankedIsOrder(ranking.keyType);
      HeapHoldsFirstK(Ranked(ranking.keyType), ScoredRows(ranking, before).value, k, scored.value.value);
      FirstKWeight(Ranked(ranking.keyType), ScoredRows(ranking, before).value, k, BytesOf);
      WeightLast(ScoredRows(ranking, before).value, scored.value.value, BytesOf);
      res, out := Consider(out, scored.value.value);
    }

    /** next_chunk after initialization: one row per chunk, best first. */
    method NextRow() returns (row: Option<Scored>)
      requires pending.Some?
      modifies this`pending
      ensures pending.Some? && (row.None? <==> old(pending.value) == [])
      ensures Reversed(old(pending.value)) == (if row.Some? then [row.value] else []) + Reversed(pending.value)
    {
      var rest := pending.value;
      if rest == [] { return None; }
      row := Some(rest[|rest| - 1]);
      pending := Some(rest[..|rest| - 1]);
    }

    /** Dropping the scan drops both reservations. */
    method Drop()
      requires Accounted()
      modifies rows, slots, budget
      ensures budget.charged == old(budget.charged) - old(rows.bytes) - old(slots.bytes)
    {
      rows.Drop();
      slots.Drop();
    }
  }
}
