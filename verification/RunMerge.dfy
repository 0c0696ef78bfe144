/** The k-way merge over spill runs shared by SortMerge and AggregateMerge:
    run cursors that decode and charge their front rows. */
module RunMerge {
  import opened Values
  import opened StableOrder
  import opened MergeProgress
  import opened Budget

  /** How an operator's rows are framed into a run, read back, and charged. */
  datatype RunFormat<!T> = RunFormat(
    frame: T -> Result<seq<u8>>,
    read: seq<u8> -> Result<Option<(T, seq<u8>)>>,
    charge: T -> Result<nat>)

  ghost predicate ReadsBack<T>(format: RunFormat<T>, t: T)
  {
    forall rest {:trigger format.frame(t).value + rest} ::
      format.frame(t).Ok? ==> format.read(format.frame(t).value + rest) == Ok(Some((t, rest)))
  }

  ghost predicate Faithful<T>(format: RunFormat<T>, rows: seq<T>)
  {
    format.read([]) == Ok(None) && forall i :: 0 <= i < |rows| ==> ReadsBack(format, rows[i])
  }

  /** The bytes of a run holding `items`. */
  function FrameItems<T>(format: RunFormat<T>, items: seq<T>): Result<seq<u8>>
  {
    if items == [] then Ok([])
    else
      var head :- format.frame(items[0]);
      var tail :- FrameItems(format, items[1..]);
      Ok(head + tail)
  }

  datatype ChargedRunRow<T> = ChargedRunRow(row: T, bytes: nat)

  /** RunCursor: the unread bytes of one run and its decoded, charged front. */
  datatype RunCursor<T> = RunCursor(reader: seq<u8>, buffered: seq<ChargedRunRow<T>>, exhausted: bool)

  function BufferBytes<T>(buffered: seq<ChargedRunRow<T>>): nat
  {
    if buffered == [] then 0 else buffered[0].bytes + BufferBytes(buffered[1..])
  }

  function HeldBytes<T>(cursors: seq<RunCursor<T>>): nat
  {
    if cursors == [] then 0 else BufferBytes(cursors[0].buffered) + HeldBytes(cursors[1..])
  }

  lemma {:induction false} BufferAppend<T>(buffered: seq<ChargedRunRow<T>>, r: ChargedRunRow<T>)
    ensures BufferBytes(buffered + [r]) == BufferBytes(buffered) + r.bytes
  {
    if buffered != [] {
      BufferAppend(buffered[1..], r);
      assert (buffered + [r])[1..] == buffered[1..] + [r];
    }
  }

  lemma {:induction false} HeldUpdate<T>(cursors: seq<RunCursor<T>>, i: nat, c: RunCursor<T>)
    requires i < |cursors|
    ensures BufferBytes(cursors[i].buffered) <= HeldBytes(cursors)
    ensures HeldBytes(cursors[i := c]) ==
              HeldBytes(cursors) - BufferBytes(cursors[i].buffered) + BufferBytes(c.buffered)
  {
    if i == 0 {
      assert cursors[i := c][1..] == cursors[1..];
    } else {
      HeldUpdate(cursors[1..], i - 1, c);
      assert cursors[i := c][1..] == cursors[1..][i - 1 := c];
    }
  }

  lemma {:induction false} NothingHeld<T>(cursors: seq<RunCursor<T>>)
    requires forall r :: 0 <= r < |cursors| ==> cursors[r].buffered == []
    ensures HeldBytes(cursors) == 0
  {
    if cursors != [] { NothingHeld(cursors[1..]); }
  }

  /** What cursor `c` still has to deliver is `rows[from..to]`. */
  ghost predicate Delivers<T>(format: RunFormat<T>, c: RunCursor<T>, rows: seq<T>, from: nat, to: nat)
  {
    && from + |c.buffered| <= to <= |rows|
    && (forall k :: 0 <= k < |c.buffered| ==> c.buffered[k].row == rows[from + k])
    && FrameItems(format, rows[from + |c.buffered|..to]) == Ok(c.reader)
    && (c.exhausted ==> from + |c.buffered| == to)
  }

  /** Reads one row from a run known to hold `rows[at..to]`. */
  method ReadItem<T>(format: RunFormat<T>, reader: seq<u8>, ghost rows: seq<T>, ghost at: nat, ghost to: nat)
    returns (next: Option<(T, seq<u8>)>)
    requires at <= to <= |rows| && Faithful(format, rows) && FrameItems(format, rows[at..to]) == Ok(reader)
    ensures next.None? <==> at == to
    ensures next.Some? ==> next.value.0 == rows[at] && FrameItems(format, rows[at + 1..to]) == Ok(next.value.1)
  {
    ghost var items := rows[at..to];
    if at < to {
      assert ReadsBack(format, rows[at]) && items[0] == rows[at];
      assert items[1..] == rows[at + 1..to];
      assert reader == format.frame(rows[at]).value + FrameItems(format, items[1..]).value;
    }
    next := format.read(reader).value;
  }

  /** RunCursor::ensure_buffered: fills an empty buffer with up to `bufferRows`
      rows, each charged before it is kept. It can fail only on a charge; bytes
      the writer produced are never rejected. */
  method EnsureBuffered<T>(format: RunFormat<T>, budget: MemoryBudget, bufferRows: nat, c: RunCursor<T>,
                           ghost rows: seq<T>, ghost from: nat, ghost to: nat)
    returns (res: Result<()>, out: RunCursor<T>)
    requires Faithful(format, rows) && Delivers(format, c, rows, from, to) && bufferRows > 0
    modifies budget
    ensures Delivers(format, out, rows, from, to)
    ensures budget.charged - old(budget.charged) == BufferBytes(out.buffered) - BufferBytes(c.buffered)
    ensures res.Ok? ==> from == to || out.buffered != []
    ensures res.Err? ==>
              res.error == BudgetExceeded || exists i :: from <= i < to && format.charge(rows[i]) == Err(res.error)
  {
    out := c;
    if out.buffered != [] || out.exhausted { return Ok(()), out; }
    for i := 0 to bufferRows
      invariant Delivers(format, out, rows, from, to)
      invariant budget.charged - old(budget.charged) == BufferBytes(out.buffered) - BufferBytes(c.buffered)
      invariant i > 0 ==> from == to || out.buffered != []
      invariant !out.exhausted
    {
      var next := ReadItem(format, out.reader, rows, from + |out.buffered|, to);
      if next.None? {
        out := out.(exhausted := true);
        break;
      }
      var bytes := format.charge(next.value.0);
      if bytes.Err? { return Err(bytes.error), out; }
      var granted := budget.Charge(bytes.value);
      if !granted { return Err(BudgetExceeded), out; }
      AppendDelivers(format, out, rows, from, to, next.value.1, bytes.value);
      out := out.(reader := next.value.1, buffered := out.buffered + [ChargedRunRow(next.value.0, bytes.value)]);
    }
    res := Ok(());
  }

  lemma AppendDelivers<T>(format: RunFormat<T>, c: RunCursor<T>, rows: seq<T>, from: nat, to: nat, reader: seq<u8>,
                          bytes: nat)
    requires Delivers(format, c, rows, from, to) && !c.exhausted && from + |c.buffered| < to
    requires FrameItems(format, rows[from + |c.buffered| + 1..to]) == Ok(reader)
    ensures var kept := ChargedRunRow(rows[from + |c.buffered|], bytes);
            && Delivers(format, c.(reader := reader, buffered := c.buffered + [kept]), rows, from, to)
            && BufferBytes(c.buffered + [kept]) == BufferBytes(c.buffered) + bytes
  {
    var kept := ChargedRunRow(rows[from + |c.buffered|], bytes);
    BufferAppend(c.buffered, kept);
    assert from + |c.buffered + [kept]| == from + |c.buffered| + 1;
  }

  /** `file` is run r of the runs laid end to end. */
  ghost predicate HoldsRun<T>(format: RunFormat<T>, file: seq<u8>, rows: seq<T>, bounds: seq<nat>, r: nat)
    requires r + 1 < |bounds|
  {
    bounds[r] <= RunEnd(bounds, r) <= |rows| && FrameItems(format, rows[bounds[r]..RunEnd(bounds, r)]) == Ok(file)
  }

  ghost predicate AllHold<T>(format: RunFormat<T>, files: seq<seq<u8>>, rows: seq<T>, bounds: seq<nat>)
  {
    |bounds| == |files| + 1 && forall r :: 0 <= r < |files| ==> HoldsRun(format, files[r], rows, bounds, r)
  }

  /** One more run file after the others. */
  lemma HoldsMore<T>(format: RunFormat<T>, files: seq<seq<u8>>, rows: seq<T>, bounds: seq<nat>, tail: seq<T>,
                     file: seq<u8>)
    requires IsCut(bounds, |rows|) && AllHold(format, files, rows, bounds) && FrameItems(format, tail) == Ok(file)
    ensures AllHold(format, files + [file], rows + tail, bounds + [|rows| + |tail|])
  {
    var cut := bounds + [|rows| + |tail|];
    forall r | 0 <= r < |files| + 1 ensures HoldsRun(format, (files + [file])[r], rows + tail, cut, r) {
      if r < |files| {
        assert HoldsRun(format, files[r], rows, bounds, r);
        assert cut[r] == bounds[r] && RunEnd(cut, r) == RunEnd(bounds, r);
        assert (rows + tail)[bounds[r]..RunEnd(bounds, r)] == rows[bounds[r]..RunEnd(bounds, r)];
      } else {
        assert cut[r] == |rows| && RunEnd(cut, r) == |rows + tail|;
        assert (rows + tail)[|rows|..|rows + tail|] == tail;
      }
    }
  }

  /** The files hold ascending runs of the rows laid end to end. */
  ghost predicate RunsHeld<T>(spec: Comparator<T>, format: RunFormat<T>, files: seq<seq<u8>>, rows: seq<T>,
                              bounds: seq<nat>)
  {
    RunsAscending(spec, rows, bounds) && AllHold(format, files, rows, bounds)
  }

  lemma AscendingMore<T>(spec: Comparator<T>, rows: seq<T>, bounds: seq<nat>, run: seq<T>)
    requires RunsAscending(spec, rows, bounds)
    requires forall p, q :: 0 <= p < q < |run| ==> AtMost(spec(run[p], run[q]))
    ensures RunsAscending(spec, rows + run, bounds + [|rows| + |run|])
  {
    var all, cut := rows + run, bounds + [|rows| + |run|];
    forall r, p, q | 0 <= r < |cut| - 1 && InRun(cut, r, p) && InRun(cut, r, q) && p < q
      ensures p < |all| && q < |all| && Before(spec, all, p, q)
    {
      if r < |bounds| - 1 {
        AppendRunCase(bounds, |rows|, |run|, r, p);
        AppendRunCase(bounds, |rows|, |run|, r, q);
        assert Before(spec, rows, p, q);
      } else {
        assert AtMost(spec(run[p - |rows|], run[q - |rows|]));
      }
    }
  }

  lemma RunsHeldMore<T>(spec: Comparator<T>, format: RunFormat<T>, files: seq<seq<u8>>, rows: seq<T>, bounds: seq<nat>,
                        run: seq<T>, file: seq<u8>)
    requires RunsHeld(spec, format, files, rows, bounds) && FrameItems(format, run) == Ok(file)
    requires forall p, q :: 0 <= p < q < |run| ==> AtMost(spec(run[p], run[q]))
    ensures RunsHeld(spec, format, files + [file], rows + run, bounds + [|rows| + |run|])
  {
    AscendingMore(spec, rows, bounds, run);
    HoldsMore(format, files, rows, bounds, run, file);
  }

  /** Every cursor delivers what its run has left. */
  ghost predicate AllDeliver<T>(format: RunFormat<T>, cursors: seq<RunCursor<T>>, g: Progress<T>)
  {
    && |cursors| == |g.next| && g.Shape()
    && forall r :: 0 <= r < |cursors| ==> Delivers(format, cursors[r], g.rows, g.next[r], RunEnd(g.bounds, r))
  }

  lemma StartDelivers<T>(format: RunFormat<T>, cursors: seq<RunCursor<T>>, files: seq<seq<u8>>, rows: seq<T>,
                         bounds: seq<nat>)
    requires |cursors| == |files| && |bounds| == |files| + 1 && IsCut(bounds, |rows|)
    requires forall r :: 0 <= r < |files| ==> HoldsRun(format, files[r], rows, bounds, r)
    requires forall r :: 0 <= r < |files| ==> cursors[r] == RunCursor(files[r], [], false)
    ensures AllDeliver(format, cursors, Start(rows, bounds))
  {
    forall r | 0 <= r < |cursors| ensures Delivers(format, cursors[r], rows, bounds[r], RunEnd(bounds, r)) {
      assert HoldsRun(format, files[r], rows, bounds, r);
    }
  }

  lemma PopDelivers<T>(format: RunFormat<T>, c: RunCursor<T>, rows: seq<T>, from: nat, to: nat)
    requires Delivers(format, c, rows, from, to) && c.buffered != []
    ensures c.buffered[0].row == rows[from]
    ensures Delivers(format, c.(buffered := c.buffered[1..]), rows, from + 1, to)
  {
    var popped := c.buffered[1..];
    assert c.buffered[0].row == rows[from + 0];
    forall k | 0 <= k < |popped| ensures popped[k].row == rows[from + 1 + k] {
      assert popped[k] == c.buffered[k + 1] && c.buffered[k + 1].row == rows[from + (k + 1)];
    }
    assert from + 1 + |popped| == from + |c.buffered|;
  }

  lemma AdvanceDelivers<T>(format: RunFormat<T>, cursors: seq<RunCursor<T>>, g: Progress<T>, r: nat)
    requires AllDeliver(format, cursors, g) && r < |cursors| && cursors[r].buffered != []
    ensures cursors[r].buffered[0].row == g.rows[g.next[r]]
    ensures AllDeliver(format, cursors[r := cursors[r].(buffered := cursors[r].buffered[1..])], g.Advance(r))
  {
    PopDelivers(format, cursors[r], g.rows, g.next[r], RunEnd(g.bounds, r));
    var popped, h := cursors[r].(buffered := cursors[r].buffered[1..]), g.Advance(r);
    var cs := cursors[r := popped];
    assert h.Shape();
    forall s | 0 <= s < |cs| ensures Delivers(format, cs[s], h.rows, h.next[s], RunEnd(h.bounds, s)) {
      if s != r {
        assert Delivers(format, cursors[s], g.rows, g.next[s], RunEnd(g.bounds, s));
        assert cs[s] == cursors[s] && h.next[s] == g.next[s];
      } else {
        assert cs[s] == popped && h.next[s] == g.next[r] + 1 && h.rows == g.rows;
      }
    }
  }

  lemma UpdateDelivers<T>(format: RunFormat<T>, cursors: seq<RunCursor<T>>, g: Progress<T>, r: nat, c: RunCursor<T>)
    requires AllDeliver(format, cursors, g) && r < |cursors|
    requires Delivers(format, c, g.rows, g.next[r], RunEnd(g.bounds, r))
    ensures AllDeliver(format, cursors[r := c], g)
  {
    var cs := cursors[r := c];
    forall s | 0 <= s < |cs| ensures Delivers(format, cs[s], g.rows, g.next[s], RunEnd(g.bounds, s)) {
      if s != r { assert cs[s] == cursors[s]; }
    }
  }

  ghost predicate ExtendsAt<T>(cmp: Comparator<T>, spec: Comparator<T>, a: T, b: T)
  {
    (cmp(a, b).Ok? <==> cmp(b, a).Ok?) && (cmp(a, b).Ok? ==> spec(a, b) == cmp(a, b))
  }

  /** The order the rows are meant to have agrees with every comparison that
      succeeds. */
  ghost predicate Extends<T>(cmp: Comparator<T>, spec: Comparator<T>, rows: seq<T>)
  {
    forall i, j {:trigger ExtendsAt(cmp, spec, rows[i], rows[j])} ::
      0 <= i < |rows| && 0 <= j < |rows| ==> ExtendsAt(cmp, spec, rows[i], rows[j])
  }

  lemma ExtendsItself<T>(cmp: Comparator<T>, rows: seq<T>)
    requires Lawful(cmp, rows)
    ensures Extends(cmp, cmp, rows)
  {
    forall i, j | 0 <= i < |rows| && 0 <= j < |rows| ensures ExtendsAt(cmp, cmp, rows[i], rows[j]) {
      assert LawfulAt(cmp, rows[i], rows[j], rows[i]);
    }
  }

  /** Comparing two fronts decides which of them comes first; ties favour the earlier run. */
  lemma FrontsCompared<T>(cmp: Comparator<T>, spec: Comparator<T>, format: RunFormat<T>, cursors: seq<RunCursor<T>>,
                          g: Progress<T>, best: nat, index: nat)
    requires g.Sound(spec) && Extends(cmp, spec, g.rows) && AllDeliver(format, cursors, g) && best < index < |cursors|
    requires cursors[best].buffered != [] && cursors[index].buffered != []
    ensures var o := cmp(cursors[index].buffered[0].row, cursors[best].buffered[0].row);
            && (o.Ok? ==> if o.value == Less then g.FrontFirst(spec, index, best) else g.FrontFirst(spec, best, index))
            && (AllComparable(cmp, g.rows) ==> o.Ok?)
  {
    PopDelivers(format, cursors[best], g.rows, g.next[best], RunEnd(g.bounds, best));
    PopDelivers(format, cursors[index], g.rows, g.next[index], RunEnd(g.bounds, index));
    RunInside(g.bounds, |g.rows|, index);
    var b, c := g.next[best], g.next[index];
    assert b < g.bounds[best + 1] <= g.bounds[index] <= c;
    assert LawfulAt(spec, g.rows[c], g.rows[b], g.rows[c]);
    assert ExtendsAt(cmp, spec, g.rows[c], g.rows[b]);
  }

  /** Every run that has something left shows its front. */
  ghost predicate FrontsShown<T>(cursors: seq<RunCursor<T>>, g: Progress<T>)
    requires |cursors| == |g.next| && g.Shape()
  {
    forall r :: 0 <= r < |cursors| ==> g.next[r] == RunEnd(g.bounds, r) || cursors[r].buffered != []
  }

  /** The best front among the first n runs, or that none of them has one. */
  ghost predicate BestOf<T>(spec: Comparator<T>, g: Progress<T>, best: Option<nat>, n: nat)
    requires g.Shape() && n <= |g.next|
  {
    match best
    case None => forall s :: 0 <= s < n ==> g.next[s] == RunEnd(g.bounds, s)
    case Some(b) => b < n && forall s :: 0 <= s < n ==> g.FrontFirst(spec, b, s)
  }

  lemma FirstFront<T>(spec: Comparator<T>, format: RunFormat<T>, cursors: seq<RunCursor<T>>, g: Progress<T>, index: nat)
    requires g.Sound(spec) && AllDeliver(format, cursors, g) && index < |cursors| && cursors[index].buffered != []
    requires BestOf(spec, g, None, index)
    ensures BestOf(spec, g, Some(index), index + 1)
  {
    PopDelivers(format, cursors[index], g.rows, g.next[index], RunEnd(g.bounds, index));
  }

  lemma SmallerFronts<T>(spec: Comparator<T>, g: Progress<T>, best: nat, index: nat)
    requires g.Sound(spec) && best < index < |g.next| && g.FrontFirst(spec, index, best)
    requires BestOf(spec, g, Some(best), index)
    ensures BestOf(spec, g, Some(index), index + 1)
  {
    forall s | 0 <= s < index + 1 ensures g.FrontFirst(spec, index, s) {
      if s < index { SmallerFront(spec, g, best, index, s); }
    }
  }

  lemma NoFront<T>(spec: Comparator<T>, cursors: seq<RunCursor<T>>, g: Progress<T>, best: Option<nat>, index: nat)
    requires g.Shape() && index < |g.next| == |cursors| && BestOf(spec, g, best, index)
    requires FrontsShown(cursors, g) && cursors[index].buffered == []
    ensures BestOf(spec, g, best, index + 1)
  {
    assert g.next[index] == RunEnd(g.bounds, index);
    if best.Some? {
      assert g.FrontFirst(spec, best.value, best.value);
      assert g.FrontFirst(spec, best.value, index);
    }
  }

  /** One step of best_cursor's scan. Ties go to the lowest run, because a later
      front replaces the best only when smaller. */
  function ScanStep<T>(cmp: Comparator<T>, cursors: seq<RunCursor<T>>, best: Option<nat>, index: nat)
    : Result<Option<nat>>
    requires index < |cursors| && (best.Some? ==> best.value < |cursors| && cursors[best.value].buffered != [])
  {
    if cursors[index].buffered == [] then Ok(best)
    else if best.None? then Ok(Some(index))
    else
      var order :- cmp(cursors[index].buffered[0].row, cursors[best.value].buffered[0].row);
      Ok(if order == Less then Some(index) else best)
  }

  function ScanTo<T>(cmp: Comparator<T>, cursors: seq<RunCursor<T>>, n: nat): (r: Result<Option<nat>>)
    requires n <= |cursors|
    ensures r.Ok? && r.value.Some? ==> r.value.value < n && cursors[r.value.value].buffered != []
  {
    if n == 0 then Ok(None)
    else
      var best :- ScanTo(cmp, cursors, n - 1);
      ScanStep(cmp, cursors, best, n - 1)
  }

  lemma ScanStepBest<T>(cmp: Comparator<T>, spec: Comparator<T>, format: RunFormat<T>, cursors: seq<RunCursor<T>>,
                        g: Progress<T>, best: Option<nat>, index: nat)
    requires g.Sound(spec) && Extends(cmp, spec, g.rows) && AllDeliver(format, cursors, g) && FrontsShown(cursors, g)
    requires index < |cursors| && (best.Some? ==> best.value < index && cursors[best.value].buffered != [])
    requires BestOf(spec, g, best, index)
    ensures ScanStep(cmp, cursors, best, index).Ok? ==>
              BestOf(spec, g, ScanStep(cmp, cursors, best, index).value, index + 1)
    ensures AllComparable(cmp, g.rows) ==> ScanStep(cmp, cursors, best, index).Ok?
  {
    if cursors[index].buffered == [] {
      NoFront(spec, cursors, g, best, index);
    } else if best.None? {
      FirstFront(spec, format, cursors, g, index);
    } else {
      FrontsCompared(cmp, spec, format, cursors, g, best.value, index);
      if g.FrontFirst(spec, index, best.value) { SmallerFronts(spec, g, best.value, index); }
    }
  }

  lemma {:induction false} ScanFindsBest<T>(cmp: Comparator<T>, spec: Comparator<T>, format: RunFormat<T>,
                                            cursors: seq<RunCursor<T>>, g: Progress<T>, n: nat)
    requires g.Sound(spec) && Extends(cmp, spec, g.rows) && AllDeliver(format, cursors, g) && FrontsShown(cursors, g)
    requires n <= |cursors|
    ensures ScanTo(cmp, cursors, n).Ok? ==> BestOf(spec, g, ScanTo(cmp, cursors, n).value, n)
    ensures AllComparable(cmp, g.rows) ==> ScanTo(cmp, cursors, n).Ok?
    decreases n
  {
    if n > 0 {
      ScanFindsBest(cmp, spec, format, cursors, g, n - 1);
      var before := ScanTo(cmp, cursors, n - 1);
      if before.Ok? {
        assert ScanTo(cmp, cursors, n) == ScanStep(cmp, cursors, before.value, n - 1);
        ScanStepBest(cmp, spec, format, cursors, g, before.value, n - 1);
      }
    }
  }

  /** The scan of best_cursor over the fronts. */
  method ScanFronts<T>(cmp: Comparator<T>, cursors: seq<RunCursor<T>>) returns (res: Result<Option<nat>>)
    ensures res == ScanTo(cmp, cursors, |cursors|)
  {
    var best: Option<nat> := None;
    for index := 0 to |cursors|
      invariant ScanTo(cmp, cursors, index) == Ok(best)
    {
      var next := ScanStep(cmp, cursors, best, index);
      if next.Err? {
        ScanFails(cmp, cursors, index + 1, |cursors|);
        return Err(next.error);
      }
      best := next.value;
    }
    res := Ok(best);
  }

  lemma {:induction false} ScanFails<T>(cmp: Comparator<T>, cursors: seq<RunCursor<T>>, m: nat, n: nat)
    requires m <= n <= |cursors| && ScanTo(cmp, cursors, m).Err?
    ensures ScanTo(cmp, cursors, n) == ScanTo(cmp, cursors, m)
    decreases n
  {
    if m < n { ScanFails(cmp, cursors, m, n - 1); }
  }

  /** The merge state of SortMerge and AggregateMerge. */
  class RunMerger<T> {
    const cmp: Comparator<T>
    /** The order of the emitted rows; it answers whenever `cmp` does. */
    ghost const spec: Comparator<T>
    const format: RunFormat<T>
    const budget: MemoryBudget
    const bufferRows: nat
    var cursors: seq<RunCursor<T>>
    /** What the runs hold and which positions have been emitted. */
    ghost var progress: Progress<T>

    ghost predicate Valid()
      reads this, budget
    {
      && progress.Sound(spec) && Extends(cmp, spec, progress.rows) && Faithful(format, progress.rows) && bufferRows > 0
      && AllDeliver(format, cursors, progress) && HeldBytes(cursors) <= budget.charged
    }

    /** SortMerge::new and AggregateMerge::new: one cursor per run file. */
    constructor (cmp: Comparator<T>, ghost spec: Comparator<T>, format: RunFormat<T>, budget: MemoryBudget,
                 files: seq<seq<u8>>,
                 ghost rows: seq<T>, ghost bounds: seq<nat>)
      requires Lawful(spec, rows) && Extends(cmp, spec, rows) && Faithful(format, rows)
      requires |bounds| == |files| + 1 && RunsAscending(spec, rows, bounds)
      requires forall r :: 0 <= r < |files| ==> HoldsRun(format, files[r], rows, bounds, r)
      ensures Valid() && progress == Start(rows, bounds) && HeldBytes(cursors) == 0
      ensures this.cmp == cmp && this.spec == spec && this.format == format && this.budget == budget
    {
      this.cmp, this.spec, this.format, this.budget := cmp, spec, format, budget;
      bufferRows := 1;
      cursors := seq(|files|, r requires 0 <= r < |files| => RunCursor(files[r], [], false));
      progress := Start(rows, bounds);
      new;
      StartSound(spec, rows, bounds);
      NothingHeld(cursors);
      StartDelivers(format, cursors, files, rows, bounds);
    }

    method FillAll() returns (res: Result<()>)
      requires Valid()
      modifies this`cursors, budget
      ensures Valid()
      ensures budget.charged - old(budget.charged) == HeldBytes(cursors) - old(HeldBytes(cursors))
      ensures res.Ok? ==> FrontsShown(cursors, progress)
      ensures res.Err? ==> ChargeFailed(res.error)
    {
      var count := |cursors|;
      for r := 0 to count
        invariant Valid() && |cursors| == count
        invariant budget.charged - old(budget.charged) == HeldBytes(cursors) - old(HeldBytes(cursors))
        invariant forall s :: 0 <= s < r ==>
                    progress.next[s] == RunEnd(progress.bounds, s) || cursors[s].buffered != []
      {
        RunInside(progress.bounds, |progress.rows|, r);
        var filled, cursor := EnsureBuffered(format, budget, bufferRows, cursors[r],
                                             progress.rows, progress.next[r], RunEnd(progress.bounds, r));
        HeldUpdate(cursors, r, cursor);
        UpdateDelivers(format, cursors, progress, r, cursor);
        cursors := cursors[r := cursor];
        if filled.Err? { return filled; }
      }
      res := Ok(());
    }

    /** The failure came from charging some row of the runs. */
    ghost predicate ChargeFailed(e: Error)
      reads this
    {
      e == BudgetExceeded ||
      exists i :: 0 <= i < |progress.rows| && format.charge(progress.rows[i]) == Err(e)
    }

    /** best_cursor: the run whose front must be emitted next. */
    method BestCursor() returns (res: Result<Option<nat>>)
      requires Valid()
      modifies this`cursors, budget
      ensures Valid()
      ensures budget.charged - old(budget.charged) == HeldBytes(cursors) - old(HeldBytes(cursors))
      ensures res.Ok? && res.value.Some? ==>
                && res.value.value < |cursors| && cursors[res.value.value].buffered != []
                && progress.IsNext(spec, res.value.value)
      ensures res == Ok(None) ==> IsStableOrder(spec, progress.rows, progress.emitted)
      ensures res == Ok(None) ==>
                forall s :: 0 <= s < |progress.next| ==> progress.next[s] == RunEnd(progress.bounds, s)
      ensures AllComparable(cmp, progress.rows) && res.Err? ==> ChargeFailed(res.error)
    {
      var filled := FillAll();
      if filled.Err? { return Err(filled.error); }
      res := ScanFronts(cmp, cursors);
      ScanFindsBest(cmp, spec, format, cursors, progress, |cursors|);
      if res.Ok? {
        if res.value.Some? {
          FrontIsNext(spec, progress, res.value.value);
        } else {
          AllEmitted(spec, progress);
        }
      }
    }

    /** RunCursor::pop_front on the chosen run: emits its front and gives its
        charge back. */
    method PopFront(r: nat) returns (row: T)
      requires Valid() && r < |cursors| && cursors[r].buffered != [] && progress.IsNext(spec, r)
      modifies this`cursors, this`progress, budget
      ensures Valid() && progress == old(progress.Advance(r))
      ensures row == progress.rows[old(progress.next[r])] == old(cursors[r].buffered[0].row)
      ensures budget.charged - old(budget.charged) == HeldBytes(cursors) - old(HeldBytes(cursors))
    {
      var cursor := cursors[r];
      var front := cursor.buffered[0];
      var popped := cursor.(buffered := cursor.buffered[1..]);
      HeldUpdate(cursors, r, popped);
      AdvanceSound(spec, progress, r);
      AdvanceDelivers(format, cursors, progress, r);
      budget.Release(front.bytes);
      row := front.row;
      cursors := cursors[r := popped];
      progress := progress.Advance(r);
    }

    /** take_next_row: the next row in stable order, or None when every run is
        exhausted. */
    method TakeNext() returns (res: Result<Option<T>>)
      requires Valid()
      modifies this`cursors, this`progress, budget
      ensures Valid() && progress.rows == old(progress.rows)
      ensures budget.charged - old(budget.charged) == HeldBytes(cursors) - old(HeldBytes(cursors))
      ensures res.Ok? && res.value.Some? ==>
                Permute(progress.rows, progress.emitted) ==
                  old(Permute(progress.rows, progress.emitted)) + [res.value.value]
      ensures res.Err? || res.value.None? ==> progress == old(progress)
      ensures res == Ok(None) ==> IsStableOrder(spec, progress.rows, progress.emitted)
      ensures AllComparable(cmp, progress.rows) && res.Err? ==> ChargeFailed(res.error)
    {
      var best := BestCursor();
      if best.Err? { return Err(best.error); }
      if best.value.None? { return Ok(None); }
      PermuteAppend(progress.rows, progress.emitted, progress.next[best.value.value]);
      var row := PopFront(best.value.value);
      res := Ok(Some(row));
    }

    /** Dropping the merge releases every buffered row. */
    method Drop()
      requires HeldBytes(cursors) <= budget.charged
      modifies this`cursors, budget
      ensures cursors == [] && budget.charged == old(budget.charged) - old(HeldBytes(cursors))
    {
      budget.Release(HeldBytes(cursors));
      cursors := [];
    }
  }
}
