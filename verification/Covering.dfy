/** The disc covering compiler: a disc becomes atom-key ranges that need no
    re-check plus boundary cells that do. Distances are exact reals. */
module Covering {
  import opened Values
  import opened Octal
  import opened CellIndex
  import opened Ranges

  const MAX_CENTER_TO_BOUNDARY_M: seq<real> := [
    1800000.0, 690000.0, 262000.0, 99000.0, 37500.0, 14200.0, 5400.0, 2050.0,
    770.0, 290.0, 110.0, 42.0, 16.0, 6.0, 2.3, 0.85]
  const FULL_CONTAINMENT_EPSILON_M := 0.000001
  const DEFAULT_CELL_INDEX := 0x0800_1fff_ffff_ffff

  /** The sphere as the compiler sees it: the atom of a point, the center of a
      cell and the great-circle distance. */
  datatype Globe<!P> = Globe(atomOf: P -> u64, centerOf: Cell -> P, distance: (P, P) -> real)

  datatype Disc<P> = Disc(center: P, radius: real, resolution: nat)

  function CenterDistance<P>(globe: Globe<P>, disc: Disc<P>, c: Cell): real
  {
    globe.distance(disc.center, globe.centerOf(c))
  }

  predicate IsFull<P>(globe: Globe<P>, disc: Disc<P>, c: Cell)
    requires |c.digits| <= MAX_RESOLUTION
  {
    CenterDistance(globe, disc, c) + MAX_CENTER_TO_BOUNDARY_M[|c.digits|] + FULL_CONTAINMENT_EPSILON_M <= disc.radius
  }

  predicate IsOutside<P>(globe: Globe<P>, disc: Disc<P>, c: Cell)
    requires |c.digits| <= MAX_RESOLUTION
  {
    CenterDistance(globe, disc, c) - MAX_CENTER_TO_BOUNDARY_M[|c.digits|] > disc.radius
  }

  datatype Verdict = Full | Outside | Boundary

  /** How refinement settles the descendants of `a`, walking from level r: at
      the first full or outside ancestor, else at the disc's resolution. */
  ghost function Walk<P>(globe: Globe<P>, disc: Disc<P>, a: Cell, r: nat): Verdict
    requires r <= disc.resolution <= |a.digits| && disc.resolution <= MAX_RESOLUTION
    decreases disc.resolution - r
  {
    var c := Truncated(a, r);
    if IsFull(globe, disc, c) then Full
    else if IsOutside(globe, disc, c) then Outside
    else if r == disc.resolution then Boundary
    else Walk(globe, disc, a, r + 1)
  }

  /** The walk looks only at the digits down to the disc's resolution. */
  lemma {:induction false} WalkPrefix<P>(globe: Globe<P>, disc: Disc<P>, a: Cell, b: Cell, r: nat)
    requires r <= disc.resolution <= MAX_RESOLUTION
    requires disc.resolution <= |a.digits| && disc.resolution <= |b.digits|
    requires Truncated(a, disc.resolution) == Truncated(b, disc.resolution)
    ensures Walk(globe, disc, a, r) == Walk(globe, disc, b, r)
    decreases disc.resolution - r
  {
    assert a.digits[..r] == a.digits[..disc.resolution][..r] && b.digits[..r] == b.digits[..disc.resolution][..r];
    if r < disc.resolution { WalkPrefix(globe, disc, a, b, r + 1); }
  }

  // ----- what a refinement adds -----

  /** Atom `a` lies under `c` and its walk from there has the given verdict. */
  ghost predicate Settles<P>(globe: Globe<P>, disc: Disc<P>, c: Cell, a: Cell, verdict: Verdict)
    requires |c.digits| <= disc.resolution <= MAX_RESOLUTION
  {
    Under(a, c) && disc.resolution <= |a.digits| && Walk(globe, disc, a, |c.digits|) == verdict
  }

  ghost predicate IsBoundaryOf<P>(globe: Globe<P>, disc: Disc<P>, c: Cell, t: nat)
    requires |c.digits| <= disc.resolution <= MAX_RESOLUTION
  {
    IsIndex(t) && |CellOf(t).digits| == disc.resolution && Settles(globe, disc, c, CellOf(t), Boundary)
  }

  /** A child settles what its parent settles below it. */
  lemma ChildSettles<P>(globe: Globe<P>, disc: Disc<P>, c: Cell, d: Digit, a: Cell, verdict: Verdict)
    requires |c.digits| < disc.resolution <= MAX_RESOLUTION
    requires !IsFull(globe, disc, c) && !IsOutside(globe, disc, c)
    ensures Settles(globe, disc, Cell(c.base, c.digits + [d]), a, verdict) <==>
            Settles(globe, disc, c, a, verdict) && a.digits[|c.digits|] == d
  {
    var n, child := |c.digits|, Cell(c.base, c.digits + [d]);
    if disc.resolution <= |a.digits| {
      assert Under(a, child) <==> Under(a, c) && a.digits[n] == d by {
        assert c.digits + [d] <= a.digits ==> c.digits <= a.digits && a.digits[n] == d;
        assert c.digits <= a.digits && a.digits[n] == d ==> a.digits[..n + 1] == c.digits + [d];
      }
      if Under(a, c) { assert Truncated(a, n) == c; }
    }
  }

  /** No valid cell descends from the deleted digit of a pentagon. */
  lemma NothingUnderDeletedDigit(c: Cell, a: Cell)
    requires IsCell(c) && IsCell(a) && IsPentagonCell(c) && |c.digits| < |a.digits| && Under(a, c)
    ensures a.digits[|c.digits|] != 1
  {
    var n := |c.digits|;
    TruncatedIsCell(a, n + 1);
    assert a.digits[..n + 1] == c.digits + [a.digits[n]];
    ChildIsCell(c, a.digits[n]);
  }

  lemma AtomRangeProper(c: Cell)
    requires IsCell(c)
    ensures LowestAtom(c) <= HighestAtom(c) < 0x1_0000_0000_0000_0000
  {
    var h, n := Header(15, c.base), |c.digits|;
    WordMonotone(h, c.digits + Fill(15 - n, 0), c.digits + Fill(15 - n, 6));
    Scale15();
    WordBound(h, c.digits + Fill(15 - n, 6), 0x2000_0000_0000);
  }

  lemma CoversRange(rs: seq<Range>, c: Cell, a: Cell)
    requires IsCell(c) && IsAtom(a) && LowestAtom(c) <= HighestAtom(c) < 0x1_0000_0000_0000_0000
    ensures Covers(rs + [Range(LowestAtom(c), HighestAtom(c))], Spell(a)) <==> Covers(rs, Spell(a)) || Under(a, c)
  {
    CoversAppend(rs, Range(LowestAtom(c), HighestAtom(c)), Spell(a));
    AtomRangeExact(c, a);
  }

  /** The two vectors that refinement pushes into. */
  class CoverBuilder<P> {
    const globe: Globe<P>
    const disc: Disc<P>
    var full: seq<Range>
    var boundary: seq<u64>

    constructor (globe: Globe<P>, disc: Disc<P>)
      ensures this.globe == globe && this.disc == disc && full == [] && boundary == []
    {
      this.globe, this.disc, full, boundary := globe, disc, [], [];
    }

    /** What refining `c` adds: exactly the atoms that the walk from there
        settles as full, and exactly the cells it leaves on the boundary. */
    twostate predicate Refined(c: Cell)
      requires |c.digits| <= disc.resolution <= MAX_RESOLUTION
      reads this
    {
      && Proper(full)
      && (forall a :: IsAtom(a) ==>
            (Covers(full, Spell(a)) <==> Covers(old(full), Spell(a)) || Settles(globe, disc, c, a, Full)))
      && (forall t :: t in boundary <==> t in old(boundary) || IsBoundaryOf(globe, disc, c, t))
    }

    /** refine_cell */
    method RefineCell(raw: u64) returns (r: Result<()>)
      requires IsIndex(raw) && Resolution(raw) <= disc.resolution <= MAX_RESOLUTION && Proper(full)
      modifies this
      ensures r.Ok? && Refined(CellOf(raw))
      decreases disc.resolution - Resolution(raw), 1
    {
      ValidIffIndex(raw);
      ghost var c := CellOf(raw);
      forall a ensures Under(a, c) ==> Truncated(a, |c.digits|) == c { UnderTruncates(a, c); }
      r := Ok(());
      if IsFull(globe, disc, CellOf(raw)) {
        var lower, upper := AtomRange(raw);
        AtomRangeProper(c);
        full := full + [Range(lower, upper)];
        forall a | IsAtom(a) ensures Covers(full, Spell(a)) <==> Covers(old(full), Spell(a)) || Under(a, c) {
          CoversRange(old(full), c, a);
        }
      } else if IsOutside(globe, disc, CellOf(raw)) {
      } else if Resolution(raw) == disc.resolution {
        boundary := boundary + [raw];
        forall t ensures IsBoundaryOf(globe, disc, c, t) <==> t == raw { BoundaryIsSelf(globe, disc, raw, t); }
      } else {
        r := RefineChildren(raw);
      }
    }

    /** refine_children: every digit but the deleted one of a pentagon. The
        validation inside child() never fails. */
    method RefineChildren(raw: u64) returns (r: Result<()>)
      requires IsIndex(raw) && Resolution(raw) < disc.resolution <= MAX_RESOLUTION && Proper(full)
      requires !IsFull(globe, disc, CellOf(raw)) && !IsOutside(globe, disc, CellOf(raw))
      modifies this
      ensures r.Ok? && Refined(CellOf(raw))
      decreases disc.resolution - Resolution(raw), 0
    {
      ValidIffIndex(raw);
      ghost var c := CellOf(raw);
      ghost var n := |c.digits|;
      PentagonFields(raw);
      for digit := 0 to 7
        invariant Proper(full)
        invariant forall a :: IsAtom(a) ==>
                    (Covers(full, Spell(a)) <==>
                     Covers(old(full), Spell(a)) || (Settles(globe, disc, c, a, Full) && a.digits[n] < digit))
        invariant forall t :: t in boundary <==>
                    t in old(boundary) || (IsBoundaryOf(globe, disc, c, t) && CellOf(t).digits[n] < digit)
      {
        if digit == 1 && IsPentagon(raw) {
          forall a | IsCell(a) && Under(a, c) && n < |a.digits|
            ensures a.digits[n] != 1
          {
            NothingUnderDeletedDigit(c, a);
          }
          forall t | IsBoundaryOf(globe, disc, c, t) ensures CellOf(t).digits[n] != 1 { ValidIffIndex(t); }
          continue;
        }
        var child := Child(raw, digit);
        var refined := RefineCell(child.value);
        forall a, v ensures Settles(globe, disc, CellOf(child.value), a, v) <==>
                            Settles(globe, disc, c, a, v) && a.digits[n] == digit {
          ChildSettles(globe, disc, c, digit, a, v);
        }
      }
      forall t | IsBoundaryOf(globe, disc, c, t) ensures CellOf(t).digits[n] < 7 { ValidIffIndex(t); }
      r := Ok(());
    }
  }

  lemma PentagonFields(raw: nat)
    requires IsIndex(raw)
    ensures IsPentagon(raw) <==> IsPentagonCell(CellOf(raw))
  {
    ValidIffIndex(raw);
    var c := CellOf(raw);
    SpelledFields(c);
    if IsPentagon(raw) {
      forall i | 0 <= i < |c.digits| ensures c.digits[i] == 0 { assert RawDigit(raw, i + 1) == c.digits[i]; }
    }
  }

  /** is_pentagon */
  predicate IsPentagon(raw: nat)
  {
    BaseCell(raw) in PENTAGON_BASE_CELLS && forall p :: 1 <= p <= Resolution(raw) ==> RawDigit(raw, p) == 0
  }

  lemma UnderTruncates(a: Cell, c: Cell)
    ensures Under(a, c) ==> Truncated(a, |c.digits|) == c
  {
  }

  lemma BoundaryIsSelf<P>(globe: Globe<P>, disc: Disc<P>, raw: nat, t: nat)
    requires IsIndex(raw) && Resolution(raw) == disc.resolution <= MAX_RESOLUTION
    requires !IsFull(globe, disc, CellOf(raw)) && !IsOutside(globe, disc, CellOf(raw))
    ensures IsBoundaryOf(globe, disc, CellOf(raw), t) <==> t == raw
  {
    ValidIffIndex(raw);
    ValidIffIndex(t);
    var c := CellOf(raw);
    UnderTruncates(CellOf(t), c);
    assert Truncated(c, |c.digits|) == c;
    if IsIndex(t) && |CellOf(t).digits| == |c.digits| && Under(CellOf(t), c) {
      assert CellOf(t).digits == c.digits;
    }
  }

  // ----- the hierarchy is a partition -----

  /** The children that refinement visits are exactly the valid cells whose
      parent is the cell, pentagons included. */
  lemma ChildrenExact(c: Cell, k: Cell)
    requires IsCell(c) && |c.digits| < MAX_RESOLUTION
    ensures IsCell(k) && |k.digits| == |c.digits| + 1 && Truncated(k, |c.digits|) == c <==>
            exists d: Digit :: d <= 6 && !(d == 1 && IsPentagonCell(c)) && k == Cell(c.base, c.digits + [d])
  {
    var n := |c.digits|;
    if IsCell(k) && |k.digits| == n + 1 && Truncated(k, n) == c {
      assert k.digits == c.digits + [k.digits[n]];
      ChildIsCell(c, k.digits[n]);
    }
    if exists d: Digit :: d <= 6 && !(d == 1 && IsPentagonCell(c)) && k == Cell(c.base, c.digits + [d]) {
      var d: Digit :| d <= 6 && !(d == 1 && IsPentagonCell(c)) && k == Cell(c.base, c.digits + [d]);
      ChildIsCell(c, d);
      assert k.digits[..n] == c.digits;
    }
  }

  /** Refinement stops at ancestor level s of `a` when starting from level r. */
  ghost predicate StopsAt<P>(globe: Globe<P>, disc: Disc<P>, a: Cell, r: nat, s: nat)
    requires disc.resolution <= |a.digits| && disc.resolution <= MAX_RESOLUTION
  {
    && r <= s <= disc.resolution
    && (IsFull(globe, disc, Truncated(a, s)) || IsOutside(globe, disc, Truncated(a, s)) || s == disc.resolution)
    && forall q :: r <= q < s ==> !IsFull(globe, disc, Truncated(a, q)) && !IsOutside(globe, disc, Truncated(a, q))
  }

  /** Every atom has exactly one ancestor that refinement classifies. */
  lemma {:induction false} ExactlyOneStop<P>(globe: Globe<P>, disc: Disc<P>, a: Cell, r: nat) returns (s: nat)
    requires r <= disc.resolution <= |a.digits| && disc.resolution <= MAX_RESOLUTION
    ensures StopsAt(globe, disc, a, r, s)
    ensures forall q: nat :: StopsAt(globe, disc, a, r, q) ==> q == s
    ensures var c := Truncated(a, s);
            Walk(globe, disc, a, r) ==
              if IsFull(globe, disc, c) then Full else if IsOutside(globe, disc, c) then Outside else Boundary
    decreases disc.resolution - r
  {
    var c := Truncated(a, r);
    if IsFull(globe, disc, c) || IsOutside(globe, disc, c) || r == disc.resolution {
      s := r;
    } else {
      s := ExactlyOneStop(globe, disc, a, r + 1);
      forall q: nat | StopsAt(globe, disc, a, r, q) ensures q == s {
        assert q > r;
        assert StopsAt(globe, disc, a, r + 1, q);
      }
    }
  }

  // ----- cover_disc -----

  datatype DiscCovering = DiscCovering(full: seq<Range>, boundary: seq<u64>)

  ghost predicate Ascending(xs: seq<u64>)
  {
    forall i, j :: 0 <= i < j < |xs| ==> xs[i] < xs[j]
  }

  /** The covering of a disc: full ranges are normal and hold exactly the atoms
      settled as full; the boundary lists exactly the boundary cells. */
  ghost predicate IsCovering<P>(globe: Globe<P>, disc: Disc<P>, cover: DiscCovering)
    requires disc.resolution <= MAX_RESOLUTION
  {
    && Normal(cover.full) && Ascending(cover.boundary)
    && (forall a :: IsAtom(a) ==> (Covers(cover.full, Spell(a)) <==> Walk(globe, disc, a, 0) == Full))
    && (forall t :: t in cover.boundary <==>
          IsIndex(t) && |CellOf(t).digits| == disc.resolution && Walk(globe, disc, CellOf(t), 0) == Boundary)
  }

  /** base_cell_index: the base number set in the default word. */
  method BaseCellIndex(base: nat) returns (raw: u64)
    requires base <= MAX_BASE_CELL
    ensures IsIndex(raw) && CellOf(raw) == Cell(base, [])
  {
    ghost var c := Cell(base, []);
    ghost var ds := Fill(15, 7);
    Scale15();
    AllSevens(ds, 0x2000_0000_0000);
    Rehead(0, Header(0, base), ds, 0x2000_0000_0000);
    assert [] + ds == ds;
    SpellFits(c);
    raw := DEFAULT_CELL_INDEX + base * 0x2000_0000_0000;
    assert raw == Spell(c);
    assert IsCell(c);
    SpellRoundTrip(c);
  }

  method MergeAll(ranges: seq<Range>) returns (merged: seq<Range>)
    requires Proper(ranges)
    ensures Normal(merged) && forall x :: Covers(merged, x) <==> Covers(ranges, x)
  {
    var a := new Range[|ranges|](i requires 0 <= i < |ranges| => ranges[i]);
    assert a[..] == ranges;
    var n := MergeRanges(a);
    merged := a[..n];
  }

  /** cover_disc */
  method CoverDisc<P>(globe: Globe<P>, center: P, radius: real, res: nat) returns (r: Result<DiscCovering>)
    ensures r.Ok? <==> res <= MAX_RESOLUTION && radius > 0.0
    ensures r.Ok? ==> IsCovering(globe, Disc(center, radius, res), r.value)
  {
    if res > MAX_RESOLUTION || radius <= 0.0 { return Err(InvalidArgument); }
    var disc := Disc(center, radius, res);
    var builder := new CoverBuilder(globe, disc);
    for base := 0 to MAX_BASE_CELL + 1
      invariant builder.globe == globe && builder.disc == disc && Proper(builder.full)
      invariant forall a :: IsAtom(a) ==>
                  (Covers(builder.full, Spell(a)) <==> a.base < base && Walk(globe, disc, a, 0) == Full)
      invariant forall t :: t in builder.boundary <==>
                  IsIndex(t) && |CellOf(t).digits| == res && CellOf(t).base < base &&
                  Walk(globe, disc, CellOf(t), 0) == Boundary
    {
      var raw := BaseCellIndex(base);
      var refined := builder.RefineCell(raw);
    }
    forall t | IsIndex(t) ensures CellOf(t).base <= MAX_BASE_CELL { ValidIffIndex(t); }
    var full := MergeAll(builder.full);
    var boundary := SortDedup(builder.boundary);
    r := Ok(DiscCovering(full, boundary));
  }

  /** sort_unstable followed by dedup. */
  method SortDedup(xs: seq<u64>) returns (out: seq<u64>)
    ensures Ascending(out) && forall x :: x in out <==> x in xs
  {
    out := [];
    for i := 0 to |xs|
      invariant Ascending(out) && forall x :: x in out <==> x in xs[..i]
    {
      var p := LowerBound(out, xs[i]);
      assert xs[..i + 1] == xs[..i] + [xs[i]];
      if p == |out| || out[p] != xs[i] {
        assert out == out[..p] + out[p..];
        out := out[..p] + [xs[i]] + out[p..];
      }
    }
    assert xs[..|xs|] == xs;
  }

  method LowerBound(xs: seq<u64>, x: u64) returns (p: nat)
    requires Ascending(xs)
    ensures p <= |xs| && (forall i :: 0 <= i < p ==> xs[i] < x) && (forall i :: p <= i < |xs| ==> x <= xs[i])
  {
    var lo, hi := 0, |xs|;
    while lo < hi
      invariant lo <= hi <= |xs|
      invariant (forall i :: 0 <= i < lo ==> xs[i] < x) && (forall i :: hi <= i < |xs| ==> x <= xs[i])
    {
      var mid := (lo + hi) / 2;
      if xs[mid] < x { lo := mid + 1; } else { hi := mid; }
    }
    p := lo;
  }

  /** binary_search on the boundary cells. */
  method BinarySearch(xs: seq<u64>, x: u64) returns (found: bool)
    requires Ascending(xs)
    ensures found <==> x in xs
  {
    var p := LowerBound(xs, x);
    found := p < |xs| && xs[p] == x;
  }
}
