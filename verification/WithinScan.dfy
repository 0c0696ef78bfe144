/** The WithinScan operator: a distance filter that consults the covering first. */
module WithinScan {
  import opened Values
  import opened CellIndex
  import opened Ranges
  import opened Covering
  import opened Spilling

  /** What the geometry must provide: atoms are valid, distance is symmetric and
      obeys the triangle inequality, and a cell's points stay within the
      tabulated bound of its center. */
  ghost predicate SoundGlobe<P(!new)>(globe: Globe<P>)
  {
    && (forall p :: IsIndex(globe.atomOf(p)) && IsAtom(CellOf(globe.atomOf(p))))
    && (forall p, q :: globe.distance(p, q) == globe.distance(q, p))
    && (forall p, q, m :: globe.distance(p, q) <= globe.distance(p, m) + globe.distance(m, q))
    && (forall p, c :: IsCell(c) && Under(CellOf(globe.atomOf(p)), c) ==>
          globe.distance(globe.centerOf(c), p) <= MAX_CENTER_TO_BOUNDARY_M[|c.digits|])
  }

  ghost predicate Inside<P>(globe: Globe<P>, disc: Disc<P>, p: P)
  {
    globe.distance(p, disc.center) <= disc.radius
  }

  lemma CellBound<P(!new)>(globe: Globe<P>, disc: Disc<P>, c: Cell, p: P)
    requires SoundGlobe(globe) && IsCell(c) && Under(CellOf(globe.atomOf(p)), c)
    ensures IsFull(globe, disc, c) ==> Inside(globe, disc, p)
    ensures IsOutside(globe, disc, c) ==> !Inside(globe, disc, p)
  {
    CenterWithin(globe, disc, c, p);
  }

  /** A settled verdict is right: full atoms are inside, outside ones are not. */
  lemma VerdictIsSound<P(!new)>(globe: Globe<P>, disc: Disc<P>, p: P)
    requires SoundGlobe(globe) && disc.resolution <= MAX_RESOLUTION
    ensures var a := CellOf(globe.atomOf(p));
            && IsAtom(a)
            && (Walk(globe, disc, a, 0) == Full ==> Inside(globe, disc, p))
            && (Walk(globe, disc, a, 0) == Outside ==> !Inside(globe, disc, p))
  {
    var a := CellOf(globe.atomOf(p));
    var s := ExactlyOneStop(globe, disc, a, 0);
    TruncatedIsCell(a, s);
    CellBound(globe, disc, Truncated(a, s), p);
  }

  /** How much the covering leaves to the distance test: an atom that is not pruned
      lies within two cell bounds of the disc, and one that is not settled as full
      within two cell bounds of its rim, both at the covering's resolution. */
  lemma VerdictIsTight<P(!new)>(globe: Globe<P>, disc: Disc<P>, p: P)
    requires SoundGlobe(globe) && disc.resolution <= MAX_RESOLUTION
    ensures var a, slack := CellOf(globe.atomOf(p)), 2.0 * MAX_CENTER_TO_BOUNDARY_M[disc.resolution];
            && (Walk(globe, disc, a, 0) != Outside ==> globe.distance(p, disc.center) <= disc.radius + slack)
            && (Walk(globe, disc, a, 0) != Full ==>
                  globe.distance(p, disc.center) + slack + FULL_CONTAINMENT_EPSILON_M > disc.radius)
  {
    var a := CellOf(globe.atomOf(p));
    var s := ExactlyOneStop(globe, disc, a, 0);
    TruncatedIsCell(a, s);
    VerdictIsSound(globe, disc, p);
    BoundsArePositive(disc.resolution);
    if Walk(globe, disc, a, 0) == Boundary { CenterWithin(globe, disc, Truncated(a, s), p); }
  }

  lemma BoundsArePositive(r: nat)
    requires r <= MAX_RESOLUTION
    ensures MAX_CENTER_TO_BOUNDARY_M[r] > 0.0
  {
  }

  /** A cell's center and its points are about as far from the disc's center. */
  lemma CenterWithin<P(!new)>(globe: Globe<P>, disc: Disc<P>, c: Cell, p: P)
    requires SoundGlobe(globe) && IsCell(c) && Under(CellOf(globe.atomOf(p)), c)
    ensures globe.distance(p, disc.center) <= CenterDistance(globe, disc, c) + MAX_CENTER_TO_BOUNDARY_M[|c.digits|]
    ensures CenterDistance(globe, disc, c) <= globe.distance(p, disc.center) + MAX_CENTER_TO_BOUNDARY_M[|c.digits|]
  {
    var m, o := globe.centerOf(c), disc.center;
    assert globe.distance(p, o) <= globe.distance(p, m) + globe.distance(m, o);
    assert globe.distance(o, m) <= globe.distance(o, p) + globe.distance(p, m);
    assert globe.distance(m, p) == globe.distance(p, m) && globe.distance(m, o) == globe.distance(o, m)
        && globe.distance(o, p) == globe.distance(p, o);
  }

  /** covering_resolution: the coarsest resolution whose bound fits the radius. */
  function CoveringResolution(meters: real): (r: nat)
    ensures r <= MAX_RESOLUTION
  {
    ResolutionFrom(meters, 0)
  }

  function ResolutionFrom(meters: real, i: nat): (r: nat)
    requires i <= 16
    ensures r <= MAX_RESOLUTION
    decreases 16 - i
  {
    if i == 16 then MAX_RESOLUTION
    else if MAX_CENTER_TO_BOUNDARY_M[i] <= meters then i
    else ResolutionFrom(meters, i + 1)
  }

  /** The coarsest resolution whose bound is at most the radius, or the finest one
      when no bound is. */
  lemma CoveringResolutionMeans(meters: real)
    ensures var r := CoveringResolution(meters);
            && (forall i :: 0 <= i < r ==> MAX_CENTER_TO_BOUNDARY_M[i] > meters)
            && (MAX_CENTER_TO_BOUNDARY_M[r] <= meters || r == MAX_RESOLUTION)
  {
    ResolutionFromMeans(meters, 0);
  }

  lemma {:induction false} ResolutionFromMeans(meters: real, i: nat)
    requires i <= 16
    ensures var r := ResolutionFrom(meters, i);
            && (forall c :: i <= c < r ==> MAX_CENTER_TO_BOUNDARY_M[c] > meters)
            && ((r >= i && MAX_CENTER_TO_BOUNDARY_M[r] <= meters) || r == MAX_RESOLUTION)
    decreases 16 - i
  {
    if i < 16 && MAX_CENTER_TO_BOUNDARY_M[i] > meters { ResolutionFromMeans(meters, i + 1); }
  }

  /** The value in the point column of a row. */
  datatype PointValue<P> = NullPoint | Point(p: P) | NotAPoint

  type Row<P> = (PointValue<P>, seq<Value>)

  /** The naive reading of the operator: keep rows within the radius. */
  ghost function NaiveFilter<P>(globe: Globe<P>, disc: Disc<P>, rows: seq<Row<P>>): seq<Row<P>>
  {
    if rows == [] then []
    else
      var last := rows[|rows| - 1];
      NaiveFilter(globe, disc, rows[..|rows| - 1]) +
      (if last.0.Point? && Inside(globe, disc, last.0.p) then [last] else [])
  }

  lemma {:induction false} FilterConcat<P>(globe: Globe<P>, disc: Disc<P>, a: seq<Row<P>>, b: seq<Row<P>>)
    ensures NaiveFilter(globe, disc, a + b) == NaiveFilter(globe, disc, a) + NaiveFilter(globe, disc, b)
  {
    if b == [] {
      assert a + b == a;
    } else {
      var n := |b| - 1;
      FilterConcat(globe, disc, a, b[..n]);
      assert (a + b)[..|a + b| - 1] == a + b[..n];
      Assoc(NaiveFilter(globe, disc, a), NaiveFilter(globe, disc, b[..n]),
            if b[n].0.Point? && Inside(globe, disc, b[n].0.p) then [b[n]] else []);
    }
  }

  ghost predicate AllPoints<P>(rows: seq<Row<P>>)
  {
    forall i :: 0 <= i < |rows| ==> !rows[i].0.NotAPoint?
  }

  /** Nothing upstream fails, and the point column holds points and NULLs only. */
  ghost predicate Clean<P>(source: Source<Row<P>>)
  {
    AllOk(source) && AllPoints(RowsOf(source))
  }

  lemma CleanStep<P>(source: Source<Row<P>>)
    requires source != []
    ensures Clean(source) <==> source[0].Ok? && AllPoints(source[0].value) && Clean(source[1..])
  {
    RowsOfStep(source);
    if source[0].Ok? {
      var first, rest := source[0].value, RowsOf(source[1..]);
      if AllPoints(first + rest) {
        forall i | 0 <= i < |first| ensures !first[i].0.NotAPoint? { assert first[i] == (first + rest)[i]; }
        forall i | 0 <= i < |rest| ensures !rest[i].0.NotAPoint? { assert rest[i] == (first + rest)[|first| + i]; }
      }
    }
  }

  lemma FilterStep<P>(globe: Globe<P>, disc: Disc<P>, source: Source<Row<P>>)
    requires source != [] && source[0].Ok?
    ensures NaiveFilter(globe, disc, RowsOf(source)) ==
              NaiveFilter(globe, disc, source[0].value) + NaiveFilter(globe, disc, RowsOf(source[1..]))
  {
    RowsOfStep(source);
    FilterConcat(globe, disc, source[0].value, RowsOf(source[1..]));
  }

  class WithinScan<P(!new)> {
    const globe: Globe<P>
    const disc: Disc<P>
    const covering: DiscCovering
    /** What the upstream has left, chunk by chunk. */
    var source: Source<Row<P>>

    ghost predicate Valid()
    {
      SoundGlobe(globe) && disc.resolution <= MAX_RESOLUTION && IsCovering(globe, disc, covering)
    }

    constructor (globe: Globe<P>, disc: Disc<P>, covering: DiscCovering, source: Source<Row<P>>)
      requires SoundGlobe(globe) && disc.resolution <= MAX_RESOLUTION && IsCovering(globe, disc, covering)
      ensures Valid() && this.globe == globe && this.disc == disc && this.covering == covering && this.source == source
    {
      this.globe, this.disc, this.covering, this.source := globe, disc, covering, source;
    }

    /** row_matches: a point passes exactly when it is within the radius, though
        most points never have their distance computed. */
    method RowMatches(value: PointValue<P>) returns (r: Result<bool>)
      requires Valid()
      ensures value.NullPoint? ==> r == Ok(false)
      ensures value.NotAPoint? ==> r == Err(InvalidArgument)
      ensures value.Point? ==> r.Ok? && (r.value <==> Inside(globe, disc, value.p))
    {
      if value.NullPoint? { return Ok(false); }
      if value.NotAPoint? { return Err(InvalidArgument); }
      var atom := globe.atomOf(value.p);
      ghost var a := CellOf(atom);
      ValidIffIndex(atom);
      VerdictIsSound(globe, disc, value.p);
      var full := RangeContains(covering.full, atom);
      if full { return Ok(true); }
      var cell := TruncateRaw(atom, disc.resolution);
      SpellFits(Truncated(a, disc.resolution));
      WalkPrefix(globe, disc, a, CellOf(cell), 0);
      var onBoundary := BinarySearch(covering.boundary, cell);
      if !onBoundary { return Ok(false); }
      r := Ok(globe.distance(value.p, disc.center) <= disc.radius);
    }

    /** filter_chunk: matching rows in input order. */
    method FilterChunk(chunk: seq<Row<P>>) returns (r: Result<seq<Row<P>>>)
      requires Valid()
      ensures r.Ok? <==> AllPoints(chunk)
      ensures r.Ok? ==> r.value == NaiveFilter(globe, disc, chunk)
    {
      var output: seq<Row<P>> := [];
      for i := 0 to |chunk|
        invariant output == NaiveFilter(globe, disc, chunk[..i])
        invariant forall j :: 0 <= j < i ==> !chunk[j].0.NotAPoint?
      {
        var matches := RowMatches(chunk[i].0);
        if matches.Err? { return Err(matches.error); }
        assert chunk[..i + 1][..i] == chunk[..i];
        if matches.value { output := output + [chunk[i]]; }
      }
      assert chunk[..|chunk|] == chunk;
      r := Ok(output);
    }

    /** next_chunk: skips chunks that filter to nothing. What it returns and what is
        left make up what was left before; it fails only on a source that is not
        clean, and returns None only at the end of one that is. */
    method NextChunk() returns (r: Result<Option<seq<Row<P>>>>)
      requires Valid()
      modifies this
      ensures |source| <= |old(source)|
      ensures r.Err? ==> !Clean(old(source))
      ensures r.Ok? ==> (Clean(source) <==> Clean(old(source)))
      ensures r.Ok? && r.value.Some? ==> r.value.value != [] && |source| < |old(source)|
      ensures r.Ok? && r.value.Some? ==>
                NaiveFilter(globe, disc, RowsOf(old(source))) ==
                  r.value.value + NaiveFilter(globe, disc, RowsOf(source))
      ensures r == Ok(None) ==> source == [] && NaiveFilter(globe, disc, RowsOf(old(source))) == []
    {
      while source != []
        invariant |source| <= |old(source)| && (Clean(source) <==> Clean(old(source)))
        invariant NaiveFilter(globe, disc, RowsOf(source)) == NaiveFilter(globe, disc, RowsOf(old(source)))
        decreases |source|
      {
        var next := source[0];
        CleanStep(source);
        if next.Ok? { FilterStep(globe, disc, source); }
        source := source[1..];
        if next.Err? { return Err(next.error); }
        var output := FilterChunk(next.value);
        if output.Err? { return Err(output.error); }
        if output.value != [] { return Ok(Some(output.value)); }
      }
      r := Ok(None);
    }

    /** Pulls the scan dry: it succeeds exactly on a clean upstream, and then
        returns its rows within the radius, in order. */
    method Collect() returns (r: Result<seq<Row<P>>>)
      requires Valid()
      modifies this
      ensures r.Ok? <==> Clean(old(source))
      ensures r.Ok? ==> r.value == NaiveFilter(globe, disc, RowsOf(old(source)))
    {
      var out: seq<Row<P>> := [];
      while true
        invariant Clean(source) <==> Clean(old(source))
        invariant NaiveFilter(globe, disc, RowsOf(old(source))) == out + NaiveFilter(globe, disc, RowsOf(source))
        decreases |source|
      {
        var next := NextChunk();
        if next.Err? { return Err(next.error); }
        if next.value.None? { return Ok(out); }
        Assoc(out, next.value.value, NaiveFilter(globe, disc, RowsOf(source)));
        out := out + next.value.value;
      }
    }
  }

  /** WithinScan::new: compile the covering once, at the resolution that the
      radius selects. */
  method NewWithinScan<P(!new)>(globe: Globe<P>, center: P, meters: real, source: Source<Row<P>>)
    returns (r: Result<WithinScan<P>>)
    requires SoundGlobe(globe)
    ensures r.Ok? <==> meters > 0.0
    ensures r.Ok? ==> fresh(r.value) && r.value.Valid() && r.value.source == source && r.value.globe == globe
    ensures r.Ok? ==> r.value.disc == Disc(center, meters, CoveringResolution(meters))
  {
    var resolution := CoveringResolution(meters);
    var covering := CoverDisc(globe, center, meters, resolution);
    if covering.Err? { return Err(covering.error); }
    var scan := new WithinScan(globe, Disc(center, meters, resolution), covering.value, source);
    r := Ok(scan);
  }

  /** possibly_matching_ranges: full ranges and boundary cells as one normal list
      of ranges. An atom lies in it exactly when it is not settled as outside,
      so pruning by these ranges never loses a matching row. */
  method PossiblyMatchingRanges<P>(globe: Globe<P>, disc: Disc<P>, covering: DiscCovering) returns (ranges: seq<Range>)
    requires disc.resolution <= MAX_RESOLUTION && IsCovering(globe, disc, covering)
    ensures Normal(ranges)
    ensures forall a :: IsAtom(a) ==> (Covers(ranges, Spell(a)) <==> Walk(globe, disc, a, 0) != Outside)
  {
    var all := covering.full;
    for i := 0 to |covering.boundary|
      invariant Proper(all)
      invariant forall a :: IsAtom(a) ==>
                  (Covers(all, Spell(a)) <==>
                   Walk(globe, disc, a, 0) == Full || exists j :: 0 <= j < i && Under(a, CellOf(covering.boundary[j])))
    {
      var raw := covering.boundary[i];
      assert raw in covering.boundary;
      ValidIffIndex(raw);
      ghost var c := CellOf(raw);
      var lower, upper := AtomRange(raw);
      AtomRangeProper(c);
      ghost var before := all;
      all := all + [Range(lower, upper)];
      forall a | IsAtom(a) ensures Covers(all, Spell(a)) <==> Covers(before, Spell(a)) || Under(a, c) {
        CoversRange(before, c, a);
      }
    }
    ranges := MergeAll(all);
    forall a | IsAtom(a) ensures Covers(ranges, Spell(a)) <==> Walk(globe, disc, a, 0) != Outside {
      BoundaryMembership(globe, disc, covering, a);
    }
  }

  lemma BoundaryMembership<P>(globe: Globe<P>, disc: Disc<P>, covering: DiscCovering, a: Cell)
    requires disc.resolution <= MAX_RESOLUTION && IsCovering(globe, disc, covering) && IsAtom(a)
    ensures Walk(globe, disc, a, 0) == Boundary <==>
            exists j :: 0 <= j < |covering.boundary| && Under(a, CellOf(covering.boundary[j]))
  {
    var c := Truncated(a, disc.resolution);
    TruncatedIsCell(a, disc.resolution);
    SpellRoundTrip(c);
    SpellFits(c);
    WalkPrefix(globe, disc, a, c, 0);
    if Walk(globe, disc, a, 0) == Boundary {
      assert Spell(c) in covering.boundary;
      var j :| 0 <= j < |covering.boundary| && covering.boundary[j] == Spell(c);
    }
    if j :| 0 <= j < |covering.boundary| && Under(a, CellOf(covering.boundary[j])) {
      assert covering.boundary[j] in covering.boundary;
      UnderTruncates(a, CellOf(covering.boundary[j]));
    }
  }
}
