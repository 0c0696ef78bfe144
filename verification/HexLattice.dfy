/** IJK coordinates of the hexagonal grid, the aperture-7 digit coding of
    positions, and its rotations. */
module HexLattice {
  import opened Values
  import opened HexPoint

  datatype Coord = Coord(i: int, j: int, k: int)

  function Min3(a: int, b: int, c: int): (m: int)
    ensures m <= a && m <= b && m <= c && (m == a || m == b || m == c)
  {
    if a <= b && a <= c then a else if b <= c then b else c
  }

  /** The lattice point a coordinate spells. */
  function PointOf(c: Coord): Point { Point(c.i - c.k, c.j - c.k) }

  predicate IsCanonical(c: Coord)
  {
    c.i >= 0 && c.j >= 0 && c.k >= 0 && (c.i == 0 || c.j == 0 || c.k == 0)
  }

  /** normalize: same point, canonical spelling. */
  function Normalize(c: Coord): (r: Coord)
    ensures IsCanonical(r) && PointOf(r) == PointOf(c)
  {
    var m := Min3(c.i, c.j, c.k);
    Coord(c.i - m, c.j - m, c.k - m)
  }

  /** A point has one canonical spelling. */
  lemma CanonicalUnique(c: Coord, d: Coord)
    requires IsCanonical(c) && IsCanonical(d) && PointOf(c) == PointOf(d)
    ensures c == d
  {
  }

  function Add(c: Coord, d: Coord): (r: Coord)
    ensures PointOf(r) == Plus(PointOf(c), PointOf(d))
  {
    Coord(c.i + d.i, c.j + d.j, c.k + d.k)
  }

  function Sub(c: Coord, d: Coord): (r: Coord)
    ensures PointOf(r) == Minus(PointOf(c), PointOf(d))
  {
    Coord(c.i - d.i, c.j - d.j, c.k - d.k)
  }

  function Rotate60Cw(c: Coord): (r: Coord)
    ensures IsCanonical(r) && PointOf(r) == TurnCw(PointOf(c))
  {
    Normalize(Coord(c.i + c.j, c.j + c.k, c.i + c.k))
  }

  function Rotate60Ccw(c: Coord): (r: Coord)
    ensures IsCanonical(r) && PointOf(r) == TurnCcw(PointOf(c))
  {
    Normalize(Coord(c.i + c.k, c.i + c.j, c.j + c.k))
  }

  function DownAp7(c: Coord): (r: Coord)
    ensures IsCanonical(r) && PointOf(r) == Finer(1, PointOf(c))
  {
    Normalize(Coord(3 * c.i + c.j, 3 * c.j + c.k, c.i + 3 * c.k))
  }

  function DownAp7r(c: Coord): (r: Coord)
    ensures IsCanonical(r) && PointOf(r) == Finer(2, PointOf(c))
  {
    Normalize(Coord(3 * c.i + c.k, c.i + 3 * c.j, c.j + 3 * c.k))
  }

  function UpAp7(c: Coord): (r: Coord)
    ensures IsCanonical(r) && PointOf(r) == Coarser(1, PointOf(c))
  {
    var (i, j) := (c.i - c.k, c.j - c.k);
    Normalize(Coord(RoundSeventh(3 * i - j), RoundSeventh(i + 2 * j), 0))
  }

  function UpAp7r(c: Coord): (r: Coord)
    ensures IsCanonical(r) && PointOf(r) == Coarser(2, PointOf(c))
  {
    var (i, j) := (c.i - c.k, c.j - c.k);
    Normalize(Coord(RoundSeventh(2 * i + j), RoundSeventh(3 * j - i), 0))
  }

  /** DIGIT_UNIT_VECTORS */
  function FromDigit(d: HexDigit): Coord
  {
    match d
    case 0 => Coord(0, 0, 0)
    case 1 => Coord(0, 0, 1)
    case 2 => Coord(0, 1, 0)
    case 3 => Coord(0, 1, 1)
    case 4 => Coord(1, 0, 0)
    case 5 => Coord(1, 0, 1)
    case _ => Coord(1, 1, 0)
  }

  /** to_digit: the position of the normalized coordinate in the unit table. */
  function ToDigit(c: Coord): Option<HexDigit>
  {
    DigitOf(Normalize(c))
  }

  function DigitOf(n: Coord): Option<HexDigit>
  {
    if n == Coord(0, 0, 0) then Some(0)
    else if n == Coord(0, 0, 1) then Some(1) else if n == Coord(0, 1, 0) then Some(2)
    else if n == Coord(0, 1, 1) then Some(3)
    else if n == Coord(1, 0, 0) then Some(4) else if n == Coord(1, 0, 1) then Some(5)
    else if n == Coord(1, 1, 0) then Some(6) else None
  }

  lemma UnitVectors(d: HexDigit)
    ensures IsCanonical(FromDigit(d))
    ensures PointOf(FromDigit(d)) == Unit(d)
  {
    VectorPoint(d);
    VectorCanonical(d);
  }

  lemma VectorPoint(d: HexDigit)
    ensures PointOf(FromDigit(d)) == Unit(d)
  {
    if d == 0 {} else if d == 1 {} else if d == 2 {} else if d == 3 {} else if d == 4 {} else if d == 5 {} else {}
  }

  lemma VectorCanonical(d: HexDigit)
    ensures IsCanonical(FromDigit(d))
  {
    if d == 0 {} else if d == 1 {} else if d == 2 {} else if d == 3 {} else if d == 4 {} else if d == 5 {} else {}
  }

  lemma DigitOfVector(d: HexDigit)
    ensures DigitOf(FromDigit(d)) == Some(d)
  {
    if d == 0 {} else if d == 1 {} else if d == 2 {} else if d == 3 {} else if d == 4 {} else if d == 5 {} else {}
  }

  lemma VectorOfDigit(n: Coord)
    ensures DigitOf(n).Some? ==> FromDigit(DigitOf(n).value) == n
  {
  }

  /** The digit found is the one whose unit vector is the point. */
  lemma DigitOfPoint(c: Coord, d: HexDigit)
    requires PointOf(c) == Unit(d)
    ensures ToDigit(c) == Some(d)
  {
    UnitVectors(d);
    CanonicalUnique(FromDigit(d), Normalize(c));
    DigitOfVector(d);
  }

  /** A digit is found exactly for the points at distance at most one. */
  lemma DigitFound(c: Coord)
    ensures ToDigit(c).Some? <==> IsUnit(PointOf(c))
    ensures ToDigit(c).Some? ==> Unit(ToDigit(c).value) == PointOf(c)
  {
    if IsUnit(PointOf(c)) {
      var e := UnitsAreNeighbours(PointOf(c));
      DigitOfPoint(c, e);
    }
    if ToDigit(c).Some? {
      VectorOfDigit(Normalize(c));
      UnitVectors(ToDigit(c).value);
      UnitsDiffer(ToDigit(c).value, 0);
    }
  }

  // ----- rotations -----

  /** The rotations are inverse to each other and have order six. */
  lemma RotationGroup(c: Coord)
    ensures Rotate60Cw(Rotate60Ccw(c)) == Normalize(c) == Rotate60Ccw(Rotate60Cw(c))
    ensures Rotate60Cw(Rotate60Cw(Rotate60Cw(c))) == Normalize(Coord(-c.i, -c.j, -c.k))
    ensures Rotate60Cw(Rotate60Cw(Rotate60Cw(Rotate60Cw(Rotate60Cw(Rotate60Cw(c)))))) == Normalize(c)
  {
    var half := Rotate60Cw(Rotate60Cw(Rotate60Cw(c)));
    CanonicalUnique(Rotate60Cw(Rotate60Ccw(c)), Normalize(c));
    CanonicalUnique(Rotate60Ccw(Rotate60Cw(c)), Normalize(c));
    CanonicalUnique(half, Normalize(Coord(-c.i, -c.j, -c.k)));
    CanonicalUnique(Rotate60Cw(Rotate60Cw(Rotate60Cw(half))), Normalize(c));
  }

  // ----- digit strings -----

  function Down(level: nat, c: Coord): (r: Coord)
    ensures IsCanonical(r) && PointOf(r) == Finer(level, PointOf(c))
  {
    if level % 2 == 1 then DownAp7(c) else DownAp7r(c)
  }

  function Up(level: nat, c: Coord): (r: Coord)
    ensures IsCanonical(r) && PointOf(r) == Coarser(level, PointOf(c))
  {
    if level % 2 == 1 then UpAp7(c) else UpAp7r(c)
  }

  /** One decoding step: refine, then move by the digit. */
  function StepDown(level: nat, c: Coord, d: HexDigit): (r: Coord)
    ensures IsCanonical(r) && PointOf(r) == Plus(Finer(level, PointOf(c)), Unit(d))
  {
    UnitVectors(d);
    Normalize(Add(Down(level, c), FromDigit(d)))
  }

  /** The digit that one encoding step computes. */
  function StepDigit(level: nat, c: Coord): Option<HexDigit>
  {
    ToDigit(Normalize(Sub(c, Down(level, Up(level, c)))))
  }

  /** The error branch of encoding is unreachable: a digit is always found. */
  lemma StepHasDigit(level: nat, c: Coord)
    ensures StepDigit(level, c).Some?
    ensures Unit(StepDigit(level, c).value) == Minus(PointOf(c), Finer(level, PointOf(Up(level, c))))
  {
    RemainderIsUnit(level, PointOf(c));
    DigitFound(Normalize(Sub(c, Down(level, Up(level, c)))));
  }

  /** Encoding one step undoes decoding one step. */
  lemma StepRoundTrip(level: nat, c: Coord, d: HexDigit)
    ensures Up(level, StepDown(level, c, d)) == Normalize(c)
    ensures StepDigit(level, StepDown(level, c, d)) == Some(d)
  {
    var s := StepDown(level, c, d);
    UnitsDiffer(d, d);
    ParentOfStep(level, PointOf(c), Unit(d));
    CanonicalUnique(Up(level, s), Normalize(c));
    DigitOfPoint(Normalize(Sub(s, Down(level, Up(level, s)))), d);
  }

  /** Applies one step per digit; level 1 is the first digit. */
  function Descend<C>(step: (nat, C, HexDigit) -> C, start: C, ds: seq<HexDigit>): C
  {
    if ds == [] then start
    else step(|ds|, Descend(step, start, ds[..|ds| - 1]), ds[|ds| - 1])
  }

  /** Takes one digit off per level, from the finest level upwards. */
  function Climb<C>(step: (nat, C) -> Option<(C, HexDigit)>, c: C, n: nat): (r: Result<(C, seq<HexDigit>)>)
    ensures r.Ok? ==> |r.value.1| == n
    decreases n
  {
    if n == 0 then Ok((c, []))
    else
      var up := step(n, c);
      if up.None? then Err(InvalidArgument)
      else
        var rest :- Climb(step, up.value.0, n - 1);
        Ok((rest.0, rest.1 + [up.value.1]))
  }

  function StepUp(level: nat, c: Coord): Option<(Coord, HexDigit)>
  {
    var digit := StepDigit(level, c);
    if digit.None? then None else Some((Up(level, c), digit.value))
  }

  /** face_ijk_from_bits */
  function DecodeDigits(start: Coord, ds: seq<HexDigit>): Coord
  {
    Descend(StepDown, start, ds)
  }

  /** directions_from_ijk */
  function EncodeDigits(c: Coord, n: nat): (r: Result<(Coord, seq<HexDigit>)>)
    ensures r.Ok? ==> |r.value.1| == n
  {
    Climb(StepUp, c, n)
  }

  lemma EncodeStep(c: Coord, n: nat, d: HexDigit, start: Coord, ds: seq<HexDigit>)
    requires n > 0 && StepDigit(n, c) == Some(d) && EncodeDigits(Up(n, c), n - 1) == Ok((start, ds))
    ensures EncodeDigits(c, n) == Ok((start, ds + [d]))
  {
  }

  lemma DescendStep<C>(step: (nat, C, HexDigit) -> C, start: C, ds: seq<HexDigit>, d: HexDigit)
    ensures Descend(step, start, ds + [d]) == step(|ds| + 1, Descend(step, start, ds), d)
  {
    assert (ds + [d])[..|ds|] == ds;
  }

  lemma DecodeStep(start: Coord, ds: seq<HexDigit>, d: HexDigit)
    ensures DecodeDigits(start, ds + [d]) == StepDown(|ds| + 1, DecodeDigits(start, ds), d)
  {
    DescendStep(StepDown, start, ds, d);
  }

  /** Encoding never fails, and decoding what it returns gives the point back. */
  lemma {:induction false} DecodeEncode(c: Coord, n: nat)
    ensures EncodeDigits(c, n).Ok?
    ensures var (start, ds) := EncodeDigits(c, n).value;
            DecodeDigits(start, ds) == if n == 0 then c else Normalize(c)
    decreases n
  {
    if n > 0 {
      var up := Up(n, c);
      DecodeEncode(up, n - 1);
      var (start, ds) := EncodeDigits(up, n - 1).value;
      StepHasDigit(n, c);
      var d := StepDigit(n, c).value;
      EncodeStep(c, n, d, start, ds);
      DecodeStep(start, ds, d);
      StepUpDown(n, c, d);
    }
  }

  lemma StepUpDown(n: nat, c: Coord, d: HexDigit)
    requires StepDigit(n, c) == Some(d)
    ensures StepDown(n, Up(n, c), d) == Normalize(c) && Normalize(Up(n, c)) == Up(n, c)
  {
    StepHasDigit(n, c);
    CanonicalUnique(Up(n, c), Normalize(Up(n, c)));
    CanonicalUnique(StepDown(n, Up(n, c), d), Normalize(c));
  }

  /** Encoding sees only the point, not how it is spelled. */
  lemma EncodeSamePoint(c: Coord, d: Coord, n: nat)
    requires PointOf(c) == PointOf(d) && n > 0
    ensures EncodeDigits(c, n) == EncodeDigits(d, n)
  {
    CanonicalUnique(Up(n, c), Up(n, d));
    var x, y := Sub(c, Down(n, Up(n, c))), Sub(d, Down(n, Up(n, d)));
    CanonicalUnique(Normalize(x), Normalize(y));
  }

  /** Decoding any digit string and encoding it again returns the string and
      the normalized start. */
  lemma {:induction false} EncodeDecode(start: Coord, ds: seq<HexDigit>)
    ensures EncodeDigits(DecodeDigits(start, ds), |ds|) ==
            Ok((if ds == [] then start else Normalize(start), ds))
  {
    if ds != [] {
      var n := |ds|;
      var front, d := ds[..n - 1], ds[n - 1];
      assert ds == front + [d];
      var before := DecodeDigits(start, front);
      EncodeDecode(start, front);
      DecodeStep(start, front, d);
      StepRoundTrip(n, before, d);
      if n > 1 { EncodeSamePoint(before, Normalize(before), n - 1); }
      EncodeStep(StepDown(n, before, d), n, d, Normalize(start), front);
    }
  }

  // ----- rotating digit strings -----

  /** rotate_digit_ccw, one step of its table. */
  function RotateDigitCcw(d: HexDigit): HexDigit
  {
    match d case 0 => 0 case 1 => 5 case 2 => 3 case 3 => 1 case 4 => 6 case 5 => 4 case _ => 2
  }

  /** rotate_digit_cw, one step of its table. */
  function RotateDigitCw(d: HexDigit): HexDigit
  {
    match d case 0 => 0 case 1 => 3 case 2 => 6 case 3 => 2 case 4 => 5 case 5 => 1 case _ => 4
  }

  function RotateAllCcw(ds: seq<HexDigit>): (out: seq<HexDigit>)
    ensures |out| == |ds|
  {
    seq(|ds|, i requires 0 <= i < |ds| => RotateDigitCcw(ds[i]))
  }

  function RotateAllCw(ds: seq<HexDigit>): (out: seq<HexDigit>)
    ensures |out| == |ds|
  {
    seq(|ds|, i requires 0 <= i < |ds| => RotateDigitCw(ds[i]))
  }

  /** The digit tables rotate the unit vectors, and undo each other. */
  lemma RotateDigitTables(d: HexDigit)
    ensures Unit(RotateDigitCcw(d)) == TurnCcw(Unit(d)) && Unit(RotateDigitCw(d)) == TurnCw(Unit(d))
    ensures RotateDigitCw(RotateDigitCcw(d)) == d == RotateDigitCcw(RotateDigitCw(d))
  {
    if d == 0 {} else if d == 1 {} else if d == 2 {} else if d == 3 {} else if d == 4 {} else if d == 5 {} else {}
  }

  lemma RotateStep(level: nat, c: Coord, d: HexDigit)
    ensures StepDown(level, Rotate60Ccw(c), RotateDigitCcw(d)) == Rotate60Ccw(StepDown(level, c, d))
    ensures StepDown(level, Rotate60Cw(c), RotateDigitCw(d)) == Rotate60Cw(StepDown(level, c, d))
  {
    RotateDigitTables(d);
    TurnCommutes(level, PointOf(c));
    CanonicalUnique(StepDown(level, Rotate60Ccw(c), RotateDigitCcw(d)), Rotate60Ccw(StepDown(level, c, d)));
    CanonicalUnique(StepDown(level, Rotate60Cw(c), RotateDigitCw(d)), Rotate60Cw(StepDown(level, c, d)));
  }

  /** Rotating every digit of a string rotates the point it decodes to. */
  lemma {:induction false} RotationHomomorphism(start: Coord, ds: seq<HexDigit>)
    ensures DecodeDigits(Rotate60Ccw(start), RotateAllCcw(ds)) == Rotate60Ccw(DecodeDigits(start, ds))
    ensures DecodeDigits(Rotate60Cw(start), RotateAllCw(ds)) == Rotate60Cw(DecodeDigits(start, ds))
  {
    if ds != [] {
      var n := |ds|;
      var front, d := ds[..n - 1], ds[n - 1];
      assert ds == front + [d];
      assert RotateAllCcw(ds) == RotateAllCcw(front) + [RotateDigitCcw(d)];
      assert RotateAllCw(ds) == RotateAllCw(front) + [RotateDigitCw(d)];
      RotationHomomorphism(start, front);
      DecodeStep(start, front, d);
      DecodeStep(Rotate60Ccw(start), RotateAllCcw(front), RotateDigitCcw(d));
      DecodeStep(Rotate60Cw(start), RotateAllCw(front), RotateDigitCw(d));
      RotateStep(n, DecodeDigits(start, front), d);
    }
  }
}
