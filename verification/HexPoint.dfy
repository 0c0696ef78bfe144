/** Aperture-7 refinement on plain lattice points: integer matrices of
    determinant seven, and the seven unit steps between their images. */
module HexPoint {

  type HexDigit = d: int | 0 <= d <= 6

  datatype Point = Point(a: int, b: int)

  function Plus(p: Point, q: Point): Point { Point(p.a + q.a, p.b + q.b) }

  function Minus(p: Point, q: Point): Point { Point(p.a - q.a, p.b - q.b) }

  function TurnCw(p: Point): Point { Point(p.b, p.b - p.a) }

  function TurnCcw(p: Point): Point { Point(p.a - p.b, p.a) }

  /** Odd levels refine by one matrix, even levels by its mirror image. */
  function Finer(level: nat, p: Point): Point
  {
    if level % 2 == 1 then Point(2 * p.a + p.b, 3 * p.b - p.a) else Point(3 * p.a - p.b, p.a + 2 * p.b)
  }

  /** The nearest integer to n / 7; a seventh is never halfway. */
  function RoundSeventh(n: int): (q: int)
    ensures -3 <= n - 7 * q <= 3
  {
    (2 * n + 7) / 14
  }

  function Coarser(level: nat, p: Point): Point
  {
    if level % 2 == 1 then Point(RoundSeventh(3 * p.a - p.b), RoundSeventh(p.a + 2 * p.b))
    else Point(RoundSeventh(2 * p.a + p.b), RoundSeventh(3 * p.b - p.a))
  }

  function Unit(d: HexDigit): Point
  {
    match d
    case 0 => Point(0, 0)
    case 1 => Point(-1, -1)
    case 2 => Point(0, 1)
    case 3 => Point(-1, 0)
    case 4 => Point(1, 0)
    case 5 => Point(0, -1)
    case _ => Point(1, 1)
  }

  ghost predicate IsUnit(p: Point)
  {
    -1 <= p.a <= 1 && -1 <= p.b <= 1 && -1 <= p.a - p.b <= 1
  }

  /** The digits name exactly the points at distance at most one. */
  lemma UnitsAreNeighbours(p: Point) returns (d: HexDigit)
    ensures IsUnit(p) ==> Unit(d) == p
  {
    d := if p == Point(-1, -1) then 1 else if p == Point(0, 1) then 2 else if p == Point(-1, 0) then 3
         else if p == Point(1, 0) then 4 else if p == Point(0, -1) then 5 else if p == Point(1, 1) then 6 else 0;
  }

  lemma UnitsDiffer(d: HexDigit, e: HexDigit)
    ensures IsUnit(Unit(d)) && (Unit(d) == Unit(e) ==> d == e)
  {
  }

  /** Every point is one unit step away from the image of its parent. */
  lemma RemainderIsUnit(level: nat, p: Point)
    ensures IsUnit(Minus(p, Finer(level, Coarser(level, p))))
  {
    var q := Coarser(level, p);
    var r := Minus(p, Finer(level, q));
    if level % 2 == 1 {
      var e, f := 3 * p.a - p.b - 7 * q.a, p.a + 2 * p.b - 7 * q.b;
      assert 7 * r.a == 2 * e + f && 7 * r.b == 3 * f - e;
    } else {
      var e, f := 2 * p.a + p.b - 7 * q.a, 3 * p.b - p.a - 7 * q.b;
      assert 7 * r.a == 3 * e - f && 7 * r.b == e + 2 * f;
    }
  }

  lemma RoundSeventhExact(n: int, q: int)
    requires -3 <= n - 7 * q <= 3
    ensures RoundSeventh(n) == q
  {
  }

  /** The parent of a point one unit step from an image is the point imaged. */
  lemma ParentOfStep(level: nat, p: Point, u: Point)
    requires IsUnit(u)
    ensures Coarser(level, Plus(Finer(level, p), u)) == p
  {
    var s := Plus(Finer(level, p), u);
    if level % 2 == 1 {
      RoundSeventhExact(3 * s.a - s.b, p.a);
      RoundSeventhExact(s.a + 2 * s.b, p.b);
    } else {
      RoundSeventhExact(2 * s.a + s.b, p.a);
      RoundSeventhExact(3 * s.b - s.a, p.b);
    }
  }

  /** Rotations commute with refinement. */
  lemma TurnCommutes(level: nat, p: Point)
    ensures Finer(level, TurnCw(p)) == TurnCw(Finer(level, p))
    ensures Finer(level, TurnCcw(p)) == TurnCcw(Finer(level, p))
  {
  }
}
