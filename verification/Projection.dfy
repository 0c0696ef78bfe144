/** The integer half of the projection: the loops that move digits between a
    lattice coordinate and the index word, and that rotate the digits of a word. */
module Projection {
  import opened Values
  import opened Octal
  import opened HexPoint
  import opened HexLattice

  /** Digits 1..=n of a word are lattice digits. */
  ghost predicate ActiveDigits(bits: nat, n: nat)
  {
    n <= 15 && forall i :: 0 <= i < n ==> DigitsOf(bits, 15)[i] <= 6
  }

  /** The lattice digits of a word, first level first. */
  ghost function Active(bits: nat, n: nat): (ds: seq<HexDigit>)
    requires ActiveDigits(bits, n)
    ensures |ds| == n
  {
    DigitsOf(bits, 15)[..n]
  }

  lemma DigitOfWord(h: nat, ds: seq<Digit>)
    requires |ds| == 15
    ensures ShiftRight(Word(h, ds), 15) == h && DigitsOf(Word(h, ds), 15) == ds
  {
    var x := Word(h, ds);
    WordOfDigits(x, 15);
    WordInjective(h, ShiftRight(x, 15), ds, DigitsOf(x, 15));
  }

  lemma ReadDigit(bits: nat, i: nat)
    requires i < 15
    ensures GetDigit(bits, 14 - i) == DigitsOf(bits, 15)[i]
  {
    WordOfDigits(bits, 15);
    DigitAt(ShiftRight(bits, 15), DigitsOf(bits, 15), i);
  }

  lemma WriteDigit(bits: nat, i: nat, d: Digit)
    requires i < 15
    ensures var x := SetDigit(bits, 14 - i, d);
            ShiftRight(x, 15) == ShiftRight(bits, 15) && DigitsOf(x, 15) == DigitsOf(bits, 15)[i := d]
  {
    var h, ds := ShiftRight(bits, 15), DigitsOf(bits, 15);
    WordOfDigits(bits, 15);
    ReplaceDigit(h, ds, i, d);
    DigitOfWord(h, ds[i := d]);
  }

  /** The loop of directions_from_ijk: one digit per level into the word. */
  method ClimbIntoWord<C>(step: (nat, C) -> Option<(C, HexDigit)>, start: C, word: nat, resolution: nat)
    returns (r: Result<C>, bits: nat)
    requires resolution <= 15
    ensures r.Ok? <==> Climb(step, start, resolution).Ok?
    ensures r.Ok? ==> var (home, ds) := Climb(step, start, resolution).value;
            && r.value == home
            && ShiftRight(bits, 15) == ShiftRight(word, 15)
            && DigitsOf(bits, 15) == ds + DigitsOf(word, 15)[resolution..]
  {
    var coordinate := start;
    bits := word;
    ghost var before := DigitsOf(word, 15);
    ghost var suffix: seq<HexDigit> := [];
    assert before == before[..resolution] + suffix + before[resolution..];
    ghost var goal := Climb(step, start, resolution);
    if goal.Ok? { assert goal.value.1 + suffix == goal.value.1; }
    var res := resolution;
    while res > 0
      invariant 0 <= res <= resolution && |suffix| == resolution - res
      invariant var rest := Climb(step, coordinate, res);
                if goal.Ok? then rest.Ok? && rest.value.0 == goal.value.0 && goal.value.1 == rest.value.1 + suffix
                else rest.Err?
      invariant ShiftRight(bits, 15) == ShiftRight(word, 15)
      invariant DigitsOf(bits, 15) == before[..res] + suffix + before[resolution..]
    {
      var up := step(res, coordinate);
      if up.None? { return Err(InvalidArgument), bits; }
      ghost var rest := Climb(step, up.value.0, res - 1);
      if rest.Ok? { Assoc(rest.value.1, [up.value.1], suffix); }
      coordinate := up.value.0;
      PutDigit(bits, before, suffix, res, resolution, up.value.1);
      bits := SetDigit(bits, 15 - res, up.value.1);
      suffix := [up.value.1] + suffix;
      res := res - 1;
    }
    assert [] + suffix == suffix;
    r := Ok(coordinate);
  }

  lemma PutDigit(bits: nat, before: seq<Digit>, suffix: seq<Digit>, res: nat, resolution: nat, d: Digit)
    requires 0 < res <= resolution <= 15 && |before| == 15 && |suffix| == resolution - res
    requires DigitsOf(bits, 15) == before[..res] + suffix + before[resolution..]
    ensures var x := SetDigit(bits, 15 - res, d);
            && ShiftRight(x, 15) == ShiftRight(bits, 15)
            && DigitsOf(x, 15) == before[..res - 1] + ([d] + suffix) + before[resolution..]
  {
    WriteDigit(bits, res - 1, d);
  }

  /** directions_from_ijk: never fails, and leaves in the word exactly the digits
      that decode back to the coordinate. */
  method DirectionsFromIjk(start: Coord, word: nat, resolution: nat) returns (r: Result<Coord>, bits: nat)
    requires resolution <= 15
    ensures r.Ok? && EncodeDigits(start, resolution).Ok?
    ensures var (home, ds) := EncodeDigits(start, resolution).value;
            && r.value == home
            && ShiftRight(bits, 15) == ShiftRight(word, 15)
            && DigitsOf(bits, 15) == ds + DigitsOf(word, 15)[resolution..]
  {
    DecodeEncode(start, resolution);
    r, bits := ClimbIntoWord(StepUp, start, word, resolution);
  }

  /** The loop of face_ijk_from_bits: one digit per level out of the word. */
  method DescendFromWord<C>(step: (nat, C, HexDigit) -> C, bits: nat, resolution: nat, home: C) returns (coord: C)
    requires ActiveDigits(bits, resolution)
    ensures coord == Descend(step, home, Active(bits, resolution))
  {
    coord := home;
    ghost var ds := Active(bits, resolution);
    for res := 1 to resolution + 1
      invariant coord == Descend(step, home, ds[..res - 1])
    {
      ReadDigit(bits, res - 1);
      var digit := GetDigit(bits, 15 - res);
      assert ds[..res] == ds[..res - 1] + [ds[res - 1]] && digit == ds[res - 1];
      DescendStep(step, home, ds[..res - 1], digit);
      coord := step(res, coord, digit);
    }
    assert ds[..resolution] == ds;
  }

  /** face_ijk_from_bits, starting from the base cell's home coordinate. */
  method FaceIjkFromBits(bits: nat, resolution: nat, home: Coord) returns (coord: Coord)
    requires ActiveDigits(bits, resolution)
    ensures coord == DecodeDigits(home, Active(bits, resolution))
  {
    coord := DescendFromWord(StepDown, bits, resolution, home);
  }

  /** Writing a coordinate's digits into a word and reading them back from the
      coordinate reached gives the coordinate again, at every resolution. */
  method WordRoundTrip(start: Coord, word: nat, resolution: nat) returns (coord: Coord)
    requires 0 < resolution <= 15
    ensures coord == Normalize(start)
  {
    var home, bits := DirectionsFromIjk(start, word, resolution);
    DecodeEncode(start, resolution);
    ghost var ds := EncodeDigits(start, resolution).value.1;
    assert DigitsOf(bits, 15)[..resolution] == ds;
    forall i | 0 <= i < resolution ensures DigitsOf(bits, 15)[i] <= 6 {
      assert DigitsOf(bits, 15)[i] == ds[i];
    }
    coord := FaceIjkFromBits(bits, resolution, home.value);
  }

  // ----- rotating the digits of a word -----

  /** rotate_digit_ccw and rotate_digit_cw: the table applied `count` times. */
  function Turned(turn: HexDigit -> HexDigit, d: HexDigit, count: nat): HexDigit
    decreases count
  {
    if count == 0 then d else Turned(turn, turn(d), count - 1)
  }

  function Turns(turn: HexDigit -> HexDigit, ds: seq<HexDigit>, count: nat): (out: seq<HexDigit>)
    ensures |out| == |ds|
    ensures forall i :: 0 <= i < |ds| ==> out[i] == Turned(turn, ds[i], count)
  {
    seq(|ds|, i requires 0 <= i < |ds| => Turned(turn, ds[i], count))
  }

  function RotateTimes(rotate: Coord -> Coord, c: Coord, count: nat): Coord
    decreases count
  {
    if count == 0 then c else RotateTimes(rotate, rotate(c), count - 1)
  }

  /** The loop shared by rotate_bits_ccw and rotate_bits_cw. */
  method RotateBits(turn: HexDigit -> HexDigit, word: nat, resolution: nat, count: nat) returns (bits: nat)
    requires ActiveDigits(word, resolution)
    ensures ShiftRight(bits, 15) == ShiftRight(word, 15) && ActiveDigits(bits, resolution)
    ensures Active(bits, resolution) == Turns(turn, Active(word, resolution), count)
    ensures DigitsOf(bits, 15)[resolution..] == DigitsOf(word, 15)[resolution..]
  {
    bits := word;
    ghost var before := DigitsOf(word, 15);
    for res := 1 to resolution + 1
      invariant ShiftRight(bits, 15) == ShiftRight(word, 15)
      invariant forall i :: 0 <= i < 15 && !(i < res - 1) ==> DigitsOf(bits, 15)[i] == before[i]
      invariant forall i :: 0 <= i < res - 1 ==> DigitsOf(bits, 15)[i] == Turned(turn, before[i], count)
    {
      ReadDigit(bits, res - 1);
      WriteDigit(bits, res - 1, Turned(turn, GetDigit(bits, 15 - res), count));
      bits := SetDigit(bits, 15 - res, Turned(turn, GetDigit(bits, 15 - res), count));
    }
    assert DigitsOf(bits, 15)[resolution..] == before[resolution..];
  }

  /** Every digit turned once. */
  function Each(turn: HexDigit -> HexDigit, ds: seq<HexDigit>): (out: seq<HexDigit>)
    ensures |out| == |ds| && forall i :: 0 <= i < |ds| ==> out[i] == turn(ds[i])
  {
    seq(|ds|, i requires 0 <= i < |ds| => turn(ds[i]))
  }

  /** Turning the digits of any string once rotates what it decodes to once. */
  ghost predicate Commutes(turn: HexDigit -> HexDigit, rotate: Coord -> Coord, decode: (Coord, seq<HexDigit>) -> Coord)
  {
    forall h: Coord, s: seq<HexDigit> :: decode(rotate(h), Each(turn, s)) == rotate(decode(h, s))
  }

  lemma TurnsStep(turn: HexDigit -> HexDigit, ds: seq<HexDigit>, count: nat)
    ensures Turns(turn, ds, 0) == ds
    ensures Turns(turn, ds, count + 1) == Turns(turn, Each(turn, ds), count)
  {
  }

  /** One rotation that commutes with decoding commutes when repeated. */
  lemma {:induction false} RepeatedRotation(turn: HexDigit -> HexDigit, rotate: Coord -> Coord,
      decode: (Coord, seq<HexDigit>) -> Coord, home: Coord, ds: seq<HexDigit>, count: nat)
    requires Commutes(turn, rotate, decode)
    ensures decode(RotateTimes(rotate, home, count), Turns(turn, ds, count)) ==
              RotateTimes(rotate, decode(home, ds), count)
    decreases count
  {
    TurnsStep(turn, ds, if count == 0 then 0 else count - 1);
    if count > 0 {
      RepeatedRotation(turn, rotate, decode, rotate(home), Each(turn, ds), count - 1);
    }
  }

  lemma CcwCommutes()
    ensures Commutes(RotateDigitCcw, Rotate60Ccw, DecodeDigits)
  {
    forall h: Coord, s: seq<HexDigit>
      ensures DecodeDigits(Rotate60Ccw(h), Each(RotateDigitCcw, s)) == Rotate60Ccw(DecodeDigits(h, s))
    {
      assert Each(RotateDigitCcw, s) == RotateAllCcw(s);
      RotationHomomorphism(h, s);
    }
  }

  lemma CwCommutes()
    ensures Commutes(RotateDigitCw, Rotate60Cw, DecodeDigits)
  {
    forall h: Coord, s: seq<HexDigit>
      ensures DecodeDigits(Rotate60Cw(h), Each(RotateDigitCw, s)) == Rotate60Cw(DecodeDigits(h, s))
    {
      assert Each(RotateDigitCw, s) == RotateAllCw(s);
      RotationHomomorphism(h, s);
    }
  }

  /** Rotating the digits of a string any number of times rotates the coordinate
      it decodes to as often, in either direction. */
  lemma RotatedWordDecodes(home: Coord, ds: seq<HexDigit>, count: nat)
    ensures DecodeDigits(RotateTimes(Rotate60Ccw, home, count), Turns(RotateDigitCcw, ds, count)) ==
            RotateTimes(Rotate60Ccw, DecodeDigits(home, ds), count)
    ensures DecodeDigits(RotateTimes(Rotate60Cw, home, count), Turns(RotateDigitCw, ds, count)) ==
            RotateTimes(Rotate60Cw, DecodeDigits(home, ds), count)
  {
    RotatedCcw(home, ds, count);
    RotatedCw(home, ds, count);
  }

  lemma RotatedCcw(home: Coord, ds: seq<HexDigit>, count: nat)
    ensures DecodeDigits(RotateTimes(Rotate60Ccw, home, count), Turns(RotateDigitCcw, ds, count)) ==
            RotateTimes(Rotate60Ccw, DecodeDigits(home, ds), count)
  {
    CcwCommutes();
    RepeatedRotation(RotateDigitCcw, Rotate60Ccw, DecodeDigits, home, ds, count);
  }

  lemma RotatedCw(home: Coord, ds: seq<HexDigit>, count: nat)
    ensures DecodeDigits(RotateTimes(Rotate60Cw, home, count), Turns(RotateDigitCw, ds, count)) ==
            RotateTimes(Rotate60Cw, DecodeDigits(home, ds), count)
  {
    CwCommutes();
    RepeatedRotation(RotateDigitCw, Rotate60Cw, DecodeDigits, home, ds, count);
  }

  lemma {:induction false} TurnLast(turn: HexDigit -> HexDigit, d: HexDigit, count: nat)
    ensures Turned(turn, d, count + 1) == turn(Turned(turn, d, count))
    decreases count
  {
    if count > 0 { TurnLast(turn, turn(d), count - 1); }
  }

  lemma {:induction false} TurnsUndo(turn: HexDigit -> HexDigit, back: HexDigit -> HexDigit, d: HexDigit, count: nat)
    requires forall e: HexDigit :: back(turn(e)) == e
    ensures Turned(back, Turned(turn, d, count), count) == d
    decreases count
  {
    if count > 0 {
      TurnLast(turn, d, count - 1);
      TurnsUndo(turn, back, d, count - 1);
    }
  }

  /** Rotating a word clockwise as often as it was rotated counterclockwise gives
      the same word back. */
  method RotateThereAndBack(word: nat, resolution: nat, count: nat) returns (bits: nat)
    requires ActiveDigits(word, resolution)
    ensures bits == word
  {
    var turned := RotateBits(RotateDigitCcw, word, resolution, count);
    bits := RotateBits(RotateDigitCw, turned, resolution, count);
    ghost var a, b := DigitsOf(word, 15), DigitsOf(bits, 15);
    forall e: HexDigit ensures RotateDigitCw(RotateDigitCcw(e)) == e { RotateDigitTables(e); }
    forall i | 0 <= i < resolution ensures a[i] == b[i] {
      assert Active(word, resolution)[i] == a[i] && Active(bits, resolution)[i] == b[i];
      TurnsUndo(RotateDigitCcw, RotateDigitCw, a[i], count);
    }
    assert forall i :: resolution <= i < 15 ==>
             a[i] == a[resolution..][i - resolution] && b[i] == b[resolution..][i - resolution];
    assert a == b;
    WordOfDigits(word, 15);
    WordOfDigits(bits, 15);
  }
}
