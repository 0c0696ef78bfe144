/** DevonGrid cell indexes: the u64 layout and its validation, and the digit
    hierarchy that truncation, children and atom ranges move in. */
module CellIndex {
  import opened Values
  import opened Octal

  const MAX_RESOLUTION := 15
  const MAX_BASE_CELL := 121
  const PENTAGON_BASE_CELLS: seq<nat> := [4, 14, 24, 38, 49, 58, 63, 72, 83, 97, 107, 117]

  // ----- the hierarchy: a base cell and one digit per resolution -----

  datatype Cell = Cell(base: nat, digits: seq<Digit>)

  /** The first digit that is not zero, or zero. */
  function LeadingDigit(ds: seq<Digit>): Digit
  {
    if ds == [] then 0 else if ds[0] != 0 then ds[0] else LeadingDigit(ds[1..])
  }

  ghost predicate IsCell(c: Cell)
  {
    && c.base <= MAX_BASE_CELL && |c.digits| <= MAX_RESOLUTION
    && (forall i :: 0 <= i < |c.digits| ==> c.digits[i] <= 6)
    && (c.base in PENTAGON_BASE_CELLS ==> LeadingDigit(c.digits) != 1)
  }

  ghost predicate IsAtom(c: Cell)
  {
    IsCell(c) && |c.digits| == MAX_RESOLUTION
  }

  /** `a` lies under `c` in the hierarchy. */
  ghost predicate Under(a: Cell, c: Cell)
  {
    a.base == c.base && c.digits <= a.digits
  }

  function Truncated(c: Cell, resolution: nat): Cell
    requires resolution <= |c.digits|
  {
    Cell(c.base, c.digits[..resolution])
  }

  lemma {:induction false} LeadingAppend(ds: seq<Digit>, more: seq<Digit>)
    ensures LeadingDigit(ds + more) == if LeadingDigit(ds) != 0 then LeadingDigit(ds) else LeadingDigit(more)
  {
    if ds == [] {
      assert ds + more == more;
    } else {
      assert (ds + more)[1..] == ds[1..] + more;
      LeadingAppend(ds[1..], more);
    }
  }

  /** Truncating a cell gives a cell: the hierarchy has no gaps. */
  lemma TruncatedIsCell(c: Cell, resolution: nat)
    requires IsCell(c) && resolution <= |c.digits|
    ensures IsCell(Truncated(c, resolution)) && Under(c, Truncated(c, resolution))
  {
    var ds := c.digits;
    LeadingAppend(ds[..resolution], ds[resolution..]);
    assert ds == ds[..resolution] + ds[resolution..];
  }

  ghost predicate IsPentagonCell(c: Cell)
  {
    c.base in PENTAGON_BASE_CELLS && forall i :: 0 <= i < |c.digits| ==> c.digits[i] == 0
  }

  lemma {:induction false} LeadingZero(ds: seq<Digit>)
    ensures LeadingDigit(ds) == 0 <==> forall i :: 0 <= i < |ds| ==> ds[i] == 0
  {
    if ds != [] {
      LeadingZero(ds[1..]);
      assert forall i :: 0 < i < |ds| ==> ds[i] == ds[1..][i - 1];
    }
  }

  /** Appending a digit gives a cell unless it is digit 1 under a pentagon. */
  lemma ChildIsCell(c: Cell, d: Digit)
    requires IsCell(c) && |c.digits| < MAX_RESOLUTION && d <= 6
    ensures IsCell(Cell(c.base, c.digits + [d])) <==> !(d == 1 && IsPentagonCell(c))
  {
    LeadingAppend(c.digits, [d]);
    LeadingZero(c.digits);
    assert LeadingDigit([d]) == d;
  }

  // ----- the u64 spelling -----

  /** The bits above the digits: mode 1, the resolution, the base cell. */
  function Header(resolution: nat, base: nat): nat
  {
    0x4000 + resolution * 0x80 + base
  }

  function Fill(n: nat, d: Digit): (ds: seq<Digit>)
    ensures |ds| == n && forall i :: 0 <= i < n ==> ds[i] == d
  {
    seq(n, i => d)
  }

  function Spell(c: Cell): nat
    requires |c.digits| <= MAX_RESOLUTION
  {
    Word(Header(|c.digits|, c.base), c.digits + Fill(MAX_RESOLUTION - |c.digits|, 7))
  }

  /** A raw word is a valid index exactly when it spells some cell. */
  ghost predicate IsIndex(raw: nat)
  {
    exists c :: IsCell(c) && raw == Spell(c)
  }

  function ReservedBit(raw: nat): nat { ShiftRight(raw, 15) / 0x4_0000 }
  function Mode(raw: nat): nat { ShiftRight(raw, 15) / 0x4000 % 0x10 }
  function ModeDependent(raw: nat): nat { ShiftRight(raw, 15) / 0x800 % 8 }
  function Resolution(raw: nat): nat { ShiftRight(raw, 15) / 0x80 % 0x10 }
  function BaseCell(raw: nat): nat { ShiftRight(raw, 15) % 0x80 }

  /** raw_digit: positions are numbered 1..=15 from the left. */
  function RawDigit(raw: nat, position: nat): Digit
    requires 1 <= position <= MAX_RESOLUTION
  {
    GetDigit(raw, MAX_RESOLUTION - position)
  }

  lemma HeaderFields(h: nat)
    ensures h / 0x4_0000 == 0 && h / 0x4000 % 0x10 == 1 && h / 0x800 % 8 == 0 <==>
            h == Header(h / 0x80 % 0x10, h % 0x80)
  {
  }

  lemma HeaderSplit(resolution: nat, base: nat)
    requires resolution <= MAX_RESOLUTION && base < 0x80
    ensures var h := Header(resolution, base);
            && h / 0x4_0000 == 0 && h / 0x4000 % 0x10 == 1 && h / 0x800 % 8 == 0
            && h / 0x80 % 0x10 == resolution && h % 0x80 == base
  {
  }

  lemma HeaderOfWord(h: nat, ds: seq<Digit>)
    requires |ds| == 15
    ensures ShiftRight(Word(h, ds), 15) == h
  {
    ShiftOut(h, ds, 15);
    assert ds[..0] == [];
  }

  /** The fields of a spelled cell. */
  lemma SpelledFields(c: Cell)
    requires IsCell(c)
    ensures var raw := Spell(c);
            && ReservedBit(raw) == 0 && Mode(raw) == 1 && ModeDependent(raw) == 0
            && Resolution(raw) == |c.digits| && BaseCell(raw) == c.base
            && forall p :: 1 <= p <= MAX_RESOLUTION ==>
                 RawDigit(raw, p) == if p <= |c.digits| then c.digits[p - 1] else 7
  {
    var h, ds := Header(|c.digits|, c.base), c.digits + Fill(MAX_RESOLUTION - |c.digits|, 7);
    HeaderOfWord(h, ds);
    HeaderSplit(|c.digits|, c.base);
    forall p | 1 <= p <= MAX_RESOLUTION ensures RawDigit(Spell(c), p) == ds[p - 1] {
      DigitAt(h, ds, p - 1);
    }
  }

  /** The cell a raw word spells, read field by field. */
  function CellOf(raw: nat): (c: Cell)
    ensures |c.digits| == Resolution(raw)
  {
    Cell(BaseCell(raw), DigitsOf(raw, 15)[..Resolution(raw)])
  }

  lemma {:induction false} DigitsOfAt(x: nat, n: nat, i: nat)
    requires i < n
    ensures DigitsOf(x, n)[i] == GetDigit(x, n - 1 - i)
    decreases n
  {
    if i < n - 1 { DigitsOfAt(x / 8, n - 1, i); }
  }

  /** Spelling and reading are inverse. */
  lemma SpellRoundTrip(c: Cell)
    requires IsCell(c)
    ensures CellOf(Spell(c)) == c
  {
    SpelledFields(c);
    var raw := Spell(c);
    forall i | 0 <= i < |c.digits| ensures DigitsOf(raw, 15)[i] == c.digits[i] {
      DigitsOfAt(raw, 15, i);
      assert RawDigit(raw, i + 1) == c.digits[i];
    }
    assert DigitsOf(raw, 15)[..|c.digits|] == c.digits;
  }

  /** Two spellings agree only for the same cell. */
  lemma SpellInjective(c: Cell, d: Cell)
    requires |c.digits| <= 15 && |d.digits| <= 15 && c.base < 0x80 && d.base < 0x80
    requires Spell(c) == Spell(d)
    ensures c == d
  {
    var x, y := c.digits + Fill(15 - |c.digits|, 7), d.digits + Fill(15 - |d.digits|, 7);
    WordInjective(Header(|c.digits|, c.base), Header(|d.digits|, d.base), x, y);
    assert |c.digits| == |d.digits|;
    assert c.digits == x[..|c.digits|] && d.digits == y[..|d.digits|];
  }

  lemma SpellFits(c: Cell)
    requires |c.digits| <= 15 && c.base < 0x80
    ensures Spell(c) < 0x1_0000_0000_0000_0000
  {
    Scale15();
    WordBound(Header(|c.digits|, c.base), c.digits + Fill(15 - |c.digits|, 7), 0x2000_0000_0000);
  }

  /** The conditions that the validators test. */
  ghost predicate FieldsValid(raw: nat)
  {
    && ReservedBit(raw) == 0 && Mode(raw) == 1 && ModeDependent(raw) == 0 && BaseCell(raw) <= MAX_BASE_CELL
    && (forall p :: 1 <= p <= Resolution(raw) ==> RawDigit(raw, p) <= 6)
    && (forall p :: Resolution(raw) < p <= MAX_RESOLUTION ==> RawDigit(raw, p) == 7)
    && (BaseCell(raw) in PENTAGON_BASE_CELLS ==> LeadingDigit(CellOf(raw).digits) != 1)
  }

  /** The validators accept exactly the spellings of cells. */
  lemma ValidIffIndex(raw: nat)
    ensures FieldsValid(raw) <==> IsIndex(raw)
    ensures IsIndex(raw) ==> IsCell(CellOf(raw)) && raw == Spell(CellOf(raw))
  {
    if IsIndex(raw) {
      var c :| IsCell(c) && raw == Spell(c);
      SpellRoundTrip(c);
      SpelledFields(c);
    }
    if FieldsValid(raw) { FieldsSpell(raw); }
  }

  lemma FieldsSpell(raw: nat)
    requires FieldsValid(raw)
    ensures IsCell(CellOf(raw)) && raw == Spell(CellOf(raw))
  {
    var c, ds := CellOf(raw), DigitsOf(raw, 15);
    forall i | 0 <= i < 15 ensures ds[i] == RawDigit(raw, i + 1) { DigitsOfAt(raw, 15, i); }
    WordOfDigits(raw, 15);
    HeaderFields(ShiftRight(raw, 15));
    assert ds == c.digits + Fill(15 - |c.digits|, 7);
  }

  // ----- the code -----

  /** CellIndex::try_from: header, digits, then the pentagon rule. */
  method TryFrom(raw: u64) returns (r: Result<u64>)
    ensures r.Ok? <==> IsIndex(raw)
    ensures r.Ok? ==> r.value == raw
  {
    ValidIffIndex(raw);
    if ReservedBit(raw) != 0 || Mode(raw) != 1 || ModeDependent(raw) != 0 || BaseCell(raw) > MAX_BASE_CELL {
      return Err(InvalidArgument);
    }
    var resolution := Resolution(raw);
    for p := 1 to resolution + 1
      invariant forall q :: 1 <= q < p ==> RawDigit(raw, q) <= 6
    {
      if RawDigit(raw, p) > 6 { return Err(InvalidArgument); }
    }
    for p := resolution + 1 to MAX_RESOLUTION + 1
      invariant forall q :: resolution < q < p ==> RawDigit(raw, q) == 7
    {
      if RawDigit(raw, p) != 7 { return Err(InvalidArgument); }
    }
    var allowed := ValidatePentagon(raw);
    if !allowed { return Err(InvalidArgument); }
    r := Ok(raw);
  }

  /** validate_pentagon: scans to the first digit that is not zero. */
  method ValidatePentagon(raw: nat) returns (ok: bool)
    ensures ok <==> (BaseCell(raw) in PENTAGON_BASE_CELLS ==> LeadingDigit(CellOf(raw).digits) != 1)
  {
    if BaseCell(raw) !in PENTAGON_BASE_CELLS { return true; }
    ghost var ds := CellOf(raw).digits;
    assert ds[0..] == ds;
    for p := 1 to Resolution(raw) + 1
      invariant LeadingDigit(ds) == LeadingDigit(ds[p - 1..])
    {
      DigitsOfAt(raw, 15, p - 1);
      assert RawDigit(raw, p) == ds[p - 1] && ds[p - 1..][1..] == ds[p..];
      if RawDigit(raw, p) == 1 { return false; }
      if RawDigit(raw, p) != 0 { return true; }
    }
    ok := true;
  }

  /** set_resolution: replaces the four resolution bits. */
  function SetResolution(raw: nat, resolution: nat): int
    requires resolution <= MAX_RESOLUTION
  {
    raw + (resolution - Resolution(raw)) * 0x10_0000_0000_0000
  }

  /** Changing the resolution bits changes only the header. */
  lemma SetResolutionWord(base: nat, from: nat, to: nat, ds: seq<Digit>)
    requires base < 0x80 && from <= MAX_RESOLUTION && to <= MAX_RESOLUTION && |ds| == 15
    ensures SetResolution(Word(Header(from, base), ds), to) == Word(Header(to, base), ds)
  {
    var h, g := Header(from, base), Header(to, base);
    HeaderOfWord(h, ds);
    HeaderSplit(from, base);
    Scale15();
    Rehead(h, g, ds, 0x2000_0000_0000);
  }

  /** `ds` with the digits from n up to m replaced by d. */
  ghost function Filled(ds: seq<Digit>, n: nat, m: nat, d: Digit): (out: seq<Digit>)
    ensures |out| == |ds|
  {
    seq(|ds|, i requires 0 <= i < |ds| => if n <= i < m then d else ds[i])
  }

  /** One turn of the digit loops. */
  lemma FillStep(h: nat, ds: seq<Digit>, n: nat, m: nat, d: Digit)
    requires n <= m < 15 && |ds| == 15
    ensures SetDigit(Word(h, Filled(ds, n, m, d)), 14 - m, d) == Word(h, Filled(ds, n, m + 1, d))
  {
    ReplaceDigit(h, Filled(ds, n, m, d), m, d);
    assert Filled(ds, n, m, d)[m := d] == Filled(ds, n, m + 1, d);
  }

  lemma FillEnds(ds: seq<Digit>, n: nat, d: Digit)
    requires n <= 15 && |ds| == 15
    ensures Filled(ds, n, n, d) == ds && Filled(ds, n, 15, d) == ds[..n] + Fill(15 - n, d)
  {
  }

  /** truncate_raw: new resolution bits, then sevens from there on. */
  method TruncateRaw(raw: nat, resolution: nat) returns (truncated: nat)
    requires IsIndex(raw) && resolution <= Resolution(raw)
    ensures IsIndex(truncated) && truncated == Spell(Truncated(CellOf(raw), resolution))
    ensures CellOf(truncated) == Truncated(CellOf(raw), resolution)
  {
    ValidIffIndex(raw);
    ghost var c := CellOf(raw);
    TruncatedIsCell(c, resolution);
    SpellRoundTrip(Truncated(c, resolution));
    ghost var h, ds := Header(resolution, c.base), c.digits + Fill(15 - |c.digits|, 7);
    SetResolutionWord(c.base, |c.digits|, resolution, ds);
    truncated := SetResolution(raw, resolution);
    FillEnds(ds, resolution, 7);
    for position := resolution + 1 to MAX_RESOLUTION + 1
      invariant truncated == Word(h, Filled(ds, resolution, position - 1, 7))
    {
      FillStep(h, ds, resolution, position - 1, 7);
      truncated := SetDigit(truncated, MAX_RESOLUTION - position, 7);
    }
    assert ds[..resolution] == c.digits[..resolution];
  }

  /** The inclusive atom-key interval of a cell. */
  function LowestAtom(c: Cell): nat
    requires |c.digits| <= MAX_RESOLUTION
  {
    Word(Header(15, c.base), c.digits + Fill(15 - |c.digits|, 0))
  }

  function HighestAtom(c: Cell): nat
    requires |c.digits| <= MAX_RESOLUTION
  {
    Word(Header(15, c.base), c.digits + Fill(15 - |c.digits|, 6))
  }

  /** atom_range: zeros and sixes in every finer digit. */
  method AtomRange(raw: nat) returns (lower: nat, upper: nat)
    requires IsIndex(raw)
    ensures lower == LowestAtom(CellOf(raw)) && upper == HighestAtom(CellOf(raw))
  {
    ghost var c := CellOf(raw);
    AtomEnds(raw);
    lower := SetResolution(raw, 15);
    upper := lower;
    for position := Resolution(raw) + 1 to MAX_RESOLUTION + 1
      invariant lower == FilledWord(c, position - 1, 0) && upper == FilledWord(c, position - 1, 6)
    {
      FilledWordStep(c, position - 1, 0);
      FilledWordStep(c, position - 1, 6);
      lower := SetDigit(lower, MAX_RESOLUTION - position, 0);
      upper := SetDigit(upper, MAX_RESOLUTION - position, 6);
    }
  }

  /** The digits of a cell's word: its own, then sevens. */
  ghost function Sevens(c: Cell): (ds: seq<Digit>)
    requires |c.digits| <= MAX_RESOLUTION
    ensures |ds| == 15
  {
    c.digits + Fill(15 - |c.digits|, 7)
  }

  /** The atom word of a cell with its finer digits up to m set to d. */
  ghost function FilledWord(c: Cell, m: nat, d: Digit): nat
    requires |c.digits| <= MAX_RESOLUTION
  {
    Word(Header(15, c.base), Filled(Sevens(c), |c.digits|, m, d))
  }

  lemma FilledWordStep(c: Cell, m: nat, d: Digit)
    requires |c.digits| <= m < 15
    ensures SetDigit(FilledWord(c, m, d), 14 - m, d) == FilledWord(c, m + 1, d)
  {
    FillStep(Header(15, c.base), Sevens(c), |c.digits|, m, d);
  }

  /** Where the digit loop of atom_range starts and ends. */
  lemma AtomEnds(raw: nat)
    requires IsIndex(raw)
    ensures var c := CellOf(raw);
            && |c.digits| == Resolution(raw) <= MAX_RESOLUTION
            && SetResolution(raw, 15) == FilledWord(c, |c.digits|, 0) == FilledWord(c, |c.digits|, 6)
            && LowestAtom(c) == FilledWord(c, 15, 0) && HighestAtom(c) == FilledWord(c, 15, 6)
  {
    ValidIffIndex(raw);
    var c := CellOf(raw);
    var ds := Sevens(c);
    SetResolutionWord(c.base, |c.digits|, 15, ds);
    FillEnds(ds, |c.digits|, 0);
    FillEnds(ds, |c.digits|, 6);
    assert ds[..|c.digits|] == c.digits;
  }

  /** A valid atom key lies in a cell's interval exactly when it is a descendant
      of the cell, that is, when truncating it gives the cell. */
  lemma AtomRangeExact(c: Cell, a: Cell)
    requires IsCell(c) && IsAtom(a)
    ensures LowestAtom(c) <= Spell(a) <= HighestAtom(c) <==> Under(a, c)
    ensures Under(a, c) <==> Truncated(a, |c.digits|) == c
  {
    var r := |c.digits|;
    assert a.digits + Fill(0, 7) == a.digits;
    PrefixInterval(Header(15, c.base), c.digits, Fill(15 - r, 0), Fill(15 - r, 6), Header(15, a.base), a.digits);
    assert a.digits[..r] == c.digits <==> c.digits <= a.digits;
  }

  /** covering.rs child(): the next resolution and one more digit, validated. */
  method Child(raw: nat, digit: Digit) returns (r: Result<u64>)
    requires IsIndex(raw) && Resolution(raw) < MAX_RESOLUTION && digit <= 6
    ensures r.Ok? <==> !(digit == 1 && IsPentagonCell(CellOf(raw)))
    ensures r.Ok? ==> IsIndex(r.value) && CellOf(r.value) == Cell(CellOf(raw).base, CellOf(raw).digits + [digit])
  {
    ValidIffIndex(raw);
    ghost var c := CellOf(raw);
    ghost var n, child := |c.digits|, Cell(c.base, c.digits + [digit]);
    ghost var h, ds := Header(n + 1, c.base), c.digits + Fill(15 - n, 7);
    SetResolutionWord(c.base, n, n + 1, ds);
    ReplaceDigit(h, ds, n, digit);
    assert ds[n := digit] == child.digits + Fill(14 - n, 7);
    ChildIsCell(c, digit);
    var spelled := SetDigit(SetResolution(raw, Resolution(raw) + 1), MAX_RESOLUTION - (Resolution(raw) + 1), digit);
    assert spelled == Spell(child);
    SpellFits(child);
    r := TryFrom(spelled);
    ValidIffIndex(spelled);
    if IsIndex(spelled) { SpellInjective(CellOf(spelled), child); }
  }
}
