/** A machine word read in groups of three bits, as the cell index reads it: a
    leading part followed by octal digits. */
module Octal {

  type Digit = d: int | 0 <= d < 8

  /** `x >> 3k` */
  function ShiftRight(x: nat, k: nat): nat
    decreases k, x
  {
    if k == 0 then x else ShiftRight(x / 8, k - 1)
  }

  /** `(x >> 3k) & 0b111` */
  function GetDigit(x: nat, k: nat): Digit
  {
    ShiftRight(x, k) % 8
  }

  /** `(x & !(0b111 << 3k)) | (d << 3k)` */
  function SetDigit(x: nat, k: nat, d: Digit): nat
    decreases k, x
  {
    if k == 0 then x / 8 * 8 + d else SetDigit(x / 8, k - 1, d) * 8 + x % 8
  }

  /** The word whose leading part is `h` and whose trailing digits are `ds`. */
  function Word(h: nat, ds: seq<Digit>): nat
  {
    if ds == [] then h else 8 * Word(h, ds[..|ds| - 1]) + ds[|ds| - 1]
  }

  function DigitsOf(x: nat, n: nat): (ds: seq<Digit>)
    ensures |ds| == n
    decreases n, x
  {
    if n == 0 then [] else DigitsOf(x / 8, n - 1) + [x % 8]
  }

  lemma {:induction false} WordOfDigits(x: nat, n: nat)
    ensures x == Word(ShiftRight(x, n), DigitsOf(x, n))
    decreases n
  {
    if n > 0 {
      WordOfDigits(x / 8, n - 1);
      assert DigitsOf(x, n)[..n - 1] == DigitsOf(x / 8, n - 1);
    }
  }

  /** Shifting out k digits leaves the earlier ones. */
  lemma {:induction false} ShiftOut(h: nat, ds: seq<Digit>, k: nat)
    requires k <= |ds|
    ensures ShiftRight(Word(h, ds), k) == Word(h, ds[..|ds| - k])
    decreases k
  {
    if k == 0 {
      assert ds[..|ds|] == ds;
    } else {
      var front := ds[..|ds| - 1];
      ShiftOut(h, front, k - 1);
      assert front[..|front| - (k - 1)] == ds[..|ds| - k];
    }
  }

  /** The digit i places from the left is what a shift and a mask read. */
  lemma DigitAt(h: nat, ds: seq<Digit>, i: nat)
    requires i < |ds|
    ensures GetDigit(Word(h, ds), |ds| - 1 - i) == ds[i]
  {
    ShiftOut(h, ds, |ds| - 1 - i);
    var front := ds[..i + 1];
    assert front[..i] == ds[..i] && front[i] == ds[i];
  }

  /** Masking another digit in replaces exactly that digit. */
  lemma {:induction false} ReplaceDigit(h: nat, ds: seq<Digit>, i: nat, d: Digit)
    requires i < |ds|
    ensures SetDigit(Word(h, ds), |ds| - 1 - i, d) == Word(h, ds[i := d])
  {
    var n := |ds| - 1;
    var front, x := ds[..n], Word(h, ds);
    assert x / 8 == Word(h, front) && x % 8 == ds[n];
    if i == n {
      assert ds[i := d][..n] == front;
    } else {
      ReplaceDigit(h, front, i, d);
      assert ds[i := d][..n] == front[i := d];
    }
  }

  lemma {:induction false} WordInjective(g: nat, h: nat, a: seq<Digit>, b: seq<Digit>)
    requires |a| == |b| && Word(g, a) == Word(h, b)
    ensures g == h && a == b
  {
    if a != [] {
      var n := |a| - 1;
      WordInjective(g, h, a[..n], b[..n]);
      assert a == a[..n] + [a[n]] && b == b[..n] + [b[n]];
    }
  }

  /** Digitwise smaller tails give smaller words. */
  lemma {:induction false} WordMonotone(h: nat, a: seq<Digit>, b: seq<Digit>)
    requires |a| == |b| && forall i :: 0 <= i < |a| ==> a[i] <= b[i]
    ensures Word(h, a) <= Word(h, b)
  {
    if a != [] { WordMonotone(h, a[..|a| - 1], b[..|a| - 1]); }
  }

  lemma {:induction false} ShiftMonotone(x: nat, y: nat, k: nat)
    requires x <= y
    ensures ShiftRight(x, k) <= ShiftRight(y, k)
    decreases k
  {
    if k > 0 { ShiftMonotone(x / 8, y / 8, k - 1); }
  }

  function Scale(n: nat): nat
  {
    if n == 0 then 1 else 8 * Scale(n - 1)
  }

  lemma Scale15()
    ensures Scale(15) == 0x2000_0000_0000
  {
    assert Scale(3) == 0x200;
    assert Scale(5) == 64 * Scale(3);
    assert Scale(7) == 64 * Scale(5);
    assert Scale(9) == 64 * Scale(7);
    assert Scale(11) == 64 * Scale(9);
    assert Scale(13) == 64 * Scale(11);
    assert Scale(15) == 64 * Scale(13);
  }

  /** Another leading part moves the word by a multiple of the scale. */
  lemma {:induction false} Rehead(h: nat, g: nat, ds: seq<Digit>, unit: nat)
    requires unit == Scale(|ds|)
    ensures Word(g, ds) == Word(h, ds) + (g - h) * unit
  {
    if ds != [] {
      var u := Scale(|ds| - 1);
      Rehead(h, g, ds[..|ds| - 1], u);
      assert (g - h) * (8 * u) == 8 * ((g - h) * u);
    }
  }

  lemma {:induction false} WordBound(h: nat, ds: seq<Digit>, unit: nat)
    requires unit == Scale(|ds|)
    ensures Word(h, ds) < (h + 1) * unit
  {
    if ds != [] {
      var u := Scale(|ds| - 1);
      WordBound(h, ds[..|ds| - 1], u);
      assert (h + 1) * (8 * u) == 8 * ((h + 1) * u);
    }
  }

  lemma {:induction false} AllSevens(ds: seq<Digit>, unit: nat)
    requires unit == Scale(|ds|) && forall i :: 0 <= i < |ds| ==> ds[i] == 7
    ensures Word(0, ds) == unit - 1
  {
    if ds != [] { AllSevens(ds[..|ds| - 1], Scale(|ds| - 1)); }
  }

  /** An interval spanned by the smallest and largest tails of one prefix holds
      exactly the words with that prefix and tail digits in between. */
  lemma PrefixInterval(h: nat, prefix: seq<Digit>, lo: seq<Digit>, hi: seq<Digit>, g: nat, ds: seq<Digit>)
    requires |lo| == |hi| && |ds| == |prefix| + |lo|
    requires forall i :: 0 <= i < |lo| ==> lo[i] <= ds[|prefix| + i] <= hi[i]
    ensures Word(h, prefix + lo) <= Word(g, ds) <= Word(h, prefix + hi) <==>
            g == h && ds[..|prefix|] == prefix
  {
    if Word(h, prefix + lo) <= Word(g, ds) <= Word(h, prefix + hi) {
      InsideHasPrefix(h, prefix, lo, hi, g, ds);
    } else if g == h && ds[..|prefix|] == prefix {
      PrefixInside(h, prefix, lo, hi, ds);
    }
  }

  lemma PrefixInside(h: nat, prefix: seq<Digit>, lo: seq<Digit>, hi: seq<Digit>, ds: seq<Digit>)
    requires |lo| == |hi| && |ds| == |prefix| + |lo| && ds[..|prefix|] == prefix
    requires forall i :: 0 <= i < |lo| ==> lo[i] <= ds[|prefix| + i] <= hi[i]
    ensures Word(h, prefix + lo) <= Word(h, ds) <= Word(h, prefix + hi)
  {
    var low, high := prefix + lo, prefix + hi;
    forall i | 0 <= i < |ds| ensures low[i] <= ds[i] <= high[i] {
      if i < |prefix| { assert ds[i] == ds[..|prefix|][i]; } else { assert ds[i] == ds[|prefix| + (i - |prefix|)]; }
    }
    WordMonotone(h, low, ds);
    WordMonotone(h, ds, high);
  }

  lemma ShiftOutTail(h: nat, prefix: seq<Digit>, tail: seq<Digit>)
    ensures ShiftRight(Word(h, prefix + tail), |tail|) == Word(h, prefix)
  {
    ShiftOut(h, prefix + tail, |tail|);
    assert (prefix + tail)[..|prefix|] == prefix;
  }

  lemma InsideHasPrefix(h: nat, prefix: seq<Digit>, lo: seq<Digit>, hi: seq<Digit>, g: nat, ds: seq<Digit>)
    requires |lo| == |hi| && |ds| == |prefix| + |lo|
    requires Word(h, prefix + lo) <= Word(g, ds) <= Word(h, prefix + hi)
    ensures g == h && ds[..|prefix|] == prefix
  {
    var x, y, z := Word(h, prefix + lo), Word(g, ds), Word(h, prefix + hi);
    ShiftMonotone(x, y, |lo|);
    ShiftMonotone(y, z, |lo|);
    ShiftOutTail(h, prefix, lo);
    ShiftOutTail(h, prefix, hi);
    ShiftOut(g, ds, |lo|);
    WordInjective(g, h, ds[..|prefix|], prefix);
  }
}
