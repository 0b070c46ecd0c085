/** Single bits of a machine word. */
module Bitmap {
  import opened Words
  import opened Arith

  predicate IsSet(w: nat, i: nat) {
    (w / Pow2(i)) % 2 == 1
  }

  /** w |= BIT(i) */
  function SetBit(w: nat, i: nat): nat {
    if IsSet(w, i) then w else w + Pow2(i)
  }

  /** w &= ~BIT(i) */
  function ClearBit(w: nat, i: nat): nat
  {
    if IsSet(w, i) then BitWithin(w, i); w - Pow2(i) else w
  }

  lemma BitWithin(w: nat, i: nat)
    requires IsSet(w, i)
    ensures Pow2(i) <= w
  {
    QuotientRemainder(w, Pow2(i));
    MulLe(1, w / Pow2(i), Pow2(i));
  }

  /** A word is a high part, bit i, and a low part. */
  lemma SplitAt(w: nat, i: nat)
    ensures var high, low := w / (2 * Pow2(i)), w % Pow2(i);
            && w == high * (2 * Pow2(i)) + (if IsSet(w, i) then Pow2(i) else 0) + low
            && 0 <= low < Pow2(i) && 0 <= high
  {
    hide Pow2;
    var p := Pow2(i);
    QuotientRemainder(w, p);
    QuotientRemainder(w / p, 2);
    DivideTwice(w, p, 2);
    MulSum(w / p / 2 * 2, (w / p) % 2, p);
    MulAssoc(w / p / 2, 2, p);
  }

  /** Adding bit i to a word without it changes that bit only. */
  lemma AddBit(w: nat, i: nat, j: nat)
    requires !IsSet(w, i)
    ensures IsSet(w + Pow2(i), j) <==> j == i || IsSet(w, j)
  {
    hide Pow2;
    SplitAt(w, i);
    var p, high, low := Pow2(i), w / (2 * Pow2(i)), w % Pow2(i);
    var v := w + p;
    if j == i {
      MulAssoc(high, 2, p);
      assert v == (high * 2 + 1) * p + low by { MulSum(high * 2, 1, p); }
      DivideUnique(v, p, high * 2 + 1, low);
    } else if j < i {
      BitBelow(w, i, j);
    } else {
      BitAbove(high, low, i, j);
    }
  }

  /** A lower bit does not see the addition of a higher power. */
  lemma BitBelow(w: nat, i: nat, j: nat)
    requires j < i
    ensures IsSet(w + Pow2(i), j) <==> IsSet(w, j)
  {
    hide Pow2;
    var q := Pow2(j);
    var k := Pow2(i - j - 1);
    Pow2Add(i - j - 1, j + 1);
    PowStep(j);
    MulAssoc(k, 2, q);
    QuotientRemainder(w, q);
    assert Pow2(i) == (2 * k) * q by { assert k * (2 * q) == (2 * k) * q; }
    MulSum(w / q, 2 * k, q);
    DivideUnique(w + Pow2(i), q, w / q + 2 * k, w % q);
    QuotientRemainder(w / q, 2);
    DivideUnique(w / q + 2 * k, 2, (w / q) / 2 + k, (w / q) % 2);
  }

  lemma PowStep(j: nat)
    ensures Pow2(j + 1) == 2 * Pow2(j)
  {
  }

  /** Above bit i, a word and the word with bit i added agree. */
  lemma BitAbove(high: nat, low: nat, i: nat, j: nat)
    requires i < j && low < Pow2(i)
    ensures high * (2 * Pow2(i)) >= 0
    ensures IsSet(high * (2 * Pow2(i)) + low + Pow2(i), j) <==> IsSet(high * (2 * Pow2(i)) + low, j)
  {
    hide Pow2;
    var p := 2 * Pow2(i);
    var k := Pow2(j - i - 1);
    PowStep(i);
    Pow2Add(j - i - 1, i + 1);
    MulNonNegative(high, p);
    assert Pow2(j) == k * p;
    DivideUnique(high * p + low, p, high, low);
    DivideUnique(high * p + low + Pow2(i), p, high, low + Pow2(i));
    DivideTwice(high * p + low, p, k);
    DivideTwice(high * p + low + Pow2(i), p, k);
  }

  lemma SetBitAt(w: nat, i: nat, j: nat)
    ensures IsSet(SetBit(w, i), j) <==> j == i || IsSet(w, j)
  {
    hide Pow2;
    if !IsSet(w, i) { AddBit(w, i, j); }
  }

  lemma ClearBitAt(w: nat, i: nat, j: nat)
    ensures IsSet(ClearBit(w, i), j) <==> j != i && IsSet(w, j)
  {
    hide Pow2;
    if IsSet(w, i) {
      BitWithin(w, i);
      var v := w - Pow2(i);
      NoBit(w, i);
      AddBit(v, i, j);
    }
  }

  lemma NoBit(w: nat, i: nat)
    requires IsSet(w, i)
    ensures Pow2(i) <= w && !IsSet(w - Pow2(i), i)
  {
    hide Pow2;
    BitWithin(w, i);
    SplitAt(w, i);
    var p, high, low := Pow2(i), w / (2 * Pow2(i)), w % Pow2(i);
    MulAssoc(high, 2, p);
    DivideUnique(w - p, p, high * 2, low);
    DivideUnique(high * 2, 2, high, 0);
  }

  /** The bit found by counting leading zeros is set, and none above it. */
  lemma HighestBit(w: nat, h: nat, j: nat)
    requires Pow2(h) <= w < Pow2(h + 1)
    ensures IsSet(w, h) && (j > h ==> !IsSet(w, j))
  {
    hide Pow2;
    PowStep(h);
    DivideUnique(w, Pow2(h), 1, w - Pow2(h));
    if j > h {
      Pow2Monotone(h + 1, j);
      DivideUnique(w, Pow2(j), 0, w);
    }
  }

  lemma NoBitsInZero(i: nat)
    ensures !IsSet(0, i)
  {
    DivideUnique(0, Pow2(i), 0, 0);
  }

  /** A word below 2^n has no bit from n on. */
  lemma BitsBelow(w: nat, n: nat, j: nat)
    requires w < Pow2(n) && n <= j
    ensures !IsSet(w, j)
  {
    hide Pow2;
    Pow2Monotone(n, j);
    DivideUnique(w, Pow2(j), 0, w);
  }

  /** Setting one of the low n bits stays within n bits. */
  lemma SetBitFits(w: nat, i: nat, n: nat)
    requires i < n && w < Pow2(n)
    ensures SetBit(w, i) < Pow2(n)
  {
    hide Pow2;
    SplitAt(w, i);
    PowStep(i);
    Pow2Add(n - i - 1, i + 1);
    var p, high := 2 * Pow2(i), w / (2 * Pow2(i));
    DivideBelow(w, p, Pow2(n - i - 1));
    MulLe(high + 1, Pow2(n - i - 1), p);
    MulSum(high, 1, p);
  }
}
