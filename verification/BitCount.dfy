/** Counting leading and trailing zeros of a 64-bit word by halving the focus, without branches. */
module BitCount {
  import opened Words
  import opened Arith

  function Bit(b: bool): nat {
    if b then 1 else 0
  }

  lemma {:induction false} PowDouble(half: nat)
    ensures Pow2(2 * half) == Pow2(half) * Pow2(half)
  {
    hide Pow2;
    assert half + half == 2 * half;
    Pow2Add(half, half);
  }

  /** Shifting a mask of 2 * half ones right by half leaves half ones. */
  lemma {:induction false} MaskHalves(half: nat)
    ensures (Pow2(2 * half) - 1) / Pow2(half) == Pow2(half) - 1
  {
    hide Pow2;
    var h := Pow2(half);
    PowDouble(half);
    MulSum(h, 1, h);
    DivideUnique(h * h - 1, h, h - 1, h - 1);
  }

  /** Two shifts add up. */
  lemma {:induction false} ShiftsAdd(w: nat, s: nat, t: nat)
    ensures (w / Pow2(s)) / Pow2(t) == w / Pow2(s + t)
  {
    hide Pow2;
    Pow2Add(t, s);
    DivideTwice(w, Pow2(s), Pow2(t));
  }

  /** x is w shifted right by 64 - count, and only its low `width` bits can be set. */
  predicate ClzFocus(w: Word, width: nat, mask: Word, x: Word, count: int) {
    && mask == Pow2(width) - 1 && x < Pow2(width)
    && width <= count <= 64
    && x == w / Pow2(64 - count)
    && (w != 0 ==> x != 0) && (w == 0 ==> count == 64)
  }

  /** One round: if the upper half of the focus holds a set bit, shift it into the lower half. */
  method ClzRound(ghost w: Word, half: nat, mask0: Word, x0: Word, count0: int)
    returns (mask: Word, x: Word, count: int)
    requires 0 < half <= 32 && ClzFocus(w, 2 * half, mask0, x0, count0)
    ensures ClzFocus(w, half, mask, x, count)
  {
    hide Pow2;
    MaskHalves(half);
    PowDouble(half);
    ShiftByNothing(x0);
    mask := mask0 / Pow2(half);
    var bits := if mask < x0 then half else 0;
    if mask < x0 {
      DivideBelow(x0, Pow2(half), Pow2(half));
      QuotientRemainder(x0, Pow2(half));
    } else if x0 == 0 {
      DivideUnique(0, Pow2(64 - count0), 0, 0);
    }
    ShiftsAdd(w, 64 - count0, bits);
    x := x0 / Pow2(bits);
    count := count0 - bits;
  }

  /** clz64: 64 for zero, and otherwise the place of the highest set bit. */
  method Clz64(w: Word) returns (r: nat)
    ensures w == 0 ==> r == 64
    ensures w != 0 ==> r < 64 && Pow2(63 - r) <= w < Pow2(64 - r)
  {
    hide Pow2;
    Pow2Word();
    ShiftByNothing(w);
    var mask: Word, x: Word, count := WORD - 1, w, 64;
    mask, x, count := ClzRound(w, 32, mask, x, count);
    mask, x, count := ClzRound(w, 16, mask, x, count);
    mask, x, count := ClzRound(w, 8, mask, x, count);
    mask, x, count := ClzRound(w, 4, mask, x, count);
    mask, x, count := ClzRound(w, 2, mask, x, count);
    mask, x, count := ClzRound(w, 1, mask, x, count);
    Pow2Steps(64 - count);
    QuotientRemainder(w, Pow2(64 - count));
    r := count - x;
  }

  lemma ShiftByNothing(w: nat)
    ensures Pow2(0) == 1 && w / Pow2(0) == w
  {
  }

  lemma Pow2Steps(s: nat)
    ensures Pow2(1) == 2 && Pow2(s + 1) == 2 * Pow2(s)
  {
  }

  /** w is x shifted left by count, and some of the low `width` bits of x are set; zero only counts. */
  predicate CtzFocus(w: Word, width: nat, mask: Word, x: Word, count: int) {
    && mask == Pow2(width) - 1 && 0 <= count && width <= 64
    && (w == 0 ==> x == 0 && count == 65 - width)
    && (w != 0 ==> count + width <= 64 && w == x * Pow2(count) && x % Pow2(width) != 0)
  }

  /** One round: if the lower half of the focus is all zero, shift it out. */
  method CtzRound(ghost w: Word, half: nat, mask0: Word, x0: Word, count0: int)
    returns (mask: Word, x: Word, count: int)
    requires 0 < half <= 32 && CtzFocus(w, 2 * half, mask0, x0, count0)
    ensures CtzFocus(w, half, mask, x, count)
  {
    hide Pow2;
    MaskHalves(half);
    PowDouble(half);
    ShiftByNothing(x0);
    mask := mask0 / Pow2(half);
    var low := x0 % (mask + 1);
    var bits := if low == 0 then half else 0;
    QuotientRemainder(x0, Pow2(half));
    if low == 0 {
      ModuloDivideOut(x0, Pow2(half));
      Pow2Add(half, count0);
      MulAssoc(x0 / Pow2(half), Pow2(half), Pow2(count0));
    }
    x := x0 / Pow2(bits);
    count := count0 + bits;
  }

  /** If the lower half of x is zero then what is set lies in the upper half. */
  lemma ModuloDivideOut(x: nat, h: nat)
    requires h > 0 && x % h == 0
    ensures h * h > 0 && 0 <= x / h <= x && ((x / h) % h == 0 ==> x % (h * h) == 0)
  {
    MulLe(1, h, h);
    QuotientRemainder(x, h);
    MulLe(1, h, x / h);
    var y := x / h;
    QuotientRemainder(y, h);
    MulAssoc(y / h, h, h);
    if y % h == 0 { MultipleModulo(y / h, h * h); }
  }

  /** ctz64: 64 for zero, and otherwise the number of times two divides the word. */
  method Ctz64(w: Word) returns (r: nat)
    ensures w == 0 ==> r == 64
    ensures w != 0 ==> r < 64 && w % Pow2(r) == 0 && (w / Pow2(r)) % 2 == 1
  {
    hide Pow2;
    Pow2Word();
    ShiftByNothing(w);
    var mask: Word, x: Word, count := WORD - 1, w, Bit(w == 0);
    mask, x, count := CtzRound(w, 32, mask, x, count);
    mask, x, count := CtzRound(w, 16, mask, x, count);
    mask, x, count := CtzRound(w, 8, mask, x, count);
    mask, x, count := CtzRound(w, 4, mask, x, count);
    mask, x, count := CtzRound(w, 2, mask, x, count);
    mask, x, count := CtzRound(w, 1, mask, x, count);
    Pow2Steps(0);
    MultipleModulo(x, Pow2(count));
    r := count;
  }
}
