/** Machine words and powers of two, shared by every module. */
module Words {

  const WORD_BITS: nat := 64
  const WORD: nat := 0x1_0000_0000_0000_0000

  /** The size of the smallest untyped object. */
  const MIN_UNTYPED_BITS: nat := 4

  type Word = w: int | 0 <= w < WORD

  /** BIT(n) of the C sources, over unbounded integers. */
  function Pow2(n: nat): (r: nat)
    ensures r >= 1
  {
    if n == 0 then 1 else 2 * Pow2(n - 1)
  }

  lemma Pow2Monotone(a: nat, b: nat)
    requires a <= b
    ensures Pow2(a) <= Pow2(b)
  {
    if a < b { Pow2Monotone(a, b - 1); }
  }

  lemma {:induction false} Pow2Add(a: nat, b: nat)
    ensures Pow2(a + b) == Pow2(a) * Pow2(b)
  {
    if a > 0 {
      Pow2Add(a - 1, b);
      assert Pow2(a + b) == 2 * (Pow2(a - 1) * Pow2(b));
    }
  }

  lemma Pow2Of16()
    ensures Pow2(16) == 0x1_0000
  {
    assert Pow2(4) == 16;
    Pow2Add(4, 4);
    Pow2Add(8, 8);
  }

  lemma Pow2Of32()
    ensures Pow2(32) == 0x1_0000_0000
  {
    Pow2Of16();
    Pow2Add(16, 16);
  }

  lemma Pow2Word()
    ensures Pow2(WORD_BITS) == WORD
  {
    Pow2Of32();
    Pow2Add(32, 32);
  }

  /** w & MASK(n) */
  function LowBits(w: Word, n: nat): (r: Word)
    ensures r < Pow2(n)
  {
    if w < Pow2(n) then w else Remainder(w, Pow2(n))
  }

  function Remainder(w: Word, d: nat): (r: Word)
    requires 0 < d <= w
    ensures r == w % d && r < d
  {
    w % d
  }

  /** IS_ALIGNED: the low `bits` bits of p are zero. */
  predicate IsAligned(p: nat, bits: nat) {
    bits == 0 || (p % 2 == 0 && IsAligned(p / 2, bits - 1))
  }
}
