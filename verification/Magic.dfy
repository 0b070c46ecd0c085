/** Division by a constant as a multiplication and a shift: the search for the magic number. */
module Magic {
  import opened Words
  import opened Arith

  /** len(bin(n)) - 2 */
  function BitLength(n: nat): (r: nat)
    ensures n < Pow2(r) && r >= 1
  {
    if n < 2 then 1 else 1 + BitLength(n / 2)
  }

  /** The largest n up to nmax that leaves the remainder d - 1; -1 if there is none. */
  function Critical(nmax: nat, d: nat): int
    requires d > 0
  {
    (nmax + 1) / d * d - 1
  }

  /** What has to be added to t to make it a multiple of d. */
  function Excess(t: nat, d: nat): (e: nat)
    requires t > 0 && d > 0
    ensures e < d
  {
    d - 1 - (t - 1) % d
  }

  function Multiplier(t: nat, d: nat): (m: int)
    requires t > 0 && d > 0
  {
    (t + Excess(t, d)) / d
  }

  /** The condition the search tests. */
  predicate Enough(nmax: nat, d: nat, p: nat)
    requires d > 0
  {
    Pow2(p) > Critical(nmax, d) * Excess(Pow2(p), d)
  }

  /** (n * m) >> p is n div d for every n up to nmax. */
  predicate Divides(nmax: nat, d: nat, m: int, p: nat)
    requires d > 0
  {
    forall n :: 0 <= n <= nmax ==> Shifted(n, m, p) == n / d
  }

  function Shifted(n: nat, m: int, p: nat): int {
    (n * m) / Pow2(p)
  }

  lemma ExcessCompletes(t: nat, d: nat)
    requires t > 0 && d > 0
    ensures Multiplier(t, d) * d == t + Excess(t, d) && Multiplier(t, d) >= 0
  {
    QuotientRemainder(t - 1, d);
    var q := (t - 1) / d;
    MulSum(q, 1, d);
    MultipleModulo(q + 1, d);
  }

  /** The shifted product is the quotient as long as n times the excess stays below the rest of the divisor. */
  lemma QuotientExact(n: nat, d: nat, t: nat, e: nat, m: nat)
    requires d > 0 && t > 0 && m * d == t + e
    requires n * e < (d - n % d) * t
    ensures (n * m) / t == n / d
  {
    var q, r := n / d, n % d;
    QuotientRemainder(n, d);
    MulNonNegative(n, e);
    // d * (n * m - q * t) = r * t + n * e, which lies between 0 and d * t
    var rest := n * m - q * t;
    assert rest * d == r * t + n * e by {
      MulSum(n * m, q * t, d);
      MulAssoc(n, m, d);
      assert n * (t + e) == n * t + n * e;
      MulAssoc(q, t, d);
      MulSum(q * d, r, t);
      MulAssoc(q, d, t);
    }
    MulNonNegative(r, t);
    MulSum(d, r, t);
    assert rest * d < t * d;
    SmallerFactor(rest, t, d);
    MulNonNegative(n, m);
    DivideUnique(n * m, t, q, rest);
  }

  lemma SmallerFactor(a: int, b: nat, d: nat)
    requires d > 0 && 0 <= a * d < b * d
    ensures 0 <= a < b
  {
    if a < 0 { MulLe(a, -1, d); }
    if a >= b { MulLe(b, a, d); }
  }

  /** If the condition holds then every n up to nmax is divided exactly. */
  lemma EnoughDivides(nmax: nat, d: nat, p: nat, n: nat)
    requires 0 < d <= nmax + 1 && Enough(nmax, d, p) && n <= nmax
    ensures Shifted(n, Multiplier(Pow2(p), d), p) == n / d
  {
    var t := Pow2(p);
    var e := Excess(t, d);
    var nc := Critical(nmax, d);
    var k := (nmax + 1) / d;
    QuotientRemainder(nmax + 1, d);
    QuotientRemainder(n, d);
    var r := n % d;
    ExcessCompletes(t, d);
    CriticalAtLeast(nmax, d);
    if n <= nc {
      MulLe(n, nc, e);
      MulLe(1, d - r, t);
    } else {
      // n lies in the incomplete last block, so its remainder is at most d - 2
      LastBlock(nmax, d, n);
      MulSum(nc, n - nc, e);
      MulLe(n - nc, nc, e);
      MulLe(2, d - r, t);
    }
    QuotientExact(n, d, t, e, Multiplier(t, d));
  }

  lemma CriticalAtLeast(nmax: nat, d: nat)
    requires 0 < d <= nmax + 1
    ensures Critical(nmax, d) >= d - 1
  {
    QuotientRemainder(nmax + 1, d);
    var k := (nmax + 1) / d;
    MulLe(1, k, d);
  }

  lemma LastBlock(nmax: nat, d: nat, n: nat)
    requires 0 < d <= nmax + 1 && Critical(nmax, d) < n <= nmax
    ensures n % d <= d - 2 && n - Critical(nmax, d) <= d - 1
  {
    var k := (nmax + 1) / d;
    QuotientRemainder(nmax + 1, d);
    var r := n - k * d;
    DivideUnique(n, d, k, r);
  }

  lemma CriticalAtMost(nmax: nat, d: nat)
    requires d > 0
    ensures Critical(nmax, d) <= nmax
    ensures d > nmax + 1 ==> Critical(nmax, d) == -1
  {
    QuotientRemainder(nmax + 1, d);
    if d > nmax + 1 { DivideUnique(nmax + 1, d, 0, nmax + 1); }
  }

  /** The search succeeds at the latest at twice the bit length. */
  lemma {:induction false} EnoughInTime(nmax: nat, d: nat)
    requires d > 0
    ensures Enough(nmax, d, 2 * BitLength(nmax))
  {
    hide Pow2, BitLength, Critical, Excess;
    var b := BitLength(nmax);
    var h := Pow2(b);
    assert b + b == 2 * b;
    Pow2Add(b, b);
    CriticalAtMost(nmax, d);
    MulLe(1, h, h);
    var nc, e := Critical(nmax, d), Excess(Pow2(2 * b), d);
    if d > nmax + 1 {
      assert nc * e == -e;
    } else {
      CriticalAtLeast(nmax, d);
      ProductBelow(nc, e, h);
    }
  }

  lemma ProductBelow(a: nat, b: nat, h: nat)
    requires a < h && b < h
    ensures a * b < h * h
  {
    MulLe(a, h - 1, b);
    MulLe(b, h - 1, h - 1);
    MulSum(h, 1, h - 1);
    MulSum(h, 1, h);
  }

  /** For a divisor beyond nmax + 1 the search stops at once, with a multiplier that does not divide. */
  lemma TooLargeDivisor(nmax: nat, d: nat)
    requires d > nmax + 1
    ensures Enough(nmax, d, 0) && Multiplier(Pow2(0), d) == 1
    ensures Divides(nmax, d, 1, 0) <==> nmax == 0
  {
    CriticalAtMost(nmax, d);
    var e := Excess(1, d);
    assert 0 % d == 0 by { DivideUnique(0, d, 0, 0); }
    DivideUnique(d, d, 1, 0);
    assert Critical(nmax, d) * e + e == 0;
    DivideUnique(0, d, 0, 0);
    assert Shifted(0, 1, 0) == 0;
    if nmax > 0 {
      DivideUnique(1, d, 0, 1);
      assert Shifted(1, 1, 0) == 1;
    }
  }

  /**
   * magicgu. The search always finds a p, the smallest that meets its condition; and the result divides
   * every n up to nmax exactly if the divisor is at most nmax + 1 (or there is nothing to divide but 0).
   */
  method MagicGu(nmax: nat, d: nat) returns (m: int, p: nat)
    requires d > 0
    ensures p <= 2 * BitLength(nmax) && m == Multiplier(Pow2(p), d)
    ensures Enough(nmax, d, p) && forall k :: 0 <= k < p ==> !Enough(nmax, d, k)
    ensures Divides(nmax, d, m, p) <==> d <= nmax + 1 || nmax == 0
  {
    hide Enough, Divides, Multiplier, Pow2, BitLength;
    var nbits := BitLength(nmax);
    for q: nat := 0 to 2 * nbits + 1
      invariant forall k :: 0 <= k < q ==> !Enough(nmax, d, k)
    {
      if Enough(nmax, d, q) {
        m, p := Multiplier(Pow2(q), d), q;
        if d <= nmax + 1 { AllDivided(nmax, d, q); } else { TooLargeDivisor(nmax, d); }
        return;
      }
    }
    EnoughInTime(nmax, d);
    assert false;
  }

  lemma AllDivided(nmax: nat, d: nat, p: nat)
    requires 0 < d <= nmax + 1 && Enough(nmax, d, p)
    ensures Divides(nmax, d, Multiplier(Pow2(p), d), p)
  {
    forall n | 0 <= n <= nmax
      ensures Shifted(n, Multiplier(Pow2(p), d), p) == n / d
    {
      EnoughDivides(nmax, d, p, n);
    }
  }
}
