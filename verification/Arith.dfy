/** Facts about products, quotients and remainders that the arithmetic proofs share. */
module Arith {
  import opened Words

  lemma MulLe(a: int, b: int, c: nat)
    requires a <= b
    ensures a * c <= b * c
  {
    MulNonNegative(b - a, c);
    assert (b - a) * c == b * c - a * c;
  }

  lemma MulNonNegative(a: nat, b: nat)
    ensures a * b >= 0
  {
  }

  lemma MulSum(a: int, b: int, c: int)
    ensures (a + b) * c == a * c + b * c
    ensures (a - b) * c == a * c - b * c
  {
  }

  lemma MulAssoc(a: int, b: int, c: int)
    ensures (a * b) * c == a * (b * c) == (a * c) * b
  {
  }

  lemma QuotientRemainder(x: nat, s: nat)
    requires s > 0
    ensures x == x / s * s + x % s && 0 <= x % s < s && 0 <= x / s
  {
  }

  /** Division is the only way to write x as a multiple of s and a remainder. */
  lemma DivideUnique(x: nat, s: nat, q: int, r: int)
    requires s > 0 && x == q * s + r && 0 <= r < s
    ensures x / s == q && x % s == r
  {
    QuotientRemainder(x, s);
    var q' := x / s;
    if q < q' {
      MulLe(1, q' - q, s);
      MulSum(q', q, s);
    } else if q' < q {
      MulLe(1, q - q', s);
      MulSum(q, q', s);
    }
  }

  lemma MultipleModulo(q: nat, s: nat)
    requires s > 0
    ensures q * s >= 0 && (q * s) % s == 0 && (q * s) / s == q
  {
    MulNonNegative(q, s);
    DivideUnique(q * s, s, q, 0);
  }

  /** A bound on the quotient from a bound on the number. */
  lemma DivideBelow(x: nat, s: nat, n: nat)
    requires s > 0 && x < n * s
    ensures x / s < n
  {
    QuotientRemainder(x, s);
    if x / s >= n { MulLe(n, x / s, s); }
  }

  lemma DivideAtLeast(x: nat, s: nat, n: nat)
    requires s > 0 && x / s >= n
    ensures n * s <= x
  {
    QuotientRemainder(x, s);
    MulLe(n, x / s, s);
  }

  lemma {:induction false} AlignedModulo(p: nat, bits: nat)
    ensures IsAligned(p, bits) <==> p % Pow2(bits) == 0
  {
    if bits > 0 {
      AlignedModulo(p / 2, bits - 1);
      var h, s := p / 2, Pow2(bits - 1);
      QuotientRemainder(h, s);
      MulAssoc(2, h / s, s);
      var r := 2 * (h % s) + p % 2;
      assert p == (h / s) * (2 * s) + r;
      DivideUnique(p, 2 * s, h / s, r);
    }
  }

  lemma ScaledDivide(a: nat, b: nat, c: nat)
    requires b > 0 && c > 0
    ensures a * c >= 0 && b * c > 0 && (a * c) / (b * c) == a / b
  {
    MulNonNegative(a, c);
    MulLe(1, b, c);
    QuotientRemainder(a, b);
    var q, r := a / b, a % b;
    MulSum(q * b, r, c);
    MulAssoc(q, b, c);
    MulNonNegative(r, c);
    MulSum(b, r, c);
    MulLe(1, b - r, c);
    DivideUnique(a * c, b * c, q, r * c);
  }

  /** The high part of a low part is the low part of the high part. */
  lemma ModuloDivide(x: nat, a: nat, b: nat)
    requires a > 0 && b > 0
    ensures a * b > 0 && (x % (a * b)) / b == (x / b) % a
  {
    MulLe(1, a, b);
    var h, l := x / b, x % b;
    QuotientRemainder(x, b);
    QuotientRemainder(h, a);
    var q, r := h / a, h % a;
    MulSum(q * a, r, b);
    MulAssoc(q, a, b);
    var rest := r * b + l;
    MulNonNegative(r, b);
    MulLe(r + 1, a, b);
    MulSum(r, 1, b);
    DivideUnique(x, a * b, q, rest);
    DivideUnique(rest, b, r, l);
  }

  lemma ScaledModulo(x: nat, a: nat, b: nat)
    requires a > 0 && b > 0
    ensures x * b >= 0 && a * b > 0 && (x * b) % (a * b) == (x % a) * b
  {
    MulNonNegative(x, b);
    MulLe(1, a, b);
    QuotientRemainder(x, a);
    var q, r := x / a, x % a;
    MulSum(q * a, r, b);
    MulAssoc(q, a, b);
    MulNonNegative(r, b);
    MulSum(a, r, b);
    MulLe(1, a - r, b);
    DivideUnique(x * b, a * b, q, r * b);
  }

  lemma ModuloOfModulo(x: nat, a: nat, b: nat)
    requires a > 0 && b > 0
    ensures a * b > 0 && (x % (a * b)) % a == x % a
  {
    MulLe(1, b, a);
    QuotientRemainder(x, a * b);
    var q, r := x / (a * b), x % (a * b);
    QuotientRemainder(r, a);
    MulAssoc(q, a, b);
    MulSum(q * b, r / a, a);
    MulAssoc(q, b, a);
    DivideUnique(x, a, q * b + r / a, r % a);
  }

  lemma DivideTwice(x: nat, a: nat, b: nat)
    requires a > 0 && b > 0
    ensures b * a > 0 && (x / a) / b == x / (b * a)
  {
    MulLe(1, b, a);
    QuotientRemainder(x, a);
    QuotientRemainder(x / a, b);
    var h, l := x / a, x % a;
    var q, r := h / b, h % b;
    MulSum(q * b, r, a);
    MulAssoc(q, b, a);
    MulNonNegative(r, a);
    MulLe(r + 1, b, a);
    MulSum(r, 1, a);
    DivideUnique(x, b * a, q, r * a + l);
  }

  function Multiple(x: nat, p: nat): nat
    requires p > 0
  {
    MulNonNegative(x / p, p);
    x / p * p
  }

  function RoundDown(x: nat, bits: nat): nat {
    Multiple(x, Pow2(bits))
  }

  lemma RoundDownAligned(x: nat, bits: nat)
    ensures 0 <= RoundDown(x, bits) <= x && RoundDown(x, bits) % Pow2(bits) == 0
  {
    QuotientRemainder(x, Pow2(bits));
    MulNonNegative(x / Pow2(bits), Pow2(bits));
    MultipleModulo(x / Pow2(bits), Pow2(bits));
  }
}
