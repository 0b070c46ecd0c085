/** The number theory behind the profiler's hash table: stepping through a prime-sized table visits every slot. */
module Primes {
  import opened Arith

  predicate IsPrime(n: nat) {
    n > 1 && forall k :: 1 < k < n ==> n % k != 0
  }

  // ------------------------------------------------------------------ trial division

  /** None of the sixteen numbers from k on divides n. */
  predicate Block(n: nat, k: nat)
    requires k > 0
  {
    && n % k != 0 && n % (k + 1) != 0 && n % (k + 2) != 0 && n % (k + 3) != 0
    && n % (k + 4) != 0 && n % (k + 5) != 0 && n % (k + 6) != 0 && n % (k + 7) != 0
    && n % (k + 8) != 0 && n % (k + 9) != 0 && n % (k + 10) != 0 && n % (k + 11) != 0
    && n % (k + 12) != 0 && n % (k + 13) != 0 && n % (k + 14) != 0 && n % (k + 15) != 0
  }

  /** No number from 2 up to and excluding limit divides n. */
  predicate NoDivisor(n: nat, limit: nat) {
    forall k :: 2 <= k < limit ==> n % k != 0
  }

  lemma NextBlock(n: nat, k: nat)
    requires k >= 2 && NoDivisor(n, k) && Block(n, k)
    ensures NoDivisor(n, k + 16)
  {
    forall j | 2 <= j < k + 16
      ensures n % j != 0
    {
      if j >= k {
        var i := j - k;
        assert j == k + i;
      }
    }
  }

  /** Trial division up to the square root is enough. */
  lemma TrialDivision(n: nat, root: nat)
    requires n > 1 && root > 0 && n < (root + 1) * (root + 1) && NoDivisor(n, root + 1) && root < n
    ensures IsPrime(n)
  {
    hide NoDivisor;
    forall k | 1 < k < n
      ensures n % k != 0
    {
      if k <= root {
        assert n % k != 0 by { NoDivisorAt(n, root + 1, k); }
      } else {
        CofactorFound(n, k, root);
      }
    }
  }

  /** A divisor beyond the root comes with one up to the root. */
  lemma CofactorFound(n: nat, k: nat, root: nat)
    requires root < k < n && 0 < root && n < (root + 1) * (root + 1) && NoDivisor(n, root + 1)
    ensures n % k != 0
  {
    hide NoDivisor;
    var q := n / k;
    QuotientRemainder(n, k);
    if n % k == 0 {
      CofactorSmall(n, k, q, root);
      NoDivisorAt(n, root + 1, q);
      DivideUnique(n, q, k, 0);
    }
  }

  lemma CofactorSmall(n: nat, k: nat, q: int, root: nat)
    requires n == q * k && root < k < n && n < (root + 1) * (root + 1)
    ensures 2 <= q <= root
  {
    if q <= 1 { MulLe(q, 1, k); }
    if q > root {
      MulLe(root + 1, q, k);
      MulLe(root + 1, k, root + 1);
    }
  }

  lemma NoDivisorAt(n: nat, limit: nat, k: nat)
    requires NoDivisor(n, limit) && 2 <= k < limit
    ensures n % k != 0
  {
  }

  lemma NothingToDivide(n: nat)
    ensures NoDivisor(n, 2)
  {
  }

  lemma TrialLow()
    ensures NoDivisor(94349, 114)
  {
    hide NoDivisor;
    NothingToDivide(94349);
    NextBlock(94349, 2);
    NextBlock(94349, 18);
    NextBlock(94349, 34);
    NextBlock(94349, 50);
    NextBlock(94349, 66);
    NextBlock(94349, 82);
    NextBlock(94349, 98);
  }

  lemma TrialMiddle()
    ensures NoDivisor(94349, 226)
  {
    hide NoDivisor;
    TrialLow();
    NextBlock(94349, 114);
    NextBlock(94349, 130);
    NextBlock(94349, 146);
    NextBlock(94349, 162);
    NextBlock(94349, 178);
    NextBlock(94349, 194);
    NextBlock(94349, 210);
  }

  lemma TrialHigh()
    ensures NoDivisor(94349, 322)
  {
    hide NoDivisor;
    TrialMiddle();
    NextBlock(94349, 226);
    NextBlock(94349, 242);
    NextBlock(94349, 258);
    NextBlock(94349, 274);
    NextBlock(94349, 290);
    NextBlock(94349, 306);
  }

  /** The size of the profiler's table is a prime. */
  lemma TableSizeIsPrime()
    ensures IsPrime(94349)
  {
    hide NoDivisor;
    TrialHigh();
    TrialDivision(94349, 321);
  }

  // ------------------------------------------------------------------ stepping through a prime-sized table

  /** Two numbers have a common divisor that is a combination of them. */
  lemma {:induction false} Bezout(a: nat, b: nat) returns (x: int, y: int, g: nat)
    requires a > 0
    ensures g > 0 && a * x + b * y == g && a % g == 0 && b % g == 0
    decreases b
  {
    if b == 0 {
      x, y, g := 1, 0, a;
      DivideUnique(a, a, 1, 0);
      DivideUnique(0, a, 0, 0);
    } else {
      QuotientRemainder(a, b);
      var q, r := a / b, a % b;
      var u, v, h := Bezout(b, r);
      // b * u + (a - q * b) * v == h
      x, y, g := v, u - q * v, h;
      assert a * v + b * (u - q * v) == b * u + r * v by {
        MulSum(a, q * b, v);
        MulAssoc(q, b, v);
        assert b * (u - q * v) == b * u - b * (q * v);
      }
      QuotientRemainder(b, g);
      QuotientRemainder(r, g);
      MulAssoc(q, b / g, g);
      MulSum(q * (b / g), r / g, g);
      MulNonNegative(q, b / g);
      MultipleModulo(q * (b / g) + r / g, g);
    }
  }

  /** Every step smaller than a prime has an inverse modulo the prime. */
  lemma Inverse(n: nat, step: nat) returns (x: int, y: int)
    requires IsPrime(n) && 0 < step < n
    ensures step * x + n * y == 1
  {
    var u, v, g := Bezout(step, n);
    QuotientRemainder(step, g);
    if g > step { assert step / g == 0 by { DivideUnique(step, g, 0, step); } }
    x, y := u, v;
  }

  /** The k-th slot looked at when starting at `start` and advancing by `step`. */
  function Probe(n: nat, start: nat, step: nat, k: nat): (r: nat)
    requires n > 0
    ensures r < n
  {
    MulNonNegative(k, step);
    (start + k * step) % n
  }

  lemma ProbeNext(n: nat, start: nat, step: nat, k: nat)
    requires n > 0
    ensures Probe(n, start, step, k + 1) == (Probe(n, start, step, k) + step) % n
    ensures start < n ==> Probe(n, start, step, 0) == start
  {
    MulNonNegative(k, step);
    MulSum(k, 1, step);
    var w := start + k * step;
    QuotientRemainder(w, n);
    QuotientRemainder(w % n + step, n);
    MulSum(w / n, (w % n + step) / n, n);
    MulNonNegative(k + 1, step);
    DivideUnique(w + step, n, w / n + (w % n + step) / n, (w % n + step) % n);
    if start < n { DivideUnique(start, n, 0, start); }
  }

  /** Within n probes of a prime-sized table every slot comes up. */
  lemma ProbesReachEverySlot(n: nat, start: nat, step: nat, slot: nat) returns (k: nat)
    requires IsPrime(n) && 0 < step < n && start < n && slot < n
    ensures k < n && Probe(n, start, step, k) == slot
  {
    var x, y := Inverse(n, step);
    var d := (slot - start) * x;
    k := d % n;
    var c := d / n;
    FloorDivide(d, n);
    // start + k * step == slot - n * (...)
    var m := (slot - start) * y + c * step;
    assert k * step == (slot - start) - m * n by {
      MulSum(d, c * n, step);
      MulAssoc(slot - start, x, step);
      assert x * step == 1 - y * n by { assert step * x == x * step && n * y == y * n; }
      assert (slot - start) * (1 - y * n) == (slot - start) - (slot - start) * (y * n);
      MulAssoc(slot - start, y, n);
      MulAssoc(c, n, step);
      MulSum((slot - start) * y, c * step, n);
    }
    MulNonNegative(k, step);
    DivideUnique(start + k * step, n, -m, slot);
  }

  lemma FloorDivide(x: int, n: nat)
    requires n > 0
    ensures x == x / n * n + x % n && 0 <= x % n < n
  {
  }
}
