/** Printing numbers into a buffer from the end, dividing by ten with shifts, and reading them back. */
module Format {
  import opened Words
  import opened Arith

  // ------------------------------------------------------------------ dividing by ten

  /** The quotient and remainder by shifts and additions, corrected at most once. */
  method DivideByTen(x: Word) returns (q: Word, rem: nat)
    ensures q == x / 10 && rem == x % 10
  {
    var a: Word := x / 2 + x / 4;
    var b: Word := Round(a, 16);
    var c: Word := Round(b, 0x100);
    var d: Word := Round(c, 0x1_0000);
    var e: Word := Round(d, 0x1_0000_0000);
    q := e / 8;
    QuotientBounds(x, a, b, c, d, e, q);
    rem := x - TimesTen(q);
    if rem > 9 {
      q := q + 1;
      rem := x - TimesTen(q);
    }
  }

  /** q += q >> k, in 64 bits, for divisors k that keep it in range. */
  function Round(q: Word, k: nat): Word
    requires k > 0
  {
    (q + q / k) % WORD
  }

  /** ((q << 2) + q) << 1, in 64 bits. */
  function TimesTen(q: Word): Word {
    ((((q * 4) % WORD + q) % WORD) * 2) % WORD
  }

  /** The shifted sum is at most one below the quotient, and nothing overflows on the way. */
  lemma QuotientBounds(x: Word, a: Word, b: Word, c: Word, d: Word, e: Word, q: Word)
    requires a == x / 2 + x / 4 && b == Round(a, 16) && c == Round(b, 0x100)
    requires d == Round(c, 0x1_0000) && e == Round(d, 0x1_0000_0000) && q == e / 8
    ensures 10 * q <= x < 10 * q + 20
    ensures TimesTen(q) == 10 * q && (x - 10 * q > 9 ==> TimesTen(q + 1) == 10 * (q + 1))
  {
    hide Round, TimesTen;
    Unrounded(x, a, b, c, d, e);
    Closeness(x, a, b, c, d, e, q);
    TimesTenExact(q);
    if x - 10 * q > 9 { TimesTenExact(q + 1); }
  }

  lemma RoundExact(q: Word, k: nat)
    requires k >= 16 && 20 * q <= 17 * WORD
    ensures Round(q, k) == q + q / k && 16 * (q / k) <= q
  {
    QuotientRemainder(q, k);
    MulLe(16, k, q / k);
  }

  lemma TimesTenExact(q: Word)
    requires 10 * q < WORD
    ensures TimesTen(q) == 10 * q
  {
    assert (q * 4) % WORD == q * 4;
    assert (q * 4 + q) % WORD == q * 5;
  }

  lemma Unrounded(x: Word, a: Word, b: Word, c: Word, d: Word, e: Word)
    requires a == x / 2 + x / 4 && b == Round(a, 16) && c == Round(b, 0x100)
    requires d == Round(c, 0x1_0000) && e == Round(d, 0x1_0000_0000)
    ensures b == a + a / 16 && c == b + b / 0x100 && d == c + c / 0x1_0000 && e == d + d / 0x1_0000_0000
  {
    hide Round;
    assert 4 * a <= 3 * x;
    RoundExact(a, 16);
    assert 64 * b <= 51 * x;
    RoundExact(b, 0x100);
    assert 256 * c <= 257 * b;
    RoundExact(c, 0x1_0000);
    assert 65536 * d <= 65537 * c;
    RoundExact(d, 0x1_0000_0000);
  }

  /** Each shift loses less than one, and the factors multiply to just under 8/10. */
  lemma Closeness(x: Word, a: nat, b: nat, c: nat, d: nat, e: nat, q: nat)
    requires a == x / 2 + x / 4 && b == a + a / 16 && c == b + b / 0x100
    requires d == c + c / 0x1_0000 && e == d + d / 0x1_0000_0000 && q == e / 8
    ensures 10 * q <= x < 10 * q + 20
  {
  }

  // ------------------------------------------------------------------ digits

  function DigitChar(d: nat, lower: bool): char
    requires d < 16
  {
    if d < 10 then '0' + d as char else if lower then 'a' + (d - 10) as char else 'A' + (d - 10) as char
  }

  /** The digits of x, most significant first, without leading zeros; nothing for zero. */
  function Digits(x: nat, base: nat, lower: bool): seq<char>
    requires 2 <= base <= 16
  {
    if x == 0 then []
    else
      DivideSmaller(x, base);
      Digits(x / base, base, lower) + [DigitChar(x % base, lower)]
  }

  lemma DivideSmaller(x: nat, base: nat)
    requires x > 0 && base >= 2
    ensures 0 <= x / base < x && 0 <= x % base < base
  {
    QuotientRemainder(x, base);
    if x / base > 0 { MulLe(2, base, x / base); }
  }

  lemma {:induction false} DigitCount(x: nat, n: nat, base: nat, lower: bool, bound: nat)
    requires 2 <= base <= 16 && x < bound == Power(base, n)
    ensures |Digits(x, base, lower)| <= n
    decreases n
  {
    if x > 0 {
      DivideSmaller(x, base);
      DivideBelow(x, base, Power(base, n - 1));
      DigitCount(x / base, n - 1, base, lower, Power(base, n - 1));
    }
  }

  function Power(base: nat, n: nat): nat {
    if n == 0 then 1 else
      MulNonNegative(Power(base, n - 1), base);
      Power(base, n - 1) * base
  }

  /** Twenty characters hold every 64-bit number, sixteen in hexadecimal. */
  lemma BufferLargeEnough(x: Word, lower: bool)
    ensures |Digits(x, 10, false)| <= 20 && |Digits(x, 16, lower)| <= 16
  {
    assert Power(10, 5) == 100000;
    assert Power(10, 10) == 10000000000;
    assert Power(10, 15) == 1000000000000000;
    assert Power(10, 20) == 100000000000000000000;
    DigitCount(x, 20, 10, false, Power(10, 20));
    assert Power(16, 8) == 0x1_0000_0000;
    assert Power(16, 16) == WORD;
    DigitCount(x, 16, 16, lower, Power(16, 16));
  }

  /** fmt_u, with the division that needs no helper functions. */
  method FormatDecimal(x: Word, buf: array<char>, end: nat) returns (s: nat)
    requires |Digits(x, 10, false)| <= end <= buf.Length
    modifies buf
    ensures s <= end && buf[s..end] == Digits(x, 10, false)
    ensures buf[..s] == old(buf[..s]) && buf[end..] == old(buf[end..])
  {
    s := end;
    var left: Word := x;
    while left != 0
      invariant |Digits(left, 10, false)| <= s <= end <= buf.Length
      invariant Digits(left, 10, false) + buf[s..end] == Digits(x, 10, false)
      invariant buf[..s] == old(buf[..s]) && buf[end..] == old(buf[end..])
      decreases left
    {
      DivideSmaller(left, 10);
      var q, rem := DivideByTen(left);
      ghost var tail := buf[s..end];
      s := s - 1;
      buf[s] := '0' + rem as char;
      assert buf[s..end] == [DigitChar(rem, false)] + tail;
      left := q;
    }
  }

  /** fmt_x */
  method FormatHex(x: Word, lower: bool, buf: array<char>, end: nat) returns (s: nat)
    requires |Digits(x, 16, lower)| <= end <= buf.Length
    modifies buf
    ensures s <= end && buf[s..end] == Digits(x, 16, lower)
    ensures buf[..s] == old(buf[..s]) && buf[end..] == old(buf[end..])
  {
    hide DigitChar;
    s := end;
    var left: Word := x;
    while left != 0
      invariant |Digits(left, 16, lower)| <= s <= end <= buf.Length
      invariant Digits(left, 16, lower) + buf[s..end] == Digits(x, 16, lower)
      invariant buf[..s] == old(buf[..s]) && buf[end..] == old(buf[end..])
      decreases left
    {
      DivideSmaller(left, 16);
      ghost var tail, digit, front := buf[s..end], DigitChar(left % 16, lower), Digits(left / 16, 16, lower);
      assert front + ([digit] + tail) == (front + [digit]) + tail;
      s := s - 1;
      buf[s] := DigitChar(left % 16, lower);
      assert buf[s..end] == [digit] + tail;
      left := left / 16;
    }
  }

  // ------------------------------------------------------------------ the conversions u, x and X

  const BUFFER: nat := 55

  function Zeros(n: int): string {
    if n <= 0 then [] else ['0'] + Zeros(n - 1)
  }

  function DigitsOf(x: nat, hex: bool, lower: bool): string {
    if hex then Digits(x, 16, lower) else Digits(x, 10, false)
  }

  /** How many digits are printed at least: the precision, or one if none is given (-1). */
  function AtLeast(precision: int): int {
    if precision < 0 then 1 else precision
  }

  function Prefix(x: nat, hex: bool, lower: bool): string {
    if hex && x != 0 then if lower then "0x" else "0X" else ""
  }

  /** A number printed in the alternate form, without a field width. */
  function Printed(x: nat, hex: bool, lower: bool, precision: int): string {
    var digits := DigitsOf(x, hex, lower);
    Prefix(x, hex, lower) + (Zeros(AtLeast(precision) - |digits|) + digits)
  }

  predicate InCase(ch: char, lower: bool) {
    '0' <= ch <= '9' || (if lower then 'a' <= ch <= 'f' else 'A' <= ch <= 'F')
  }

  lemma {:induction false} DigitsShape(x: nat, base: nat, lower: bool)
    requires 2 <= base <= 16
    ensures var d := Digits(x, base, lower);
            (forall i :: 0 <= i < |d| ==> InCase(d[i], lower)) && (x != 0 ==> d != [] && d[0] != '0')
  {
    if x != 0 {
      DivideSmaller(x, base);
      DigitsShape(x / base, base, lower);
      if x / base == 0 { QuotientRemainder(x, base); }
    }
  }

  lemma {:induction false} ZerosShape(n: int)
    ensures |Zeros(n)| == (if n <= 0 then 0 else n) && forall i :: 0 <= i < |Zeros(n)| ==> Zeros(n)[i] == '0'
  {
    if n > 0 { ZerosShape(n - 1); }
  }

  lemma {:induction false} DecimalShape(x: nat)
    ensures forall i :: 0 <= i < |Digits(x, 10, false)| ==> '0' <= Digits(x, 10, false)[i] <= '9'
  {
    if x != 0 {
      DivideSmaller(x, 10);
      DecimalShape(x / 10);
    }
  }

  /** All characters are digits, in hexadecimal with letters of that case. */
  predicate AreDigits(text: string, hex: bool, lower: bool) {
    forall i :: 0 <= i < |text| ==> if hex then InCase(text[i], lower) else '0' <= text[i] <= '9'
  }

  lemma DigitsOfShape(x: nat, hex: bool, lower: bool)
    ensures var digits := DigitsOf(x, hex, lower);
            AreDigits(digits, hex, lower) && (digits == [] || digits[0] != '0')
  {
    DigitsShape(x, if hex then 16 else 10, hex && lower);
    DecimalShape(x);
  }

  lemma PaddedShape(digits: string, n: nat, hex: bool, lower: bool)
    requires AreDigits(digits, hex, lower) && (digits == [] || digits[0] != '0')
    ensures var body := Zeros(n - |digits|) + digits;
            |body| >= n && (|body| > n ==> body[0] != '0') && AreDigits(body, hex, lower)
  {
    ZerosShape(n - |digits|);
    hide Zeros;
  }

  /**
   * Numbers are printed with as many digits as asked for, and with a leading zero only if fewer are needed. Letters,
   * that of the prefix included, are small or capital as the conversion says.
   */
  lemma PrintedShape(x: nat, hex: bool, lower: bool, precision: int)
    ensures var text := Printed(x, hex, lower, precision);
            var start := if hex && x != 0 then 2 else 0;
            && |text| >= start && text[..start] == (if start == 0 then "" else if lower then "0x" else "0X")
            && |text| - start >= precision && AreDigits(text[start..], hex, lower)
            && (|text| - start > (if precision < 0 then 1 else precision) ==> text[start] != '0')
  {
    hide DigitsOf, Zeros, AreDigits;
    var digits := DigitsOf(x, hex, lower);
    DigitsOfShape(x, hex, lower);
    PaddedShape(digits, AtLeast(precision), hex, lower);
    var prefix, body := Prefix(x, hex, lower), Zeros(AtLeast(precision) - |digits|) + digits;
    assert |prefix| == if hex && x != 0 then 2 else 0;
    PrefixOf(prefix, body);
  }

  lemma PrefixOf(prefix: string, body: string)
    ensures (prefix + body)[..|prefix|] == prefix && (prefix + body)[|prefix|..] == body
  {
  }

  method Pad(n: int) returns (zeros: string)
    ensures zeros == Zeros(n)
  {
    zeros := [];
    var i := n;
    while i > 0
      invariant i <= n
      invariant Zeros(i) + zeros == Zeros(n)
    {
      ZerosSnoc(i);
      assert Zeros(i - 1) + (['0'] + zeros) == (Zeros(i - 1) + ['0']) + zeros;
      zeros := ['0'] + zeros;
      i := i - 1;
    }
  }

  lemma {:induction false} ZerosSnoc(n: int)
    requires n > 0
    ensures Zeros(n) == Zeros(n - 1) + ['0']
  {
    if n > 1 { ZerosSnoc(n - 1); }
  }

  /** The part of printf_core that converts an unsigned number. Its buffer is large enough for every number. */
  method Convert(x: Word, hex: bool, lower: bool, precision: int) returns (text: string)
    requires precision >= -1
    ensures text == Printed(x, hex, lower, precision)
  {
    BufferLargeEnough(x, lower);
    var buf := new char[BUFFER];
    var a: nat;
    var prefix := "";
    if hex {
      a := FormatHex(x, lower, buf, BUFFER);
      if x != 0 { prefix := if lower then "0x" else "0X"; }
    } else {
      a := FormatDecimal(x, buf, BUFFER);
    }
    var p := precision;
    if x == 0 && p == 0 {
      a := BUFFER;
    } else {
      var least := BUFFER - a + if x == 0 then 1 else 0;
      if p < least { p := least; }
    }
    if p < BUFFER - a { p := BUFFER - a; }
    ghost var digits := DigitsOf(x, hex, lower);
    assert buf[a..BUFFER] == digits && |digits| == BUFFER - a;
    assert x != 0 ==> digits != [];
    ZerosOf(p - |digits|, AtLeast(precision) - |digits|);
    var zeros := Pad(p - (BUFFER - a));
    text := prefix + (zeros + buf[a..BUFFER]);
  }

  lemma ZerosOf(n: int, m: int)
    requires n == m || (n <= 0 && m <= 0)
    ensures Zeros(n) == Zeros(m)
  {
  }

  // ------------------------------------------------------------------ reading

  /** The first number that a long cannot hold. */
  const LONG_END: nat := 0x8000_0000_0000_0000

  /** A signed 64-bit result, wrapping round. */
  function ToLong(v: int): int {
    (v + LONG_END) % WORD - LONG_END
  }

  /** char_to_long */
  function DigitValue(c: char): int {
    if '0' <= c <= '9' then (c - '0') as int
    else if 'A' <= c <= 'F' then (c - 'A') as int + 10
    else if 'a' <= c <= 'f' then (c - 'a') as int + 10
    else -1
  }

  lemma DigitRoundTrip(d: nat, lower: bool)
    requires d < 16
    ensures DigitValue(DigitChar(d, lower)) == d
  {
  }

  predicate IsDigit(c: char, base: nat) {
    DigitValue(c) != -1 && DigitValue(c) < base
  }

  /** The number read digit by digit after val; -1 if something is not a digit. */
  function Parse(s: string, base: nat, val: nat): int {
    if s == [] then val
    else if !IsDigit(s[0], base) then -1
    else
      MulNonNegative(val, base);
      Parse(s[1..], base, val * base + DigitValue(s[0]))
  }

  /** The same in 64-bit arithmetic. */
  function LongParse(s: string, base: nat, val: int): int {
    if s == [] then val
    else if !IsDigit(s[0], base) then -1
    else LongParse(s[1..], base, ToLong(val * base + DigitValue(s[0])))
  }

  predicate IsHex(s: string) {
    |s| >= 2 && s[0] == '0' && (s[1] == 'x' || s[1] == 'X')
  }

  function Base(s: string): nat {
    if IsHex(s) then 16 else 10
  }

  /** What has to be digits. */
  function Numeral(s: string): string {
    if IsHex(s) then s[2..] else s
  }

  function ParseNumber(s: string): int {
    if Numeral(s) == [] then -1 else Parse(Numeral(s), Base(s), 0)
  }

  function LongNumber(s: string): int {
    if Numeral(s) == [] then -1 else LongParse(Numeral(s), Base(s), 0)
  }

  /** str_to_long */
  method StrToLong(s: string) returns (r: int)
    ensures r == LongNumber(s)
  {
    if s == [] { return -1; }
    var base, i := 10, 0;
    if s[0] == '0' && |s| > 1 && (s[1] == 'x' || s[1] == 'X') {
      base, i := 16, 2;
      if i == |s| { return -1; }
    }
    var val := 0;
    while i < |s|
      invariant 0 <= i <= |s|
      invariant LongParse(s[i..], base, val) == LongNumber(s)
    {
      var res := DigitValue(s[i]);
      if res == -1 || res >= base { return -1; }
      assert s[i..][1..] == s[i + 1..];
      val := ToLong(val * base + res);
      i := i + 1;
    }
    return val;
  }

  predicate AllDigits(s: string, base: nat) {
    forall i :: 0 <= i < |s| ==> IsDigit(s[i], base)
  }

  /** Whether something is malformed does not depend on the number read so far; and that number never shrinks. */
  lemma {:induction false} ParseGrows(s: string, base: nat, val: nat, other: int)
    requires base >= 2
    ensures if AllDigits(s, base) then Parse(s, base, val) >= val
            else Parse(s, base, val) == -1 && LongParse(s, base, other) == -1
    decreases |s|
  {
    if s != [] && IsDigit(s[0], base) {
      var d := DigitValue(s[0]);
      MulNonNegative(val, base);
      MulLe(1, base, val);
      ParseGrows(s[1..], base, val * base + d, ToLong(other * base + d));
      TailDigits(s, base);
    }
  }

  lemma TailDigits(s: string, base: nat)
    requires s != []
    ensures AllDigits(s, base) <==> IsDigit(s[0], base) && AllDigits(s[1..], base)
  {
    assert forall i :: 0 < i < |s| ==> s[i] == s[1..][i - 1];
    assert forall i :: 0 <= i < |s| - 1 ==> s[1..][i] == s[i + 1];
  }

  lemma FitsLong(v: nat)
    requires v < LONG_END
    ensures ToLong(v) == v
  {
  }

  /** No partial value overflows unless the number itself does not fit. */
  lemma {:induction false} LongParseExact(s: string, base: nat, val: nat)
    requires base >= 2 && Parse(s, base, val) < LONG_END
    ensures LongParse(s, base, val) == Parse(s, base, val)
    decreases |s|
  {
    ParseGrows(s, base, val, val);
    if s != [] && AllDigits(s, base) {
      assert IsDigit(s[0], base);
      MulNonNegative(val, base);
      var next: nat := val * base + DigitValue(s[0]);
      hide IsDigit, ToLong, DigitValue;
      TailDigits(s, base);
      ParseGrows(s[1..], base, next, 0);
      FitsLong(next);
      LongParseExact(s[1..], base, next);
    }
  }

  lemma {:induction false} LongParseBound(s: string, base: nat, val: int)
    requires val < LONG_END
    ensures LongParse(s, base, val) < LONG_END
    decreases |s|
  {
    if s != [] && IsDigit(s[0], base) {
      LongParseBound(s[1..], base, ToLong(val * base + DigitValue(s[0])));
    }
  }

  /** str_to_long is right exactly for the numbers that fit in a long. */
  lemma LongIsExact(s: string)
    ensures LongNumber(s) == ParseNumber(s) <==> ParseNumber(s) < LONG_END
  {
    if Numeral(s) != [] {
      LongParseBound(Numeral(s), Base(s), 0);
      if ParseNumber(s) < LONG_END { LongParseExact(Numeral(s), Base(s), 0); }
    }
  }

  // ------------------------------------------------------------------ reading back

  lemma {:induction false} ParseConcat(a: string, c: char, base: nat, val: nat)
    requires Parse(a, base, val) >= 0
    ensures Parse(a + [c], base, val) == Parse([c], base, Parse(a, base, val))
    decreases |a|
  {
    if a == [] {
      assert a + [c] == [c];
    } else {
      assert (a + [c])[1..] == a[1..] + [c];
      MulNonNegative(val, base);
      ParseConcat(a[1..], c, base, val * base + DigitValue(a[0]));
    }
  }

  /** Reading the digits of a number gives the number. */
  lemma {:induction false} DigitsRoundTrip(x: nat, base: nat, lower: bool)
    requires 2 <= base <= 16
    ensures Parse(Digits(x, base, lower), base, 0) == x
  {
    if x > 0 {
      DivideSmaller(x, base);
      DigitsRoundTrip(x / base, base, lower);
      var c := DigitChar(x % base, lower);
      DigitRoundTrip(x % base, lower);
      ParseConcat(Digits(x / base, base, lower), c, base, 0);
      QuotientRemainder(x, base);
      assert [c][1..] == [];
    }
  }

  lemma {:induction false} LeadingZeros(n: int, s: string, base: nat)
    requires base >= 2
    ensures Parse(Zeros(n) + s, base, 0) == Parse(s, base, 0)
  {
    if n <= 0 {
      assert Zeros(n) + s == s;
    } else {
      LeadingZeros(n - 1, s, base);
      var r := Zeros(n) + s;
      assert r != [] && r[0] == '0' && r[1..] == Zeros(n - 1) + s && IsDigit('0', base);
      hide Zeros;
    }
  }

  lemma {:induction false} DecimalDigits(x: nat)
    ensures forall c :: c in Digits(x, 10, false) ==> '0' <= c <= '9'
  {
    if x > 0 {
      DivideSmaller(x, 10);
      DecimalDigits(x / 10);
    }
  }

  lemma {:induction false} ZerosAreZero(n: int)
    ensures forall c :: c in Zeros(n) ==> c == '0'
  {
    if n > 0 { ZerosAreZero(n - 1); }
  }

  /** The digits, after as many zeros as the precision asks for, are a numeral of x. */
  lemma NumeralReadBack(x: nat, hex: bool, lower: bool, precision: int)
    ensures var base := if hex then 16 else 10;
            var digits := DigitsOf(x, hex, lower);
            Parse(Zeros(AtLeast(precision) - |digits|) + digits, base, 0) == x
  {
    hide Parse, Digits;
    var base := if hex then 16 else 10;
    var digits := DigitsOf(x, hex, lower);
    DigitsRoundTrip(x, base, hex && lower);
    LeadingZeros(AtLeast(precision) - |digits|, digits, base);
  }

  lemma NumeralOfPrinted(x: nat, hex: bool, lower: bool, precision: int)
    ensures var digits := DigitsOf(x, hex, lower);
            var s := Printed(x, hex, lower, precision);
            && Numeral(s) == Zeros(AtLeast(precision) - |digits|) + digits
            && (x != 0 ==> Base(s) == if hex then 16 else 10)
  {
    hide Zeros, AtLeast;
    var digits := DigitsOf(x, hex, lower);
    var zeros := Zeros(AtLeast(precision) - |digits|);
    ZerosAreZero(AtLeast(precision) - |digits|);
    if hex && x != 0 {
      assert Printed(x, hex, lower, precision)[2..] == zeros + digits;
    } else {
      DecimalDigits(x);
      assert Printed(x, hex, lower, precision) == zeros + digits;
      assert forall c :: c in zeros + digits ==> '0' <= c <= '9';
      assert |zeros + digits| >= 2 ==> (zeros + digits)[1] in zeros + digits;
    }
  }

  /** What printf prints, str_to_long reads back, exactly if it fits in a long and is not a zero of precision zero. */
  lemma PrintedNumbersReadBack(x: nat, hex: bool, lower: bool, precision: int)
    requires precision >= -1
    ensures LongNumber(Printed(x, hex, lower, precision)) == x <==> x < LONG_END && (x != 0 || precision != 0)
  {
    hide Parse, LongParse;
    var digits := DigitsOf(x, hex, lower);
    var s := Printed(x, hex, lower, precision);
    NumeralOfPrinted(x, hex, lower, precision);
    NumeralReadBack(x, hex, lower, precision);
    NumeralReadBack(0, false, lower, precision);
    LongIsExact(s);
    assert Numeral(s) == [] <==> x == 0 && precision == 0;
  }
}
