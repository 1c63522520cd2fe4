/** Decimal output without division: divmodu10 and utoa_fast_div of modules/logger/src/utoa_fast_div.c. */
module Utoa {

  const U32 := 0x1_0000_0000
  const AREA := 11

  /** Unsigned 32-bit addition. */
  function Add(a: nat, b: nat): nat {
    (a + b) % U32
  }

  /** The estimate the shifts arrive at, before its low three bits go. */
  function Estimate(n: nat): nat {
    var q1 := n / 2;
    var q2 := Add(q1, q1 / 2);
    var q3 := Add(q2, q2 / 16);
    var q4 := Add(q3, q3 / 256);
    Add(q4, q4 / 65536)
  }

  lemma Combine(n: nat, q1: nat, q2: nat, q3: nat, q4: nat, q5: nat)
    requires n < U32
    requires 2 * q1 <= n <= 2 * q1 + 1 && 2 * q2 <= 3 * q1 <= 2 * q2 + 1 && 16 * q3 <= 17 * q2 <= 16 * q3 + 15
    requires 256 * q4 <= 257 * q3 <= 256 * q4 + 255 && 65536 * q5 <= 65537 * q4 <= 65536 * q5 + 65535
    ensures q2 < U32 && q3 < U32 && q4 < U32 && q5 < U32
    ensures 5 * q5 <= 4 * n < 5 * q5 + 30
  {
  }

  lemma Halved(n: nat)
    ensures 2 * (n / 2) <= n <= 2 * (n / 2) + 1
  {
  }

  lemma By2(q: nat)
    ensures 2 * (q + q / 2) <= 3 * q <= 2 * (q + q / 2) + 1
  {
  }

  lemma By16(q: nat)
    ensures 16 * (q + q / 16) <= 17 * q <= 16 * (q + q / 16) + 15
  {
  }

  lemma By256(q: nat)
    ensures 256 * (q + q / 256) <= 257 * q <= 256 * (q + q / 256) + 255
  {
  }

  lemma By65536(q: nat)
    ensures 65536 * (q + q / 65536) <= 65537 * q <= 65536 * (q + q / 65536) + 65535
  {
  }

  lemma NoWrap(a: nat, b: nat)
    requires a + b < U32
    ensures Add(a, b) == a + b
  {
  }

  /** 3 * 17 * 257 * 65537 is a fifth of 2^32 - 1: the shifts give 4/5 of n, less than six short, and no
      addition wraps. */
  lemma EstimateIsClose(n: nat)
    requires n < U32
    ensures 5 * Estimate(n) <= 4 * n < 5 * Estimate(n) + 30
  {
    hide Add;
    var q1 := n / 2;
    var q2 := q1 + q1 / 2;
    var q3 := q2 + q2 / 16;
    var q4 := q3 + q3 / 256;
    var q5 := q4 + q4 / 65536;
    Halved(n);
    By2(q1);
    By16(q2);
    By256(q3);
    By65536(q4);
    Combine(n, q1, q2, q3, q4, q5);
    NoWrap(q1, q1 / 2);
    NoWrap(q2, q2 / 16);
    NoWrap(q3, q3 / 256);
    NoWrap(q4, q4 / 65536);
  }

  /** The estimated quotient is short by at most one, so one correction of a remainder under 20 is enough. */
  lemma QuotientIsClose(n: nat)
    requires n < U32
    ensures var quot := Estimate(n) / 8; 10 * quot <= n < 10 * quot + 20
  {
    hide Estimate;
    EstimateIsClose(n);
  }

  /** divmodu10; the remainder is computed in 32 bits and cut to 8. */
  method Divmodu10(n: nat) returns (quot: nat, rem: nat)
    requires n < U32
    ensures quot == n / 10 && rem == n % 10
  {
    hide *;
    quot := n / 2;
    quot := Add(quot, quot / 2);
    quot := Add(quot, quot / 16);
    quot := Add(quot, quot / 256);
    quot := Add(quot, quot / 65536);
    EstimateUnfolded(n);
    var qq := quot;
    QuotientIsClose(n);
    quot := quot / 8;
    rem := Cut(n, Add(Add(quot, quot), qq - qq % 8));
    Remainder(n, qq);
    if rem > 9 {
      rem := rem - 10;
      quot := quot + 1;
    }
  }

  lemma EstimateUnfolded(n: nat)
    ensures Estimate(n) == var q1 := n / 2;
                           var q2 := Add(q1, q1 / 2);
                           var q3 := Add(q2, q2 / 16);
                           var q4 := Add(q3, q3 / 256);
                           Add(q4, q4 / 65536)
  {
  }

  /** A 32-bit difference, cast to 8 bits. */
  function Cut(a: nat, b: nat): nat {
    (a - b) % U32 % 256
  }

  lemma Remainder(n: nat, qq: nat)
    requires n < U32 && 10 * (qq / 8) <= n < 10 * (qq / 8) + 20
    ensures var quot := qq / 8;
            && Cut(n, Add(Add(quot, quot), qq - qq % 8)) == n - 10 * quot
            && n / 10 == (if n - 10 * quot > 9 then quot + 1 else quot)
            && n % 10 == (if n - 10 * quot > 9 then n - 10 * quot - 10 else n - 10 * quot)
  {
    hide Add, Cut;
    var quot := qq / 8;
    assert qq - qq % 8 == 8 * quot;
    NoWrap(quot, quot);
    NoWrap(2 * quot, 8 * quot);
    Small(n, 10 * quot);
  }

  lemma Small(a: nat, b: nat)
    requires b <= a < U32 && a - b < 256
    ensures Cut(a, b) == a - b
  {
  }

  function Digit(d: nat): char
    requires d < 10
  {
    '0' + d as char
  }

  predicate IsDigit(c: char) {
    '0' <= c <= '9'
  }

  function DigitValue(c: char): (d: nat)
    requires IsDigit(c)
    ensures d < 10 && Digit(d) == c
  {
    c as nat - '0' as nat
  }

  /** The number a string of digits denotes. */
  function Value(s: string): nat
    requires forall c <- s :: IsDigit(c)
  {
    if s == "" then 0 else 10 * Value(s[..|s| - 1]) + DigitValue(s[|s| - 1])
  }

  /** Digits only, and a leading zero only alone. */
  predicate Plain(s: string) {
    s != "" && (forall c <- s :: IsDigit(c)) && (s[0] == '0' ==> |s| == 1)
  }

  /** The digits of n, last digit last. */
  function Decimal(n: nat): string {
    (if n < 10 then "" else Decimal(n / 10)) + [Digit(n % 10)]
  }

  /** Decimal(n) is the plain string that denotes n ... */
  lemma {:induction false} DecimalDenotes(n: nat)
    ensures Plain(Decimal(n)) && Value(Decimal(n)) == n
    ensures n > 0 ==> Decimal(n)[0] != '0'
  {
    var s := Decimal(n);
    assert Value("") == 0;
    if n >= 10 {
      DecimalDenotes(n / 10);
    }
    assert s[..|s| - 1] == if n < 10 then "" else Decimal(n / 10);
  }

  lemma OnlyZero(c: char)
    requires IsDigit(c) && c != '0'
    ensures DigitValue(c) > 0
  {
  }

  lemma DecimalStep(n: nat)
    ensures Decimal(n) == (if n / 10 == 0 then "" else Decimal(n / 10)) + [Digit(n % 10)]
  {
  }

  lemma DecimalNonEmpty(n: nat)
    ensures |Decimal(n)| > 0
  {
  }

  /** ... the only one. */
  lemma {:induction false} DecimalIsUnique(s: string)
    requires Plain(s)
    ensures Decimal(Value(s)) == s
    ensures s[0] != '0' ==> Value(s) > 0
    decreases |s|
  {
    hide Decimal, Digit, DigitValue, IsDigit;
    assert s[|s| - 1] in s;
    var front, d := s[..|s| - 1], DigitValue(s[|s| - 1]);
    assert s == front + [Digit(d)];
    DecimalStep(Value(s));
    if |s| == 1 {
      assert front == "" && Value(s) == d;
      if s[0] != '0' {
        OnlyZero(s[0]);
      }
    } else {
      assert front[0] == s[0];
      assert s[0] != '0';
      DecimalIsUnique(front);
      assert Value(s) == 10 * Value(front) + d;
    }
  }

  function Pow10(k: nat): (p: nat)
    ensures p > 0
  {
    if k == 0 then 1 else 10 * Pow10(k - 1)
  }

  lemma {:induction false} DecimalLength(n: nat, k: nat)
    requires k > 0 && n < Pow10(k)
    ensures |Decimal(n)| <= k
  {
    if n >= 10 {
      DecimalLength(n / 10, k - 1);
    }
  }

  lemma TenDigits(n: nat)
    requires n < U32
    ensures |Decimal(n)| <= 10
  {
    assert Pow10(2) == 100 && Pow10(4) == 10_000 && Pow10(6) == 1_000_000 && Pow10(8) == 100_000_000;
    assert Pow10(10) == 10_000_000_000;
    DecimalLength(n, 10);
  }

  /** utoa_fast_div: the text starts at p and ends with the terminator at the end of the 11 bytes. */
  method UtoaFastDiv(value: nat, buffer: array<char>) returns (p: nat)
    requires value < U32 && AREA <= buffer.Length
    modifies buffer
    ensures p < AREA && buffer[p..AREA] == Decimal(value) + [0 as char]
    ensures buffer[..p] == old(buffer[..p]) && buffer[AREA..] == old(buffer[AREA..])
  {
    hide Decimal;
    p := AREA - 1;
    buffer[p] := 0 as char;
    TenDigits(value);
    var left: nat := value;
    var quot, rem := Divmodu10(left);
    DecimalStep(left);
    p := p - 1;
    buffer[p] := Digit(rem);
    left := quot;
    while left != 0
      invariant left < U32 && p < AREA
      invariant (if left == 0 then "" else Decimal(left)) + buffer[p..AREA] == Decimal(value) + [0 as char]
      invariant buffer[..p] == old(buffer[..p]) && buffer[AREA..] == old(buffer[AREA..])
      decreases left
    {
      ghost var rest := buffer[p..AREA];
      quot, rem := Divmodu10(left);
      DecimalStep(left);
      DecimalNonEmpty(left);
      p := p - 1;
      buffer[p] := Digit(rem);
      assert buffer[p..AREA] == [Digit(rem)] + rest;
      left := quot;
    }
  }
}
