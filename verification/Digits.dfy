/** Decimal digits: powers of ten, printing and reading natural numbers. */
module Digits {
  function Pow10(n: nat): (p: int)
    ensures p >= 1
  {
    if n == 0 then 1 else 10 * Pow10(n - 1)
  }

  lemma {:induction false} Pow10Sum(a: nat, b: nat)
    ensures Pow10(a + b) == Pow10(a) * Pow10(b)
    decreases b
  {
    if b != 0 {
      Pow10Sum(a, b - 1);
      assert Pow10(a) * (10 * Pow10(b - 1)) == 10 * (Pow10(a) * Pow10(b - 1));
    }
  }

  function Quot(m: nat, unit: int): (q: nat)
    requires unit >= 1
  {
    m / unit
  }

  function Rem(m: nat, unit: int): (r: nat)
    requires unit >= 1
    ensures r < unit && m == Quot(m, unit) * unit + r
  {
    m % unit
  }

  predicate IsDigit(c: char) {
    '0' <= c <= '9'
  }

  predicate AllDigits(s: string) {
    forall i :: 0 <= i < |s| ==> IsDigit(s[i])
  }

  function DigitValue(c: char): nat
    requires IsDigit(c)
  {
    c as int - '0' as int
  }

  function DigitChar(d: nat): (c: char)
    requires d < 10
    ensures IsDigit(c) && DigitValue(c) == d
  {
    ('0' as int + d) as char
  }

  /** A natural number without leading zeros. */
  function PrintNat(n: nat): (s: string)
    ensures s != [] && AllDigits(s)
  {
    if n < 10 then [DigitChar(n)] else PrintNat(n / 10) + [DigitChar(n % 10)]
  }

  /** The last `width` digits of a number, zeros included. */
  function PrintPadded(n: nat, width: nat): (s: string)
    ensures |s| == width && AllDigits(s)
    decreases width
  {
    if width == 0 then [] else PrintPadded(n / 10, width - 1) + [DigitChar(n % 10)]
  }

  function ReadNat(s: string): nat
    requires AllDigits(s)
    decreases |s|
  {
    if s == [] then 0 else ReadNat(s[..|s| - 1]) * 10 + DigitValue(s[|s| - 1])
  }

  lemma {:induction false} ReadPrintNat(n: nat)
    ensures ReadNat(PrintNat(n)) == n
    decreases n
  {
    if n >= 10 {
      ReadPrintNat(n / 10);
      assert PrintNat(n)[..|PrintNat(n)| - 1] == PrintNat(n / 10);
    }
  }

  lemma {:induction false} ReadPrintPadded(n: nat, width: nat)
    requires n < Pow10(width)
    ensures ReadNat(PrintPadded(n, width)) == n
    decreases width
  {
    if width != 0 {
      ReadPrintPadded(n / 10, width - 1);
      assert PrintPadded(n, width)[..width - 1] == PrintPadded(n / 10, width - 1);
    }
  }

  lemma AppendDigit(x: int, p: int, y: int, d: int)
    ensures (x * p + y) * 10 + d == x * (10 * p) + (y * 10 + d)
  {
    assert (x * p) * 10 == x * (10 * p);
  }

  lemma ReadLast(s: string)
    requires AllDigits(s) && s != []
    ensures AllDigits(s[..|s| - 1]) && ReadNat(s) == ReadNat(s[..|s| - 1]) * 10 + DigitValue(s[|s| - 1])
  {
  }

  lemma {:induction false} ReadConcat(a: string, b: string)
    requires AllDigits(a) && AllDigits(b)
    ensures AllDigits(a + b) && ReadNat(a + b) == ReadNat(a) * Pow10(|b|) + ReadNat(b)
    decreases |b|
  {
    if b == [] {
      assert a + b == a;
    } else {
      var front := b[..|b| - 1];
      ReadConcat(a, front);
      assert (a + b)[..|a + b| - 1] == a + front;
      ReadLast(a + b);
      ReadLast(b);
      AppendDigit(ReadNat(a), Pow10(|front|), ReadNat(front), DigitValue(b[|b| - 1]));
      assert Pow10(|b|) == 10 * Pow10(|front|);
    }
  }

  predicate AllZeros(s: string) {
    forall i :: 0 <= i < |s| ==> s[i] == '0'
  }

  lemma {:induction false} ReadZeros(s: string)
    requires AllDigits(s)
    ensures ReadNat(s) == 0 <==> AllZeros(s)
    decreases |s|
  {
    if s != [] {
      ReadZeros(s[..|s| - 1]);
      assert s == s[..|s| - 1] + [s[|s| - 1]];
    }
  }

  lemma {:induction false} ReadBound(s: string)
    requires AllDigits(s)
    ensures ReadNat(s) < Pow10(|s|)
    decreases |s|
  {
    if s != [] {
      ReadBound(s[..|s| - 1]);
    }
  }

  /** The position of the first `c`, or the length when there is none. */
  function IndexOf(s: string, c: char): (k: nat)
    ensures k <= |s| && (k < |s| ==> s[k] == c)
    ensures forall i :: 0 <= i < k ==> s[i] != c
    decreases |s|
  {
    if s == [] || s[0] == c then 0 else 1 + IndexOf(s[1..], c)
  }

  lemma IndexOfIs(s: string, c: char, k: nat)
    requires k <= |s| && (k < |s| ==> s[k] == c)
    requires forall i :: 0 <= i < k ==> s[i] != c
    ensures IndexOf(s, c) == k
  {
    assert IndexOf(s, c) >= k;
  }

  function FirstDot(s: string): (k: nat)
    ensures k <= |s| && (k < |s| ==> s[k] == '.')
    ensures forall i :: 0 <= i < k ==> s[i] != '.'
  {
    IndexOf(s, '.')
  }

  lemma FirstDotIs(s: string, k: nat)
    requires k <= |s| && (k < |s| ==> s[k] == '.')
    requires forall i :: 0 <= i < k ==> s[i] != '.'
    ensures FirstDot(s) == k
  {
    IndexOfIs(s, '.', k);
  }
}
