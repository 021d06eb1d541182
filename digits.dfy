/** Decimal digit strings: the character class isdigit(3) tests in the C
    locale, the value of a run of digits, and the stand-in for strtol(3)
    that both the -w argument and the descriptor number are read with. */
module Digits {
  import opened Wrappers

  predicate IsDigit(c: char) {
    '0' <= c <= '9'
  }

  predicate AllDigits(s: seq<char>) {
    forall k :: 0 <= k < |s| ==> IsDigit(s[k])
  }

  function DigitValue(c: char): (d: nat)
    requires IsDigit(c)
    ensures d < 10
  {
    c as int - '0' as int
  }

  function DigitChar(d: nat): (c: char)
    requires d < 10
    ensures IsDigit(c) && DigitValue(c) == d
  {
    (d + '0' as int) as char
  }

  function Pow10(n: nat): (p: nat)
    ensures p >= 1
  {
    if n == 0 then 1 else 10 * Pow10(n - 1)
  }

  /** The number a string of digits denotes, most significant digit first;
      n digits denote a number below 10^n. */
  function Value(ds: seq<char>): (v: nat)
    requires AllDigits(ds)
    ensures v < Pow10(|ds|)
  {
    if ds == [] then 0 else 10 * Value(ds[..|ds| - 1]) + DigitValue(ds[|ds| - 1])
  }

  /** The end of the run of digits that starts at `i`: every character
      before it is a digit and the character at it, if any, is not. */
  function DigitRunEnd(s: seq<char>, i: nat): (e: nat)
    requires i <= |s|
    ensures i <= e <= |s|
    ensures forall k :: i <= k < e ==> IsDigit(s[k])
    ensures e < |s| ==> !IsDigit(s[e])
    decreases |s| - i
  {
    if i < |s| && IsDigit(s[i]) then DigitRunEnd(s, i + 1) else i
  }

  /** What strtol(s, &end, 10) reports: the value of the number at the head
      of `s` and the index where the number stops. */
  datatype Number = Number(value: nat, end: nat)

  /** strtol(s, &end, 10) restricted to an unsigned run of digits: with no
      digit at the head the value is 0 and `end` stays at the start. */
  function LeadingNumber(s: seq<char>): (n: Number)
    ensures n.end <= |s| && AllDigits(s[..n.end])
    ensures n.end < |s| ==> !IsDigit(s[n.end])
    ensures n.value < Pow10(n.end)
    ensures n.value == Value(s[..n.end])
  {
    var e := DigitRunEnd(s, 0);
    assert AllDigits(s[..e]);
    Number(Value(s[..e]), e)
  }

  /** The shortest decimal spelling of `n`. */
  function Decimal(n: nat): (s: seq<char>)
    ensures |s| >= 1 && AllDigits(s)
  {
    if n < 10 then [DigitChar(n)] else Decimal(n / 10) + [DigitChar(n % 10)]
  }

  /** Reading back the decimal spelling of a number gives the number. */
  lemma {:induction false} ValueOfDecimal(n: nat)
    ensures Value(Decimal(n)) == n
  {
    if n >= 10 {
      var d := Decimal(n / 10);
      assert (d + [DigitChar(n % 10)])[..|d|] == d;
      ValueOfDecimal(n / 10);
    }
  }

  /** Appending digits scales the value of the front part by ten per digit. */
  lemma {:induction false} ValueAppend(a: seq<char>, b: seq<char>)
    requires AllDigits(a) && AllDigits(b)
    ensures AllDigits(a + b)
    ensures Value(a + b) == Value(a) * Pow10(|b|) + Value(b)
  {
    if b != [] {
      var b' := b[..|b| - 1];
      var last := b[|b| - 1];
      assert b == b' + [last];
      assert a + b == (a + b') + [last];
      assert (a + b)[..|a + b| - 1] == a + b';
      ValueAppend(a, b');
      var va, p, d := Value(a), Pow10(|b'|), DigitValue(last);
      assert Value(b) == 10 * Value(b') + d;
      assert Value(a + b) == 10 * Value(a + b') + d;
      assert Pow10(|b|) == 10 * p;
      MulTenShift(va, p);
      assert Value(a + b) == 10 * (va * p + Value(b')) + d;
    } else {
      assert a + b == a;
    }
  }

  lemma MulTenShift(x: nat, y: nat)
    ensures 10 * (x * y) == x * (10 * y)
  {
  }

  /** A string of zeros has the value zero. */
  lemma {:induction false} ValueOfZeros(n: nat)
    ensures AllDigits(Repeat('0', n)) && Value(Repeat('0', n)) == 0
  {
    if n > 0 {
      var z := Repeat('0', n);
      assert z[..n - 1] == Repeat('0', n - 1);
      ValueOfZeros(n - 1);
    }
  }
}
