/** The `-w seconds[.fraction]` argument: strtotimeval (flock.c:75-104)
    reads whole seconds and up to six fractional digits into a struct
    timeval and returns where it stopped reading. */
module Timeval {
  import opened Wrappers
  import opened Digits

  /** struct timeval: whole seconds and microseconds. */
  datatype TimeVal = TimeVal(sec: int, usec: int)

  /** The time value strtotimeval stores and the index of the first
      character it did not read. */
  datatype Parsed = Parsed(tv: TimeVal, rest: nat)

  /** Number of fractional digits a timeval holds. */
  const USEC_DIGITS: nat := 6
  const USEC_PER_SEC: nat := 1000000

  function Min(a: int, b: int): int {
    if a <= b then a else b
  }

  /** `v` followed by `m` zero digits, one digit at a time. */
  function Padded(v: int, m: nat): int {
    if m == 0 then v else Padded(v, m - 1) * 10
  }

  /** The fraction after a '.': the microseconds and the index just past
      the run of digits that starts at `start`. */
  datatype Fraction = Fraction(usec: int, end: nat)

  /** Reference reading of the fraction: the first (at most six) digits of
      the run at `start`, scaled to six digits, and the whole run is read. */
  function ParseFraction(s: seq<char>, start: nat): (r: Fraction)
    requires start <= |s|
    ensures start <= r.end <= |s|
  {
    var f := DigitRunEnd(s, start);
    var k := Min(f - start, USEC_DIGITS);
    assert AllDigits(s[start..start + k]);
    Fraction(Padded(Value(s[start..start + k]), USEC_DIGITS - k), f)
  }

  /** Reference reading of "seconds[.fraction]": the leading number gives the
      seconds and, after a '.', the fraction gives the microseconds. */
  function ParseTimeval(s: seq<char>): (p: Parsed)
    ensures p.rest <= |s|
  {
    var n := LeadingNumber(s);
    if n.end < |s| && s[n.end] == '.' then
      var fr := ParseFraction(s, n.end + 1);
      Parsed(TimeVal(n.value, fr.usec), fr.end)
    else
      Parsed(TimeVal(n.value, 0), n.end)
  }

  /** strtotimeval as the C writes it: strtol for the seconds, then after a
      '.' the fraction loops. */
  method StrToTimeval(str: seq<char>) returns (tv: TimeVal, rest: nat)
    ensures Parsed(tv, rest) == ParseTimeval(str)
  {
    var n := LeadingNumber(str);
    var s := n.end;
    var fs := 0;
    if s < |str| && str[s] == '.' {
      s := s + 1;
      fs, s := ReadFraction(str, s);
    }
    tv := TimeVal(n.value, fs);
    rest := s;
  }

  /** The three loops of strtotimeval after the '.', over the cursor `s`,
      the digit counter `i` and the accumulator `fs`: read at most six
      digits, scale up to six, skip the remaining digits. */
  method ReadFraction(str: seq<char>, start: nat) returns (fs: int, s: nat)
    requires start <= |str|
    ensures Fraction(fs, s) == ParseFraction(str, start)
  {
    s := start;
    fs := 0;
    var i := 0;
    while i < USEC_DIGITS
      invariant 0 <= i <= USEC_DIGITS && s == start + i && s <= |str|
      invariant AllDigits(str[start..s]) && fs == Value(str[start..s])
    {
      if s == |str| || !IsDigit(str[s]) {
        break;
      }
      DigitStep(str, start, s);
      fs := fs * 10 + DigitValue(str[s]);
      s := s + 1;
      i := i + 1;
    }
    ghost var k, digits := i, fs;
    while i < USEC_DIGITS
      invariant k <= i <= USEC_DIGITS
      invariant fs == Padded(digits, i - k)
    {
      fs := fs * 10;
      i := i + 1;
    }
    while s < |str| && IsDigit(str[s])
      invariant start + k <= s <= |str| && AllDigits(str[start..s])
      decreases |str| - s
    {
      DigitStep(str, start, s);
      s := s + 1;
    }
    FractionRead(str, start, k, s);
  }

  /** One more digit read into the accumulator. */
  lemma {:induction false} DigitStep(str: seq<char>, start: nat, s: nat)
    requires start <= s < |str| && AllDigits(str[start..s]) && IsDigit(str[s])
    ensures AllDigits(str[start..s + 1])
    ensures Value(str[start..s + 1]) == 10 * Value(str[start..s]) + DigitValue(str[s])
  {
    assert str[start..s + 1][..s - start] == str[start..s];
  }

  /** Where the loops of ReadFraction stop: `k` digits accumulated, the
      cursor `s` at the end of the run of digits. */
  lemma {:induction false} FractionRead(str: seq<char>, start: nat, k: nat, s: nat)
    requires k <= USEC_DIGITS && start + k <= s <= |str| && AllDigits(str[start..s])
    requires k < USEC_DIGITS ==> start + k == |str| || !IsDigit(str[start + k])
    requires s < |str| ==> !IsDigit(str[s])
    ensures AllDigits(str[start..start + k])
    ensures ParseFraction(str, start) ==
      Fraction(Padded(Value(str[start..start + k]), USEC_DIGITS - k), s)
  {
    forall j | start <= j < s
      ensures IsDigit(str[j])
    {
      assert str[start..s][j - start] == str[j];
    }
    RunEndIs(str, start, s);
    SlicePrefix(str, start, s, k);
    assert Min(s - start, USEC_DIGITS) == k;
  }

  lemma {:induction false} SlicePrefix<T>(s: seq<T>, i: nat, j: nat, k: nat)
    requires i + k <= j <= |s|
    ensures s[i..j][..k] == s[i..i + k]
  {
    forall m | 0 <= m < k
      ensures s[i..j][..k][m] == s[i..i + k][m]
    {
      assert s[i..j][m] == s[i + m];
    }
  }

  lemma {:induction false} PaddedScales(v: int, m: nat)
    ensures Padded(v, m) == v * Pow10(m)
  {
    if m > 0 {
      PaddedScales(v, m - 1);
    }
  }

  /** The microseconds are always a valid tv_usec: at most six digits are
      accumulated and then padded to exactly six. */
  lemma {:induction false} UsecInRange(s: seq<char>)
    ensures 0 <= ParseTimeval(s).tv.usec < USEC_PER_SEC
    ensures ParseTimeval(s).tv.sec >= 0
  {
    var n := LeadingNumber(s);
    if n.end < |s| && s[n.end] == '.' {
      FractionInRange(s, n.end + 1);
    }
  }

  lemma {:induction false} FractionInRange(s: seq<char>, start: nat)
    requires start <= |s|
    ensures 0 <= ParseFraction(s, start).usec < USEC_PER_SEC
  {
    var k := Min(DigitRunEnd(s, start) - start, USEC_DIGITS);
    assert AllDigits(s[start..start + k]);
    PaddedBelow(Value(s[start..start + k]), k, USEC_DIGITS - k);
  }

  /** A number of at most `k` digits padded with `m` zeros has at most
      `k + m` digits. */
  lemma {:induction false} PaddedBelow(v: nat, k: nat, m: nat)
    requires v < Pow10(k)
    ensures 0 <= Padded(v, m) < Pow10(k + m)
  {
    if m > 0 {
      PaddedBelow(v, k, m - 1);
    }
  }

  /** The leading number of `a + t`, for a digit string `a` followed by
      something that does not begin with a digit. */
  lemma {:induction false} LeadingNumberOf(a: seq<char>, t: seq<char>)
    requires AllDigits(a) && (t == [] || !IsDigit(t[0]))
    ensures LeadingNumber(a + t) == Number(Value(a), |a|)
  {
    var s := a + t;
    assert forall k :: 0 <= k < |a| ==> s[k] == a[k];
    assert |a| < |s| ==> s[|a|] == t[0];
    RunEndIs(s, 0, |a|);
    assert s[..|a|] == a;
  }

  /** DigitRunEnd is the only index that ends the run of digits at `i`. */
  lemma {:induction false} RunEndIs(s: seq<char>, i: nat, j: nat)
    requires i <= j <= |s|
    requires forall k :: i <= k < j ==> IsDigit(s[k])
    requires j < |s| ==> !IsDigit(s[j])
    ensures DigitRunEnd(s, i) == j
  {
  }

  /** Without a '.' the microseconds are 0 and reading stops right after the
      whole seconds. */
  lemma {:induction false} NoFraction(a: seq<char>, t: seq<char>)
    requires AllDigits(a) && (t == [] || (!IsDigit(t[0]) && t[0] != '.'))
    ensures ParseTimeval(a + t) == Parsed(TimeVal(Value(a), 0), |a|)
  {
    LeadingNumberOf(a, t);
    assert |a| < |a + t| ==> (a + t)[|a|] == t[0];
  }

  /** A run of digits `d` at `start` followed by something that does not
      begin with a digit ends at `start + |d|`. */
  lemma {:induction false} DigitsThenStop(s: seq<char>, start: nat, d: seq<char>, t: seq<char>)
    requires start <= |s| && s[start..] == d + t
    requires AllDigits(d) && (t == [] || !IsDigit(t[0]))
    ensures DigitRunEnd(s, start) == start + |d| && s[start..start + |d|] == d
  {
    forall j | start <= j < start + |d|
      ensures IsDigit(s[j])
    {
      assert s[j] == s[start..][j - start] == d[j - start];
    }
    if start + |d| < |s| {
      assert s[start + |d|] == s[start..][|d|] == t[0];
    }
    RunEndIs(s, start, start + |d|);
    forall j | 0 <= j < |d|
      ensures s[start..start + |d|][j] == d[j]
    {
      assert s[start..start + |d|][j] == s[start..][j];
    }
  }

  /** The run of digits after the '.' of `a + "." + d + t`. */
  lemma {:induction false} FractionRun(a: seq<char>, d: seq<char>, t: seq<char>)
    requires AllDigits(a) && AllDigits(d) && (t == [] || !IsDigit(t[0]))
    ensures var s := a + ['.'] + d + t;
      LeadingNumber(s) == Number(Value(a), |a|) && s[|a|] == '.' &&
      DigitRunEnd(s, |a| + 1) == |a| + 1 + |d| && s[|a| + 1..|a| + 1 + |d|] == d
  {
    var u := ['.'] + (d + t);
    var s := a + u;
    assert s == a + ['.'] + d + t;
    LeadingNumberOf(a, u);
    assert s[|a|] == u[0] == '.';
    assert s[|a| + 1..] == d + t by {
      assert s[|a|..] == u;
      assert s[|a| + 1..] == s[|a|..][1..];
    }
    DigitsThenStop(s, |a| + 1, d, t);
  }

  /** The fraction of a run of digits `d` at `start`. */
  lemma {:induction false} FractionOfRun(s: seq<char>, start: nat, d: seq<char>)
    requires start + |d| <= |s| && AllDigits(d)
    requires DigitRunEnd(s, start) == start + |d| && s[start..start + |d|] == d
    ensures var k := Min(|d|, USEC_DIGITS);
      AllDigits(d[..k]) &&
      ParseFraction(s, start) == Fraction(Padded(Value(d[..k]), USEC_DIGITS - k), start + |d|)
  {
    var k := Min(|d|, USEC_DIGITS);
    SlicePrefix(s, start, start + |d|, k);
  }

  /** The reading of a string whose leading number is followed by a '.'. */
  lemma {:induction false} ParseAtDot(s: seq<char>, sec: nat, dot: nat, fr: Fraction)
    requires LeadingNumber(s) == Number(sec, dot) && dot < |s| && s[dot] == '.'
    requires ParseFraction(s, dot + 1) == fr
    ensures ParseTimeval(s) == Parsed(TimeVal(sec, fr.usec), fr.end)
  {
  }

  /** The reading of `a + "." + d + t`: the first (at most six) digits of
      `d`, scaled to six digits, and everything up to `t` is read. */
  lemma {:induction false} FractionAt(a: seq<char>, d: seq<char>, t: seq<char>)
    requires AllDigits(a) && AllDigits(d) && (t == [] || !IsDigit(t[0]))
    ensures var k := Min(|d|, USEC_DIGITS);
      AllDigits(d[..k]) &&
      ParseTimeval(a + ['.'] + d + t) ==
        Parsed(TimeVal(Value(a), Padded(Value(d[..k]), USEC_DIGITS - k)), |a| + 1 + |d|)
  {
    var s := a + ['.'] + d + t;
    FractionRun(a, d, t);
    FractionOfRun(s, |a| + 1, d);
    ParseAtDot(s, Value(a), |a|, ParseFraction(s, |a| + 1));
  }

  /** `d` followed by zeros up to six digits is `d` scaled to six digits. */
  lemma {:induction false} PadValue(d: seq<char>)
    requires AllDigits(d) && |d| <= USEC_DIGITS
    ensures var z := d + Repeat('0', USEC_DIGITS - |d|);
      AllDigits(z) && Value(z) == Padded(Value(d), USEC_DIGITS - |d|)
  {
    ValueOfZeros(USEC_DIGITS - |d|);
    ValueAppend(d, Repeat('0', USEC_DIGITS - |d|));
    PaddedScales(Value(d), USEC_DIGITS - |d|);
  }

  /** A fraction of fewer than six digits is zero-extended to six: ".5"
      means 500000 microseconds. */
  lemma {:induction false} ZeroExtended(a: seq<char>, d: seq<char>, t: seq<char>)
    requires AllDigits(a) && AllDigits(d) && |d| <= USEC_DIGITS
    requires t == [] || !IsDigit(t[0])
    ensures var z := d + Repeat('0', USEC_DIGITS - |d|);
      AllDigits(z) &&
      ParseTimeval(a + ['.'] + d + t) == Parsed(TimeVal(Value(a), Value(z)), |a| + 1 + |d|)
  {
    FractionAt(a, d, t);
    assert d[..|d|] == d;
    PadValue(d);
  }

  /** Digits beyond the sixth are read past but do not change the
      microseconds. */
  lemma {:induction false} ExtraDigitsIgnored(a: seq<char>, d: seq<char>, x: seq<char>, t: seq<char>)
    requires AllDigits(a) && AllDigits(d) && AllDigits(x) && |d| == USEC_DIGITS
    requires t == [] || !IsDigit(t[0])
    ensures ParseTimeval(a + ['.'] + d + x + t) == Parsed(TimeVal(Value(a), Value(d)), |a| + 1 + |d| + |x|)
  {
    var dx := d + x;
    assert AllDigits(dx);
    assert a + ['.'] + d + x + t == a + ['.'] + dx + t;
    FractionAt(a, dx, t);
    assert dx[..USEC_DIGITS] == d;
  }

  /** The example of the usage text: ".5" is half a second. */
  lemma {:induction false} HalfSecond()
    ensures ParseTimeval(".5") == Parsed(TimeVal(0, 500000), 2)
  {
    assert ".5" == [] + ['.'] + "5" + [];
    FractionAt([], "5", []);
    assert "5"[..1] == "5";
    assert "5"[..0] == [];
    assert Value("5") == 5;
    assert Padded(5, 5) == 500000 by {
      assert Padded(5, 1) == 50;
      assert Padded(5, 2) == 500;
      assert Padded(5, 3) == 5000;
      assert Padded(5, 4) == 50000;
    }
  }

  /** The whole -w argument was read: otherwise it is a usage error. */
  predicate Accepts(s: seq<char>) {
    ParseTimeval(s).rest == |s|
  }

  /** The arguments accepted are exactly a run of digits, or two runs of
      digits around a '.' (either run may be empty). */
  lemma {:induction false} AcceptsIff(s: seq<char>)
    ensures Accepts(s) <==>
      AllDigits(s) ||
      exists i :: 0 <= i < |s| && s[i] == '.' && AllDigits(s[..i]) && AllDigits(s[i + 1..])
  {
    var n := LeadingNumber(s);
    if n.end < |s| && s[n.end] == '.' {
      var f := DigitRunEnd(s, n.end + 1);
      if f == |s| {
        assert AllDigits(s[n.end + 1..]);
      } else {
        forall i | 0 <= i < |s| && s[i] == '.' && AllDigits(s[..i])
          ensures !AllDigits(s[i + 1..])
        {
          assert s[i + 1..][f - i - 1] == s[f];
        }
      }
    } else if n.end == |s| {
      assert s[..n.end] == s;
    }
  }
}
