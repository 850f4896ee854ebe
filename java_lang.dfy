/**
 * The few pieces of the Java platform the Greenplum adapter calls: 32-bit `int` arithmetic
 * (`Math.abs`), decimal conversion (`Integer.valueOf`, `Integer.toString`, i.e. `"" + n`) and
 * literal replacement (`String.replace(CharSequence, CharSequence)`).
 */
module JavaLang {
  import opened Results

  const INT_MIN: int := -0x8000_0000
  const INT_MAX: int := 0x7FFF_FFFF
  const TWO_TO_32: int := 0x1_0000_0000

  /** The values a Java `int` can hold. */
  predicate InInt32(n: int) {
    INT_MIN <= n <= INT_MAX
  }

  /** Two's-complement wrap-around of an exact integer result into the `int` range. */
  function Wrap32(n: int): (r: int)
    ensures InInt32(r)
    ensures (r - n) % TWO_TO_32 == 0
    ensures InInt32(n) ==> r == n
  {
    (n - INT_MIN) % TWO_TO_32 + INT_MIN
  }

  /** `Math.abs(int)`: a negative argument is negated in 32-bit arithmetic, which overflows for `INT_MIN`. */
  function Abs(p: int): (r: int)
    requires InInt32(p)
    ensures InInt32(r)
    ensures p != INT_MIN ==> r >= 0 && (r == p || r == -p)
    ensures p == INT_MIN ==> r == INT_MIN
  {
    if p < 0 then Wrap32(-p) else p
  }

  // ---------------------------------------------------------------------------------------
  // Decimal text
  // ---------------------------------------------------------------------------------------

  /** ASCII decimal digit (other Unicode digits are not modelled). */
  predicate IsDigit(c: char) {
    '0' <= c <= '9'
  }

  predicate AllDigits(s: string) {
    forall i :: 0 <= i < |s| ==> IsDigit(s[i])
  }

  function DigitValue(c: char): (d: nat)
    requires IsDigit(c)
    ensures d < 10
  {
    c as int - '0' as int
  }

  function DigitChar(d: nat): (c: char)
    requires d < 10
    ensures IsDigit(c) && DigitValue(c) == d
  {
    (d + '0' as int) as char
  }

  /** The value of a run of decimal digits, accumulated left to right as `Integer.parseInt` does. */
  function DigitsValue(s: string): nat
    requires AllDigits(s)
    decreases |s|
  {
    if s == [] then 0 else 10 * DigitsValue(s[..|s| - 1]) + DigitValue(s[|s| - 1])
  }

  /** The decimal digits of `n`, most significant first, without leading zeros. */
  function NatToDigits(n: nat): (s: string)
    ensures |s| > 0 && AllDigits(s)
    ensures |s| > 1 ==> s[0] != '0'
    decreases n
  {
    if n < 10 then [DigitChar(n)] else NatToDigits(n / 10) + [DigitChar(n % 10)]
  }

  /** Reading back the digits of `n` gives `n`; only zero is written with a leading '0'. */
  lemma {:induction false} DigitsRoundTrip(n: nat)
    ensures DigitsValue(NatToDigits(n)) == n
    ensures NatToDigits(n)[0] == '0' <==> n == 0
    decreases n
  {
    var s := NatToDigits(n);
    if n >= 10 {
      DigitsRoundTrip(n / 10);
      assert s[..|s| - 1] == NatToDigits(n / 10);
    }
  }

  /** `Integer.toString(int)`, which is also what `"..." + n` appends: a '-' then the digits of |n|. */
  function IntToString(n: int): (s: string)
    ensures |s| > 0
    ensures s[0] == '-' <==> n < 0
  {
    if n < 0 then "-" + NatToDigits(-n) else NatToDigits(n)
  }

  /** The text after an optional leading '+' or '-'. */
  function Unsigned(s: string): string {
    if |s| > 0 && (s[0] == '-' || s[0] == '+') then s[1..] else s
  }

  /**
   * `Integer.valueOf(String)`: an optional single '+' or '-', then one or more decimal digits,
   * whose value must fit an `int`; any other text throws `NumberFormatException` (here `None`).
   * An accepted text's digits spell the magnitude of the value.
   */
  function IntegerValueOf(s: string): (r: Option<int>)
    ensures r.Some? ==> InInt32(r.value)
    ensures r.Some? ==> |s| > 0 && (IsDigit(s[0]) || s[0] == '+' || s[0] == '-')
    ensures r.Some? ==> (r.value < 0 ==> s[0] == '-') && (s[0] == '-' ==> r.value <= 0)
    ensures r.Some? ==> Unsigned(s) != [] && AllDigits(Unsigned(s))
                        && DigitsValue(Unsigned(s)) == (if r.value < 0 then -r.value else r.value)
  {
    var signed := |s| > 0 && (s[0] == '-' || s[0] == '+');
    var digits := Unsigned(s);
    if digits == [] || !AllDigits(digits) then None
    else
      var magnitude := DigitsValue(digits);
      var v: int := if signed && s[0] == '-' then -(magnitude as int) else magnitude;
      if InInt32(v) then Some(v) else None
  }

  /** `Integer.valueOf` reads back every `int` that `Integer.toString` writes. */
  lemma IntegerValueOfToString(n: int)
    requires InInt32(n)
    ensures IntegerValueOf(IntToString(n)) == Some(n)
  {
    var s := IntToString(n);
    var m: nat := if n < 0 then -n else n;
    DigitsRoundTrip(m);
    var digits := NatToDigits(m);
    if n < 0 {
      assert s == "-" + digits && s[0] == '-';
      assert s[1..] == digits;
    } else {
      assert s == digits && IsDigit(s[0]);
    }
    assert DigitsValue(digits) == m;
  }

  /** A non-negative `int` is written in canonical decimal: digits only, no leading zero. */
  lemma CanonicalDecimal(n: int)
    requires 0 <= n <= INT_MAX
    ensures IntToString(n) == NatToDigits(n)
    ensures IntToString(n)[0] == '0' ==> |IntToString(n)| == 1
    ensures IntegerValueOf(NatToDigits(n)) == Some(n)
  {
    IntegerValueOfToString(n);
    DigitsRoundTrip(n);
  }

  predicate AllZeros(z: string) {
    forall i :: 0 <= i < |z| ==> z[i] == '0'
  }

  /** Leading zeros do not change the value of a run of digits. */
  lemma {:induction false} LeadingZeros(z: string, d: string)
    requires AllZeros(z) && AllDigits(d)
    ensures AllDigits(z + d) && DigitsValue(z + d) == DigitsValue(d)
    decreases |d|
  {
    if d == [] {
      assert z + d == z;
      ZerosValue(z);
    } else {
      var init := d[..|d| - 1];
      LeadingZeros(z, init);
      assert (z + d)[..|z + d| - 1] == z + init;
    }
  }

  lemma {:induction false} ZerosValue(z: string)
    requires AllZeros(z)
    ensures AllDigits(z) && DigitsValue(z) == 0
    decreases |z|
  {
    if z != [] {
      ZerosValue(z[..|z| - 1]);
    }
  }

  /**
   * `Integer.valueOf` accepts any number of leading zeros and a '+' sign, or a '-' sign for a
   * value that is not positive: all such spellings of `n` parse to `n`.
   */
  lemma SignAndLeadingZeros(sign: string, zeros: string, n: int)
    requires InInt32(n) && AllZeros(zeros)
    requires sign == "" || sign == "+" || sign == "-"
    requires n < 0 ==> sign == "-"
    requires sign == "-" ==> n <= 0
    ensures IntegerValueOf(sign + zeros + NatToDigits(if n < 0 then -n else n)) == Some(n)
  {
    var m: nat := if n < 0 then -n else n;
    var d := zeros + NatToDigits(m);
    var s := sign + d;
    assert sign + zeros + NatToDigits(m) == s;
    DigitsRoundTrip(m);
    LeadingZeros(zeros, NatToDigits(m));
    assert |d| > 0 && IsDigit(d[0]);
    SignedText(sign, d);
  }

  /** Prefixing an optional sign to a run of digits: `Unsigned` recovers the digits. */
  lemma SignedText(sign: string, d: string)
    requires sign == "" || sign == "+" || sign == "-"
    requires |d| > 0 && IsDigit(d[0])
    ensures Unsigned(sign + d) == d
    ensures (sign + d)[0] == (if sign == "" then d[0] else sign[0])
  {
    if sign == "" {
      assert sign + d == d;
    } else {
      assert (sign + d)[1..] == d;
    }
  }

  // ---------------------------------------------------------------------------------------
  // String.replace
  // ---------------------------------------------------------------------------------------

  /** `t` occurs in `s` starting at index `i`. */
  predicate OccursAt(s: string, t: string, i: int) {
    0 <= i && i + |t| <= |s| && s[i..i + |t|] == t
  }

  /** `s.contains(t)`. */
  predicate Contains(s: string, t: string) {
    exists i :: 0 <= i <= |s| && OccursAt(s, t, i)
  }

  /** The number of occurrences of a non-empty `t` that `ReplaceAll` replaces. */
  function Occurrences(s: string, t: string): nat
    requires |t| > 0
    decreases |s|
  {
    if |s| < |t| then 0
    else if s[..|t|] == t then 1 + Occurrences(s[|t|..], t)
    else Occurrences(s[1..], t)
  }

  /**
   * `s.replace(t, r)`: every occurrence of `t`, found left to right and without overlap, is
   * replaced by `r`; the text inserted is never searched again. An empty `t` matches before
   * every character and at the end. For a non-empty `t`, each replaced occurrence changes the
   * length by |r| - |t|.
   */
  function ReplaceAll(s: string, t: string, r: string): (res: string)
    ensures |t| > 0 ==> |res| == |s| + Occurrences(s, t) * (|r| - |t|)
    decreases |s|
  {
    if t == [] then
      if s == [] then r else r + [s[0]] + ReplaceAll(s[1..], t, r)
    else if |s| < |t| then s
    else if s[..|t|] == t then
      SuccessorTimes(Occurrences(s[|t|..], t), |r| - |t|);
      r + ReplaceAll(s[|t|..], t, r)
    else [s[0]] + ReplaceAll(s[1..], t, r)
  }

  lemma SuccessorTimes(k: int, d: int)
    ensures (1 + k) * d == d + k * d
  {
  }

  /** An occurrence of `t` in `s` after the first character is an occurrence in `s[1..]`. */
  lemma OccursInTail(s: string, t: string, i: int)
    requires OccursAt(s, t, i) && i != 0
    ensures OccursAt(s[1..], t, i - 1)
  {
    assert s[1..][i - 1..i - 1 + |t|] == s[i..i + |t|];
  }

  /** Replacing `t` by itself changes nothing. */
  lemma {:induction false} ReplaceAllIdentity(s: string, t: string)
    ensures ReplaceAll(s, t, t) == s
    decreases |s|
  {
    if t == [] {
      if s != [] {
        ReplaceAllIdentity(s[1..], t);
        assert [s[0]] + s[1..] == s;
      }
    } else if |s| >= |t| {
      if s[..|t|] == t {
        ReplaceAllIdentity(s[|t|..], t);
        assert s[..|t|] + s[|t|..] == s;
      } else {
        ReplaceAllIdentity(s[1..], t);
        assert [s[0]] + s[1..] == s;
      }
    }
  }

  /** Text without an occurrence of `t` comes back unchanged. */
  lemma {:induction false} ReplaceAllNoMatch(s: string, t: string, r: string)
    requires |t| > 0 && !Contains(s, t)
    ensures ReplaceAll(s, t, r) == s
    decreases |s|
  {
    if |s| >= |t| {
      assert !OccursAt(s, t, 0);
      assert s[0..|t|] == s[..|t|];
      if Contains(s[1..], t) {
        var i :| 0 <= i <= |s[1..]| && OccursAt(s[1..], t, i);
        assert s[1..][i..i + |t|] == s[i + 1..i + 1 + |t|];
        assert OccursAt(s, t, i + 1);
      }
      ReplaceAllNoMatch(s[1..], t, r);
      assert [s[0]] + s[1..] == s;
    }
  }

  /** If `t` occurs at all, the leftmost scan replaces at least one occurrence. */
  lemma {:induction false} ContainsIsReplaced(s: string, t: string)
    requires |t| > 0 && Contains(s, t)
    ensures Occurrences(s, t) >= 1
    decreases |s|
  {
    var i :| 0 <= i <= |s| && OccursAt(s, t, i);
    if s[..|t|] != t {
      assert s[0..|t|] == s[..|t|];
      OccursInTail(s, t, i);
      ContainsIsReplaced(s[1..], t);
    }
  }

  /** Text that contains `t` is changed by replacing `t` with anything other than `t`. */
  lemma ReplaceAllChanges(s: string, t: string, r: string)
    requires |t| > 0 && Contains(s, t) && r != t
    ensures ReplaceAll(s, t, r) != s
  {
    if |r| != |t| {
      ContainsIsReplaced(s, t);
      ProductNonZero(Occurrences(s, t), |r| - |t|);
    } else {
      SameLengthReplaceAllChanges(s, t, r);
    }
  }

  lemma ProductNonZero(k: int, d: int)
    requires k >= 1 && d != 0
    ensures k * d != 0
  {
    if d > 0 { assert k * d >= d; } else { assert k * d <= d; }
  }

  /** The case of `ReplaceAllChanges` where `r` and `t` have the same length: the first replaced occurrence differs. */
  lemma {:induction false} SameLengthReplaceAllChanges(s: string, t: string, r: string)
    requires |t| > 0 && Contains(s, t) && r != t && |r| == |t|
    ensures ReplaceAll(s, t, r) != s
    decreases |s|
  {
    var res := ReplaceAll(s, t, r);
    var i :| 0 <= i <= |s| && OccursAt(s, t, i);
    if s[..|t|] == t {
      assert res == r + ReplaceAll(s[|t|..], t, r);
      assert res[..|r|] == r;
    } else {
      assert s[0..|t|] == s[..|t|];
      OccursInTail(s, t, i);
      SameLengthReplaceAllChanges(s[1..], t, r);
      assert res == [s[0]] + ReplaceAll(s[1..], t, r);
      assert res[1..] == ReplaceAll(s[1..], t, r);
    }
  }

  /** A string that starts with `t` has that occurrence replaced first. */
  lemma ReplaceAllLeading(q: string, t: string, r: string)
    requires |t| > 0
    ensures ReplaceAll(t + q, t, r) == r + ReplaceAll(q, t, r)
  {
    assert (t + q)[..|t|] == t;
    assert (t + q)[|t|..] == q;
  }

  /** A string that starts with a non-empty `t` has that occurrence replaced, and the scan resumes after it. */
  lemma ReplaceAllMatch(s: string, t: string, r: string)
    requires |t| > 0 && |s| >= |t| && s[..|t|] == t
    ensures ReplaceAll(s, t, r) == r + ReplaceAll(s[|t|..], t, r)
  {
  }

  /** A non-empty string that does not start with `t` keeps its first character. */
  lemma ReplaceAllMismatch(s: string, t: string, r: string)
    requires |t| > 0 && s != [] && !(|s| >= |t| && s[..|t|] == t)
    ensures ReplaceAll(s, t, r) == [s[0]] + ReplaceAll(s[1..], t, r)
  {
    if |s| < |t| {
      assert ReplaceAll(s[1..], t, r) == s[1..];
      assert [s[0]] + s[1..] == s;
    }
  }

  /** No occurrence of a non-empty `t` can start inside a prefix `p` that lacks `t`'s first character. */
  lemma {:induction false} ReplaceAllSkip(p: string, q: string, t: string, r: string)
    requires |t| > 0 && t[0] !in p
    ensures ReplaceAll(p + q, t, r) == p + ReplaceAll(q, t, r)
    decreases |p|
  {
    if p == [] {
      assert p + q == q;
    } else {
      var s, tail := p + q, p[1..];
      ConcatAt(p, q, 1);
      assert s[0] == p[0];
      assert |s| >= |t| ==> s[..|t|][0] != t[0];
      ReplaceAllSkip(tail, q, t, r);
      calc {
        ReplaceAll(s, t, r);
        { ReplaceAllMismatch(s, t, r); }
        [p[0]] + ReplaceAll(tail + q, t, r);
        [p[0]] + (tail + ReplaceAll(q, t, r));
        ([p[0]] + tail) + ReplaceAll(q, t, r);
        { assert [p[0]] + tail == p; }
        p + ReplaceAll(q, t, r);
      }
    }
  }

  /** If `x` does not start with `t`, neither does `x + y` when `y` starts with a character outside `t`. */
  lemma NoMatchAcrossBoundary(x: string, y: string, t: string)
    requires |t| > 0 && |y| > 0 && y[0] !in t
    requires !(|x| >= |t| && x[..|t|] == t)
    ensures !(|x + y| >= |t| && (x + y)[..|t|] == t)
  {
    var s := x + y;
    if |s| >= |t| {
      if |x| < |t| {
        assert s[..|t|][|x|] == y[0];
      } else {
        assert s[..|t|] == x[..|t|];
      }
    }
  }

  /** Cutting `x + y` inside `x`. */
  lemma ConcatAt(x: string, y: string, k: nat)
    requires k <= |x|
    ensures (x + y)[..k] == x[..k] && (x + y)[k..] == x[k..] + y
  {
  }

  /**
   * No occurrence of a non-empty `t` can straddle the boundary before a `y` whose first
   * character is not in `t`, so `x` and `y` are rewritten independently.
   */
  lemma {:induction false} ReplaceAllSplit(x: string, y: string, t: string, r: string)
    requires |t| > 0 && |y| > 0 && y[0] !in t
    ensures ReplaceAll(x + y, t, r) == ReplaceAll(x, t, r) + ReplaceAll(y, t, r)
    decreases |x|
  {
    if x == [] {
      assert x + y == y;
    } else if |x| >= |t| && x[..|t|] == t {
      ReplaceAllSplit(x[|t|..], y, t, r);
      SplitAfterMatch(x, y, t, r);
    } else {
      ReplaceAllSplit(x[1..], y, t, r);
      SplitAfterMismatch(x, y, t, r);
    }
  }

  /** The step of `ReplaceAllSplit` where `x` starts with `t`. */
  lemma SplitAfterMatch(x: string, y: string, t: string, r: string)
    requires |t| > 0 && |x| >= |t| && x[..|t|] == t
    requires ReplaceAll(x[|t|..] + y, t, r) == ReplaceAll(x[|t|..], t, r) + ReplaceAll(y, t, r)
    ensures ReplaceAll(x + y, t, r) == ReplaceAll(x, t, r) + ReplaceAll(y, t, r)
  {
    var s, rest, b := x + y, x[|t|..], ReplaceAll(y, t, r);
    ConcatAt(x, y, |t|);
    calc {
      ReplaceAll(s, t, r);
      { ReplaceAllMatch(s, t, r); }
      r + ReplaceAll(rest + y, t, r);
      r + (ReplaceAll(rest, t, r) + b);
      (r + ReplaceAll(rest, t, r)) + b;
      { ReplaceAllMatch(x, t, r); }
      ReplaceAll(x, t, r) + b;
    }
  }

  /** The step of `ReplaceAllSplit` where `x` is not empty and does not start with `t`. */
  lemma SplitAfterMismatch(x: string, y: string, t: string, r: string)
    requires |t| > 0 && |y| > 0 && y[0] !in t
    requires x != [] && !(|x| >= |t| && x[..|t|] == t)
    requires ReplaceAll(x[1..] + y, t, r) == ReplaceAll(x[1..], t, r) + ReplaceAll(y, t, r)
    ensures ReplaceAll(x + y, t, r) == ReplaceAll(x, t, r) + ReplaceAll(y, t, r)
  {
    var s, tail, b := x + y, x[1..], ReplaceAll(y, t, r);
    ConcatAt(x, y, 1);
    assert s[0] == x[0];
    calc {
      ReplaceAll(s, t, r);
      { NoMatchAcrossBoundary(x, y, t); ReplaceAllMismatch(s, t, r); }
      [x[0]] + ReplaceAll(tail + y, t, r);
      [x[0]] + (ReplaceAll(tail, t, r) + b);
      ([x[0]] + ReplaceAll(tail, t, r)) + b;
      { ReplaceAllMismatch(x, t, r); }
      ReplaceAll(x, t, r) + b;
    }
  }
}
