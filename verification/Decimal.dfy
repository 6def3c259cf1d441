/**
  NumberToString and ConsumeDecimalNumber of bench/util/logging.cc: exact overflow
  detection on 64-bit numbers and the round trip.
*/
module Decimal {

  const MAX_UINT64: nat := 0xffff_ffff_ffff_ffff

  predicate IsDigit(c: char) {
    '0' <= c <= '9'
  }

  function DigitValue(c: char): nat
    requires IsDigit(c)
  {
    c as int - '0' as int
  }

  predicate AllDigits(s: string) {
    forall i :: 0 <= i < |s| ==> IsDigit(s[i])
  }

  /** The number that a string of digits denotes. */
  function Value(s: string): nat
    requires AllDigits(s)
  {
    if s == [] then 0 else 10 * Value(s[..|s| - 1]) + DigitValue(s[|s| - 1])
  }

  /** The length of the leading run of digits. */
  function RunLength(s: string): (n: nat)
    ensures n <= |s| && AllDigits(s[..n]) && (n < |s| ==> !IsDigit(s[n]))
  {
    if s == [] || !IsDigit(s[0]) then 0
    else
      var n := RunLength(s[1..]);
      assert s[..n + 1] == [s[0]] + s[1..][..n];
      n + 1
  }

  /** `n` digits of `s` may be read without exceeding 64 bits. */
  ghost predicate Fits(s: string, n: nat)
    requires n <= RunLength(s)
  {
    Value(s[..n]) <= MAX_UINT64
  }

  lemma {:induction false} ValueGrows(s: string, m: nat, n: nat)
    requires m <= n <= |s| && AllDigits(s)
    ensures Value(s[..m]) <= Value(s[..n])
  {
    if m < n {
      ValueGrows(s, m, n - 1);
      assert s[..n][..n - 1] == s[..n - 1];
    }
  }

  /** Reading more digits does not undo an overflow. */
  lemma OverflowStays(s: string, n: nat)
    requires n <= RunLength(s) && !Fits(s, n)
    ensures !Fits(s, RunLength(s))
  {
    var run := s[..RunLength(s)];
    ValueGrows(run, n, |run|);
    assert run[..n] == s[..n] && run[..|run|] == run;
  }

  /** The test made before another digit is taken in. */
  predicate Overflows(v: nat, delta: nat) {
    v > 0xffff_ffff_ffff_ffff / 10 || (v == 0xffff_ffff_ffff_ffff / 10 && delta > 0xffff_ffff_ffff_ffff % 10)
  }

  /** The 64-bit arithmetic that takes the digit in. */
  function Shift(v: nat, delta: nat): nat {
    (v * 10 + delta) % 0x1_0000_0000_0000_0000
  }

  /** The test is exact, and what passes it does not wrap. */
  lemma OverflowExactly(v: nat, delta: nat)
    requires v <= MAX_UINT64 && delta <= 9
    ensures Overflows(v, delta) <==> v * 10 + delta > MAX_UINT64
    ensures !Overflows(v, delta) ==> Shift(v, delta) == v * 10 + delta
  {
  }

  /** Succeeds exactly when the maximal run of leading digits is not empty and its value is
      a 64-bit number; returns that value, and leaves what follows the run.  On overflow it
      stops before the first digit too many and sets no value; without digits the value is
      0.  The arithmetic, taken modulo 2^64, never wraps. */
  method ConsumeDecimalNumber(input: string) returns (ok: bool, hasVal: bool, val: nat, rest: string)
    ensures ok <==> RunLength(input) > 0 && Fits(input, RunLength(input))
    ensures hasVal <==> Fits(input, RunLength(input))
    ensures hasVal ==> val == Value(input[..RunLength(input)]) && rest == input[RunLength(input)..]
    ensures !hasVal ==>
              exists n :: 0 <= n < RunLength(input) && rest == input[n..] && Fits(input, n) && !Fits(input, n + 1)
  {
    var v := 0;
    var digits := 0;
    rest := input;
    ghost var run := RunLength(input);
    while rest != []
      invariant digits <= run && rest == input[digits..]
      invariant v == Value(input[..digits]) <= MAX_UINT64
      decreases |rest|
    {
      var c := rest[0];
      assert c == input[digits];
      if '0' <= c <= '9' {
        InRun(input, digits);
        assert input[..digits + 1][..digits] == input[..digits];
        var delta := DigitValue(c);
        OverflowExactly(v, delta);
        if Overflows(v, delta) {
          OverflowStays(input, digits + 1);
          return false, false, 0, rest;
        }
        v := Shift(v, delta);
        rest := rest[1..];
        digits := digits + 1;
      } else {
        InRun(input, digits);
        break;
      }
    }
    val, hasVal, ok := v, true, digits > 0;
  }

  /** Below the end of the run there are digits, at its end there is none. */
  lemma InRun(s: string, k: nat)
    requires k <= RunLength(s) && k < |s|
    ensures IsDigit(s[k]) <==> k < RunLength(s)
  {
    if k < RunLength(s) {
      assert s[k] == s[..RunLength(s)][k];
    }
  }

  /** What %llu prints: no leading zeros. */
  function NumberToString(n: nat): (s: string)
    ensures s != [] && AllDigits(s) && Value(s) == n
    ensures |s| > 1 ==> s[0] != '0'
  {
    if n < 10 then [DigitChar(n)]
    else
      var s := NumberToString(n / 10) + [DigitChar(n % 10)];
      assert s[..|s| - 1] == NumberToString(n / 10);
      s
  }

  function DigitChar(d: nat): (c: char)
    requires d < 10
    ensures IsDigit(c) && DigitValue(c) == d
  {
    ('0' as int + d) as char
  }

  lemma {:induction false} RunOfConcat(s: string, t: string)
    requires AllDigits(s) && (t != [] ==> !IsDigit(t[0]))
    ensures RunLength(s + t) == |s|
  {
    if s == [] {
      assert s + t == t;
    } else {
      assert (s + t)[1..] == s[1..] + t;
      RunOfConcat(s[1..], t);
    }
  }

  /** Printing a 64-bit number and parsing it gives it back, and leaves what followed. */
  method PrintThenParse(n: nat, follow: string) returns (ok: bool, val: nat, rest: string)
    requires n <= MAX_UINT64 && (follow != [] ==> !IsDigit(follow[0]))
    ensures ok && val == n && rest == follow
  {
    var text := NumberToString(n);
    RunOfConcat(text, follow);
    assert (text + follow)[..|text|] == text;
    var hasVal;
    ok, hasVal, val, rest := ConsumeDecimalNumber(text + follow);
  }
}
