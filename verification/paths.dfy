/**
 * The string side of the scripts: Python's decimal rendering of integers
 * (str(int) / format "{}") and the POSIX path helpers os.path.join and
 * os.path.basename, as far as the scripts use them.
 */
module Paths {

  predicate IsDigit(c: char) {
    '0' <= c <= '9'
  }

  predicate AllDigits(s: string) {
    forall i :: 0 <= i < |s| ==> IsDigit(s[i])
  }

  function DigitChar(d: nat): (c: char)
    requires d < 10
    ensures IsDigit(c) && c as int - '0' as int == d
  {
    ['0', '1', '2', '3', '4', '5', '6', '7', '8', '9'][d]
  }

  /** Decimal digits of a natural number, most significant first, no leading zero. */
  function NatToDecimal(n: nat): (s: string)
    ensures |s| >= 1 && AllDigits(s)
    ensures |s| > 1 ==> s[0] != '0'
    decreases n
  {
    if n < 10 then [DigitChar(n)] else NatToDecimal(n / 10) + [DigitChar(n % 10)]
  }

  /** Python's str(n) for an int: a minus sign before the digits of |n| when n < 0. */
  function IntToDecimal(n: int): string {
    if n < 0 then "-" + NatToDecimal(-n) else NatToDecimal(n)
  }

  /** The value of a string of decimal digits (the inverse of NatToDecimal). */
  function DecimalToNat(s: string): nat
    requires AllDigits(s)
  {
    if s == [] then 0
    else DecimalToNat(s[..|s| - 1]) * 10 + (s[|s| - 1] as int - '0' as int)
  }

  /** Reading back the digits written by NatToDecimal gives the number. */
  lemma {:induction false} DecimalRoundTrip(n: nat)
    ensures DecimalToNat(NatToDecimal(n)) == n
  {
    var s := NatToDecimal(n);
    if n >= 10 {
      DecimalRoundTrip(n / 10);
      assert s[..|s| - 1] == NatToDecimal(n / 10);
    }
  }

  lemma NatToDecimalInjective(m: nat, n: nat)
    requires NatToDecimal(m) == NatToDecimal(n)
    ensures m == n
  {
    DecimalRoundTrip(m);
    DecimalRoundTrip(n);
  }

  /** posixpath.join(a, b): b alone if absolute, else a and b with one '/' between them. */
  function Join(a: string, b: string): string {
    if |b| > 0 && b[0] == '/' then b
    else if a == "" || a[|a| - 1] == '/' then a + b
    else a + "/" + b
  }

  /** Joining the same directory to two relative names keeps them apart. */
  lemma JoinInjective(dir: string, b1: string, b2: string)
    requires |b1| > 0 && b1[0] != '/' && |b2| > 0 && b2[0] != '/'
    requires Join(dir, b1) == Join(dir, b2)
    ensures b1 == b2
  {
    var p := if dir == "" || dir[|dir| - 1] == '/' then dir else dir + "/";
    assert Join(dir, b1) == p + b1 && Join(dir, b2) == p + b2;
    assert b1 == (p + b1)[|p|..];
  }

  /** b is what follows the last '/' of path, or all of path when it has none. */
  predicate IsBasename(path: string, b: string) {
    && '/' !in b
    && |b| <= |path| && b == path[|path| - |b|..]
    && (|b| < |path| ==> path[|path| - |b| - 1] == '/')
  }

  /** A last character other than '/' extends the base name of the rest of the path. */
  lemma BasenameStep(path: string, r: string)
    requires path != [] && path[|path| - 1] != '/'
    requires IsBasename(path[..|path| - 1], r)
    ensures IsBasename(path, r + [path[|path| - 1]])
  {
    var n := |path| - 1;
    var init := path[..n];
    assert init[n - |r|..] + [path[n]] == path[n - |r|..];
    assert |r| < n ==> init[n - |r| - 1] == path[n - |r| - 1];
  }

  /** posixpath.basename: everything after the last '/'. */
  function Basename(path: string): (b: string)
    ensures '/' !in b
    ensures |b| <= |path| && b == path[|path| - |b|..]
    ensures |b| < |path| ==> path[|path| - |b| - 1] == '/'
    decreases |path|
  {
    if path == [] then []
    else if path[|path| - 1] == '/' then []
    else
      var r := Basename(path[..|path| - 1]);
      BasenameStep(path, r);
      r + [path[|path| - 1]]
  }

  /**
   * Splitting a string at a separator that is not a digit: when two strings
   * begin with a run of digits followed by the separator, the runs agree and
   * so do the rests.
   */
  lemma {:induction false} SplitAtSeparator(a: string, p: string, b: string, q: string, sep: char)
    requires AllDigits(a) && AllDigits(b) && !IsDigit(sep)
    requires a + [sep] + p == b + [sep] + q
    ensures a == b && p == q
  {
    var s := a + [sep] + p;
    var t := b + [sep] + q;
    assert forall i :: 0 <= i < |a| ==> IsDigit(s[i]);
    assert forall i :: 0 <= i < |b| ==> IsDigit(t[i]);
    assert !IsDigit(s[|a|]) && !IsDigit(t[|b|]);
    assert |a| == |b|;
    assert a == s[..|a|] == b;
    assert p == s[|a| + 1..] == q;
  }
}
