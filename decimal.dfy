/** Decimal rendering of non-negative integers as Go's fmt package does it: `%d`
    (no padding) and `%0<w>d` (left-padded with '0' up to width w, never truncated),
    together with the digit-string reading that inverts it. */
module Decimal {
  import opened Arith

  predicate IsDigit(c: char) {
    '0' <= c <= '9'
  }

  predicate AllDigits(s: string) {
    forall i :: 0 <= i < |s| ==> IsDigit(s[i])
  }

  function DigitChar(d: nat): (c: char)
    requires d < 10
    ensures IsDigit(c) && c as int - '0' as int == d
  {
    ('0' as int + d) as char
  }

  /** `%d` of a non-negative number: its shortest decimal rendering. */
  function Format(n: nat): (s: string)
    ensures |s| >= 1 && AllDigits(s)
    ensures s[0] == '0' ==> n == 0
    ensures n == 0 ==> s == "0"
    decreases n
  {
    if n < 10 then [DigitChar(n)] else Format(n / 10) + [DigitChar(n % 10)]
  }

  /** The number a digit string denotes, most significant digit first. */
  function Value(s: string): nat
    requires AllDigits(s)
  {
    if s == [] then 0 else Value(s[..|s| - 1]) * 10 + (s[|s| - 1] as int - '0' as int)
  }

  /** `w` zero characters. */
  function Zeros(w: nat): (z: string)
    ensures |z| == w && forall i :: 0 <= i < w ==> z[i] == '0'
  {
    seq(w, _ => '0')
  }

  /** `%0<w>d` of a non-negative number. */
  function FormatPadded(n: nat, w: nat): string {
    var d := Format(n);
    if |d| >= w then d else Zeros(w - |d|) + d
  }

  /** Reading back the rendering gives the number. */
  lemma {:induction false} ValueOfFormat(n: nat)
    ensures Value(Format(n)) == n
    decreases n
  {
    if n >= 10 {
      var s := Format(n);
      assert s[..|s| - 1] == Format(n / 10);
      ValueOfFormat(n / 10);
    }
  }

  /** `%d` is injective: distinct numbers have distinct renderings. */
  lemma FormatInjective(m: nat, n: nat)
    ensures Format(m) == Format(n) <==> m == n
  {
    ValueOfFormat(m);
    ValueOfFormat(n);
  }

  /** Numbers below 10^k take at most k digits. */
  lemma {:induction false} FormatLength(n: nat, k: nat)
    requires k >= 1 && n < Pow(10, k)
    ensures |Format(n)| <= k
    decreases k
  {
    if n >= 10 {
      FormatLength(n / 10, k - 1);
    }
  }

  /** Leading zeros do not change the value. */
  lemma {:induction false} ValueLeadingZeros(w: nat, d: string)
    requires AllDigits(d)
    ensures AllDigits(Zeros(w) + d) && Value(Zeros(w) + d) == Value(d)
    decreases |d|
  {
    var s := Zeros(w) + d;
    if d == [] {
      assert s == Zeros(w);
      ZerosValue(w);
    } else {
      assert s[..|s| - 1] == Zeros(w) + d[..|d| - 1];
      ValueLeadingZeros(w, d[..|d| - 1]);
    }
  }

  lemma {:induction false} ZerosValue(w: nat)
    ensures Value(Zeros(w)) == 0
  {
    if w > 0 {
      assert Zeros(w)[..w - 1] == Zeros(w - 1);
      ZerosValue(w - 1);
    }
  }

  /** For n < 10^w, `%0<w>d` gives exactly w digits denoting n. */
  lemma PaddedFacts(n: nat, w: nat)
    requires w >= 1 && n < Pow(10, w)
    ensures |FormatPadded(n, w)| == w
    ensures AllDigits(FormatPadded(n, w)) && Value(FormatPadded(n, w)) == n
  {
    FormatLength(n, w);
    ValueOfFormat(n);
    ValueLeadingZeros(w - |Format(n)|, Format(n));
  }

  /** Dropping the last digit divides the value by ten. */
  lemma DropLastDigit(s: string)
    requires |s| >= 1 && AllDigits(s)
    ensures Value(s[..|s| - 1]) == Value(s) / 10
  {
    DivModUnique(Value(s), 10, Value(s[..|s| - 1]), s[|s| - 1] as int - '0' as int);
  }

  /** Dropping the last k digits divides the value by 10^k. */
  lemma {:induction false} DropLastDigits(s: string, k: nat)
    requires k <= |s| && AllDigits(s)
    ensures Value(s[..|s| - k]) == Value(s) / Pow(10, k)
    decreases k
  {
    if k > 0 {
      var t := s[..|s| - 1];
      DropLastDigit(s);
      DropLastDigits(t, k - 1);
      assert t[..|t| - (k - 1)] == s[..|s| - k];
      DivDiv(Value(s), 10, Pow(10, k - 1));
    } else {
      assert s[..|s|] == s;
    }
  }
}
