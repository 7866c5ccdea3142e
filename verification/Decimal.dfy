/** Decimal digits: printing numbers and reading them back. */
module Decimal {

  predicate IsDigit(c: char) {
    '0' <= c <= '9'
  }

  predicate AllDigits(s: string) {
    forall i :: 0 <= i < |s| ==> IsDigit(s[i])
  }

  function DigitChar(d: nat): (c: char)
    requires d < 10
    ensures IsDigit(c) && c as int - '0' as int == d
  {
    ('0' as int + d) as char
  }

  /** The value of a string of digits. */
  function Value(s: string): (n: nat)
    requires AllDigits(s)
  {
    if s == "" then 0 else Value(s[..|s| - 1]) * 10 + (s[|s| - 1] as int - '0' as int)
  }

  /** Without leading zeros. */
  function Print(n: nat): (s: string)
    ensures s != "" && AllDigits(s)
    ensures s[0] == '0' <==> n == 0
    ensures n < 10 ==> |s| == 1
  {
    (if n < 10 then "" else Print(n / 10)) + [DigitChar(n % 10)]
  }

  function Zeros(k: nat): (s: string)
    ensures |s| == k && AllDigits(s)
  {
    if k == 0 then "" else Zeros(k - 1) + ['0']
  }

  /** Printed with leading zeros up to the given width. */
  function PrintPadded(n: nat, width: nat): (s: string)
    ensures s != "" && AllDigits(s)
    ensures |s| == if |Print(n)| < width then width else |Print(n)|
  {
    var plain := Print(n);
    if |plain| < width then Zeros(width - |plain|) + plain else plain
  }

  lemma {:induction false} ValueOfPrint(n: nat)
    ensures Value(Print(n)) == n
  {
    if n >= 10 {
      ValueOfPrint(n / 10);
      var s := Print(n);
      assert s[..|s| - 1] == Print(n / 10);
    }
  }

  lemma {:induction false} ValueOfZeros(k: nat, s: string)
    requires AllDigits(s)
    ensures Value(Zeros(k) + s) == Value(s)
  {
    if s != "" {
      ValueOfZeros(k, s[..|s| - 1]);
      var t := Zeros(k) + s;
      assert t[..|t| - 1] == Zeros(k) + s[..|s| - 1];
    } else {
      assert Zeros(k) + s == Zeros(k);
      ZerosAreZero(k);
    }
  }

  lemma {:induction false} ZerosAreZero(k: nat)
    ensures Value(Zeros(k)) == 0
  {
    if k > 0 {
      ZerosAreZero(k - 1);
      assert Zeros(k)[..k - 1] == Zeros(k - 1);
    }
  }

  /** Padding does not change what a number reads back as. */
  lemma ValueOfPadded(n: nat, width: nat)
    ensures Value(PrintPadded(n, width)) == n
  {
    hide Value, Zeros, Print, AllDigits;
    var plain := Print(n);
    ValueOfPrint(n);
    if |plain| < width {
      ValueOfZeros(width - |plain|, plain);
    }
  }

  lemma ValueStep(init: string, c: char)
    requires AllDigits(init) && IsDigit(c)
    ensures AllDigits(init + [c]) && Value(init + [c]) == 10 * Value(init) + (c as int - '0' as int)
  {
    assert (init + [c])[..|init|] == init;
  }

  lemma PrintStep(v: nat, c: char)
    requires IsDigit(c)
    ensures Print(10 * v + (c as int - '0' as int)) == if v == 0 then [c] else Print(v) + [c]
  {
    var d := c as int - '0' as int;
    DigitIs(c);
    assert (10 * v + d) / 10 == v && (10 * v + d) % 10 == d;
  }

  lemma ZeroIs()
    ensures Print(0) == "0" && Value("") == 0 && forall k: nat :: k > 0 ==> Zeros(k) == Zeros(k - 1) + "0"
  {
    DigitIs('0');
  }

  /** A number read from digits and printed with as many digits gives those digits back. */
  lemma {:induction false} PaddedValue(s: string)
    requires s != "" && AllDigits(s)
    ensures |Print(Value(s))| <= |s| && s == Zeros(|s| - |Print(Value(s))|) + Print(Value(s))
    decreases |s|
  {
    hide Print, Value, Zeros;
    var n := |s| - 1;
    var init, c := s[..n], s[n];
    assert s == init + [c];
    ValueStep(init, c);
    PrintStep(Value(init), c);
    ZeroIs();
    if n == 0 {
      assert init == "";
    } else {
      PaddedValue(init);
      if Value(init) == 0 {
        assert init == Zeros(n);
      } else {
        assert s == Zeros(n - |Print(Value(init))|) + (Print(Value(init)) + [c]);
      }
    }
  }

  lemma DigitIs(c: char)
    requires IsDigit(c)
    ensures var d := c as int - '0' as int; 0 <= d < 10 && DigitChar(d) == c && Print(d) == [c]
  {
  }

  /** So padding to the number of digits gives them back, and without a leading zero so does plain printing. */
  lemma ReprintedValue(s: string)
    requires s != "" && AllDigits(s)
    ensures PrintPadded(Value(s), |s|) == s
    ensures s[0] != '0' || |s| == 1 ==> Print(Value(s)) == s && PrintPadded(Value(s), 0) == s
  {
    hide Print, Value, Zeros;
    PaddedValue(s);
    var zeros := |s| - |Print(Value(s))|;
    if zeros > 0 {
      FirstZero(zeros);
      assert s[0] == Zeros(zeros)[0];
    } else {
      assert Zeros(0) + Print(Value(s)) == Print(Value(s));
    }
  }

  lemma {:induction false} FirstZero(k: nat)
    requires k > 0
    ensures Zeros(k)[0] == '0'
  {
    if k > 1 {
      FirstZero(k - 1);
    }
  }

  function Pow10(k: nat): (p: nat)
    ensures p >= 1
  {
    if k == 0 then 1 else 10 * Pow10(k - 1)
  }

  /** The first digit counts for the most: as many tens as digits follow it. */
  lemma {:induction false} FirstDigitCounts(c: char, s: string)
    requires IsDigit(c) && AllDigits(s)
    ensures AllDigits([c] + s) && Value([c] + s) == (c as int - '0' as int) * Pow10(|s|) + Value(s)
  {
    var all := [c] + s;
    if s == "" {
      assert all[..0] == "";
    } else {
      var n := |s| - 1;
      FirstDigitCounts(c, s[..n]);
      assert all[..|all| - 1] == [c] + s[..n];
      var d := c as int - '0' as int;
      assert d * Pow10(|s|) == 10 * (d * Pow10(n));
    }
  }
}
