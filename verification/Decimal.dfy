/** Numerals: how numbers are printed (strconv, %d) and read back. */
module Decimal {
  import opened Basics

  function Digit(d: nat): char
    requires d < 10
  {
    (d + '0' as int) as char
  }

  /** The value of a digit in bases up to sixteen, either case. */
  function DigitValue(c: char): Option<nat> {
    if '0' <= c <= '9' then Some(c as int - '0' as int)
    else if 'a' <= c <= 'f' then Some(c as int - 'a' as int + 10)
    else if 'A' <= c <= 'F' then Some(c as int - 'A' as int + 10)
    else None
  }

  predicate IsDigit(c: char, base: nat) {
    var d := DigitValue(c);
    d.Some? && d.value < base
  }

  predicate IsNumeral(s: string, base: nat) {
    s != "" && forall k :: 0 <= k < |s| ==> IsDigit(s[k], base)
  }

  /** The number a numeral denotes. */
  function Denotes(s: string, base: nat): nat
    requires forall k :: 0 <= k < |s| ==> IsDigit(s[k], base)
  {
    if s == "" then 0
    else
      assert IsDigit(s[|s| - 1], base);
      base * Denotes(s[..|s| - 1], base) + DigitValue(s[|s| - 1]).value
  }

  /** The digits stand for the numbers they are written in order of. */
  lemma DigitsInOrder(k: nat)
    requires k < 16
    ensures DigitValue("0123456789abcdef"[k]) == Some(k) && DigitValue("0123456789ABCDEF"[k]) == Some(k)
  {
  }

  function Power(base: nat, k: nat): nat {
    if k == 0 then 1 else base * Power(base, k - 1)
  }

  lemma Digits(s: string, base: nat, i: nat, j: nat)
    requires i <= j <= |s| && forall k :: 0 <= k < |s| ==> IsDigit(s[k], base)
    ensures forall k :: 0 <= k < |s[i..j]| ==> IsDigit(s[i..j][k], base)
  {
  }

  /** Place value: the first digit counts for its power of the base, and the rest for what it denotes. */
  lemma {:induction false} FirstDigit(s: string, base: nat)
    requires s != "" && forall k :: 0 <= k < |s| ==> IsDigit(s[k], base)
    ensures Denotes(s, base) == DigitValue(s[0]).value * Power(base, |s| - 1) + Denotes(s[1..], base)
    decreases |s|
  {
    var n := |s| - 1;
    assert IsDigit(s[0], base);
    if n == 0 {
      assert s[..0] == "" && s[1..] == "";
    } else {
      Digits(s, base, 0, n);
      FirstDigit(s[..n], base);
      assert s[..n][1..] == s[1..][..n - 1] && s[1..][n - 1] == s[n];
      var d, p, rest := DigitValue(s[0]).value, Power(base, n - 1), Denotes(s[1..][..n - 1], base);
      assert base * (d * p + rest) == d * (base * p) + base * rest by { Distribute(base, d, p, rest); }
    }
  }

  lemma Distribute(base: nat, d: nat, p: nat, rest: nat)
    ensures base * (d * p + rest) == d * (base * p) + base * rest
  {
    assert base * (d * p) == d * (base * p);
  }

  /** strconv.FormatUint(n, 10). */
  function Dec(n: nat): (s: string)
    ensures IsNumeral(s, 10)
  {
    if n < 10 then [Digit(n)] else Dec(n / 10) + [Digit(n % 10)]
  }

  /** fmt's %d on a signed number. */
  function SignedDec(n: int): string {
    if n < 0 then "-" + Dec(-n) else Dec(n)
  }

  /** strconv.ParseUint(s, base, bits) for an explicit base. */
  function ParseUint(s: string, base: nat, bits: nat): Option<nat> {
    if IsNumeral(s, base) && Denotes(s, base) < Pow2(bits) then Some(Denotes(s, base)) else None
  }

  function Pow2(k: nat): nat {
    if k == 0 then 1 else 2 * Pow2(k - 1)
  }

  function Pow10(k: nat): (p: nat)
    ensures p > 0
  {
    if k == 0 then 1 else 10 * Pow10(k - 1)
  }

  /** Printing loses nothing: the numeral printed for a number denotes it. */
  lemma {:induction false} DecDenotes(n: nat)
    ensures Denotes(Dec(n), 10) == n
  {
    if n >= 10 {
      DecDenotes(n / 10);
      var s := Dec(n);
      assert s[..|s| - 1] == Dec(n / 10);
    } else {
      assert Dec(n)[..0] == "";
    }
  }

  lemma {:induction false} DecInjective(m: nat, n: nat)
    requires Dec(m) == Dec(n)
    ensures m == n
  {
    DecDenotes(m);
    DecDenotes(n);
  }

  lemma {:induction false} SignedDecInjective(m: int, n: int)
    requires SignedDec(m) == SignedDec(n)
    ensures m == n
  {
    assert m < 0 ==> SignedDec(m)[0] == '-';
    assert n < 0 ==> SignedDec(n)[0] == '-';
    assert m >= 0 ==> IsDigit(SignedDec(m)[0], 10);
    assert n >= 0 ==> IsDigit(SignedDec(n)[0], 10);
    if m < 0 {
      assert SignedDec(m)[1..] == Dec(-m);
      assert SignedDec(n)[1..] == Dec(-n);
      DecInjective(-m, -n);
    } else {
      DecInjective(m, n);
    }
  }

  /** A number is below the power of ten its numeral's length names, and not below the one before. */
  lemma {:induction false} DecLength(n: nat)
    ensures n < Pow10(|Dec(n)|)
    ensures n > 0 ==> Pow10(|Dec(n)| - 1) <= n
  {
    if n >= 10 {
      DecLength(n / 10);
    } else {
      assert Pow10(1) == 10 * Pow10(0);
    }
  }

  lemma {:induction false} Pow10Monotone(i: nat, j: nat)
    requires i <= j
    ensures Pow10(i) <= Pow10(j)
    decreases j
  {
    if i < j {
      Pow10Monotone(i, j - 1);
    }
  }

  /** Numerals never get shorter as numbers grow. */
  lemma {:induction false} DecMonotone(m: nat, n: nat)
    requires m <= n
    ensures |Dec(m)| <= |Dec(n)|
  {
    DecLength(m);
    DecLength(n);
    if |Dec(m)| > |Dec(n)| {
      Pow10Monotone(|Dec(n)|, |Dec(m)| - 1);
    }
  }

  const TEN_TO_15: nat := 1_000_000_000_000_000

  lemma Pow10Of15()
    ensures Pow10(15) == TEN_TO_15
  {
    assert Pow10(5) == 100_000 by {
      assert Pow10(3) == 10 * Pow10(2);
    }
    assert Pow10(10) == 10_000_000_000 by {
      assert Pow10(8) == 10 * Pow10(7) && Pow10(7) == 10 * Pow10(6) && Pow10(6) == 10 * Pow10(5);
    }
    assert Pow10(13) == 10 * Pow10(12) && Pow10(12) == 10 * Pow10(11) && Pow10(11) == 10 * Pow10(10);
  }

  /** A numeral of at most fifteen digits denotes less than 10^15. */
  lemma ShortNumeral(n: nat)
    requires |Dec(n)| <= 15
    ensures n < TEN_TO_15
  {
    DecLength(n);
    Pow10Monotone(|Dec(n)|, 15);
    Pow10Of15();
  }
}
