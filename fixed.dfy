/**
 * Fixed-point text of a number, as `std::fixed` with `setprecision(p)`
 * writes it: an optional '-', the integer digits, then '.' and exactly p
 * fraction digits (no '.' at all when p is 0).
 */
module Fixed {
  import opened Optional

  function Pow10(p: nat): (r: nat)
    ensures r >= 1
  {
    if p == 0 then 1 else 10 * Pow10(p - 1)
  }

  predicate IsDigit(c: char)
  {
    '0' <= c <= '9'
  }

  predicate AllDigits(s: string)
  {
    forall i :: 0 <= i < |s| ==> IsDigit(s[i])
  }

  function DigitChar(d: nat): (c: char)
    requires d < 10
    ensures IsDigit(c) && c as int - '0' as int == d
  {
    ('0' as int + d) as char
  }

  /** The number a string of decimal digits denotes. */
  function DigitsValue(s: string): nat
    requires AllDigits(s)
  {
    if s == [] then 0 else 10 * DigitsValue(s[..|s| - 1]) + (s[|s| - 1] as int - '0' as int)
  }

  /** The decimal digits of n, most significant first, without leading zeros. */
  function Decimal(n: nat): (s: string)
    ensures |s| >= 1 && AllDigits(s)
    ensures DigitsValue(s) == n
    ensures |s| > 1 ==> s[0] != '0'
  {
    if n < 10 then [DigitChar(n)]
    else
      var prefix := Decimal(n / 10);
      var s := prefix + [DigitChar(n % 10)];
      assert s[..|s| - 1] == prefix;
      s
  }

  function Abs(v: real): (a: real)
    ensures a >= 0.0 && (a == v || a == -v)
  {
    if v < 0.0 then -v else v
  }

  /**
   * m scaled by 10^p and rounded to the nearest integer, ties to even:
   * the number of units of the last printed place.
   */
  function Rounded(m: real, p: nat): nat
    requires m >= 0.0
  {
    var t := m * (Pow10(p) as real);
    var f := t.Floor;
    var rest := t - f as real;
    if rest > 0.5 || (rest == 0.5 && f % 2 == 1) then f + 1 else f
  }

  /** Rounding lands within half a unit of m * 10^p, and on the even neighbour at a tie. */
  lemma RoundedIsNearest(m: real, p: nat)
    requires m >= 0.0
    ensures var n := Rounded(m, p); var t := m * (Pow10(p) as real);
      (n as real) - 0.5 <= t <= (n as real) + 0.5
      && ((n as real) - t == 0.5 || t - (n as real) == 0.5 ==> n % 2 == 0)
  {
  }

  /**
   * The unsigned text of n units of the p-th decimal place: the last digit
   * of n is the last fraction digit, and the point comes before the p-th
   * digit from the end, behind at least one integer digit.
   */
  function Unsigned(n: nat, p: nat): string
  {
    if p == 0 then Decimal(n)
    else if p == 1 then Decimal(n / 10) + "." + [DigitChar(n % 10)]
    else Unsigned(n / 10, p - 1) + [DigitChar(n % 10)]
  }

  /**
   * The unsigned text has at least one integer digit, and for p > 0 also
   * the point and p fraction digits.
   */
  lemma {:induction false} UnsignedLength(n: nat, p: nat)
    ensures |Unsigned(n, p)| >= (if p == 0 then 1 else p + 2)
  {
    if p > 1 {
      UnsignedLength(n / 10, p - 1);
    }
  }

  /** The integer part of n units of the p-th decimal place: n with its last p digits dropped. */
  function Whole(n: nat, p: nat): nat
  {
    if p == 0 then n else Whole(n / 10, p - 1)
  }

  /** The last p decimal digits of n, most significant first, leading zeros kept. */
  function Fraction(n: nat, p: nat): (f: string)
    ensures |f| == p && AllDigits(f)
  {
    if p == 0 then "" else Fraction(n / 10, p - 1) + [DigitChar(n % 10)]
  }

  lemma {:induction false} MulAtLeast(d: nat, e: nat)
    requires e >= 1
    ensures d * e >= d
  {
    if e > 1 {
      MulAtLeast(d, e - 1);
      assert d * e == d * (e - 1) + d;
    }
  }

  /** The quotient is the unique a with n == d * a + c and 0 <= c < d. */
  lemma DivUnique(n: nat, d: nat, a: nat, c: nat)
    requires d >= 1 && n == d * a + c && c < d
    ensures n / d == a
  {
    var q, r := n / d, n % d;
    assert n == d * q + r && r < d;
    if a > q {
      assert d * a == d * q + d * (a - q);
      MulAtLeast(d, a - q);
    } else if a < q {
      assert d * q == d * a + d * (q - a);
      MulAtLeast(d, q - a);
    }
  }

  /** Dropping the last digit, then k more places, drops 10 * k places. */
  lemma DivTen(n: nat, k: nat)
    requires k >= 1
    ensures n / 10 / k == n / (10 * k)
  {
    var q, r := n / 10, n % 10;
    var a, b := q / k, q % k;
    assert q == k * a + b;
    assert 10 * q == 10 * k * a + 10 * b;
    DivUnique(n, 10 * k, a, 10 * b + r);
  }

  /** Dropping the last p digits is dividing by 10^p. */
  lemma {:induction false} WholeIsQuotient(n: nat, p: nat)
    ensures Whole(n, p) == n / Pow10(p)
  {
    if p > 0 {
      WholeIsQuotient(n / 10, p - 1);
      DivTen(n, Pow10(p - 1));
    }
  }

  /**
   * For p > 0 the unsigned text is the integer part n / 10^p without
   * leading zeros, the point, and exactly p fraction digits.
   */
  lemma {:induction false} UnsignedShape(n: nat, p: nat)
    requires p > 0
    ensures Unsigned(n, p) == Decimal(Whole(n, p)) + "." + Fraction(n, p)
  {
    if p == 1 {
      assert Fraction(n, 1) == [DigitChar(n % 10)];
    } else {
      UnsignedShape(n / 10, p - 1);
    }
  }

  /** The fixed-point text of v at precision p. */
  function Fmt(v: real, p: nat): string
  {
    Sign(v < 0.0) + Unsigned(Rounded(Abs(v), p), p)
  }

  function Sign(negative: bool): string
  {
    if negative then "-" else ""
  }

  /**
   * The exact length of the text of v: a sign for negative values, the
   * digits of the integer part, and the point and p digits when p > 0.
   */
  lemma FmtLength(v: real, p: nat)
    ensures |Fmt(v, p)| == (if v < 0.0 then 1 else 0) + |Decimal(Whole(Rounded(Abs(v), p), p))|
      + (if p == 0 then 0 else p + 1)
  {
    var n := Rounded(Abs(v), p);
    assert |Fmt(v, p)| == |Sign(v < 0.0)| + |Unsigned(n, p)|;
    if p > 0 {
      UnsignedShape(n, p);
    } else {
      assert Whole(n, 0) == n;
    }
  }

  /** Reads back the text of an unsigned fixed-point number with p fraction digits. */
  function ParseUnsigned(s: string, p: nat): Option<nat>
  {
    if p == 0 then
      if s != [] && AllDigits(s) then Some(DigitsValue(s)) else None
    else if |s| < 2 || !IsDigit(s[|s| - 1]) then None
    else
      var d := s[|s| - 1] as int - '0' as int;
      var front := s[..|s| - 1];
      var before := if p == 1 then
        (if front[|front| - 1] == '.' then ParseUnsigned(front[..|front| - 1], 0) else None)
      else ParseUnsigned(front, p - 1);
      match before
      case Some(q) => Some(10 * q + d)
      case None => None
  }

  /** Reads back a fixed-point number as a signed count of units of the p-th decimal place. */
  function ParseFixed(s: string, p: nat): Option<int>
  {
    if |s| > 0 && s[0] == '-' then
      match ParseUnsigned(s[1..], p)
      case Some(n) => Some(0 - n)
      case None => None
    else
      match ParseUnsigned(s, p)
      case Some(n) => Some(n)
      case None => None
  }

  lemma {:induction false} UnsignedRoundTrip(n: nat, p: nat)
    ensures |Unsigned(n, p)| > 0 && IsDigit(Unsigned(n, p)[0])
    ensures ParseUnsigned(Unsigned(n, p), p) == Some(n)
  {
    if p == 1 {
      var i := Decimal(n / 10);
      var s := i + "." + [DigitChar(n % 10)];
      assert s[..|s| - 1] == i + "." && s[|s| - 1] == DigitChar(n % 10);
      assert (i + ".")[..|i|] == i;
      assert (i + ".")[0] == i[0];
    } else if p > 1 {
      var front := Unsigned(n / 10, p - 1);
      UnsignedRoundTrip(n / 10, p - 1);
      var s := front + [DigitChar(n % 10)];
      assert s[..|s| - 1] == front && s[|s| - 1] == DigitChar(n % 10);
      assert (front + [DigitChar(n % 10)])[0] == front[0];
    }
  }

  lemma ParseNegated(u: string, p: nat, n: nat)
    requires ParseUnsigned(u, p) == Some(n)
    ensures ParseFixed("-" + u, p) == Some(0 - n)
  {
    assert ("-" + u)[1..] == u;
  }

  lemma ParsePlain(u: string, p: nat, n: nat)
    requires |u| > 0 && IsDigit(u[0]) && ParseUnsigned(u, p) == Some(n)
    ensures ParseFixed(u, p) == Some(n)
  {
  }

  /** A sign and the unsigned text of n read back as the signed count of units. */
  lemma SignedRoundTrip(neg: bool, n: nat, p: nat)
    ensures ParseFixed(Sign(neg) + Unsigned(n, p), p) == Some(if neg then 0 - n else n)
  {
    var u := Unsigned(n, p);
    UnsignedRoundTrip(n, p);
    if neg {
      ParseNegated(u, p, n);
    } else {
      assert "" + u == u;
      ParsePlain(u, p, n);
    }
  }

  /**
   * The text Fmt writes reads back as v rounded to p decimal places
   * (negative exactly when v is), so it names v to within half a unit of
   * its last digit.
   */
  lemma FmtRoundTrip(v: real, p: nat)
    ensures ParseFixed(Fmt(v, p), p) == Some(if v < 0.0 then 0 - Rounded(Abs(v), p) else Rounded(Abs(v), p))
    ensures |Fmt(v, p)| > 0 && (Fmt(v, p)[0] == '-' <==> v < 0.0)
  {
    var u := Unsigned(Rounded(Abs(v), p), p);
    SignedRoundTrip(v < 0.0, Rounded(Abs(v), p), p);
    UnsignedRoundTrip(Rounded(Abs(v), p), p);
    if v >= 0.0 {
      assert Fmt(v, p) == u;
    }
  }

  lemma UnsignedExample1()
    ensures Unsigned(1720, 3) == "1.720"
  {
    assert Decimal(1) == "1";
    assert Unsigned(17, 1) == "1" + "." + "7";
    assert Unsigned(172, 2) == "1.7" + "2";
    assert Unsigned(1720, 3) == "1.72" + "0";
  }

  lemma UnsignedExample2()
    ensures Unsigned(55750, 3) == "55.750"
  {
    assert Decimal(5) == "5";
    assert Decimal(55) == "5" + "5";
    assert Unsigned(557, 1) == "55" + "." + "7";
    assert Unsigned(5575, 2) == "55.7" + "5";
    assert Unsigned(55750, 3) == "55.75" + "0";
  }

  /** Texts the printer's tests show for numbers written at three places. */
  lemma FmtExamples()
    ensures Fmt(1.72, 3) == "1.720"
    ensures Fmt(-55.75, 3) == "-55.750"
  {
    assert Rounded(1.72, 3) == 1720 by {
      assert Pow10(3) == 1000;
    }
    assert Rounded(55.75, 3) == 55750 by {
      assert Pow10(3) == 1000;
    }
    UnsignedExample1();
    UnsignedExample2();
    assert Fmt(1.72, 3) == "" + "1.720";
    assert Fmt(-55.75, 3) == "-" + "55.750";
  }
}
