/**
 * Scaling a catalogue price, decimal dollars per token, to whole micro-dollars
 * per million tokens with integer arithmetic.
 */
module Price {
  import opened Wrappers
  import opened Text

  datatype Decimal = Decimal(whole: string, frac: string)

  datatype PriceError = UnexpectedFormat

  /** Digits, then optionally a point and further digits, which may be none. */
  function ParseDecimal(s: string): Option<Decimal>
  {
    var n := LeadingDigits(s);
    if n == 0 then None
    else if n == |s| then Some(Decimal(s, ""))
    else if s[n] == '.' && AllDigits(s[n + 1..]) then Some(Decimal(s[..n], s[n + 1..]))
    else None
  }

  /** Exact up to twelve fraction digits, else the quotient rounded half up. */
  function Scale(digits: nat, fraction: nat): nat
  {
    if fraction <= 12 then Times(digits, Pow10(12 - fraction)) else Rounded(digits, Pow10(fraction - 12))
  }

  function Times(a: nat, b: nat): nat
  {
    a * b
  }

  function Rounded(digits: nat, divisor: nat): nat
    requires divisor > 0
  {
    var quotient, remainder := digits / divisor, digits % divisor;
    if remainder * 2 >= divisor then quotient + 1 else quotient
  }

  function PerTokenToMicrosPerMillion(value: string): Result<nat, PriceError>
  {
    match ParseDecimal(Trim(value))
    case None => Err(UnexpectedFormat)
    case Some(d) => if AllDigits(d.whole + d.frac) then Ok(Scale(ValueOf(d.whole + d.frac), |d.frac|)) else Err(UnexpectedFormat)
  }

  // --------------------------------------------------------------- what is accepted

  predicate Spells(s: string, d: Decimal)
  {
    && d.whole != "" && AllDigits(d.whole) && AllDigits(d.frac)
    && (s == d.whole + "." + d.frac || (s == d.whole && d.frac == ""))
  }

  /** The parser finds exactly the decimals a string spells. */
  lemma ParsesWhatIsSpelled(s: string, d: Decimal)
    ensures ParseDecimal(s) == Some(d) <==> Spells(s, d)
  {
    var n := LeadingDigits(s);
    if n < |s| && s[n] == '.' {
      assert s == s[..n] + "." + s[n + 1..];
    }
    if Spells(s, d) {
      LeadingDigitsOf(d.whole, s[|d.whole|..]);
      assert s == d.whole + s[|d.whole|..];
      if s != d.whole {
        assert s[|d.whole| + 1..] == d.frac;
      }
    }
  }

  lemma {:induction false} LeadingDigitsOf(digits: string, rest: string)
    requires AllDigits(digits) && (rest == "" || rest[0] == '.')
    ensures LeadingDigits(digits + rest) == |digits|
  {
    if digits == "" {
      assert digits + rest == rest;
    } else {
      assert (digits + rest)[1..] == digits[1..] + rest;
      LeadingDigitsOf(digits[1..], rest);
    }
  }

  /** A price is refused exactly if its trimmed text spells no decimal. */
  lemma RefusedExactlyIfNotDecimal(value: string)
    ensures PerTokenToMicrosPerMillion(value).Err? <==> forall d :: !Spells(Trim(value), d)
  {
    var text := Trim(value);
    if ParseDecimal(text).Some? {
      ParsesWhatIsSpelled(text, ParseDecimal(text).value);
    }
    forall d | Spells(text, d) ensures PerTokenToMicrosPerMillion(value).Ok? {
      ParsesWhatIsSpelled(text, d);
    }
  }

  // -------------------------------------------------------------- what it is worth

  /** `scaled` is `digits / 10^fraction * 10^12` rounded half up. */
  ghost predicate IsHalfUp(digits: nat, fraction: nat, scaled: int)
  {
    2 * scaled * Pow10(fraction) <= 2 * digits * Pow10(12) + Pow10(fraction) < 2 * (scaled + 1) * Pow10(fraction)
  }

  lemma {:induction false} PowSplits(a: nat, b: nat)
    ensures Pow10(a + b) == Pow10(a) * Pow10(b)
  {
    if a > 0 {
      PowSplits(a - 1, b);
      TimesAssoc(10, Pow10(a - 1), Pow10(b));
    }
  }

  lemma TimesAssoc(a: int, b: int, c: int)
    ensures a * (b * c) == a * b * c
  {
  }

  lemma RoundsWhole(digits: nat, p: nat, q: nat)
    requires p > 0
    ensures 2 * (digits * q) * p <= 2 * digits * (p * q) + p < 2 * (digits * q + 1) * p
  {
    assert 2 * (digits * q) * p == 2 * digits * (p * q) by {
      TimesAssoc(digits, q, p);
    }
    assert 2 * (digits * q + 1) * p == 2 * (digits * q) * p + 2 * p;
  }

  lemma RoundsQuotient(digits: nat, divisor: nat, p: nat)
    requires divisor > 0 && p > 0
    ensures var r := if digits % divisor * 2 >= divisor then digits / divisor + 1 else digits / divisor;
            2 * r * (p * divisor) <= 2 * digits * p + p * divisor < 2 * (r + 1) * (p * divisor)
  {
    var q, m := digits / divisor, digits % divisor;
    var r := if m * 2 >= divisor then q + 1 else q;
    ScaleUp(2 * r * divisor, 2 * digits + divisor, 2 * (r + 1) * divisor, p);
    Regroup(r, divisor, p);
    Regroup(r + 1, divisor, p);
    Distribute(2 * digits, divisor, p);
  }

  lemma Regroup(r: int, divisor: int, p: int)
    ensures 2 * r * divisor * p == 2 * r * (p * divisor)
  {
    TimesAssoc(2 * r, divisor, p);
  }

  lemma Distribute(a: int, b: int, p: int)
    ensures (a + b) * p == a * p + p * b
  {
  }

  lemma ScaleUp(a: int, b: int, c: int, p: nat)
    requires a <= b < c && p > 0
    ensures a * p <= b * p < c * p
  {
  }

  /** What the function returns is the price in micro-dollars per million, rounded half up. */
  lemma ScaleRoundsHalfUp(digits: nat, fraction: nat)
    ensures IsHalfUp(digits, fraction, Scale(digits, fraction))
  {
    if fraction <= 12 {
      PowSplits(fraction, 12 - fraction);
      RoundsWhole(digits, Pow10(fraction), Pow10(12 - fraction));
    } else {
      PowSplits(12, fraction - 12);
      RoundsQuotient(digits, Pow10(fraction - 12), Pow10(12));
    }
  }

  /** With at most twelve fraction digits nothing is lost. */
  lemma ExactUpToTwelveDigits(digits: nat, fraction: nat)
    requires fraction <= 12
    ensures Scale(digits, fraction) * Pow10(fraction) == digits * Pow10(12)
  {
    PowSplits(fraction, 12 - fraction);
    TimesAssoc(digits, Pow10(12 - fraction), Pow10(fraction));
  }

  /** No greater value scales to a greater price. */
  lemma ScaleIsMonotone(d1: nat, n1: nat, d2: nat, n2: nat)
    requires d1 * Pow10(n2) <= d2 * Pow10(n1)
    ensures Scale(d1, n1) <= Scale(d2, n2)
  {
    ScaleRoundsHalfUp(d1, n1);
    ScaleRoundsHalfUp(d2, n2);
    RoundingIsMonotone(d1, Pow10(n1), Scale(d1, n1), d2, Pow10(n2), Scale(d2, n2), Pow10(12));
  }

  lemma RoundingIsMonotone(d1: nat, p1: nat, r1: nat, d2: nat, p2: nat, r2: nat, t: nat)
    requires p1 > 0 && p2 > 0 && d1 * p2 <= d2 * p1
    requires 2 * r1 * p1 <= 2 * d1 * t + p1
    requires 2 * d2 * t + p2 < 2 * (r2 + 1) * p2
    ensures r1 <= r2
  {
    if r1 > r2 {
      var a, b := 2 * d1 * t, 2 * d2 * t;
      ScaleUp(2 * (r2 + 1) * p1, a + p1, a + p1 + 1, p2);
      ScaleUp(b + p2, b + p2, 2 * (r2 + 1) * p2, p1);
      assert a * p2 <= b * p1 by {
      }
      CrossTerms(a, b, p1, p2, r2 + 1);
    }
  }

  lemma CrossTerms(a: int, b: int, p1: int, p2: int, r: int)
    requires 2 * r * p1 * p2 <= (a + p1) * p2
    requires (b + p2) * p1 < 2 * r * p2 * p1
    ensures a * p2 > b * p1
  {
    assert (a + p1) * p2 == a * p2 + p1 * p2;
    assert (b + p2) * p1 == b * p1 + p2 * p1;
    assert 2 * r * p1 * p2 == 2 * r * p2 * p1;
  }

  // ------------------------------------------------------------------------- zeros

  /** Two texts that spell the same value scale alike. */
  lemma SameValueScalesAlike(d1: nat, n1: nat, d2: nat, n2: nat)
    requires d1 * Pow10(n2) == d2 * Pow10(n1)
    ensures Scale(d1, n1) == Scale(d2, n2)
  {
    ScaleIsMonotone(d1, n1, d2, n2);
    ScaleIsMonotone(d2, n2, d1, n1);
  }

  lemma {:induction false} LeadingZero(digits: string)
    requires AllDigits(digits)
    ensures AllDigits("0" + digits) && ValueOf("0" + digits) == ValueOf(digits)
  {
    if digits == "" {
      assert "0" + digits == "0" && "0"[..0] == "";
    } else {
      var body := digits[..|digits| - 1];
      assert ("0" + digits)[..|digits|] == "0" + body;
      LeadingZero(body);
    }
  }

  lemma TrailingZero(digits: string)
    requires AllDigits(digits)
    ensures AllDigits(digits + "0") && ValueOf(digits + "0") == 10 * ValueOf(digits)
  {
    assert (digits + "0")[..|digits|] == digits;
  }

  /** The price of a text that spells a decimal. */
  lemma PriceOf(value: string, d: Decimal)
    requires Spells(Trim(value), d)
    ensures AllDigits(d.whole + d.frac)
    ensures PerTokenToMicrosPerMillion(value) == Ok(Scale(ValueOf(d.whole + d.frac), |d.frac|))
  {
    ParsesWhatIsSpelled(Trim(value), d);
  }

  /** The digits of a decimal, read as one number. */
  function DigitsValue(d: Decimal): nat
    requires AllDigits(d.whole) && AllDigits(d.frac)
  {
    ValueOf(d.whole + d.frac)
  }

  /** A text of no greater value has no greater price. */
  lemma PriceIsMonotone(low: string, d: Decimal, high: string, e: Decimal)
    requires Spells(Trim(low), d) && Spells(Trim(high), e)
    requires DigitsValue(d) * Pow10(|e.frac|) <= DigitsValue(e) * Pow10(|d.frac|)
    ensures PerTokenToMicrosPerMillion(low).Ok? && PerTokenToMicrosPerMillion(high).Ok?
    ensures PerTokenToMicrosPerMillion(low).value <= PerTokenToMicrosPerMillion(high).value
  {
    PriceOf(low, d);
    PriceOf(high, e);
    ScaleIsMonotone(DigitsValue(d), |d.frac|, DigitsValue(e), |e.frac|);
  }

  /** Zeros before the whole part or after the fraction change nothing. */
  lemma ZerosDoNotMatter(value: string, d: Decimal, padded: string, e: Decimal)
    requires Spells(Trim(value), d) && Spells(Trim(padded), e)
    requires e == Decimal("0" + d.whole, d.frac) || e == Decimal(d.whole, d.frac + "0")
    ensures PerTokenToMicrosPerMillion(padded) == PerTokenToMicrosPerMillion(value)
  {
    PriceOf(value, d);
    PriceOf(padded, e);
    PaddedValue(d, e);
    SameValueScalesAlike(DigitsValue(d), |d.frac|, DigitsValue(e), |e.frac|);
  }

  lemma PaddedValue(d: Decimal, e: Decimal)
    requires AllDigits(d.whole) && AllDigits(d.frac) && AllDigits(e.whole) && AllDigits(e.frac)
    requires e == Decimal("0" + d.whole, d.frac) || e == Decimal(d.whole, d.frac + "0")
    ensures DigitsValue(d) * Pow10(|e.frac|) == DigitsValue(e) * Pow10(|d.frac|)
  {
    var digits := d.whole + d.frac;
    if e.frac == d.frac {
      LeadingZero(digits);
      assert ("0" + d.whole) + d.frac == "0" + digits;
    } else {
      TrailingZero(digits);
      assert d.whole + (d.frac + "0") == digits + "0";
      TimesTen(ValueOf(digits), Pow10(|d.frac|));
    }
  }

  lemma TimesTen(v: int, p: int)
    ensures v * (10 * p) == 10 * v * p
  {
  }

  /** The price of a decimal text is its value times 10^12, rounded half up. */
  lemma PriceIsHalfUp(value: string, d: Decimal)
    requires Spells(Trim(value), d)
    ensures AllDigits(d.whole + d.frac) && PerTokenToMicrosPerMillion(value).Ok?
    ensures IsHalfUp(ValueOf(d.whole + d.frac), |d.frac|, PerTokenToMicrosPerMillion(value).value)
  {
    PriceOf(value, d);
    ScaleRoundsHalfUp(ValueOf(d.whole + d.frac), |d.frac|);
  }
}
