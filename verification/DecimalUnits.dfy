/** Token amounts as decimal text: printing with a decimal point and reading back. */
module DecimalUnits {
  import opened Wrappers
  import opened Numerals
  import opened Division

  datatype UnitsError = InvalidDecimal | TooManyDecimals | NotANumber

  function TrimRightZeros(s: string): string {
    if s != [] && s[|s| - 1] == '0' then TrimRightZeros(s[..|s| - 1]) else s
  }

  function Padded(digits: string, decimals: nat): string {
    if |digits| <= decimals then Zeros(decimals + 1 - |digits|) + digits else digits
  }

  /** A numeral with the point in place and trailing zeros dropped. */
  function FormatDigits(digits: string, decimals: nat): string {
    if decimals == 0 then digits
    else
      var padded := Padded(digits, decimals);
      padded[..|padded| - decimals] + "." + Fraction(padded[|padded| - decimals..])
  }

  function Fraction(tail: string): string {
    if TrimRightZeros(tail) == [] then "0" else TrimRightZeros(tail)
  }

  function FormatUnits(value: int, decimals: nat): string {
    WithSign(value < 0, FormatDigits(NatText(Magnitude(value), 10), decimals))
  }

  function Magnitude(value: int): nat {
    if value < 0 then -value else value
  }

  function WithSign(negative: bool, s: string): string {
    if negative then "-" + s else s
  }

  /** The position of the first decimal point, or the length. */
  function PointAt(s: string): (k: nat)
    ensures k <= |s| && (forall i :: 0 <= i < k ==> s[i] != '.') && (k < |s| ==> s[k] == '.')
  {
    if s == [] || s[0] == '.' then 0 else 1 + PointAt(s[1..])
  }

  function ParseMagnitude(value: string, decimals: nat): Result<int, UnitsError> {
    var k := PointAt(value);
    var frac := if k < |value| then value[k + 1..] else [];
    if PointAt(frac) < |frac| then Err(InvalidDecimal)
    else if |frac| > decimals then Err(TooManyDecimals)
    else
      var combined := value[..k] + frac + Zeros(decimals - |frac|);
      match ParseInt(if combined == [] then "0" else combined, 10)
      case Some(n) => Ok(n)
      case None => Err(NotANumber)
  }

  function ParseUnits(text: string, decimals: nat): Result<int, UnitsError> {
    var value := TrimSpace(text);
    if HasPrefix(value, "-") then
      match ParseMagnitude(value[1..], decimals)
      case Ok(n) => Ok(-n)
      case Err(e) => Err(e)
    else ParseMagnitude(value, decimals)
  }

  /* ---------------- round trip ---------------- */

  lemma {:induction false} TrimmedZeros(s: string)
    ensures TrimRightZeros(s) <= s
    ensures s == TrimRightZeros(s) + Zeros(|s| - |TrimRightZeros(s)|)
  {
    if s != [] && s[|s| - 1] == '0' {
      TrimmedZeros(s[..|s| - 1]);
      var t := TrimRightZeros(s);
      assert Zeros(|s| - |t|) == Zeros(|s| - 1 - |t|) + ['0'];
      assert s == s[..|s| - 1] + ['0'];
    } else {
      assert Zeros(0) == [];
    }
  }

  lemma PaddedValue(digits: string, decimals: nat)
    requires IsNumeral(digits, 10)
    ensures IsNumeral(Padded(digits, decimals), 10) && |Padded(digits, decimals)| > decimals
    ensures NatValue(Padded(digits, decimals), 10) == NatValue(digits, 10)
  {
    if |digits| <= decimals {
      LeadingZeros(decimals + 1 - |digits|, digits, 10);
      assert DigitValue('0') == 0;
    }
  }

  lemma FractionIsNumeral(tail: string)
    requires IsNumeral(tail, 10)
    ensures IsNumeral(Fraction(tail), 10) && 1 <= |Fraction(tail)| <= |tail|
  {
    TrimmedZeros(tail);
    assert DigitValue('0') == 0;
  }

  /** Reading `whole.frac` with enough decimals gives the digits of both, scaled up. */
  lemma ParsePointed(whole: string, frac: string, decimals: nat)
    requires IsNumeral(whole, 10) && IsNumeral(frac, 10) && |frac| <= decimals
    ensures ParseMagnitude(whole + "." + frac, decimals)
            == Ok(NatValue(whole + frac + Zeros(decimals - |frac|), 10))
  {
    var s := whole + "." + frac;
    NumeralIsPlain(whole);
    NumeralIsPlain(frac);
    PointOf(whole, frac);
    assert s[..|whole|] == whole && s[|whole| + 1..] == frac;
    NumeralParses(whole + frac + Zeros(decimals - |frac|));
  }

  lemma PointOf(whole: string, frac: string)
    requires PlainDigits(whole) && PlainDigits(frac)
    ensures PointAt(whole + "." + frac) == |whole| && PointAt(frac) == |frac| && PointAt(whole) == |whole|
  {
    var s, k := whole + "." + frac, PointAt(whole + "." + frac);
    assert forall i :: 0 <= i < |whole| ==> s[i] == whole[i];
    assert s[|whole|] == '.';
  }

  lemma NumeralParses(s: string)
    requires IsNumeral(s, 10)
    ensures ParseInt(s, 10) == Some(NatValue(s, 10))
  {
    NumeralIsPlain(s);
  }

  /** The printed form is two numerals around the point; put together they are the padded digits. */
  lemma PrintedParts(digits: string, decimals: nat, more: nat) returns (whole: string, frac: string)
    requires IsNumeral(digits, 10) && 0 < decimals <= more
    ensures IsNumeral(whole, 10) && IsNumeral(frac, 10) && |frac| <= more
    ensures FormatDigits(digits, decimals) == whole + "." + frac
    ensures |Padded(digits, decimals)| > decimals
    ensures var p := Padded(digits, decimals); frac == Fraction(p[|p| - decimals..])
    ensures whole + frac + Zeros(more - |frac|) == Padded(digits, decimals) + Zeros(more - decimals)
  {
    PaddedValue(digits, decimals);
    var p := Padded(digits, decimals);
    var tail := p[|p| - decimals..];
    whole, frac := p[..|p| - decimals], Fraction(tail);
    assert p == whole + tail;
    assert IsNumeral(whole, 10) && IsNumeral(tail, 10);
    FractionIsNumeral(tail);
    FractionRestored(whole, tail, more);
  }

  /** Reading what was printed gives the padded digits back, followed by zeros for the extra decimals. */
  lemma DigitsRoundTrip(digits: string, decimals: nat, more: nat)
    requires IsNumeral(digits, 10) && decimals <= more
    ensures Unsigned(FormatDigits(digits, decimals))
    ensures ParseMagnitude(FormatDigits(digits, decimals), more)
            == Ok(NatValue(Padded(digits, decimals) + Zeros(more - decimals), 10))
  {
    if decimals == 0 {
      WholeRoundTrip(digits, more);
    } else {
      var whole, frac := PrintedParts(digits, decimals, more);
      NumeralIsPlain(whole);
      NumeralIsPlain(frac);
      PointedIsUnsigned(whole, frac);
      ParsePointed(whole, frac, more);
    }
  }

  lemma WholeRoundTrip(digits: string, more: nat)
    requires IsNumeral(digits, 10)
    ensures Unsigned(digits)
    ensures ParseMagnitude(digits, more) == Ok(NatValue(digits + Zeros(more), 10))
  {
    NumeralIsPlain(digits);
    PointOf(digits, digits);
    assert digits[..|digits|] + [] + Zeros(more) == digits + Zeros(more);
    NumeralParses(digits + Zeros(more));
  }

  lemma FractionRestored(whole: string, tail: string, more: nat)
    requires 1 <= |tail| <= more && |Fraction(tail)| <= more
    ensures whole + Fraction(tail) + Zeros(more - |Fraction(tail)|) == whole + tail + Zeros(more - |tail|)
  {
    TrimmedZeros(tail);
    var trimmed, frac := TrimRightZeros(tail), Fraction(tail);
    if trimmed == [] {
      assert frac + Zeros(more - 1) == Zeros(more) == tail + Zeros(more - |tail|);
    } else {
      assert Zeros(more - |trimmed|) == Zeros(|tail| - |trimmed|) + Zeros(more - |tail|);
    }
    assert frac + Zeros(more - |frac|) == tail + Zeros(more - |tail|);
    assert whole + frac + Zeros(more - |frac|) == whole + (frac + Zeros(more - |frac|));
    assert whole + tail + Zeros(more - |tail|) == whole + (tail + Zeros(more - |tail|));
  }

  /** Text with no space to trim and no sign in front. */
  predicate Unsigned(s: string) {
    s != [] && (forall i :: 0 <= i < |s| ==> s[i] > ' ') && s[0] != '-'
  }

  lemma PointedIsUnsigned(whole: string, frac: string)
    requires whole != [] && PlainDigits(whole) && PlainDigits(frac)
    ensures Unsigned(whole + "." + frac)
  {
    var s := whole + "." + frac;
    assert forall i :: 0 <= i < |whole| ==> s[i] == whole[i];
    assert s[|whole|] == '.';
    assert forall i :: |whole| < i < |s| ==> s[i] == frac[i - |whole| - 1];
  }

  lemma {:induction false} NothingToTrim(s: string)
    requires forall i :: 0 <= i < |s| ==> s[i] > ' '
    ensures TrimSpace(s) == s
  {
  }

  /** The sign is printed in front and read back from there. */
  lemma SignRoundTrip(s: string, negative: bool, decimals: nat, n: int)
    requires Unsigned(s)
    requires ParseMagnitude(s, decimals) == Ok(n)
    ensures ParseUnits(WithSign(negative, s), decimals) == Ok(if negative then -n else n)
  {
    if negative {
      SignIsRead(s);
    } else {
      NothingToTrim(s);
      assert s[..1][0] == s[0];
    }
  }

  lemma SignIsRead(s: string)
    requires Unsigned(s)
    ensures TrimSpace("-" + s) == "-" + s && HasPrefix("-" + s, "-") && ("-" + s)[1..] == s
  {
    NothingToTrim("-" + s);
  }

  /** Reading with at least as many decimals as were printed scales the value. */
  lemma ScaledRoundTrip(value: int, decimals: nat, more: nat)
    requires decimals <= more
    ensures ParseUnits(FormatUnits(value, decimals), more) == Ok(value * Pow(10, more - decimals))
  {
    var n := Magnitude(value) * Pow(10, more - decimals);
    SignRestored(value, Pow(10, more - decimals), n);
    SignedRoundTrip(Magnitude(value), value < 0, decimals, more, n);
  }

  lemma SignRestored(value: int, p: int, n: int)
    requires n == Magnitude(value) * p
    ensures value * p == if value < 0 then -n else n
  {
  }

  lemma MagnitudeRoundTrip(magnitude: nat, decimals: nat, more: nat)
    requires decimals <= more
    ensures Unsigned(FormatDigits(NatText(magnitude, 10), decimals))
    ensures ParseMagnitude(FormatDigits(NatText(magnitude, 10), decimals), more) ==
      Ok(magnitude * Pow(10, more - decimals))
  {
    TextRoundTrip(magnitude, 10);
    DigitsRoundTrip(NatText(magnitude, 10), decimals, more);
    ScaledValue(NatText(magnitude, 10), decimals, more - decimals, magnitude);
  }

  lemma SignedRoundTrip(magnitude: nat, negative: bool, decimals: nat, more: nat, n: int)
    requires decimals <= more && n == magnitude * Pow(10, more - decimals)
    ensures ParseUnits(WithSign(negative, FormatDigits(NatText(magnitude, 10), decimals)), more)
            == Ok(if negative then -n else n)
  {
    MagnitudeRoundTrip(magnitude, decimals, more);
    SignRoundTrip(FormatDigits(NatText(magnitude, 10), decimals), negative, more, n);
  }

  lemma ScaledValue(digits: string, decimals: nat, extra: nat, magnitude: nat)
    requires IsNumeral(digits, 10) && NatValue(digits, 10) == magnitude
    ensures NatValue(Padded(digits, decimals) + Zeros(extra), 10) == magnitude * Pow(10, extra)
  {
    PaddedValue(digits, decimals);
    TrailingZeros(Padded(digits, decimals), extra, 10);
  }

  /** Printing and reading with the same number of decimals is the identity, for every integer. */
  lemma UnitsRoundTrip(value: int, decimals: nat)
    ensures ParseUnits(FormatUnits(value, decimals), decimals) == Ok(value)
  {
    ScaledRoundTrip(value, decimals, decimals);
  }

  /* ---------------- what is printed and what is accepted ---------------- */

  lemma {:induction false} ConcatValue(a: string, b: string)
    ensures NatValue(a + b, 10) == NatValue(a, 10) * Pow(10, |b|) + NatValue(b, 10)
  {
    if b == [] {
      assert a + b == a;
    } else {
      var init, c := b[..|b| - 1], DigitValue(b[|b| - 1]);
      ConcatValue(a, init);
      assert (a + b)[..|a + b| - 1] == a + init;
      TimesTen(NatValue(a, 10), Pow(10, |init|), NatValue(init, 10));
    }
  }

  lemma TimesTen(a: nat, p: nat, b: nat)
    ensures (a * p + b) * 10 == a * (10 * p) + b * 10
  {
    TimesAssoc(a, p, 10);
  }

  lemma {:induction false} ValueBound(s: string)
    requires forall i :: 0 <= i < |s| ==> DigitValue(s[i]) < 10
    ensures NatValue(s, 10) < Pow(10, |s|)
  {
    if s != [] {
      ValueBound(s[..|s| - 1]);
    }
  }

  lemma {:induction false} TrimmedEnd(s: string)
    ensures var t := TrimRightZeros(s); t != [] ==> t[|t| - 1] != '0'
  {
    if s != [] && s[|s| - 1] == '0' {
      TrimmedEnd(s[..|s| - 1]);
    }
  }

  /** The two sides of the point are the quotient and the remainder by the power of ten, trailing zeros dropped. */
  lemma FormattedShape(magnitude: nat, decimals: nat) returns (whole: string, frac: string)
    requires decimals > 0
    ensures FormatUnits(magnitude, decimals) == whole + "." + frac
    ensures IsNumeral(whole, 10) && IsNumeral(frac, 10) && |frac| <= decimals
    ensures frac == "0" || frac[|frac| - 1] != '0'
    ensures Pow(10, decimals) > 0 && NatValue(whole, 10) == magnitude / Pow(10, decimals)
    ensures NatValue(frac + Zeros(decimals - |frac|), 10) == magnitude % Pow(10, decimals)
  {
    TextRoundTrip(magnitude, 10);
    whole, frac := DigitsShape(NatText(magnitude, 10), magnitude, decimals);
  }

  lemma DigitsShape(digits: string, magnitude: nat, decimals: nat) returns (whole: string, frac: string)
    requires IsNumeral(digits, 10) && NatValue(digits, 10) == magnitude && decimals > 0
    ensures FormatDigits(digits, decimals) == whole + "." + frac
    ensures IsNumeral(whole, 10) && IsNumeral(frac, 10) && |frac| <= decimals
    ensures frac == "0" || frac[|frac| - 1] != '0'
    ensures Pow(10, decimals) > 0 && NatValue(whole, 10) == magnitude / Pow(10, decimals)
    ensures NatValue(frac + Zeros(decimals - |frac|), 10) == magnitude % Pow(10, decimals)
  {
    whole, frac := PrintedParts(digits, decimals, decimals);
    FractionEnd(digits, decimals, frac);
    PaddedValue(digits, decimals);
    RestOf(whole, frac, Padded(digits, decimals), decimals);
    PowPositive(decimals);
    SplitValue(whole, frac + Zeros(decimals - |frac|), magnitude, decimals);
  }

  lemma RestOf(whole: string, frac: string, padded: string, decimals: nat)
    requires IsNumeral(frac, 10) && |frac| <= decimals
    requires whole + frac + Zeros(decimals - |frac|) == padded + Zeros(0)
    ensures var rest := frac + Zeros(decimals - |frac|);
            whole + rest == padded && |rest| == decimals && forall i :: 0 <= i < |rest| ==> DigitValue(rest[i]) < 10
  {
    assert padded + Zeros(0) == padded;
    assert DigitValue('0') == 0;
  }

  lemma FractionEnd(digits: string, decimals: nat, frac: string)
    requires IsNumeral(digits, 10) && decimals > 0 && |Padded(digits, decimals)| >= decimals
    requires var p := Padded(digits, decimals); frac == Fraction(p[|p| - decimals..])
    ensures frac == "0" || frac[|frac| - 1] != '0'
  {
    var p := Padded(digits, decimals);
    TrimmedEnd(p[|p| - decimals..]);
  }

  lemma SplitValue(whole: string, rest: string, magnitude: nat, decimals: nat)
    requires NatValue(whole + rest, 10) == magnitude && |rest| == decimals && Pow(10, decimals) > 0
    requires forall i :: 0 <= i < |rest| ==> DigitValue(rest[i]) < 10
    ensures NatValue(whole, 10) == magnitude / Pow(10, decimals)
    ensures NatValue(rest, 10) == magnitude % Pow(10, decimals)
  {
    ConcatValue(whole, rest);
    ValueBound(rest);
    Quotients(magnitude, Pow(10, decimals), NatValue(whole, 10), NatValue(rest, 10));
  }

  lemma Quotients(m: nat, p: nat, q: nat, r: nat)
    requires m == q * p + r && r < p
    ensures q == m / p && r == m % p
  {
    assert q * p == p * q;
    UniqueQuotient(p, m / p, m % p, q, r);
  }

  /** A negative amount is printed with the sign in front; without decimals there is no point. */
  lemma FormattedSign(value: int, decimals: nat)
    ensures value < 0 ==> FormatUnits(value, decimals) == "-" + FormatUnits(-value, decimals)
    ensures FormatUnits(value, 0) == Text(value, 10)
  {
  }

  /** Digits around a point, not too many behind it: the value is scaled by the power of ten. */
  lemma ReadsPointed(whole: string, frac: string, negative: bool, decimals: nat, n: int)
    requires IsNumeral(whole, 10) && IsNumeral(frac, 10) && |frac| <= decimals
    requires n == NatValue(whole + frac, 10) * Pow(10, decimals - |frac|)
    ensures ParseUnits(WithSign(negative, whole + "." + frac), decimals) == Ok(if negative then -n else n)
  {
    PointedNumber(whole, frac);
    ParsePointed(whole, frac, decimals);
    TrailingZeros(whole + frac, decimals - |frac|, 10);
    SignRoundTrip(whole + "." + frac, negative, decimals, n);
  }

  lemma PointedNumber(whole: string, frac: string)
    requires IsNumeral(whole, 10) && IsNumeral(frac, 10)
    ensures Unsigned(whole + "." + frac)
  {
    NumeralIsPlain(whole);
    NumeralIsPlain(frac);
    PointedIsUnsigned(whole, frac);
  }

  /** Too many digits behind the point are refused. */
  lemma RefusesLongFraction(whole: string, frac: string, negative: bool, decimals: nat)
    requires IsNumeral(whole, 10) && IsNumeral(frac, 10) && |frac| > decimals
    ensures ParseUnits(WithSign(negative, whole + "." + frac), decimals) == Err(TooManyDecimals)
  {
    PointedNumber(whole, frac);
    LongFraction(whole, frac, decimals);
    SignedError(whole + "." + frac, negative, decimals);
  }

  lemma LongFraction(whole: string, frac: string, decimals: nat)
    requires IsNumeral(whole, 10) && IsNumeral(frac, 10) && |frac| > decimals
    ensures ParseMagnitude(whole + "." + frac, decimals) == Err(TooManyDecimals)
  {
    NumeralIsPlain(whole);
    NumeralIsPlain(frac);
    PointOf(whole, frac);
    assert (whole + "." + frac)[|whole| + 1..] == frac;
  }

  lemma SignedError(s: string, negative: bool, decimals: nat)
    requires Unsigned(s) && ParseMagnitude(s, decimals).Err?
    ensures ParseUnits(WithSign(negative, s), decimals) == ParseMagnitude(s, decimals)
  {
    if negative {
      SignIsRead(s);
    } else {
      NothingToTrim(s);
      assert s[..1][0] == s[0];
    }
  }

  /** Two points are never a number. */
  lemma TwoPointsAreInvalid(a: string, b: string, c: string, decimals: nat)
    requires PlainDigits(a) && PlainDigits(b)
    ensures ParseMagnitude(a + "." + (b + "." + c), decimals) == Err(InvalidDecimal)
  {
    FirstPoint(a, b + "." + c);
    FirstPoint(b, c);
    assert (a + "." + (b + "." + c))[|a| + 1..] == b + "." + c;
  }

  lemma FirstPoint(a: string, rest: string)
    requires PlainDigits(a)
    ensures PointAt(a + "." + rest) == |a|
  {
    var s := a + "." + rest;
    assert forall i :: 0 <= i < |a| ==> s[i] == a[i];
    assert s[|a|] == '.';
  }

  /* ---------------- amounts of a token ---------------- */

  const WEI_DECIMALS: nat := 18

  lemma {:induction false} PowPositive(k: nat)
    ensures Pow(10, k) > 0
  {
    if k > 0 {
      PowPositive(k - 1);
    }
  }

  function GetAmountInToken(amount: int, decimals: nat): string {
    FormatUnits(amount, decimals)
  }

  /** 10^(18 - decimals); a negative exponent yields 1. */
  function WeiPerUnit(decimals: nat): (u: nat)
    ensures u > 0
  {
    PowPositive(if decimals <= WEI_DECIMALS then WEI_DECIMALS - decimals else 0);
    Pow(10, if decimals <= WEI_DECIMALS then WEI_DECIMALS - decimals else 0)
  }

  function GetAmountInWei(text: string, decimals: nat): Result<int, UnitsError> {
    match ParseUnits(text, WEI_DECIMALS)
    case Err(_) => Err(TooManyDecimals)
    case Ok(n) => Ok(Quo(n, WeiPerUnit(decimals)))
  }

  /** For every amount and every token of up to 18 decimals, reading undoes printing. */
  lemma WeiRoundTrip(amount: int, decimals: nat)
    requires decimals <= 18
    ensures GetAmountInWei(GetAmountInToken(amount, decimals), decimals) == Ok(amount)
  {
    ScaledRoundTrip(amount, decimals, WEI_DECIMALS);
    ExactQuotient(amount, WeiPerUnit(decimals));
    ReadInWei(GetAmountInToken(amount, decimals), decimals, amount * WeiPerUnit(decimals), amount);
  }

  lemma ReadInWei(text: string, decimals: nat, n: int, amount: int)
    requires ParseUnits(text, WEI_DECIMALS) == Ok(n) && Quo(n, WeiPerUnit(decimals)) == amount
    ensures GetAmountInWei(text, decimals) == Ok(amount)
  {
  }

  /** The text is read with 18 decimals and the digits beyond the token's own are cut off. */
  lemma WeiOf(text: string, decimals: nat, n: int)
    requires ParseUnits(text, 18) == Ok(n)
    ensures GetAmountInWei(text, decimals).Ok?
    ensures decimals >= 18 ==> GetAmountInWei(text, decimals).value == n
    ensures decimals < 18 && n >= 0 ==> CutTo(GetAmountInWei(text, decimals).value, n, Pow(10, 18 - decimals))
  {
    var r := Quo(n, WeiPerUnit(decimals));
    CutOff(n, decimals, r);
    ReadInWei(text, decimals, n, r);
  }

  /** r is n / unit with the fraction cut off. */
  ghost predicate CutTo(r: int, n: int, unit: int) {
    unit * r <= n < unit * (r + 1)
  }

  lemma WeiError(text: string, decimals: nat)
    ensures GetAmountInWei(text, decimals).Err? <==> ParseUnits(text, 18).Err?
  {
  }

  lemma CutOff(n: int, decimals: nat, r: int)
    requires r == Quo(n, WeiPerUnit(decimals))
    ensures decimals >= 18 ==> r == n
    ensures decimals < 18 && n >= 0 ==> CutTo(r, n, Pow(10, 18 - decimals))
  {
    if n >= 0 {
      QuotientRange(n, WeiPerUnit(decimals));
    }
  }
}
