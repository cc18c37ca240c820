/** Rendering base-unit integers as decimal token amounts: formatUnits
    (internal/clearsign/format.go) and formatTokenBalance
    (internal/provider/alchemy_client.go), with an independent reader. */
module Units {
  import opened Common
  import opened Positional
  import opened Text

  // ----- the two printers

  /** strings.TrimRight(s, "0") */
  function TrimZeros(s: string): string {
    if s != "" && s[|s| - 1] == '0' then TrimZeros(s[..|s| - 1]) else s
  }

  function ZeroText(k: nat): string {
    seq(k, _ => '0')
  }

  /** The %0*s verb: zeros on the left up to the width. */
  function PadLeft(s: string, width: nat): string {
    if |s| < width then ZeroText(width - |s|) + s else s
  }

  /** The digits printed after the point for a remainder r of d digits. */
  function Fraction(r: nat, d: nat): string {
    TrimZeros(PadLeft(Natural(Ten, r), d))
  }

  /** 10^decimals; big.Int.Exp gives 1 for a negative exponent. */
  function Denominator(decimals: int): (p: nat)
    ensures p > 0 && p == Pow(Ten, Width(decimals))
  {
    PowPositive(Ten, Width(decimals));
    Pow(Ten, Width(decimals))
  }

  function Width(decimals: int): nat {
    if decimals <= 0 then 0 else decimals
  }

  function Magnitude(n: int): nat {
    if n < 0 then -n else n
  }

  /** fmt ignores a wider * and complains in the text instead. */
  const MAX_WIDTH: nat := 1_000_000

  const BAD_WIDTH: string := "%!(BADWIDTH)"

  function FormatUnits(raw: string, decimals: int): string {
    match ParseInteger(Ten, raw)
    case None => raw
    case Some(n) =>
      if decimals <= 0 then Decimal(n)
      else
        var denom, sign := Denominator(decimals), if n < 0 then "-" else "";
        var q, r := Quotient(Magnitude(n), denom), Magnitude(n) % denom;
        if decimals > MAX_WIDTH && r != 0 then BadText(sign, q, r) else UnitsText(sign, q, r, decimals)
  }

  /** The printed amount when the fraction is too wide for the verb. */
  function BadText(sign: string, q: nat, r: nat): string {
    sign + Natural(Ten, q) + "." + TrimZeros(BAD_WIDTH + Natural(Ten, r))
  }

  /** The fraction fits the verb, or there is none. */
  predicate Printable(n: int, decimals: int) {
    decimals <= MAX_WIDTH || n % Denominator(decimals) == 0
  }

  function Quotient(n: nat, denom: nat): nat
    requires denom > 0
  {
    n / denom
  }

  function UnitsText(sign: string, q: nat, r: nat, decimals: nat): string {
    if r == 0 then sign + Natural(Ten, q) else sign + Natural(Ten, q) + "." + Fraction(r, decimals)
  }

  predicate HexPrefixed(s: string) {
    "0x" <= s || "0X" <= s
  }

  function FormatTokenBalance(rawBalance: string, decimals: int): string {
    var balance := if HexPrefixed(rawBalance) then ParseInteger(Sixteen, rawBalance[2..])
                   else ParseInteger(Ten, rawBalance);
    match balance
    case None => "0"
    case Some(n) =>
      var divisor := Denominator(decimals);
      BalanceText(n / divisor, n % divisor, decimals)
  }

  /** The tail of formatTokenBalance. big.Int's Div and Mod are Euclidean, and so are Dafny's. */
  function BalanceText(quotient: int, remainder: nat, decimals: int): string {
    if remainder == 0 then Decimal(quotient)
    else
      var frac := Fraction(remainder, Width(decimals));
      if frac == "" then Decimal(quotient) else Decimal(quotient) + "." + frac
  }

  // ----- an independent reader of decimal numerals

  /** "12.50" is (1250, 2): the digits, and how many of them follow the point. */
  function ReadUnsigned(s: string): Option<(nat, nat)> {
    match Cut(s, '.')
    case None =>
      (match ParseNatural(Ten, s) case None => None case Some(m) => Some((m, 0)))
    case Some((whole, frac)) =>
      if whole == "" || frac == "" then None
      else match ParseNatural(Ten, whole + frac)
        case None => None
        case Some(m) => Some((m, |frac|))
  }

  /** The unsigned numeral as a multiple of 10^-d, scaled up by 10^d. */
  function ReadMagnitude(s: string, d: nat): Option<nat> {
    match ReadUnsigned(s)
    case None => None
    case Some((m, scale)) => if scale <= d then Some(Shift(Ten, m, d - scale)) else None
  }

  function ReadUnits(s: string, d: nat): Option<int> {
    if s != "" && s[0] == '-' then
      match ReadMagnitude(s[1..], d)
      case None => None
      case Some(v) => Some(-(v as int))
    else
      match ReadMagnitude(s, d)
      case None => None
      case Some(v) => Some(v)
  }

  // ----- fractions

  lemma {:induction false} TrimZerosShape(s: string)
    ensures TrimZeros(s) <= s
    ensures s == TrimZeros(s) + ZeroText(|s| - |TrimZeros(s)|)
    ensures TrimZeros(s) != "" ==> TrimZeros(s)[|TrimZeros(s)| - 1] != '0'
  {
    if s != "" && s[|s| - 1] == '0' {
      TrimZerosShape(s[..|s| - 1]);
    }
  }

  lemma {:induction false} ValueOfZeroTail(s: string, k: nat)
    ensures Value(Ten, Vals(s + ZeroText(k))) == Shift(Ten, Value(Ten, Vals(s)), k)
  {
    var zeros := Vals(ZeroText(k));
    ValsConcat(s, ZeroText(k));
    ValueConcat(Ten, Vals(s), zeros);
    assert zeros == Zeros(k) + [];
    ValueOfPadded(Ten, k, []);
  }

  lemma PaddedRemainder(r: nat, d: nat)
    requires 0 < r < Pow(Ten, d)
    ensures AllDigits(Ten, PadLeft(Natural(Ten, r), d)) && |PadLeft(Natural(Ten, r), d)| == d
    ensures Value(Ten, Vals(PadLeft(Natural(Ten, r), d))) == r
  {
    var text := Natural(Ten, r);
    ParseOfNatural(Ten, r);
    DigitsFit(Ten, r, d);
    ValueOfPadded(Ten, d - |text|, Vals(text));
    assert Vals(PadLeft(text, d)) == Zeros(d - |text|) + Vals(text);
  }

  lemma EmptyValue()
    ensures Value(Ten, []) == 0
  {
  }

  /** A printed fraction keeps the remainder exactly and ends in a non-zero digit. */
  lemma FractionExact(r: nat, d: nat)
    requires 0 < r < Pow(Ten, d)
    ensures 0 < |Fraction(r, d)| <= d && AllDigits(Ten, Fraction(r, d))
    ensures Fraction(r, d)[|Fraction(r, d)| - 1] != '0'
    ensures Shift(Ten, Value(Ten, Vals(Fraction(r, d))), d - |Fraction(r, d)|) == r
  {
    hide Natural, PadLeft, TrimZeros, Shift, Value;
    var full, f := PadLeft(Natural(Ten, r), d), Fraction(r, d);
    PaddedRemainder(r, d);
    TrimZerosShape(full);
    ValueOfZeroTail(f, d - |f|);
    assert full == f + ZeroText(d - |f|);
    if f == "" {
      assert Value(Ten, Vals(f)) == 0 by {
        assert Vals("") == [];
        EmptyValue();
      }
      ShiftZero(Ten, d);
    }
  }

  function Number(s: string): nat {
    Value(Ten, Vals(s))
  }

  predicate Numeral(s: string) {
    s != "" && AllDigits(Ten, s)
  }

  lemma ReadWhole(whole: string, d: nat)
    requires Numeral(whole)
    ensures ReadMagnitude(whole, d) == Some(Shift(Ten, Number(whole), d))
  {
  }

  lemma NumberOfConcat(whole: string, frac: string)
    ensures Number(whole + frac) == Shift(Ten, Number(whole), |frac|) + Number(frac)
  {
    hide Shift, Value, Vals;
    ValsConcat(whole, frac);
    ValueConcat(Ten, Vals(whole), Vals(frac));
  }

  lemma ReadPoint(whole: string, frac: string)
    requires Numeral(whole) && Numeral(frac)
    ensures ReadUnsigned(whole + "." + frac) == Some((Number(whole + frac), |frac|))
  {
    CutOfConcat(whole, '.', frac);
  }

  lemma ReadWholeAndFraction(whole: string, frac: string, d: nat)
    requires Numeral(whole) && Numeral(frac) && |frac| <= d
    ensures ReadMagnitude(whole + "." + frac, d) ==
            Some(Shift(Ten, Number(whole), d) + Shift(Ten, Number(frac), d - |frac|))
  {
    hide Cut, AllDigits, Number, Shift;
    var k, v := |frac|, Number(whole);
    ReadPoint(whole, frac);
    NumberOfConcat(whole, frac);
    ShiftSum(Ten, Shift(Ten, v, k), Number(frac), d - k);
    ShiftTwice(Ten, v, k, d - k);
  }

  lemma ReadSigned(negative: bool, body: string, d: nat)
    requires body != "" && body[0] != '-' && ReadMagnitude(body, d).Some?
    ensures var v: int := ReadMagnitude(body, d).value;
            ReadUnits((if negative then "-" else "") + body, d) == Some(if negative then -v else v)
  {
    var text := (if negative then "-" else "") + body;
    if negative {
      assert text[1..] == body;
    } else {
      assert text == body;
    }
  }

  lemma NaturalIsNumeral(q: nat)
    ensures Numeral(Natural(Ten, q)) && Natural(Ten, q)[0] != '-' && Number(Natural(Ten, q)) == q
  {
    ParseOfNatural(Ten, q);
  }

  /** What a sign, a whole part and an optional fraction read back as. */
  lemma ReadUnitsText(negative: bool, q: nat, r: nat, d: nat)
    requires r < Pow(Ten, d)
    ensures var v: int := Shift(Ten, q, d) + r;
            ReadUnits(UnitsText(if negative then "-" else "", q, r, d), d) == Some(if negative then -v else v)
  {
    hide Natural, Fraction, ReadMagnitude, ReadUnits, AllDigits, Shift, Value, Pow;
    var whole, sign := Natural(Ten, q), if negative then "-" else "";
    NaturalIsNumeral(q);
    if r == 0 {
      ReadWhole(whole, d);
      ReadSigned(negative, whole, d);
    } else {
      var frac := Fraction(r, d);
      FractionExact(r, d);
      ReadWholeAndFraction(whole, frac, d);
      ReadSigned(negative, whole + "." + frac, d);
      assert sign + whole + "." + frac == sign + (whole + "." + frac);
    }
  }

  /** Division by a power of ten cuts a number into the two printed parts. */
  lemma Divided(n: int, decimals: int)
    ensures var (p, d) := (Denominator(decimals), Width(decimals));
            n % p < Pow(Ten, d) &&
            (n >= 0 ==> n / p >= 0 && n == Shift(Ten, n / p, d) + n % p) &&
            (n < 0 ==> n / p < 0 && n == n % p - Shift(Ten, -(n / p), d))
  {
    var p, d := Denominator(decimals), Width(decimals);
    EuclideanDivision(n, p);
    ShiftIsProduct(Ten, if n >= 0 then n / p else -(n / p), d);
  }

  lemma EuclideanDivision(n: int, p: nat)
    requires p > 0
    ensures 0 <= n % p < p
    ensures n >= 0 ==> n / p >= 0 && n == (n / p) * p + n % p
    ensures n < 0 ==> n / p < 0 && n == n % p - (-(n / p)) * p
  {
  }

  // ----- exactness of FormatUnits

  lemma DecimalIsUnitsText(n: int, d: nat)
    ensures Decimal(n) == UnitsText(if n < 0 then "-" else "", Magnitude(n), 0, d)
  {
  }

  lemma ReadInteger(n: int)
    ensures ReadUnits(Decimal(n), 0) == Some(n)
  {
    DecimalIsUnitsText(n, 0);
    ReadUnitsText(n < 0, Magnitude(n), 0, 0);
  }

  lemma MagnitudeDivides(n: int, p: nat)
    requires p > 0
    ensures Magnitude(n) % p == 0 <==> n % p == 0
  {
    if n < 0 && n % p == 0 {
      NegatedDivision(n, p);
    }
    if n < 0 && (-n) % p == 0 {
      ExactDivision(-((-n) / p), p);
    }
  }

  lemma TrimKeepsFront(front: string, digits: string)
    requires front != "" && front[|front| - 1] != '0'
    ensures front <= TrimZeros(front + digits)
  {
    var s := front + digits;
    TrimZerosShape(s);
    assert s[|front| - 1] == front[|front| - 1];
  }

  /** The complaint is no digit, so nothing can be read back. */
  lemma BadTextUnreadable(negative: bool, q: nat, r: nat, d: nat)
    ensures ReadUnits(BadText(if negative then "-" else "", q, r), d) == None
  {
    hide Natural, TrimZeros, ReadMagnitude;
    var whole, frac := Natural(Ten, q), TrimZeros(BAD_WIDTH + Natural(Ten, r));
    NaturalIsNumeral(q);
    TrimKeepsFront(BAD_WIDTH, Natural(Ten, r));
    assert frac[0] == '%';
    BadFraction(whole, frac, d);
    var sign, text := if negative then "-" else "", whole + "." + frac;
    assert sign + whole + "." + frac == sign + text;
    if negative {
      assert (sign + text)[1..] == text;
    } else {
      assert sign + text == text;
    }
  }

  lemma BadFraction(whole: string, frac: string, d: nat)
    requires Numeral(whole) && frac != "" && frac[0] == '%'
    ensures ReadMagnitude(whole + "." + frac, d) == None
  {
    hide Value, Vals;
    assert '.' !in whole;
    CutOfConcat(whole, '.', frac);
    assert whole + "." + frac == whole + ['.'] + frac;
    assert (whole + frac)[|whole|] == '%' && DigitVal('%') >= 10;
  }

  /** Reading the output as a decimal and multiplying by 10^decimals gives the input,
      for every sign and size, exactly when the fraction is not too wide. */
  lemma FormatUnitsExact(raw: string, decimals: int)
    requires ParseInteger(Ten, raw).Some?
    ensures var n := ParseInteger(Ten, raw).value;
            ReadUnits(FormatUnits(raw, decimals), Width(decimals)) == (if Printable(n, decimals) then Some(n) else None)
  {
    hide Natural, Decimal, Fraction, ReadUnits, Shift, Pow, Denominator, ParseInteger, BadText;
    var n := ParseInteger(Ten, raw).value;
    if decimals <= 0 {
      ReadInteger(n);
    } else {
      var denom := Denominator(decimals);
      var q, r := Quotient(Magnitude(n), denom), Magnitude(n) % denom;
      MagnitudeDivides(n, denom);
      Divided(Magnitude(n), decimals);
      ReadUnitsText(n < 0, q, r, decimals);
      BadTextUnreadable(n < 0, q, r, decimals);
    }
  }

  /** Two amounts that can be printed are printed alike exactly when they are the same number. */
  lemma FormatUnitsInjective(raw: string, raw': string, decimals: int)
    requires ParseInteger(Ten, raw).Some? && ParseInteger(Ten, raw').Some?
    requires Printable(ParseInteger(Ten, raw).value, decimals)
    ensures FormatUnits(raw, decimals) == FormatUnits(raw', decimals) <==>
            ParseInteger(Ten, raw) == ParseInteger(Ten, raw')
  {
    hide ParseInteger, ReadUnits, FormatUnits, Printable;
    FormatUnitsExact(raw, decimals);
    FormatUnitsExact(raw', decimals);
    if ParseInteger(Ten, raw) == ParseInteger(Ten, raw') {
      SamePrint(raw, raw', decimals);
    }
  }

  lemma SamePrint(raw: string, raw': string, decimals: int)
    requires ParseInteger(Ten, raw).Some? && ParseInteger(Ten, raw) == ParseInteger(Ten, raw')
    ensures FormatUnits(raw, decimals) == FormatUnits(raw', decimals)
  {
    hide ParseInteger;
  }

  /** The printer tells all numbers apart exactly up to the widest fraction: past it,
      1 and 10 base units look the same. */
  lemma FormatUnitsInjectiveIff(decimals: int)
    ensures (forall raw, raw' :: ParseInteger(Ten, raw).Some? && ParseInteger(Ten, raw').Some? &&
                                 FormatUnits(raw, decimals) == FormatUnits(raw', decimals) ==>
                                 ParseInteger(Ten, raw) == ParseInteger(Ten, raw'))
            <==> decimals <= MAX_WIDTH
  {
    hide ParseInteger, FormatUnits, Decimal;
    if decimals <= MAX_WIDTH {
      forall raw, raw' | ParseInteger(Ten, raw).Some? && ParseInteger(Ten, raw').Some? &&
                         FormatUnits(raw, decimals) == FormatUnits(raw', decimals)
        ensures ParseInteger(Ten, raw) == ParseInteger(Ten, raw')
      {
        FormatUnitsInjective(raw, raw', decimals);
      }
    } else {
      BadWidthCollision(decimals);
      ParseOfDecimal(1);
      ParseOfDecimal(10);
    }
  }

  lemma BadWidthCollision(decimals: int)
    requires decimals > MAX_WIDTH
    ensures FormatUnits(Decimal(1), decimals) == FormatUnits(Decimal(10), decimals)
  {
    hide ParseInteger, Decimal, TrimZeros, Pow, Natural, Denominator;
    ParseOfDecimal(1);
    ParseOfDecimal(10);
    WideDenominator(decimals);
    TrimOfTen();
    assert Quotient(1, Denominator(decimals)) == 0 == Quotient(10, Denominator(decimals));
  }

  /** What one base unit looks like past the widest fraction. */
  lemma BadWidthText(decimals: int)
    requires decimals > 1_000_000
    ensures FormatUnits(Decimal(1), decimals) == "0.%!(BADWIDTH)1"
  {
    hide ParseInteger, Decimal, Pow, Denominator, TrimZeros, Natural;
    ParseOfDecimal(1);
    WideDenominator(decimals);
    assert Natural(Ten, 1) == "1" && Natural(Ten, 0) == "0" by { SmallNaturals(); }
    var text := BAD_WIDTH + "1";
    TrimKeepsAll(text);
    assert Quotient(1, Denominator(decimals)) == 0;
    BadParts(text);
  }

  lemma SmallNaturals()
    ensures Natural(Ten, 1) == "1" && Natural(Ten, 0) == "0"
  {
    assert Digits(Ten, 1) == [1];
  }

  lemma BadParts(text: string)
    requires text == BAD_WIDTH + "1"
    ensures "" + "0" + "." + text == "0.%!(BADWIDTH)1"
  {
  }

  lemma TrimKeepsAll(s: string)
    requires s != "" && s[|s| - 1] != '0'
    ensures TrimZeros(s) == s
  {
  }

  lemma WideDenominator(decimals: int)
    requires decimals > MAX_WIDTH
    ensures Denominator(decimals) > 10
  {
    assert Pow(Ten, 2) == 100 by { assert Shift(Ten, 1, 1) == 10; }
    hide Pow, Shift;
    PowMonotone(Ten, 2, decimals);
  }

  lemma TrimOfTen()
    ensures TrimZeros(BAD_WIDTH + Natural(Ten, 10)) == TrimZeros(BAD_WIDTH + Natural(Ten, 1))
  {
    assert Digits(Ten, 1) == [1];
    assert Digits(Ten, 10) == [1, 0];
    assert Natural(Ten, 10) == "10" && Natural(Ten, 1) == "1";
    var s := BAD_WIDTH + "10";
    assert s[..|s| - 1] == BAD_WIDTH + "1";
  }

  /** How a printed amount looks: a sign exactly when negative is set, and no
      zero or point at the end of a fraction. */
  ghost predicate WellFormed(s: string, negative: bool) {
    s != "" && (s[0] == '-' <==> negative) && ('.' in s ==> s[|s| - 1] != '0' && s[|s| - 1] != '.')
  }

  lemma ComposedWellFormed(negative: bool, whole: string, frac: string)
    requires Numeral(whole) && AllDigits(Ten, frac) && (frac != "" ==> frac[|frac| - 1] != '0')
    ensures WellFormed((if negative then "-" else "") + whole + (if frac == "" then "" else "." + frac), negative)
  {
    assert '.' !in whole;
  }

  lemma UnitsTextWellFormed(negative: bool, q: nat, r: nat, d: nat)
    requires r < Pow(Ten, d)
    ensures WellFormed(UnitsText(if negative then "-" else "", q, r, d), negative)
  {
    hide Natural, Fraction, WellFormed, AllDigits, Pow;
    NaturalIsNumeral(q);
    var sign, whole := if negative then "-" else "", Natural(Ten, q);
    if r == 0 {
      ComposedWellFormed(negative, whole, "");
      assert sign + whole + "" == sign + whole;
    } else {
      FractionExact(r, d);
      ComposedWellFormed(negative, whole, Fraction(r, d));
      assert sign + whole + ("." + Fraction(r, d)) == sign + whole + "." + Fraction(r, d);
    }
  }

  /** The sign is there exactly for negative amounts, so there is no "-0", and a
      fraction ends in a non-zero digit. */
  lemma FormatUnitsWellFormed(raw: string, decimals: int)
    requires ParseInteger(Ten, raw).Some?
    ensures WellFormed(FormatUnits(raw, decimals), ParseInteger(Ten, raw).value < 0)
  {
    hide WellFormed, Decimal, UnitsText, Pow, Denominator, ParseInteger, BadText;
    var n := ParseInteger(Ten, raw).value;
    if decimals <= 0 {
      DecimalIsUnitsText(n, 0);
      PowPositive(Ten, 0);
      UnitsTextWellFormed(n < 0, Magnitude(n), 0, 0);
    } else {
      Divided(Magnitude(n), decimals);
      var denom := Denominator(decimals);
      UnitsTextWellFormed(n < 0, Quotient(Magnitude(n), denom), Magnitude(n) % denom, decimals);
      BadTextWellFormed(n < 0, Quotient(Magnitude(n), denom), Magnitude(n) % denom);
    }
  }

  lemma BadTextWellFormed(negative: bool, q: nat, r: nat)
    ensures WellFormed(BadText(if negative then "-" else "", q, r), negative)
  {
    hide Natural, TrimZeros;
    NaturalIsNumeral(q);
    NaturalIsNumeral(r);
    var s := BAD_WIDTH + Natural(Ten, r);
    TrimKeepsFront(BAD_WIDTH, Natural(Ten, r));
    TrimZerosShape(s);
    assert forall i :: 0 <= i < |s| ==> s[i] != '.';
  }

  lemma HexIsNotDecimal(raw: string)
    requires HexPrefixed(raw)
    ensures ParseInteger(Ten, raw) == None
  {
    assert DigitVal(raw[1]) == 16;
  }

  /** Text that is not a decimal integer, hex included, is shown unchanged. */
  lemma FormatUnitsVerbatim(raw: string, decimals: int)
    requires HexPrefixed(raw)
    ensures FormatUnits(raw, decimals) == raw
  {
    HexIsNotDecimal(raw);
  }

  // ----- FormatTokenBalance against FormatUnits

  lemma BalanceIsUnitsText(q: int, r: nat, decimals: int)
    requires r < Denominator(decimals)
    ensures BalanceText(q, r, decimals) == UnitsText(if q < 0 then "-" else "", Magnitude(q), r, Width(decimals))
  {
    hide Fraction, Pow;
    DecimalIsUnitsText(q, Width(decimals));
    if r != 0 {
      FractionExact(r, Width(decimals));
    }
  }

  /** For negative amounts the whole part is rounded down while the fraction is
      printed as it is, so the text is off by twice the remainder. */
  lemma BalanceReads(n: int, decimals: int)
    ensures var p := Denominator(decimals);
            ReadUnits(BalanceText(n / p, n % p, decimals), Width(decimals)) ==
            Some(if n < 0 then n - 2 * (n % p) else n)
  {
    hide BalanceText, UnitsText, ReadUnits, Shift, Pow;
    var p := Denominator(decimals);
    Divided(n, decimals);
    BalanceIsUnitsText(n / p, n % p, decimals);
    ReadUnitsText(n / p < 0, Magnitude(n / p), n % p, Width(decimals));
  }

  lemma DecimalBalance(raw: string, decimals: int)
    requires ParseInteger(Ten, raw).Some?
    ensures var n, p := ParseInteger(Ten, raw).value, Denominator(decimals);
            FormatTokenBalance(raw, decimals) == BalanceText(n / p, n % p, decimals)
  {
    hide ParseInteger, BalanceText, Denominator;
    if HexPrefixed(raw) {
      HexIsNotDecimal(raw);
    }
  }

  /** A balance that is no number is shown as 0. */
  lemma BalanceOfGarbage(prefix: string, text: string, decimals: int)
    requires prefix in {"0x", "0X"} ==> ParseInteger(Sixteen, text) == None
    requires prefix == "" ==> !("0x" <= text) && !("0X" <= text) && ParseInteger(Ten, text) == None
    requires prefix in {"", "0x", "0X"}
    ensures FormatTokenBalance(prefix + text, decimals) == "0"
  {
    hide ParseInteger;
    assert prefix != "" ==> (prefix + text)[2..] == text;
    assert prefix == "" ==> prefix + text == text;
  }

  lemma NegatedDivision(n: int, p: nat)
    requires p > 0 && n < 0 && n % p == 0
    ensures (-n) % p == 0 && (-n) / p == -(n / p)
  {
    ExactDivision(-(n / p), p);
  }

  lemma ExactDivision(q: int, p: nat)
    requires p > 0
    ensures (q * p) / p == q && (q * p) % p == 0
  {
    var n := q * p;
    assert n == n / p * p + n % p;
    assert (q - n / p) * p == n % p;
    SmallMultiple(q - n / p, p);
  }

  lemma SmallMultiple(k: int, p: nat)
    requires 0 <= k * p < p
    ensures k == 0
  {
  }

  lemma UnitDenominator(n: int, decimals: int)
    requires decimals <= 0
    ensures Denominator(decimals) == 1 && n / 1 == n && n % 1 == 0
  {
  }

  /** The two printers agree on a number exactly when it has no fraction, or is
      non-negative and its fraction is not too wide for the verb. */
  lemma PrintersAgree(raw: string, decimals: int)
    requires ParseInteger(Ten, raw).Some?
    ensures FormatTokenBalance(raw, decimals) == FormatUnits(raw, decimals) <==>
            var n := ParseInteger(Ten, raw).value;
            n % Denominator(decimals) == 0 || (n >= 0 && decimals <= MAX_WIDTH)
  {
    hide ParseInteger, BalanceText, UnitsText, BadText, ReadUnits, Decimal, Shift;
    var n, p := ParseInteger(Ten, raw).value, Denominator(decimals);
    DecimalBalance(raw, decimals);
    FormatUnitsExact(raw, decimals);
    BalanceReads(n, decimals);
    if n % p == 0 || (n >= 0 && decimals <= MAX_WIDTH) {
      Divided(n, decimals);
      BalanceIsUnitsText(n / p, n % p, decimals);
      if decimals <= 0 {
        UnitDenominator(n, decimals);
        DecimalIsUnitsText(n, 0);
      } else if n < 0 {
        NegatedDivision(n, p);
      }
    }
  }

  /** A hex balance is printed like the same number in decimal, with either prefix. */
  lemma HexBalance(prefix: string, h: string, decimals: int)
    requires prefix in {"0x", "0X"} && ParseInteger(Sixteen, h).Some?
    ensures var n := ParseInteger(Sixteen, h).value;
            FormatTokenBalance(prefix + h, decimals) == FormatTokenBalance(Decimal(n), decimals) &&
            (n >= 0 && decimals <= MAX_WIDTH ==> FormatTokenBalance(prefix + h, decimals) == FormatUnits(Decimal(n), decimals))
  {
    hide ParseInteger, BalanceText, UnitsText, Decimal, Denominator;
    var n := ParseInteger(Sixteen, h).value;
    ParseOfDecimal(n);
    DecimalBalance(Decimal(n), decimals);
    PrintersAgree(Decimal(n), decimals);
    assert (prefix + h)[2..] == h;
  }

  /** An amount on which the two printers differ: -1.5 is shown as -2.5. */
  lemma NegativeBalanceExample()
    ensures FormatTokenBalance(Decimal(-15), 1) != FormatUnits(Decimal(-15), 1)
    ensures ReadUnits(FormatTokenBalance(Decimal(-15), 1), 1) == Some(-25)
  {
    hide ParseInteger, BalanceText, FormatUnits, ReadUnits, Decimal;
    ParseOfDecimal(-15);
    assert Denominator(1) == 10;
    DecimalBalance(Decimal(-15), 1);
    BalanceReads(-15, 1);
    PrintersAgree(Decimal(-15), 1);
  }
}
