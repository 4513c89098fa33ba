/** Amounts as minor units in an int64, their decimal text, and the parser that
  * reads it back. Both directions keep the machine arithmetic, so what happens at
  * the ends of the range is part of the model. */
module Money {
  import opened Wrappers
  import opened Text
  import Int64

  /** The ISO 4217 table: a currency code to the digits after its decimal point. */
  type Exponents = m: map<string, nat> | forall c :: c in m ==> m[c] <= 4 witness map[]

  datatype Amount = Amount(currency: string, minor: int)

  datatype Error = UnknownCurrency | NotANumber | TooManyDigits

  /** strconv.FormatInt(n, 10) */
  function FormatInt(n: int): string {
    if n < 0 then "-" + Digits(-n) else Digits(n)
  }

  /** fmt's %0*d: the sign takes one of the padded places. */
  function FormatPadded(width: nat, n: int): string {
    if n < 0 then "-" + PadZero(Digits(-n), if width == 0 then 0 else width - 1)
    else PadZero(Digits(n), width)
  }

  /** strconv.ParseInt(s, 10, 64) */
  function ParseInt(s: string): Result<int, Error> {
    var signed := s != "" && (s[0] == '-' || s[0] == '+');
    var digits := if signed then s[1..] else s;
    if digits == "" || !AllDigits(digits) then Err(NotANumber)
    else
      var size: int := Value(digits);
      var n := if signed && s[0] == '-' then -size else size;
      if Int64.Fits(n) then Ok(n) else Err(NotANumber)
  }

  /** The scaling loop. */
  method PowerOfTen(exp: nat) returns (n: nat)
    ensures n == Pow10(exp)
  {
    n := 1;
    for i := 0 to exp
      invariant n == Pow10(i)
    {
      n := n * 10;
    }
  }

  /** Sign, whole part, point and fraction, as Format assembles them. */
  function Join(neg: bool, whole: string, frac: string): string {
    (if neg then "-" else "") + (whole + ("." + frac))
  }

  function NegateIf(neg: bool, n: int): int {
    if neg then Int64.Wrap(-n) else n
  }

  /** The text of `minor` at `exp` digits after the point. */
  function FormatAt(exp: nat, minor: int): string {
    if exp == 0 then FormatInt(minor)
    else
      var neg := minor < 0;
      var units := NegateIf(neg, minor);
      var scale := Pow10(exp);
      var whole, frac := Int64.Quotient(units, scale), Int64.Remainder(units, scale);
      Join(neg, FormatInt(whole), FormatPadded(exp, frac))
  }

  function Format(table: Exponents, m: Amount): Result<string, Error> {
    if m.currency !in table then Err(UnknownCurrency)
    else Ok(FormatAt(table[m.currency], m.minor))
  }

  function TrimPrefix(s: string, c: char): string {
    if s != "" && s[0] == c then s[1..] else s
  }

  /** The parts put back together; Scale(n, exp) is the product of `n` and 10^exp. */
  function Recombine(neg: bool, whole: int, frac: int, exp: nat): int {
    NegateIf(neg, Int64.Wrap(Int64.Wrap(Scale(whole, exp)) + frac))
  }

  function ParseAt(exp: nat, decimal: string): Result<int, Error> {
    var cut := Cut(TrimPrefix(decimal, '-'), '.');
    ParseParts(exp, decimal != "" && decimal[0] == '-', cut.0, cut.1, cut.2)
  }

  function ParseParts(exp: nat, neg: bool, whole: string, frac: string, hasFrac: bool): Result<int, Error> {
    if exp == 0 then
      if hasFrac then Err(TooManyDigits)
      else
        var n :- ParseInt(whole);
        Ok(NegateIf(neg, n))
    else if |frac| > exp then Err(TooManyDigits)
    else
      var wholeN :- ParseInt(whole);
      var fracN :- ParseInt(frac + Zeros(exp - |frac|));
      Ok(Recombine(neg, wholeN, fracN, exp))
  }

  function Parse(table: Exponents, currency: string, decimal: string): Result<Amount, Error> {
    if currency !in table then Err(UnknownCurrency)
    else
      var minor :- ParseAt(table[currency], decimal);
      Ok(Amount(currency, minor))
  }

  // ---- The text of an amount -------------------------------------------------------

  lemma FormatIntOfNat(n: nat)
    ensures AllDigits(FormatInt(n)) && Value(FormatInt(n)) == n && FormatInt(n) != ""
    ensures '.' !in FormatInt(n) && FormatInt(n)[0] != '-' && FormatInt(n)[0] != '+'
  {
    ValueOfDigits(n);
  }

  lemma ParseIntOfDigits(s: string)
    requires AllDigits(s) && s != ""
    ensures ParseInt(s) == if Value(s) <= Int64.MAX then Ok(Value(s)) else Err(NotANumber)
  {
    assert s[0] != '-' && s[0] != '+';
  }

  lemma ParseIntOfNegative(n: int)
    requires 0 <= n <= Int64.MAX
    ensures ParseInt("-" + Digits(n)) == Ok(-n)
  {
    ValueOfDigits(n);
    assert ("-" + Digits(n))[1..] == Digits(n);
  }

  /** Taking apart what Join put together. */
  lemma CutOfJoin(neg: bool, whole: string, frac: string)
    requires '.' !in whole && (whole == "" || neg || whole[0] != '-')
    ensures var s := Join(neg, whole, frac);
            && (s != "" && s[0] == '-') == neg
            && Cut(TrimPrefix(s, '-'), '.') == (whole, frac, true)
  {
    var s := Join(neg, whole, frac);
    var rest := whole + ("." + frac);
    assert rest == whole + ['.'] + frac;
    CutAtFirst(whole, '.', frac);
    if neg {
      assert s[1..] == rest;
    } else {
      assert s == rest;
    }
  }

  /** What Parse makes of two readable parts, signed or not: the exact value when it
    * fits, and its wrap-around when it does not. */
  lemma ParseOfJoin(exp: nat, neg: bool, whole: string, frac: string, w: int, f: int, units: int)
    requires exp > 0 && |frac| <= exp
    requires '.' !in whole && (whole == "" || neg || whole[0] != '-')
    requires ParseInt(whole) == Ok(w) && ParseInt(frac + Zeros(exp - |frac|)) == Ok(f)
    requires units == Scale(w, exp) + f
    ensures ParseAt(exp, Join(neg, whole, frac)) == Ok(NegateIf(neg, Int64.Wrap(units)))
  {
    CutOfJoin(neg, whole, frac);
    RecombineOnce(neg, w, f, exp, units);
  }

  lemma RecombineOnce(neg: bool, w: int, f: int, exp: nat, units: int)
    requires units == Scale(w, exp) + f
    ensures Recombine(neg, w, f, exp) == NegateIf(neg, Int64.Wrap(units))
  {
    hide Scale, Int64.Wrap, NegateIf;
    Int64.WrapAdd(Scale(w, exp), f);
  }

  lemma ParsePaddedFraction(exp: nat, frac: string)
    requires 0 < exp <= 4 && AllDigits(frac) && |frac| <= exp
    ensures var padded := frac + Zeros(exp - |frac|);
            AllDigits(padded) && ParseInt(padded) == Ok(Value(padded))
  {
    var padded := frac + Zeros(exp - |frac|);
    ValueIsBounded(padded);
    SmallPowers();
    ParseIntOfDigits(padded);
  }

  lemma SmallPowers()
    ensures Pow10(0) == 1 && Pow10(1) == 10 && Pow10(2) == 100 && Pow10(3) == 1000 && Pow10(4) == 10000
  {
    assert Pow10(2) == 10 * Pow10(1);
    assert Pow10(3) == 10 * Pow10(2);
    assert Pow10(4) == 10 * Pow10(3);
  }

  /** The fraction Format prints: exactly the currency's digits, padded with zeros. */
  function Fraction(exp: nat, size: nat): string {
    PadZero(Digits(Int64.Mod(size, Pow10(exp))), exp)
  }

  lemma FractionShape(exp: nat, size: nat)
    requires exp > 0
    ensures |Fraction(exp, size)| == exp && AllDigits(Fraction(exp, size))
    ensures Value(Fraction(exp, size)) == Int64.Mod(size, Pow10(exp))
  {
    DigitsFit(Int64.Mod(size, Pow10(exp)), exp);
    ValueOfDigits(Int64.Mod(size, Pow10(exp)));
    ValueOfPadded(Digits(Int64.Mod(size, Pow10(exp))), exp);
  }

  /** Every amount but the most negative one prints as sign, whole units, a point and
    * exactly the currency's digits. */
  lemma FormatShape(exp: nat, minor: int)
    requires exp > 0 && Int64.MIN < minor <= Int64.MAX
    ensures var size := if minor < 0 then -minor else minor;
            FormatAt(exp, minor) == Join(minor < 0, Digits(Int64.Div(size, Pow10(exp))), Fraction(exp, size))
  {
    var size := if minor < 0 then -minor else minor;
    assert NegateIf(minor < 0, minor) == size;
  }

  lemma RoundTripWhole(minor: int)
    requires Int64.MIN < minor <= Int64.MAX
    ensures ParseAt(0, FormatAt(0, minor)) == Ok(minor)
  {
    var size := if minor < 0 then -minor else minor;
    var text := Digits(size);
    FormatIntOfNat(size);
    CutAbsent(text, '.');
    ParseIntOfDigits(text);
    assert TrimPrefix(FormatInt(minor), '-') == text;
  }

  lemma RoundTripAboveMin(exp: nat, minor: int)
    requires 0 < exp <= 4 && Int64.MIN < minor <= Int64.MAX
    ensures ParseAt(exp, FormatAt(exp, minor)) == Ok(minor)
  {
    FormatShape(exp, minor);
    JoinedPartsParse(exp, minor < 0, if minor < 0 then -minor else minor);
  }

  lemma JoinedPartsParse(exp: nat, neg: bool, size: nat)
    requires 0 < exp <= 4 && size <= Int64.MAX
    ensures ParseAt(exp, Join(neg, Digits(Int64.Div(size, Pow10(exp))), Fraction(exp, size))) == Ok(NegateIf(neg, size))
  {
    PartsParse(exp, size);
    var q, r := Int64.Div(size, Pow10(exp)), Int64.Mod(size, Pow10(exp));
    Reassembled(exp, size);
    ParseOfJoin(exp, neg, Digits(q), Fraction(exp, size), q, r, size);
  }

  lemma Reassembled(exp: nat, size: nat)
    ensures Scale(Int64.Div(size, Pow10(exp)), exp) + Int64.Mod(size, Pow10(exp)) == size
  {
    ScaleIsProduct(Int64.Div(size, Pow10(exp)), exp);
  }

  lemma PartsParse(exp: nat, size: nat)
    requires exp > 0 && size <= Int64.MAX
    ensures ParseInt(Digits(Int64.Div(size, Pow10(exp)))) == Ok(Int64.Div(size, Pow10(exp)))
    ensures |Fraction(exp, size)| == exp
    ensures ParseInt(Fraction(exp, size) + Zeros(0)) == Ok(Int64.Mod(size, Pow10(exp)))
    ensures '.' !in Digits(Int64.Div(size, Pow10(exp))) && Digits(Int64.Div(size, Pow10(exp)))[0] != '-'
  {
    FractionShape(exp, size);
    FormatIntOfNat(Int64.Div(size, Pow10(exp)));
    ParseIntOfDigits(Digits(Int64.Div(size, Pow10(exp))));
    assert Fraction(exp, size) + Zeros(0) == Fraction(exp, size);
    ParseIntOfDigits(Fraction(exp, size));
  }

  /** The most negative amount has no positive counterpart, so Format prints its parts
    * with signs of their own: "--92233720368547758.-8" at two digits. */
  lemma FormatOfMin(exp: nat)
    requires 0 < exp <= 4
    ensures var size := 0x8000_0000_0000_0000;
            FormatAt(exp, Int64.MIN)
            == Join(true, "-" + Digits(Int64.Div(size, Pow10(exp))), "-"
                    + PadZero(Digits(Int64.Mod(size, Pow10(exp))), exp - 1))
  {
    NegatedMin();
    PartsOfMin(exp);
  }

  lemma NegatedMin()
    ensures NegateIf(true, Int64.MIN) == Int64.MIN
  {
    Int64.WrapIsUnique(-Int64.MIN, Int64.MIN, -1);
  }

  lemma PartsOfMin(exp: nat)
    requires 0 < exp <= 4
    ensures var size := 0x8000_0000_0000_0000;
            && FormatInt(Int64.Quotient(Int64.MIN, Pow10(exp))) == "-" + Digits(Int64.Div(size, Pow10(exp)))
            && FormatPadded(exp, Int64.Remainder(Int64.MIN, Pow10(exp)))
               == "-" + PadZero(Digits(Int64.Mod(size, Pow10(exp))), exp - 1)
  {
    MinParts(exp);
    QuotientOfMin(exp);
    hide Int64.Div, Int64.Mod, Pow10, Int64.Quotient, Int64.Remainder;
  }

  lemma MinParts(exp: nat)
    requires 0 < exp <= 4
    ensures Int64.Div(0x8000_0000_0000_0000, Pow10(exp)) > 0 && Int64.Mod(0x8000_0000_0000_0000, Pow10(exp)) > 0
  {
    hide Int64.Div, Int64.Mod;
    SmallPowers();
    var size := 0x8000_0000_0000_0000;
    if exp == 1 {
      Int64.DivModIsUnique(size, 10, 922337203685477580, 8);
    } else if exp == 2 {
      Int64.DivModIsUnique(size, 100, 92233720368547758, 8);
    } else if exp == 3 {
      Int64.DivModIsUnique(size, 1000, 9223372036854775, 808);
    } else {
      Int64.DivModIsUnique(size, 10000, 922337203685477, 5808);
    }
  }

  lemma QuotientOfMin(exp: nat)
    ensures Int64.Quotient(Int64.MIN, Pow10(exp)) == 0 - Int64.Div(0x8000_0000_0000_0000, Pow10(exp))
    ensures Int64.Remainder(Int64.MIN, Pow10(exp)) == 0 - Int64.Mod(0x8000_0000_0000_0000, Pow10(exp))
  {
    hide Int64.Div, Int64.Mod, Pow10;
  }

  /** The stray sign makes the fraction too long, except at one digit and at two. */
  lemma FractionOfMin(exp: nat)
    requires 0 < exp <= 4
    ensures var frac := "-" + PadZero(Digits(Int64.Mod(0x8000_0000_0000_0000, Pow10(exp))), exp - 1);
            && (exp == 2 ==> frac == "-8")
            && (exp != 2 ==> |frac| > exp)
  {
    hide Int64.Div, Int64.Mod;
    SmallPowers();
    var size := 0x8000_0000_0000_0000;
    if exp == 1 {
      Int64.DivModIsUnique(size, 10, 922337203685477580, 8);
    } else if exp == 2 {
      Int64.DivModIsUnique(size, 100, 92233720368547758, 8);
      assert Digits(8) == "8";
    } else if exp == 3 {
      Int64.DivModIsUnique(size, 1000, 9223372036854775, 808);
      DigitsNeed(808, 2);
    } else {
      Int64.DivModIsUnique(size, 10000, 922337203685477, 5808);
      DigitsNeed(5808, 3);
    }
  }

  /** At exponent 2 the two stray signs cancel: the parts recombine below zero and the
    * last negation wraps back onto the most negative amount. At any other exponent the
    * text is refused. */
  lemma RoundTripOfMin(exp: nat)
    requires exp <= 4
    ensures ParseAt(exp, FormatAt(exp, Int64.MIN)) == Ok(Int64.MIN) <==> exp == 2
  {
    hide Int64.Div, Int64.Mod, Int64.Quotient, Int64.Remainder, PadZero, Scale, Pow10, Value, Digits;
    var size := 0x8000_0000_0000_0000;
    if exp == 0 {
      var text := Digits(size);
      FormatIntOfNat(size);
      assert FormatAt(0, Int64.MIN)[1..] == text;
      CutAbsent(text, '.');
      ParseIntOfDigits(text);
    } else {
      FormatOfMin(exp);
      FractionOfMin(exp);
      var whole, frac := "-" + Digits(Int64.Div(size, Pow10(exp))), "-"
                         + PadZero(Digits(Int64.Mod(size, Pow10(exp))), exp - 1);
      CutOfJoin(true, whole, frac);
      if exp == 2 {
        RecombinedMin();
      }
    }
  }

  lemma RecombinedMin()
    ensures ParseInt("-" + Digits(Int64.Div(0x8000_0000_0000_0000, Pow10(2)))) == Ok(-92233720368547758)
    ensures ParseInt("-8" + Zeros(0)) == Ok(-8)
    ensures Recombine(true, -92233720368547758, -8, 2) == Int64.MIN
  {
    SmallPowers();
    Int64.DivModIsUnique(0x8000_0000_0000_0000, 100, 92233720368547758, 8);
    ParseIntOfNegative(Int64.Div(0x8000_0000_0000_0000, Pow10(2)));
    ParseIntOfNegative(8);
    assert "-" + Digits(8) == "-8" == "-8" + Zeros(0);
    Int64.WrapIsUnique(-Int64.MIN, Int64.MIN, -1);
  }

  /** Parse undoes Format on every int64 amount of every known currency, the most
    * negative amount alone excepted, and that one only outside two-digit currencies. */
  lemma RoundTrip(table: Exponents, m: Amount)
    requires m.currency in table && Int64.Fits(m.minor)
    ensures Format(table, m).Ok?
    ensures Parse(table, m.currency, Format(table, m).value) == Ok(m)
       <==> m.minor != Int64.MIN || table[m.currency] == 2
  {
    if m.minor == Int64.MIN {
      RoundTripOfMin(table[m.currency]);
    } else if table[m.currency] == 0 {
      RoundTripWhole(m.minor);
    } else {
      RoundTripAboveMin(table[m.currency], m.minor);
    }
  }

  // ---- The same amount in the browser ------------------------------------------------

  const MINUS: char := '\U{2212}'

  /** formatMinorUnits with grouping turned off and a point for the decimal mark.
    * `minorUnits` is the wire text; BigInt drops the leading zeros of the whole part. */
  function FormatMinorUnits(minorUnits: string, exponent: nat): string
    requires minorUnits != "" && AllDigits(TrimPrefix(minorUnits, '-'))
  {
    var negative := minorUnits[0] == '-';
    var body := Group(PadZero(TrimPrefix(minorUnits, '-'), exponent + 1), exponent);
    if negative then [MINUS] + body else body
  }

  function Group(digits: string, exponent: nat): string
    requires AllDigits(digits) && |digits| > exponent
  {
    var cut := |digits| - exponent;
    var grouped := Digits(Value(digits[..cut]));
    if exponent == 0 then grouped else grouped + ("." + digits[cut..])
  }

  lemma SplitOfDigits(n: nat, exp: nat)
    ensures var digits := PadZero(Digits(n), exp + 1);
            var cut := |digits| - exp;
            && Value(digits[..cut]) == Int64.Div(n, Pow10(exp))
            && (exp > 0 ==> digits[cut..] == Fraction(exp, n))
  {
    hide PadZero, Digits, Value, Scale, Pow10, Int64.Div, Int64.Mod, Fraction;
    var digits := PadZero(Digits(n), exp + 1);
    var cut := |digits| - exp;
    ValueOfDigits(n);
    ValueOfPadded(Digits(n), exp + 1);
    assert digits == digits[..cut] + digits[cut..];
    ValueAppend(digits[..cut], digits[cut..]);
    ValueIsBounded(digits[cut..]);
    ScaleIsProduct(Value(digits[..cut]), exp);
    Int64.DivModIsUnique(n, Pow10(exp), Value(digits[..cut]), Value(digits[cut..]));
    if exp > 0 {
      FractionShape(exp, n);
      ValueIsInjective(digits[cut..], Fraction(exp, n));
    }
  }

  /** What the browser shows: the digits of the whole part, a point, the fraction. */
  function Body(exp: nat, size: nat): string {
    if exp == 0 then Digits(size) else Digits(Int64.Div(size, Pow10(exp))) + ("." + Fraction(exp, size))
  }

  lemma ShownText(exp: nat, minor: int)
    ensures FormatInt(minor) != "" && AllDigits(TrimPrefix(FormatInt(minor), '-'))
    ensures var body := Body(exp, if minor < 0 then -minor else minor);
            FormatMinorUnits(FormatInt(minor), exp) == if minor < 0 then [MINUS] + body else body
  {
    var size := if minor < 0 then -minor else minor;
    FormatIntOfNat(size);
    assert TrimPrefix(FormatInt(minor), '-') == Digits(size);
    GroupedDigits(exp, size);
  }

  lemma GroupedDigits(exp: nat, size: nat)
    ensures Group(PadZero(Digits(size), exp + 1), exp) == Body(exp, size)
  {
    hide Value, Digits, PadZero, Int64.Div, Int64.Mod, Fraction, Pow10;
    SplitOfDigits(size, exp);
    if exp == 0 {
      DivByOne(size);
    }
  }

  lemma DivByOne(size: nat)
    ensures Int64.Div(size, Pow10(0)) == size
  {
    hide Int64.Div, Int64.Mod;
    Int64.DivModIsUnique(size, Pow10(0), size, 0);
  }

  /** The browser prints the digits the server prints, with a true minus sign, for every
    * amount except the most negative one at one digit or more; there the server's text
    * has stray signs and the browser's has not. */
  lemma BrowserAgrees(exp: nat, minor: int)
    requires exp <= 4 && Int64.Fits(minor)
    ensures FormatInt(minor) != "" && AllDigits(TrimPrefix(FormatInt(minor), '-'))
    ensures var shown := FormatMinorUnits(FormatInt(minor), exp);
            && shown != ""
            && (minor < 0 <==> shown[0] == MINUS)
            && (FormatAt(exp, minor) == (if minor < 0 then "-" + shown[1..] else shown)
                <==> minor != Int64.MIN || exp == 0)
  {
    var size := if minor < 0 then -minor else minor;
    var body := Body(exp, size);
    ShownText(exp, minor);
    FormatIntOfNat(if exp == 0 then size else Int64.Div(size, Pow10(exp)));
    assert IsDigit(body[0]);
    assert ([MINUS] + body)[1..] == body;
    if exp > 0 && minor != Int64.MIN {
      FormatShape(exp, minor);
    } else if exp > 0 {
      FormatOfMin(exp);
      assert FormatAt(exp, minor)[1] == '-';
      assert ("-" + body)[1] == body[0];
    }
  }
}
