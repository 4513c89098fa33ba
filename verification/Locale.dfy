/** A bank's rendering of a number, turned into the plain decimal Money.Parse takes:
  * thousands grouped by spaces or by one mark, decimals set off by the other. */
module Locale {
  import opened Wrappers
  import opened Text
  import opened Money
  import Int64

  /** The three characters the replacer deletes: no-break space, figure space, space. */
  predicate IsGroupSpace(c: char) {
    c == '\U{00A0}' || c == '\U{2007}' || c == ' '
  }

  /** unicode.IsSpace */
  predicate IsSpace(c: char) {
    || '\t' <= c <= '\r' || c == ' ' || c == '\U{0085}' || c == '\U{00A0}' || c == '\U{1680}'
    || '\U{2000}' <= c <= '\U{200A}' || c == '\U{2028}' || c == '\U{2029}' || c == '\U{202F}'
    || c == '\U{205F}' || c == '\U{3000}'
  }

  function TrimSpace(s: string): string {
    if s == "" then ""
    else if IsSpace(s[0]) then TrimSpace(s[1..])
    else if IsSpace(s[|s| - 1]) then TrimSpace(s[..|s| - 1])
    else s
  }

  predicate IsComma(c: char) {
    c == ','
  }

  predicate IsPoint(c: char) {
    c == '.'
  }

  /** The pattern ^\d+(\.\d+)?$ */
  predicate PlainDecimal(s: string) {
    var (whole, frac, hasFrac) := Cut(s, '.');
    whole != "" && AllDigits(whole) && (hasFrac ==> frac != "" && AllDigits(frac))
  }

  /** Whichever mark comes last is the decimal one; the other only groups. */
  function WithPoint(s: string): string {
    var comma, dot := LastIndex(s, ','), LastIndex(s, '.');
    if comma >= 0 && dot >= 0 then
      if comma > dot then Without(s[..comma], IsPoint) + ("." + s[comma + 1..])
      else Without(s[..dot], IsComma) + ("." + s[dot + 1..])
    else if comma >= 0 then s[..comma] + ("." + s[comma + 1..])
    else s
  }

  function DecimalFromLocale(s: string): Result<string, Error> {
    var text := TrimSpace(Without(s, IsGroupSpace));
    if text == "" then Ok("0") else DecimalOfTrimmed(text)
  }

  function DecimalOfTrimmed(text: string): Result<string, Error>
    requires text != ""
  {
    var body := WithPoint(TrimPrefix(TrimPrefix(text, '-'), '+'));
    if !PlainDecimal(body) then Err(NotANumber)
    else Ok(Sign(text[0] == '-') + body)
  }

  function Sign(neg: bool): string {
    if neg then "-" else ""
  }

  function ParseAmount(table: Exponents, currency: string, raw: string): Result<Amount, Error> {
    var decimal :- DecimalFromLocale(raw);
    Parse(table, currency, decimal)
  }

  // ---- What is around the number -----------------------------------------------------------

  /** White space, as unicode.IsSpace lists it. */
  predicate IsBlank(c: char) {
    c in "\t\n\U{000B}\U{000C}\r \U{0085}\U{00A0}\U{1680}\U{2000}\U{2001}\U{2002}\U{2003}\U{2004}\U{2005}\U{2006}"
         + "\U{2007}\U{2008}\U{2009}\U{200A}\U{2028}\U{2029}\U{202F}\U{205F}\U{3000}"
  }

  lemma BlankIsSpace(c: char)
    ensures IsBlank(c) <==> IsSpace(c)
  {
  }

  predicate AllBlank(s: string) {
    forall i :: 0 <= i < |s| ==> IsBlank(s[i])
  }

  lemma {:induction false} TrimLeft(u: string, s: string)
    requires AllBlank(u)
    ensures TrimSpace(u + s) == TrimSpace(s)
  {
    hide IsBlank, IsSpace;
    if u == "" {
      assert u + s == s;
    } else {
      BlankIsSpace(u[0]);
      assert (u + s)[0] == u[0] && (u + s)[1..] == u[1..] + s;
      TrimLeft(u[1..], s);
    }
  }

  lemma {:induction false} TrimRight(s: string, v: string)
    requires AllBlank(v)
    ensures TrimSpace(s + v) == TrimSpace(s)
    decreases |s| + |v|
  {
    hide IsBlank, IsSpace;
    if v == "" {
      assert s + v == s;
    } else if s == "" {
      assert s + v == v + "";
      TrimLeft(v, "");
    } else if IsSpace(s[0]) {
      assert (s + v)[0] == s[0] && (s + v)[1..] == s[1..] + v;
      TrimRight(s[1..], v);
    } else {
      var n := |v| - 1;
      BlankIsSpace(v[n]);
      assert (s + v)[0] == s[0] && (s + v)[|s| + n] == v[n] && (s + v)[..|s| + n] == s + v[..n];
      TrimRight(s, v[..n]);
    }
  }

  lemma {:induction false} BlankWithout(s: string)
    requires AllBlank(s)
    ensures AllBlank(Without(s, IsGroupSpace))
  {
    hide IsBlank, IsGroupSpace;
    if s != "" {
      BlankWithout(s[1..]);
    }
  }

  /** White space around an amount does not matter, and where there is nothing else the amount is
    * nothing. */
  lemma BlanksDoNotMatter(u: string, s: string, v: string)
    requires AllBlank(u) && AllBlank(v)
    ensures DecimalFromLocale(u + s + v) == DecimalFromLocale(s)
    ensures DecimalFromLocale(u + v) == Ok("0")
  {
    hide TrimSpace, DecimalOfTrimmed, AllBlank, IsGroupSpace;
    WithoutAppend(u + s, v, IsGroupSpace);
    WithoutAppend(u, s, IsGroupSpace);
    WithoutAppend(u, v, IsGroupSpace);
    BlankWithout(u);
    BlankWithout(v);
    TrimRight(Without(u, IsGroupSpace) + Without(s, IsGroupSpace), Without(v, IsGroupSpace));
    TrimLeft(Without(u, IsGroupSpace), Without(s, IsGroupSpace));
    TrimLeft(Without(u, IsGroupSpace), Without(v, IsGroupSpace));
    NothingLeft(Without(v, IsGroupSpace));
  }

  lemma NothingLeft(v: string)
    requires AllBlank(v)
    ensures TrimSpace(v) == ""
  {
    hide AllBlank;
    TrimRight("", v);
    assert "" + v == v;
  }

  /** A plus before a number does not matter either. */
  lemma PlusDoesNotMatter(s: string)
    requires s != "" && s[0] in "0123456789,."
    ensures DecimalFromLocale("+" + s) == DecimalFromLocale(s)
  {
    hide WithPoint, PlainDecimal;
    WithoutAppend("+", s, IsGroupSpace);
    WithoutNothing("+", IsGroupSpace);
    var t := Without(s, IsGroupSpace);
    assert t[0] == s[0];
    PlusTrims(t);
  }

  lemma {:induction false} PlusTrims(t: string)
    requires t != "" && t[0] in "0123456789,."
    ensures TrimSpace("+" + t) == "+" + TrimSpace(t)
    ensures TrimSpace(t) != "" && TrimSpace(t)[0] == t[0]
    decreases |t|
  {
    var n := |t| - 1;
    assert ("+" + t)[0] == '+' && ("+" + t)[n + 1] == t[n];
    if IsSpace(t[n]) {
      assert ("+" + t)[..n + 1] == "+" + t[..n];
      PlusTrims(t[..n]);
    }
  }

  // ---- Grouped amounts with a decimal mark ---------------------------------------------

  predicate IsMark(c: char) {
    c == ',' || c == '.'
  }

  function OtherMark(mark: char): char {
    if mark == ',' then '.' else ','
  }

  /** What groups thousands when `mark` sets off the decimals. */
  function Grouping(mark: char): char -> bool {
    if mark == ',' then IsPoint else IsComma
  }

  /** Digits, with group spaces and grouping marks anywhere among them. */
  predicate Grouped(w: string, group: char) {
    forall i :: 0 <= i < |w| ==> IsDigit(w[i]) || w[i] in " \U{00A0}\U{2007}" || w[i] == group
  }

  /** Grouped text without its separators. */
  function Ungrouped(w: string): (d: string)
    ensures AllDigits(d)
  {
    Without(w, c => !IsDigit(c))
  }

  lemma {:induction false} DropTwice(w: string, mark: char)
    requires Grouped(w, OtherMark(mark)) && IsMark(mark)
    ensures Without(Without(w, IsGroupSpace), Grouping(mark)) == Ungrouped(w)
    ensures Tight(Without(w, IsGroupSpace), mark)
  {
    if w != "" {
      DropTwice(w[1..], mark);
    }
  }

  /** Digits and grouping marks, no spaces. */
  predicate Tight(w: string, mark: char) {
    forall i :: 0 <= i < |w| ==> IsDigit(w[i]) || w[i] == OtherMark(mark)
  }

  lemma NoTrim(s: string)
    requires s == "" || (!IsSpace(s[0]) && !IsSpace(s[|s| - 1]))
    ensures TrimSpace(s) == s
  {
  }

  lemma {:induction false} LastIndexIs(a: string, c: char, b: string)
    requires c !in b
    ensures LastIndex(a + [c] + b, c) == |a|
  {
    var s := a + [c] + b;
    if b == "" {
      assert s[|s| - 1] == c;
    } else {
      assert s[..|s| - 1] == a + [c] + b[..|b| - 1];
      LastIndexIs(a, c, b[..|b| - 1]);
    }
  }

  lemma LastIndexBefore(a: string, c: char, b: string)
    requires c !in b
    ensures LastIndex(a + b, c) < |a|
  {
    assert forall k :: |a| <= k < |a + b| ==> (a + b)[k] == b[k - |a|];
  }

  /** The mark survives as the point, the grouping does not survive at all. */
  lemma WithPointOfMarked(w: string, mark: char, frac: string)
    requires IsMark(mark) && AllDigits(frac) && Tight(w, mark)
    ensures WithPoint(w + [mark] + frac) == Without(w, Grouping(mark)) + ("." + frac)
  {
    var s := w + [mark] + frac;
    LastIndexIs(w, mark, frac);
    assert w + [mark] + frac == w + ([mark] + frac);
    LastIndexBefore(w, OtherMark(mark), [mark] + frac);
    assert s[..|w|] == w && s[|w| + 1..] == frac;
    if LastIndex(s, OtherMark(mark)) < 0 {
      assert forall i :: 0 <= i < |w| ==> w[i] == s[i];
      WithoutNothing(w, Grouping(mark));
      assert s == w + ([mark] + frac);
    }
  }

  lemma PlainDecimalOf(whole: string, frac: string)
    requires AllDigits(whole) && whole != "" && AllDigits(frac) && frac != ""
    ensures PlainDecimal(whole + ("." + frac))
  {
    assert whole + ("." + frac) == whole + ['.'] + frac;
    CutAtFirst(whole, '.', frac);
  }

  /** Spaces go, wherever they stand. */
  lemma WithoutSpaces(neg: bool, w: string, mark: char, frac: string)
    requires IsMark(mark) && AllDigits(frac)
    ensures Without(Sign(neg) + (w + [mark] + frac), IsGroupSpace)
         == Sign(neg) + (Without(w, IsGroupSpace) + [mark] + frac)
  {
    WithoutAppend(Sign(neg), w + [mark] + frac, IsGroupSpace);
    WithoutNothing(Sign(neg), IsGroupSpace);
    WithoutAppend(w + [mark], frac, IsGroupSpace);
    WithoutAppend(w, [mark], IsGroupSpace);
    WithoutNothing([mark], IsGroupSpace);
    WithoutNothing(frac, IsGroupSpace);
  }

  /** However the thousands are grouped and whichever mark is the decimal one, the
    * decimal text has the same digits, in the same order, around the point. */
  lemma MarkedAmount(neg: bool, w: string, mark: char, frac: string)
    requires IsMark(mark) && Grouped(w, OtherMark(mark)) && Ungrouped(w) != ""
    requires AllDigits(frac) && frac != ""
    ensures DecimalFromLocale(Sign(neg) + (w + [mark] + frac)) == Ok(Join(neg, Ungrouped(w), frac))
  {
    DropTwice(w, mark);
    WithoutSpaces(neg, w, mark, frac);
    TightAmount(neg, Without(w, IsGroupSpace), mark, frac);
  }

  lemma TightAmount(neg: bool, w: string, mark: char, frac: string)
    requires IsMark(mark) && Tight(w, mark) && Without(w, Grouping(mark)) != ""
    requires AllDigits(Without(w, Grouping(mark))) && AllDigits(frac) && frac != ""
    ensures var text := Sign(neg) + (w + [mark] + frac);
            && TrimSpace(text) == text
            && DecimalOfTrimmed(text) == Ok(Join(neg, Without(w, Grouping(mark)), frac))
  {
    var rest := w + [mark] + frac;
    assert rest[0] == if w == "" then mark else w[0];
    SignComesOff(neg, rest);
    WithPointOfMarked(w, mark, frac);
    PlainDecimalOf(Without(w, Grouping(mark)), frac);
  }

  lemma SignComesOff(neg: bool, rest: string)
    requires rest != "" && (IsDigit(rest[0]) || IsMark(rest[0]))
             && (IsDigit(rest[|rest| - 1]) || IsMark(rest[|rest| - 1]))
    ensures var text := Sign(neg) + rest;
            && TrimSpace(text) == text
            && (text[0] == '-') == neg
            && TrimPrefix(TrimPrefix(text, '-'), '+') == rest
  {
    var text := Sign(neg) + rest;
    NoTrim(text);
    assert neg ==> text[1..] == rest;
    assert !neg ==> text == rest;
  }

  /** The exact size of a grouped amount in minor units. */
  function Size(exp: nat, w: string, frac: string): int
    requires AllDigits(frac) && |frac| <= exp
  {
    assert AllDigits(frac + Zeros(exp - |frac|));
    Scale(Value(Ungrouped(w)), exp) + Value(frac + Zeros(exp - |frac|))
  }

  lemma ParseOfGrouped(exp: nat, neg: bool, w: string, frac: string)
    requires exp <= 4 && Ungrouped(w) != "" && Value(Ungrouped(w)) <= Int64.MAX
    requires AllDigits(frac) && 0 < |frac| <= exp
    ensures ParseAt(exp, Join(neg, Ungrouped(w), frac)) == Ok(NegateIf(neg, Int64.Wrap(Size(exp, w, frac))))
  {
    var whole := Ungrouped(w);
    ParseIntOfDigits(whole);
    ParsePaddedFraction(exp, frac);
    ParseOfJoin(exp, neg, whole, frac, Value(whole), Value(frac + Zeros(exp - |frac|)), Size(exp, w, frac));
  }

  lemma NegatedWrap(neg: bool, size: int)
    ensures NegateIf(neg, Int64.Wrap(size)) == Int64.Wrap(if neg then -size else size)
  {
    Int64.WrapNegate(size);
  }

  /** ParseAmount recovers the amount from any grouping with either decimal mark exactly
    * when that amount is an int64; one minor unit further and it wraps, without an error. */
  lemma AmountRecovered(table: Exponents, currency: string, neg: bool, w: string, mark: char, frac: string)
    requires currency in table && IsMark(mark) && Grouped(w, OtherMark(mark))
    requires Ungrouped(w) != "" && Value(Ungrouped(w)) <= Int64.MAX
    requires AllDigits(frac) && 0 < |frac| <= table[currency]
    ensures
      var amount := ParseAmount(table, currency, Sign(neg) + (w + [mark] + frac));
      var size := Size(table[currency], w, frac);
      var units := if neg then -size else size;
      && amount == Ok(Amount(currency, Int64.Wrap(units)))
      && (amount == Ok(Amount(currency, units)) <==> Int64.Fits(units))
  {
    hide DecimalFromLocale, ParseAt, Size, Int64.Wrap, Ungrouped, Grouped, Sign, NegateIf, Join, Value, AllDigits;
    MarkedAmount(neg, w, mark, frac);
    ParseOfGrouped(table[currency], neg, w, frac);
    NegatedWrap(neg, Size(table[currency], w, frac));
  }

  /** Anything longer than the currency or int64 holds is refused, never shortened: in a
    * currency without minor digits, everything with a decimal mark. */
  lemma AmountRefused(table: Exponents, currency: string, neg: bool, w: string, mark: char, frac: string)
    requires currency in table && IsMark(mark) && Grouped(w, OtherMark(mark))
    requires Ungrouped(w) != "" && AllDigits(frac) && frac != ""
    requires Value(Ungrouped(w)) > Int64.MAX || |frac| > table[currency]
    ensures ParseAmount(table, currency, Sign(neg) + (w + [mark] + frac)).Err?
  {
    hide DecimalFromLocale, ParseParts, Ungrouped, Grouped, Sign, Join, Value, IsMark;
    MarkedAmount(neg, w, mark, frac);
    var whole := Ungrouped(w);
    NoPointInDigits(whole);
    NoPointInDigits(frac);
    CutOfJoin(neg, whole, frac);
    PartsRefused(table[currency], neg, whole, frac);
  }

  lemma NoPointInDigits(s: string)
    requires AllDigits(s)
    ensures '.' !in s && (s == "" || s[0] != '-')
  {
  }

  lemma PartsRefused(exp: nat, neg: bool, whole: string, frac: string)
    requires whole != "" && AllDigits(whole) && frac != ""
    requires Value(whole) > Int64.MAX || |frac| > exp
    ensures ParseParts(exp, neg, whole, frac, true).Err?
  {
    ParseIntOfDigits(whole);
  }

  // ---- Grouped amounts without one -------------------------------------------------------

  predicate HasMark(w: string) {
    exists i :: 0 <= i < |w| && IsMark(w[i])
  }

  lemma HasMarkStep(c: char, w: string)
    ensures HasMark([c] + w) <==> IsMark(c) || HasMark(w)
  {
    hide IsMark;
    var s := [c] + w;
    assert s[0] == c && forall i :: 0 <= i < |w| ==> s[i + 1] == w[i];
    if HasMark(w) {
      var i :| 0 <= i < |w| && IsMark(w[i]);
      assert IsMark(s[i + 1]);
    }
    if IsMark(c) {
      assert IsMark(s[0]);
    }
  }

  lemma {:induction false} DropAll(w: string)
    requires forall i :: 0 <= i < |w| ==> IsDigit(w[i]) || IsGroupSpace(w[i]) || IsMark(w[i])
    ensures
      var t := Without(w, IsGroupSpace);
      && (forall i :: 0 <= i < |t| ==> IsDigit(t[i]) || IsMark(t[i]))
      && (HasMark(t) <==> HasMark(w))
      && (!HasMark(w) ==> t == Ungrouped(w))
  {
    hide HasMark;
    if w == "" {
      NoMarkInNothing();
    } else {
      DropAll(w[1..]);
      assert w == [w[0]] + w[1..];
      HasMarkStep(w[0], w[1..]);
      HasMarkStep(w[0], Without(w[1..], IsGroupSpace));
    }
  }

  lemma NoMarkInNothing()
    ensures !HasMark("")
  {
  }

  lemma PointStays(s: string, i: nat)
    requires i < |s| && IsMark(s[i])
    ensures '.' in WithPoint(s)
  {
    var comma, dot := LastIndex(s, ','), LastIndex(s, '.');
    if comma >= 0 && dot >= 0 {
      if comma > dot {
        assert WithPoint(s)[|Without(s[..comma], IsPoint)|] == '.';
      } else {
        assert WithPoint(s)[|Without(s[..dot], IsComma)|] == '.';
      }
    } else if comma >= 0 {
      assert WithPoint(s)[comma] == '.';
    } else {
      assert s[dot] == '.';
    }
  }

  lemma NoMarkToMove(s: string)
    requires !HasMark(s)
    ensures WithPoint(s) == s && '.' !in s
  {
    var comma, dot := LastIndex(s, ','), LastIndex(s, '.');
    assert comma >= 0 ==> IsMark(s[comma]);
    assert dot >= 0 ==> IsMark(s[dot]);
    assert forall i :: 0 <= i < |s| ==> !IsMark(s[i]);
  }

  /** Text of digits and marks alone reaches the pattern as it is, less its sign. */
  lemma NothingTrimmed(neg: bool, text: string)
    requires text != "" && forall i :: 0 <= i < |text| ==> IsDigit(text[i]) || IsMark(text[i])
    ensures
      var signed := Sign(neg) + text;
      && TrimSpace(signed) == signed && (signed[0] == '-') == neg
      && TrimPrefix(TrimPrefix(signed, '-'), '+') == text
  {
    hide TrimSpace;
    SignComesOff(neg, text);
  }

  /** Whole units written without a decimal mark are read as whole units exactly when
    * only spaces group them; a grouping mark is taken for the decimal one or refused. */
  lemma UnmarkedAmount(neg: bool, w: string)
    requires forall i :: 0 <= i < |w| ==> IsDigit(w[i]) || IsGroupSpace(w[i]) || IsMark(w[i])
    requires Ungrouped(w) != ""
    ensures DecimalFromLocale(Sign(neg) + w) == Ok(Sign(neg) + Ungrouped(w)) <==> !HasMark(w)
  {
    hide HasMark, TrimSpace, WithPoint, Without, Ungrouped, Cut, TrimPrefix, IsMark, IsGroupSpace;
    DropAll(w);
    var text := Without(w, IsGroupSpace);
    WithoutAppend(Sign(neg), w, IsGroupSpace);
    SignIsNoSpace(neg);
    SomethingLeft(w);
    NothingTrimmed(neg, text);
    if HasMark(w) {
      MarkedIsNoNumber(text, Ungrouped(w));
      assert Sign(neg) + WithPoint(text) == Sign(neg) + Ungrouped(w) ==> WithPoint(text) == Ungrouped(w) by {
        assert (Sign(neg) + WithPoint(text))[|Sign(neg)|..] == WithPoint(text);
        assert (Sign(neg) + Ungrouped(w))[|Sign(neg)|..] == Ungrouped(w);
      }
    } else {
      NoMarkToMove(text);
      CutAbsent(text, '.');
    }
  }

  lemma SignIsNoSpace(neg: bool)
    ensures Without(Sign(neg), IsGroupSpace) == Sign(neg)
  {
    WithoutNothing(Sign(neg), IsGroupSpace);
  }

  /** Where there are digits, the spaces are not all there is. */
  lemma {:induction false} SomethingLeft(w: string)
    requires Ungrouped(w) != ""
    ensures Without(w, IsGroupSpace) != ""
  {
    if w != "" {
      if Ungrouped(w[1..]) != "" {
        SomethingLeft(w[1..]);
      }
    }
  }

  /** And are an amount of that many units: exactly when int64 holds it in minor units; refused
    * when int64 does not hold the units themselves. */
  lemma WholeAmount(table: Exponents, currency: string, neg: bool, w: string)
    requires currency in table && table[currency] <= 4 && Ungrouped(w) != "" && !HasMark(w)
    requires forall i :: 0 <= i < |w| ==> IsDigit(w[i]) || IsGroupSpace(w[i]) || IsMark(w[i])
    ensures
      var amount := ParseAmount(table, currency, Sign(neg) + w);
      var n := Value(Ungrouped(w));
      var units := if neg then -Scale(n, table[currency]) else Scale(n, table[currency]);
      && (n > Int64.MAX ==> amount.Err?)
      && (n <= Int64.MAX ==>
            && amount == Ok(Amount(currency, Int64.Wrap(units)))
            && (amount == Ok(Amount(currency, units)) <==> Int64.Fits(units)))
  {
    hide DecimalFromLocale, ParseParts, Int64.Wrap, Ungrouped, HasMark, NegateIf, Value, Scale, Cut, TrimPrefix;
    var whole, exp := Ungrouped(w), table[currency];
    UnmarkedAmount(neg, w);
    CutOfWhole(neg, whole);
    WholeParts(exp, neg, whole);
  }

  lemma CutOfWhole(neg: bool, whole: string)
    requires AllDigits(whole) && whole != ""
    ensures
      var s := Sign(neg) + whole;
      && (s != "" && s[0] == '-') == neg && Cut(TrimPrefix(s, '-'), '.') == (whole, "", false)
  {
    CutAbsent(whole, '.');
    assert neg ==> (Sign(neg) + whole)[1..] == whole;
    assert !neg ==> Sign(neg) + whole == whole;
  }

  lemma WholeParts(exp: nat, neg: bool, whole: string)
    requires exp <= 4 && AllDigits(whole) && whole != ""
    ensures
      var n := Value(whole);
      ParseParts(exp, neg, whole, "", false)
      == if n > Int64.MAX then Err(NotANumber) else Ok(Int64.Wrap(if neg then -Scale(n, exp) else Scale(n, exp)))
  {
    hide Int64.Wrap, NegateIf, Value, ParseInt;
    ParseIntOfDigits(whole);
    NegatedWrap(neg, Scale(Value(whole), exp));
    if exp == 0 {
      WholeFits(Value(whole));
    } else {
      ParsePaddedFraction(exp, "");
      assert "" + Zeros(exp) == Zeros(exp);
      ValueOfZeros(exp);
      RecombineOnce(neg, Value(whole), 0, exp, Scale(Value(whole), exp));
    }
  }

  lemma WholeFits(n: nat)
    ensures Scale(n, 0) == n
    ensures n <= Int64.MAX ==> Int64.Wrap(n) == n
  {
  }

  lemma MarkedIsNoNumber(text: string, digits: string)
    requires HasMark(text) && AllDigits(digits)
    ensures WithPoint(text) != digits
  {
    hide WithPoint;
    var i :| 0 <= i < |text| && IsMark(text[i]);
    PointStays(text, i);
    assert '.' !in digits;
  }

  /** "1,234" of a three-digit currency comes out a thousand times too small. */
  lemma GroupingReadAsFraction(table: Exponents)
    requires "KWD" in table && table["KWD"] == 3
    ensures ParseAmount(table, "KWD", "1,234") == Ok(Amount("KWD", 1234))
  {
    ValueOf234();
    SizeOf1234();
    assert Sign(false) + ("1" + [','] + "234") == "1,234";
    AmountRecovered(table, "KWD", false, "1", ',', "234");
  }

  lemma ValueOf234()
    ensures Value("234") == 234
  {
    assert "234"[..2] == "23" && "23"[..1] == "2";
    assert Value("2") == 2;
    assert Value("23") == 23;
  }

  lemma SizeOf1234()
    requires Value("234") == 234
    ensures Ungrouped("1") == "1" && Value("1") == 1
    ensures Size(3, "1", "234") == 1234
  {
    assert "234" + Zeros(0) == "234";
    assert Ungrouped("1") == "1" && Value("1") == 1;
    assert Scale(1, 1) == 10;
    assert Scale(1, 2) == 100;
  }
}
