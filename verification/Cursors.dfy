/** The text of a drill-down's cursor: a date and an id, or nothing at all. */
module Cursors {
  import opened Wrappers
  import opened Text
  import opened Calendar
  import PeriodColumns

  datatype Error = NotACursor

  /** A position in a drill-down. */
  datatype Cursor = Cursor(bookedOn: Date, id: string)

  /** The canonical text of a UUID (section 4 of RFC 9562), in lower case. */
  predicate IsUuid(s: string) {
    && |s| == 36
    && forall i :: 0 <= i < 36 ==> if i in {8, 13, 18, 23} then s[i] == '-' else IsDigit(s[i]) || 'a' <= s[i] <= 'f'
  }

  predicate IsHex(c: char) {
    IsDigit(c) || 'a' <= c <= 'f' || 'A' <= c <= 'F'
  }

  function LowerHex(c: char): (r: char)
    requires IsHex(c)
    ensures IsDigit(r) || 'a' <= r <= 'f'
    ensures r == c <==> !('A' <= c <= 'F')
  {
    if 'A' <= c <= 'F' then c - 'A' + 'a' else c
  }

  /** Five groups of digits, in either case. */
  predicate IsGrouped(s: string) {
    |s| == 36 && forall i :: 0 <= i < 36 ==> if i in {8, 13, 18, 23} then s[i] == '-' else IsHex(s[i])
  }

  function Canonical(s: string): (id: string)
    requires IsGrouped(s)
    ensures IsUuid(id)
  {
    seq(36, i requires 0 <= i < 36 => if i in {8, 13, 18, 23} then '-' else LowerHex(s[i]))
  }

  /** The digits alone, put in groups. */
  function Grouped(s: string): (t: string)
    requires |s| == 32
    ensures |t| == 36
  {
    s[..8] + ['-'] + s[8..12] + ['-'] + s[12..16] + ['-'] + s[16..20] + ['-'] + s[20..]
  }

  const URN := "urn:uuid:"

  predicate IsUrn(s: string) {
    && |s| == 9
    && forall i :: 0 <= i < 9 ==> s[i] == URN[i] || ('a' <= URN[i] <= 'z' && s[i] == URN[i] - 'a' + 'A')
  }

  /** uuid.Parse: grouped digits in either case, bare, as a URN, or between two characters
    * that are taken for braces; or the digits alone. The id it reads, in canonical text. */
  function ParseUuid(s: string): (r: Option<string>)
    ensures r.Some? ==> IsUuid(r.value)
  {
    var t :=
      if |s| == 45 && IsUrn(s[..9]) then s[9..]
      else if |s| == 38 then s[1..37]
      else if |s| == 32 then Grouped(s)
      else s;
    if IsGrouped(t) then Some(Canonical(t)) else None
  }

  const NIL: string := "00000000-0000-0000-0000-000000000000"

  /** The start of the list: the zero time and the nil id. */
  const START: Cursor := Cursor(Date(1, 1, 1), NIL)

  /** Format("2006-01-02") */
  function DateText(d: Date): string {
    PadZero(Digits(d.year), 4) + ("-" + PadZero(Digits(d.month), 2)) + ("-" + PadZero(Digits(d.day), 2))
  }

  /** time.Parse("2006-01-02", s) */
  function ParseDate(s: string): Result<Date, Error> {
    if && |s| == 10 && AllDigits(s[..4]) && s[4] == '-' && AllDigits(s[5..7]) && s[7] == '-' && AllDigits(s[8..])
       && Date(Value(s[..4]), Value(s[5..7]), Value(s[8..])).Valid()
    then Ok(Date(Value(s[..4]), Value(s[5..7]), Value(s[8..])))
    else Err(NotACursor)
  }

  function CursorText(c: Cursor): string {
    if c.id == NIL then "" else DateText(c.bookedOn) + [':'] + c.id
  }

  function ParseCursor(s: string): Result<Cursor, Error> {
    if s == "" then Ok(START)
    else
      var (date, id, found) := Cut(s, ':');
      if !found then Err(NotACursor)
      else
        var on :- ParseDate(date);
        match ParseUuid(id)
        case Some(canonical) => Ok(Cursor(on, canonical))
        case None => Err(NotACursor)
  }

  lemma DateParts(y: string, m: string, d: string)
    requires |y| == 4 && |m| == 2 && |d| == 2
    ensures var s := y + ("-" + m) + ("-" + d);
            && |s| == 10 && s[..4] == y && s[4] == '-' && s[5..7] == m && s[7] == '-' && s[8..] == d
  {
    var s := y + ("-" + m) + ("-" + d);
    assert s[5..7] == m;
    assert s[8..] == d;
  }

  lemma DateRoundTrip(d: Date)
    requires d.Valid() && d.year < 10000
    ensures ParseDate(DateText(d)) == Ok(d)
    ensures ':' !in DateText(d)
  {
    hide Value, Digits, PadZero, DaysIn;
    assert d.day < 100;
    PeriodColumns.FourDigits(d.year);
    PeriodColumns.TwoDigits(d.month);
    PeriodColumns.TwoDigits(d.day);
    DateParts(PadZero(Digits(d.year), 4), PadZero(Digits(d.month), 2), PadZero(Digits(d.day), 2));
  }

  lemma DateTextOfParse(s: string)
    requires ParseDate(s).Ok?
    ensures DateText(ParseDate(s).value) == s && ':' !in s
  {
    hide Value, Digits, PadZero, DaysIn;
    PeriodColumns.FourDigitsBack(s[..4]);
    PeriodColumns.TwoDigitsBack(s[5..7]);
    PeriodColumns.TwoDigitsBack(s[8..]);
    assert s == s[..4] + ("-" + s[5..7]) + ("-" + s[8..]);
  }

  /** The texts read as a day are the texts of the days there are, in years of four digits. */
  lemma DatesAreRead(s: string, d: Date)
    ensures ParseDate(s) == Ok(d) <==> d.Valid() && d.year < 10000 && DateText(d) == s
  {
    hide DateText, Value, DaysIn, Digits, PadZero;
    if ParseDate(s) == Ok(d) {
      DateTextOfParse(s);
      ValueIsBounded(s[..4]);
      FourDigitsBound();
    }
    if d.Valid() && d.year < 10000 && DateText(d) == s {
      DateRoundTrip(d);
    }
  }

  lemma FourDigitsBound()
    ensures Pow10(4) == 10000
  {
    assert Pow10(4) == 10 * Pow10(3) == 100 * Pow10(2) == 1000 * Pow10(1) == 10000;
  }

  /** The same hexadecimal digits in the same places, in either case. */
  predicate SameHex(s: string, id: string) {
    |s| == |id| && forall i :: 0 <= i < |s| ==>
                                 s[i] == id[i] || ('a' <= id[i] <= 'f' && s[i] as int == id[i] as int - 32)
  }

  /** The texts read as an id: its own, in either case; that behind the name of the scheme, in
    * either case; that between any two characters; or its digits alone. */
  lemma IdsAreRead(s: string, id: string)
    ensures ParseUuid(s) == Some(id)
       <==> IsUuid(id)
            && (SameHex(s, id)
                || (|s| == 45 && SameScheme(s[..9]) && SameHex(s[9..], id))
                || (|s| == 38 && SameHex(s[1..37], id))
                || (|s| == 32
                    && SameHex(s[..8] + "-" + s[8..12] + "-" + s[12..16] + "-" + s[16..20] + "-" + s[20..], id)))
  {
    hide IsGrouped, Canonical, IsUuid, SameHex;
    if |s| == 45 {
      SchemeIs(s[..9]);
      ReadsAs(s[9..], id);
      WrongLength(s, id);
    } else if |s| == 38 {
      ReadsAs(s[1..37], id);
      WrongLength(s, id);
    } else if |s| == 32 {
      assert Grouped(s) == s[..8] + "-" + s[8..12] + "-" + s[12..16] + "-" + s[16..20] + "-" + s[20..];
      ReadsAs(Grouped(s), id);
      WrongLength(s, id);
    } else {
      ReadsAs(s, id);
    }
  }

  /** "urn:uuid:", each letter in either case. */
  predicate SameScheme(s: string) {
    && |s| == 9 && s[0] in "uU" && s[1] in "rR" && s[2] in "nN" && s[3] == ':'
    && s[4] in "uU" && s[5] in "uU" && s[6] in "iI" && s[7] in "dD" && s[8] == ':'
  }

  lemma SchemeIs(s: string)
    requires |s| == 9
    ensures IsUrn(s) <==> SameScheme(s)
  {
    assert URN[0] == 'u' && URN[1] == 'r' && URN[2] == 'n' && URN[3] == ':' && URN[4] == 'u';
    assert URN[5] == 'u' && URN[6] == 'i' && URN[7] == 'd' && URN[8] == ':';
    if IsUrn(s) {
      assert s[0] in "uU" && s[1] in "rR" && s[2] in "nN" && s[3] == ':' && s[4] in "uU";
      assert s[5] in "uU" && s[6] in "iI" && s[7] in "dD" && s[8] == ':';
    }
  }

  lemma WrongLength(s: string, id: string)
    requires |s| != 36
    ensures !IsGrouped(s) && (IsUuid(id) ==> !SameHex(s, id))
  {
  }

  lemma ReadsAs(t: string, id: string)
    ensures IsGrouped(t) && Canonical(t) == id <==> IsUuid(id) && SameHex(t, id)
  {
    if IsUuid(id) && SameHex(t, id) {
      assert IsGrouped(t);
      assert Canonical(t) == id;
    }
  }

  /** A year past 9999 prints longer than a cursor's date may be. */
  lemma LongDate(d: Date)
    requires d.year >= 10000
    ensures |DateText(d)| > 10 && ':' !in DateText(d)
  {
    hide Value, DaysIn, Digits;
    assert Pow10(4) == 10 * Pow10(3) == 100 * Pow10(2) == 1000 * Pow10(1) == 10000;
    DigitsNeed(d.year, 4);
  }

  /** Of the texts an id may have, its canonical one alone is the id it reads as. */
  lemma CanonicalIsFixed(s: string)
    ensures ParseUuid(s) == Some(s) <==> IsUuid(s)
  {
    if IsUuid(s) {
      assert IsGrouped(s);
      assert Canonical(s) == s;
    }
  }

  /** A cursor's text reads back exactly for years of four digits, unless the id is nil:
    * a nil id prints as nothing, and nothing reads back as the start of the list. */
  lemma RoundTrip(c: Cursor)
    requires c.bookedOn.Valid() && IsUuid(c.id)
    ensures ParseCursor(CursorText(c)) == Ok(c) <==> c == START || (c.id != NIL && c.bookedOn.year < 10000)
  {
    hide DateText, ParseDate, DaysIn, NIL, IsUuid, ParseUuid;
    CanonicalIsFixed(c.id);
    if c.id != NIL {
      if c.bookedOn.year < 10000 {
        DateRoundTrip(c.bookedOn);
      } else {
        LongDate(c.bookedOn);
        TooLong(DateText(c.bookedOn));
      }
      CutAtFirst(DateText(c.bookedOn), ':', c.id);
      assert START.id == NIL;
    }
  }

  lemma TooLong(s: string)
    requires |s| > 10
    ensures ParseDate(s).Err?
  {
  }

  lemma {:induction false} CutGivesParts(s: string, c: char)
    ensures var (a, b, found) := Cut(s, c); found ==> s == a + [c] + b
  {
    if s != "" {
      CutGivesParts(s[1..], c);
      if s[0] != c {
        var rest := Cut(s[1..], c);
        if rest.2 {
          assert s == [s[0]] + s[1..] == ([s[0]] + rest.0) + [c] + rest.1;
        }
      }
    }
  }

  /** What parses reads as a place whose text is the same date and the canonical id; the two
    * texts are one exactly when the id was canonical, and not nil. */
  lemma TextOfParse(s: string)
    requires s != "" && ParseCursor(s).Ok?
    ensures
      var (date, id, _) := Cut(s, ':');
      var text := CursorText(ParseCursor(s).value);
      && ParseUuid(id).Some?
      && text == (if ParseUuid(id).value == NIL then "" else date + [':'] + ParseUuid(id).value)
      && (text == s <==> IsUuid(id) && id != NIL)
  {
    hide DateText, ParseDate, IsUuid, NIL, ParseUuid;
      var (date, id, found) := Cut(s, ':');
    CutGivesParts(s, ':');
    DateTextOfParse(date);
    CanonicalIsFixed(id);
    var canonical := ParseUuid(id).value;
    assert (date + [':'] + canonical)[|date| + 1..] == canonical;
    assert s[|date| + 1..] == id;
  }

  /** Two texts read as one place exactly when they have one date and ids of one canonical
    * text. */
  lemma SamePlace(s: string, t: string)
    requires s != "" && t != "" && ParseCursor(s).Ok? && ParseCursor(t).Ok?
    ensures ParseCursor(s) == ParseCursor(t)
       <==> Cut(s, ':').0 == Cut(t, ':').0 && ParseUuid(Cut(s, ':').1) == ParseUuid(Cut(t, ':').1)
  {
    hide DateText, ParseDate, IsUuid, NIL, ParseUuid;
    DateTextOfParse(Cut(s, ':').0);
    DateTextOfParse(Cut(t, ':').0);
  }

  function Capitals(id: string): (s: string)
    ensures |s| == |id|
  {
    seq(|id|, i requires 0 <= i < |id| => if 'a' <= id[i] <= 'f' then id[i] - 'a' + 'A' else id[i])
  }

  /** An id may be written in capitals, as a URN or in braces, and is read all the same. */
  lemma OtherSpellings(id: string)
    requires IsUuid(id)
    ensures ParseUuid(Capitals(id)) == Some(id)
    ensures ParseUuid(URN + id) == Some(id)
    ensures ParseUuid("{" + id + "}") == Some(id)
  {
    SameInCapitals(id);
    assert IsUrn((URN + id)[..9]) && (URN + id)[9..] == id;
    assert ("{" + id + "}")[1..37] == id;
    CanonicalIsFixed(id);
    hide IsGrouped, Canonical, Capitals;
  }

  lemma SameInCapitals(id: string)
    requires IsUuid(id)
    ensures IsGrouped(Capitals(id)) && Canonical(Capitals(id)) == id
    ensures IsGrouped(id) && Canonical(id) == id
  {
  }

  /** So a cursor written in capitals is understood, and answered in small letters: another
    * text, wherever the id has a letter. */
  lemma CapitalsAreRead(c: Cursor)
    requires c.bookedOn.Valid() && c.bookedOn.year < 10000 && IsUuid(c.id) && c.id != NIL
    ensures
      var s := DateText(c.bookedOn) + [':'] + Capitals(c.id);
      && ParseCursor(s) == Ok(c)
      && (CursorText(c) == s <==> forall i :: 0 <= i < 36 ==> !('a' <= c.id[i] <= 'f'))
  {
    hide DateText, ParseDate, DaysIn, NIL, ParseUuid;
    var date, capitals := DateText(c.bookedOn), Capitals(c.id);
    DateRoundTrip(c.bookedOn);
    OtherSpellings(c.id);
    CutAtFirst(date, ':', capitals);
    assert CursorText(c)[|date| + 1..] == c.id && (date + [':'] + capitals)[|date| + 1..] == capitals;
  }
}
