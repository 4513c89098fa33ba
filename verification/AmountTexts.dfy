/** Which texts are taken for an amount, and that none of their digits is lost. */
module AmountTexts {
  import opened Wrappers
  import opened Text
  import opened Locale
  import opened Money

  /** A number as a bank may write it, once the spaces and the sign are gone: digits alone; or
    * digits, the other mark anywhere among them, then the decimal mark and digits again. */
  ghost predicate IsNumber(body: string) {
    || (body != "" && AllDigits(body))
    || exists mark, w, f :: SetOff(body, mark, w, f)
  }

  ghost predicate SetOff(body: string, mark: char, w: string, f: string) {
    && body == w + [mark] + f && f != "" && AllDigits(f)
    && (mark == ',' || mark == '.')
    && (forall i :: 0 <= i < |w| ==> IsDigit(w[i]) || w[i] == if mark == ',' then '.' else ',')
    && exists i :: 0 <= i < |w| && IsDigit(w[i])
  }

  // ---- What is kept, and what is dropped ----------------------------------------------------------

  lemma {:induction false} KeptStays(w: string, drop: char -> bool)
    ensures forall i :: 0 <= i < |w| && !drop(w[i]) ==> w[i] in Without(w, drop)
  {
    if w != "" {
      KeptStays(w[1..], drop);
      assert forall i :: 1 <= i < |w| ==> w[i] == w[1..][i - 1];
    }
  }

  /** Text that is digits without one mark is digits and that mark. */
  lemma DigitsWithout(w: string, drop: char -> bool)
    requires AllDigits(Without(w, drop)) && Without(w, drop) != ""
    ensures forall i :: 0 <= i < |w| ==> IsDigit(w[i]) || drop(w[i])
    ensures exists i :: 0 <= i < |w| && IsDigit(w[i])
  {
    KeptStays(w, drop);
    var kept := Without(w, drop);
    forall i | 0 <= i < |w| && !drop(w[i])
      ensures IsDigit(w[i])
    {
      var k :| 0 <= k < |kept| && kept[k] == w[i];
    }
    assert kept[0] in w;
    var i :| 0 <= i < |w| && w[i] == kept[0];
    assert IsDigit(w[i]);
  }

  lemma {:induction false} CutParts(s: string, c: char)
    ensures
      var (a, b, found) := Cut(s, c);
      && c !in a && (found <==> c in s) && (found ==> s == a + [c] + b) && (!found ==> s == a)
  {
    if s != "" {
      CutParts(s[1..], c);
      assert s == [s[0]] + s[1..];
      if s[0] != c {
        var rest := Cut(s[1..], c);
        assert [s[0]] + (rest.0 + [c] + rest.1) == ([s[0]] + rest.0) + [c] + rest.1;
      }
    }
  }

  lemma Plain(whole: string, frac: string)
    requires '.' !in whole
    ensures PlainDecimal(whole + ("." + frac)) <==> whole != "" && AllDigits(whole) && frac != "" && AllDigits(frac)
  {
    assert whole + ("." + frac) == whole + ['.'] + frac;
    CutAtFirst(whole, '.', frac);
  }

  // ---- Which texts are numbers ----------------------------------------------------------------------

  lemma LastMarkDecides(s: string, mark: char, w: string, f: string)
    requires (mark == ',' || mark == '.') && s == w + [mark] + f
    requires mark !in f && (if mark == ',' then '.' else ',') !in f
    requires WithPoint(s) == Without(w, Grouping(mark)) + ("." + f) && PlainDecimal(WithPoint(s))
    ensures SetOff(s, mark, w, f)
  {
    hide WithPoint, PlainDecimal, Cut;
    var whole := Without(w, Grouping(mark));
    if mark == ',' {
      assert forall i :: 0 <= i < |whole| ==> !IsPoint(whole[i]);
      Plain(whole, f);
      DigitsWithout(w, IsPoint);
    } else {
      NoPointLeft(w, f);
      DigitsWithout(w, IsComma);
    }
  }

  /** Where the point decides, what is before it is cut at its first one. */
  lemma NoPointLeft(w: string, f: string)
    requires PlainDecimal(Without(w, IsComma) + ("." + f)) && '.' !in f
    ensures Without(w, IsComma) != "" && AllDigits(Without(w, IsComma)) && f != "" && AllDigits(f)
  {
    var whole := Without(w, IsComma);
    var x := whole + ("." + f);
    CutParts(x, '.');
    assert x[|whole|] == '.';
    var (a, b, found) := Cut(x, '.');
    assert found && AllDigits(b);
    assert forall i :: 0 <= i < |b| ==> b[i] != '.';
    assert x == whole + ['.'] + f;
    LastIndexIs(a, '.', b);
    LastIndexIs(whole, '.', f);
    assert a == x[..|a|] && whole == x[..|whole|];
    assert b == x[|a| + 1..] && f == x[|whole| + 1..];
  }

  lemma NumberIsRead(s: string)
    requires PlainDecimal(WithPoint(s))
    ensures IsNumber(s)
  {
    hide PlainDecimal;
    var comma, dot := LastIndex(s, ','), LastIndex(s, '.');
    if comma >= 0 && comma > dot {
      var w, f := s[..comma], s[comma + 1..];
      assert s == w + [','] + f;
      OneMarkOnly(w, s, dot);
      LastMarkDecides(s, ',', w, f);
    } else if comma >= 0 {
      var w, f := s[..dot], s[dot + 1..];
      assert s == w + ['.'] + f;
      LastMarkDecides(s, '.', w, f);
    } else {
      PointOnly(s);
    }
  }

  /** Where there is no point there is none to drop. */
  lemma OneMarkOnly(w: string, s: string, dot: int)
    requires w <= s && (dot < 0 ==> '.' !in s)
    ensures dot < 0 ==> Without(w, IsPoint) == w
  {
    if dot < 0 {
      assert forall i :: 0 <= i < |w| ==> w[i] == s[i] && w[i] in s;
      WithoutNothing(w, IsPoint);
    }
  }

  lemma PointOnly(s: string)
    requires ',' !in s && PlainDecimal(s)
    ensures IsNumber(s)
  {
    CutParts(s, '.');
    var (whole, frac, found) := Cut(s, '.');
    if found {
      assert IsDigit(whole[0]);
      assert SetOff(s, '.', whole, frac);
    }
  }

  /** Exactly the numbers pass the pattern once the decimal mark is a point. */
  lemma NumbersAreRead(body: string)
    ensures PlainDecimal(WithPoint(body)) <==> IsNumber(body)
  {
    hide PlainDecimal, WithPoint, Cut;
    if PlainDecimal(WithPoint(body)) {
      NumberIsRead(body);
    }
    if body != "" && AllDigits(body) {
      DigitsAreRead(body);
    }
    if mark, w, f :| SetOff(body, mark, w, f) {
      SetOffIsRead(mark, w, f);
    }
  }

  lemma DigitsAreRead(body: string)
    requires body != "" && AllDigits(body)
    ensures PlainDecimal(WithPoint(body))
  {
    hide WithPoint;
    NoMarkToMove(body);
    CutAbsent(body, '.');
  }

  lemma SetOffIsRead(mark: char, w: string, f: string)
    requires SetOff(w + [mark] + f, mark, w, f)
    ensures PlainDecimal(WithPoint(w + [mark] + f))
  {
    hide PlainDecimal, WithPoint;
    WithPointOfMarked(w, mark, f);
    KeptStays(w, Grouping(mark));
    PlainDecimalOf(Without(w, Grouping(mark)), f);
  }

  /** A text is taken for an amount exactly when it is blank, or a number behind a minus, a plus,
    * neither, or both in that order; everything else is refused. */
  lemma AmountsAreNumbers(s: string)
    ensures
      var text := TrimSpace(Without(s, IsGroupSpace));
      DecimalFromLocale(s).Ok?
      <==> text == "" || IsNumber(text) || exists sign, body :: sign in ["-", "+", "-+"] && IsSigned(text, sign, body)
  {
    hide WithPoint, PlainDecimal, TrimSpace, IsNumber;
    var text := TrimSpace(Without(s, IsGroupSpace));
    if text != "" {
      var body := TrimPrefix(TrimPrefix(text, '-'), '+');
      NumbersAreRead(body);
      SignIsFound(text, body);
      SignsAreNoNumbers(text);
      if IsNumber(body) && text != body {
        var sign :| sign in ["-", "+", "-+"] && text == sign + body;
        assert IsSigned(text, sign, body);
      }
    }
  }

  ghost predicate IsSigned(text: string, sign: string, body: string) {
    text == sign + body && IsNumber(body)
  }

  lemma NumbersHaveNoSign(text: string)
    requires IsNumber(text)
    ensures text != "" && text[0] != '-' && text[0] != '+'
  {
    if mark, w, f :| SetOff(text, mark, w, f) {
      assert text[0] == if w == "" then mark else w[0];
    }
  }

  lemma SignIsFound(text: string, body: string)
    requires text != "" && body == TrimPrefix(TrimPrefix(text, '-'), '+')
    ensures text == body || exists sign :: sign in ["-", "+", "-+"] && text == sign + body
  {
    var once := TrimPrefix(text, '-');
    if text[0] == '-' {
      assert text == "-" + once;
      if once != "" && once[0] == '+' {
        assert once == "+" + body && text == "-+" + body;
        assert "-+" in ["-", "+", "-+"];
      } else {
        assert "-" in ["-", "+", "-+"];
      }
    } else if text[0] == '+' {
      assert text == "+" + body;
      assert "+" in ["-", "+", "-+"];
    }
  }

  /** However a number is signed, what is left without the sign is it. */
  lemma SignsAreNoNumbers(text: string)
    ensures IsNumber(text) ==> TrimPrefix(TrimPrefix(text, '-'), '+') == text
    ensures forall sign, body :: sign in ["-", "+", "-+"] && IsSigned(text, sign, body) ==>
                                   TrimPrefix(TrimPrefix(text, '-'), '+') == body
  {
    hide IsNumber;
    if IsNumber(text) {
      NumbersHaveNoSign(text);
    }
    forall sign, body | sign in ["-", "+", "-+"] && IsSigned(text, sign, body)
      ensures TrimPrefix(TrimPrefix(text, '-'), '+') == body
    {
      NumbersHaveNoSign(body);
      assert sign == "-" || sign == "+" || sign == "-+";
      if sign == "-" {
        assert text[1..] == body;
      } else if sign == "+" {
        assert text[1..] == body;
      } else {
        assert text[1..] == "+" + body && text[1..][1..] == body;
      }
    }
  }

  // ---- No digit is lost --------------------------------------------------------------------------

  lemma {:induction false} UngroupedAppend(a: string, b: string)
    ensures Ungrouped(a + b) == Ungrouped(a) + Ungrouped(b)
  {
    WithoutAppend(a, b, c => !IsDigit(c));
  }

  lemma {:induction false} UngroupedWithout(s: string, drop: char -> bool)
    requires forall c :: drop(c) ==> !IsDigit(c)
    ensures Ungrouped(Without(s, drop)) == Ungrouped(s)
  {
    if s != "" {
      UngroupedWithout(s[1..], drop);
      var rest := Without(s[1..], drop);
      assert ([s[0]] + rest)[1..] == rest;
    }
  }

  lemma {:induction false} UngroupedTrimmed(s: string)
    ensures Ungrouped(TrimSpace(s)) == Ungrouped(s)
    decreases |s|
  {
    hide IsSpace;
    if s != "" && IsSpace(s[0]) {
      SpacesAreNoDigits(s[0]);
      UngroupedTrimmed(s[1..]);
    } else if s != "" && IsSpace(s[|s| - 1]) {
      var n := |s| - 1;
      SpacesAreNoDigits(s[n]);
      UngroupedTrimmed(s[..n]);
      assert s == s[..n] + [s[n]];
      UngroupedAppend(s[..n], [s[n]]);
      NoDigit([s[n]]);
    }
  }

  lemma SpacesAreNoDigits(c: char)
    ensures IsSpace(c) ==> !IsDigit(c)
    ensures IsGroupSpace(c) ==> !IsDigit(c)
  {
  }

  lemma {:induction false} NoDigit(s: string)
    requires forall i :: 0 <= i < |s| ==> !IsDigit(s[i])
    ensures Ungrouped(s) == ""
  {
    if s != "" {
      NoDigit(s[1..]);
    }
  }

  lemma UngroupedPoint(s: string)
    ensures Ungrouped(WithPoint(s)) == Ungrouped(s)
  {
    hide Ungrouped, Without, LastIndex;
    var comma, dot := LastIndex(s, ','), LastIndex(s, '.');
    if comma >= 0 && dot < 0 {
      PointSetIn(s, comma, s[..comma]);
    } else if comma >= 0 && comma > dot {
      UngroupedWithout(s[..comma], IsPoint);
      PointSetIn(s, comma, Without(s[..comma], IsPoint));
    } else if comma >= 0 {
      UngroupedWithout(s[..dot], IsComma);
      PointSetIn(s, dot, Without(s[..dot], IsComma));
    }
  }

  /** A point in the place of a mark, behind the same digits. */
  lemma PointSetIn(s: string, at: nat, before: string)
    requires at < |s| && !IsDigit(s[at]) && Ungrouped(before) == Ungrouped(s[..at])
    ensures Ungrouped(before + ("." + s[at + 1..])) == Ungrouped(s)
  {
    hide Ungrouped;
    var t := before + ("." + s[at + 1..]);
    PointForMark(s, at);
    PointForMark(t, |before|);
    assert t[..|before|] == before && t[|before| + 1..] == s[at + 1..];
  }

  lemma PointForMark(s: string, at: nat)
    requires at < |s| && !IsDigit(s[at])
    ensures Ungrouped(s) == Ungrouped(s[..at]) + Ungrouped(s[at + 1..])
  {
    hide Ungrouped;
    assert s == s[..at] + [s[at]] + s[at + 1..];
    UngroupedAppend(s[..at] + [s[at]], s[at + 1..]);
    UngroupedAppend(s[..at], [s[at]]);
    NoDigit([s[at]]);
  }

  lemma UngroupedPrefix(s: string, c: char)
    requires !IsDigit(c)
    ensures Ungrouped(TrimPrefix(s, c)) == Ungrouped(s)
  {
  }

  /** The digits of an amount are those of its text, each of them, in order. */
  lemma DigitsAreKept(s: string)
    requires DecimalFromLocale(s).Ok? && TrimSpace(Without(s, IsGroupSpace)) != ""
    ensures Ungrouped(DecimalFromLocale(s).value) == Ungrouped(s)
  {
    hide WithPoint, PlainDecimal, TrimSpace, Ungrouped, TrimPrefix, Without;
    var text := TrimSpace(Without(s, IsGroupSpace));
    UngroupedTrimmed(Without(s, IsGroupSpace));
    forall c
      ensures IsGroupSpace(c) ==> !IsDigit(c)
    {
      SpacesAreNoDigits(c);
    }
    UngroupedWithout(s, IsGroupSpace);
    UngroupedPrefix(text, '-');
    UngroupedPrefix(TrimPrefix(text, '-'), '+');
    var body := TrimPrefix(TrimPrefix(text, '-'), '+');
    UngroupedPoint(body);
    UngroupedAppend(Sign(text[0] == '-'), WithPoint(body));
    NoDigitInSign(text[0] == '-');
  }

  lemma NoDigitInSign(neg: bool)
    ensures Ungrouped(Sign(neg)) == ""
  {
    NoDigit(Sign(neg));
  }
}
