/** Strings of decimal digits, the formatting verbs that print them and the
  * searches that take a string apart again. */
module Text {

  predicate IsDigit(c: char) {
    '0' <= c <= '9'
  }

  predicate AllDigits(s: string) {
    forall i :: 0 <= i < |s| ==> IsDigit(s[i])
  }

  function DigitChar(d: nat): (c: char)
    requires d < 10
    ensures IsDigit(c)
  {
    '0' + d as char
  }

  function DigitValue(c: char): (d: nat)
    requires IsDigit(c)
    ensures d < 10 && DigitChar(d) == c
  {
    (c - '0') as nat
  }

  function Pow10(k: nat): (p: nat)
    ensures p > 0
  {
    if k == 0 then 1 else 10 * Pow10(k - 1)
  }

  /** `n` with `k` zeros written after it. */
  function Scale(n: int, k: nat): int {
    if k == 0 then n else 10 * Scale(n, k - 1)
  }

  lemma {:induction false} ScaleIsProduct(n: int, k: nat)
    ensures Scale(n, k) == n * Pow10(k)
  {
    if k > 0 {
      ScaleIsProduct(n, k - 1);
      var p := Pow10(k - 1);
      assert 10 * (n * p) == n * (10 * p);
    }
  }

  function Digits(n: nat): (s: string)
    ensures |s| > 0 && AllDigits(s)
  {
    if n < 10 then [DigitChar(n)] else Digits(n / 10) + [DigitChar(n % 10)]
  }

  function Value(s: string): nat
    requires AllDigits(s)
  {
    if s == "" then 0 else 10 * Value(s[..|s| - 1]) + DigitValue(s[|s| - 1])
  }

  function Zeros(k: nat): (s: string)
    ensures |s| == k && AllDigits(s)
  {
    if k == 0 then "" else Zeros(k - 1) + "0"
  }

  /** Zero padding on the left, as %0*d does it for a number that is not negative. */
  function PadZero(s: string, width: nat): (p: string)
    ensures AllDigits(s) ==> AllDigits(p)
    ensures |p| >= |s| && |p| >= width
  {
    if |s| >= width then s else Zeros(width - |s|) + s
  }

  lemma {:induction false} ValueOfDigits(n: nat)
    ensures Value(Digits(n)) == n
  {
    if n >= 10 {
      ValueOfDigits(n / 10);
      var s := Digits(n);
      assert s[..|s| - 1] == Digits(n / 10);
    }
  }

  lemma {:induction false} ValueAppend(a: string, b: string)
    requires AllDigits(a) && AllDigits(b)
    ensures AllDigits(a + b)
    ensures Value(a + b) == Scale(Value(a), |b|) + Value(b)
  {
    if b == "" {
      assert a + b == a;
    } else {
      var i := b[..|b| - 1];
      assert (a + b)[..|a + b| - 1] == a + i;
      ValueAppend(a, i);
    }
  }

  lemma {:induction false} ValueOfZeros(k: nat)
    ensures Value(Zeros(k)) == 0
  {
    if k > 0 {
      ValueOfZeros(k - 1);
      assert Zeros(k)[..k - 1] == Zeros(k - 1);
    }
  }

  lemma ValueOfPadded(s: string, width: nat)
    requires AllDigits(s)
    ensures Value(PadZero(s, width)) == Value(s)
  {
    if |s| < width {
      ValueAppend(Zeros(width - |s|), s);
      ValueOfZeros(width - |s|);
      ScaleIsProduct(0, |s|);
    }
  }

  lemma {:induction false} ValueIsBounded(s: string)
    requires AllDigits(s)
    ensures Value(s) < Pow10(|s|)
  {
    if s != "" {
      ValueIsBounded(s[..|s| - 1]);
    }
  }

  lemma {:induction false} DigitsFit(n: nat, k: nat)
    requires k > 0 && n < Pow10(k)
    ensures |Digits(n)| <= k
  {
    if n >= 10 {
      assert k > 1;
      assert n / 10 < Pow10(k - 1);
      DigitsFit(n / 10, k - 1);
    }
  }

  lemma {:induction false} DigitsNeed(n: nat, k: nat)
    requires n >= Pow10(k)
    ensures |Digits(n)| > k
  {
    if k > 0 {
      assert n >= 10 * Pow10(k - 1);
      assert n / 10 >= Pow10(k - 1);
      DigitsNeed(n / 10, k - 1);
      if n < 10 {
        assert false;
      }
    }
  }

  /** Digit strings of one length are told apart by their value. */
  lemma {:induction false} ValueIsInjective(a: string, b: string)
    requires AllDigits(a) && AllDigits(b) && |a| == |b| && Value(a) == Value(b)
    ensures a == b
  {
    if a != "" {
      var i := |a| - 1;
      SameLastDigit(Value(a[..i]), DigitValue(a[i]), Value(b[..i]), DigitValue(b[i]));
      ValueIsInjective(a[..i], b[..i]);
      assert a == a[..i] + [a[i]] && b == b[..i] + [b[i]];
    }
  }

  lemma SameLastDigit(x: nat, c: nat, y: nat, d: nat)
    requires c < 10 && d < 10 && 10 * x + c == 10 * y + d
    ensures x == y && c == d
  {
  }

  /** strings.Cut: the text before and after the first `c`. */
  function Cut(s: string, c: char): (string, string, bool)
  {
    if s == "" then ("", "", false)
    else if s[0] == c then ("", s[1..], true)
    else var rest := Cut(s[1..], c); ([s[0]] + rest.0, rest.1, rest.2)
  }

  lemma {:induction false} CutAtFirst(a: string, c: char, b: string)
    requires c !in a
    ensures Cut(a + [c] + b, c) == (a, b, true)
  {
    if a == "" {
      assert a + [c] + b == [c] + b;
    } else {
      assert (a + [c] + b)[1..] == a[1..] + [c] + b;
      CutAtFirst(a[1..], c, b);
      assert [a[0]] + a[1..] == a;
    }
  }

  lemma {:induction false} CutAbsent(a: string, c: char)
    requires c !in a
    ensures Cut(a, c) == (a, "", false)
  {
    if a != "" {
      CutAbsent(a[1..], c);
      assert [a[0]] + a[1..] == a;
    }
  }

  /** strings.ReplaceAll(s, c, "") for every `c` that `drop` accepts. */
  function Without(s: string, drop: char -> bool): (r: string)
    ensures forall i :: 0 <= i < |r| ==> !drop(r[i]) && r[i] in s
  {
    if s == "" then ""
    else if drop(s[0]) then Without(s[1..], drop)
    else [s[0]] + Without(s[1..], drop)
  }

  lemma {:induction false} WithoutNothing(s: string, drop: char -> bool)
    requires forall i :: 0 <= i < |s| ==> !drop(s[i])
    ensures Without(s, drop) == s
  {
    if s != "" {
      WithoutNothing(s[1..], drop);
    }
  }

  lemma {:induction false} WithoutAppend(a: string, b: string, drop: char -> bool)
    ensures Without(a + b, drop) == Without(a, drop) + Without(b, drop)
  {
    if a == "" {
      assert a + b == b;
    } else {
      assert (a + b)[1..] == a[1..] + b;
      WithoutAppend(a[1..], b, drop);
    }
  }

  /** strings.LastIndex(s, c), with -1 for "absent". */
  function LastIndex(s: string, c: char): (i: int)
    ensures -1 <= i < |s|
    ensures i >= 0 ==> s[i] == c
    ensures forall k :: i < k < |s| ==> s[k] != c
  {
    if s == "" then -1
    else if s[|s| - 1] == c then |s| - 1
    else
      var r := LastIndex(s[..|s| - 1], c);
      assert forall k :: 0 <= k < |s| - 1 ==> s[k] == s[..|s| - 1][k];
      r
  }

  /** Go's `<` on strings. */
  predicate Less(a: string, b: string) {
    if b == "" then false
    else if a == "" then true
    else if a[0] != b[0] then a[0] < b[0]
    else Less(a[1..], b[1..])
  }

  lemma {:induction false} LessIsTransitive(a: string, b: string, c: string)
    requires Less(a, b) && Less(b, c)
    ensures Less(a, c)
  {
    if a != "" && a[0] == b[0] == c[0] {
      LessIsTransitive(a[1..], b[1..], c[1..]);
    }
  }
}
