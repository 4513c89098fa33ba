/** Joining digit groups: an account written "03 5954 0014 67" and one written without the
  * spaces are one account. */
module Normalize {

  /** Unicode's classes, as far as this scanner asks. */
  datatype Classes = Classes(isDigit: char -> bool, isSpace: char -> bool) {
    predicate IsSeparator(c: char) {
      isSpace(c) || c == '-'
    }

    ghost predicate Disjoint() {
      forall c :: isDigit(c) ==> !IsSeparator(c)
    }
  }

  // ---- What the pattern says ----------------------------------------------------------------

  /** Nothing but separators lies between a digit and position `k`. */
  predicate DigitBehind(u: Classes, s: string, k: nat)
    requires k <= |s|
  {
    k > 0 && (u.isDigit(s[k - 1]) || (u.IsSeparator(s[k - 1]) && DigitBehind(u, s, k - 1)))
  }

  /** Nothing but separators lies between position `k` and a digit, from `k` itself on. */
  predicate DigitAhead(u: Classes, s: string, k: nat)
    requires k <= |s|
    decreases |s| - k
  {
    k < |s| && (u.isDigit(s[k]) || (u.IsSeparator(s[k]) && DigitAhead(u, s, k + 1)))
  }

  /** (?<=\d)[\s\-]+(?=\d): a separator in a run with a digit at both ends. */
  predicate Dropped(u: Classes, s: string, k: nat)
    requires k < |s|
  {
    u.IsSeparator(s[k]) && DigitBehind(u, s, k) && DigitAhead(u, s, k + 1)
  }

  /** The text from `k` on without what the pattern matches. */
  function JoinedFrom(u: Classes, s: string, k: nat): string
    requires k <= |s|
    decreases |s| - k
  {
    if k == |s| then "" else (if Dropped(u, s, k) then "" else [s[k]]) + JoinedFrom(u, s, k + 1)
  }

  function Joined(u: Classes, s: string): string {
    JoinedFrom(u, s, 0)
  }

  lemma {:induction false} BehindMeans(u: Classes, s: string, k: nat)
    requires k <= |s|
    ensures DigitBehind(u, s, k)
       <==> exists i :: 0 <= i < k && u.isDigit(s[i]) && forall m :: i < m < k ==> u.isSpace(s[m]) || s[m] == '-'
  {
    if k > 0 {
      BehindMeans(u, s, k - 1);
      if i :| 0 <= i < k && u.isDigit(s[i]) && forall m :: i < m < k ==> u.isSpace(s[m]) || s[m] == '-' {
        assert i < k - 1 ==> u.isSpace(s[k - 1]) || s[k - 1] == '-';
      }
    }
  }

  lemma {:induction false} AheadMeans(u: Classes, s: string, k: nat)
    requires k <= |s|
    ensures DigitAhead(u, s, k)
       <==> exists j :: k <= j < |s| && u.isDigit(s[j]) && forall m :: k <= m < j ==> u.isSpace(s[m]) || s[m] == '-'
    decreases |s| - k
  {
    if k < |s| {
      AheadMeans(u, s, k + 1);
      if j :| k <= j < |s| && u.isDigit(s[j]) && forall m :: k <= m < j ==> u.isSpace(s[m]) || s[m] == '-' {
        assert k < j ==> u.isSpace(s[k]) || s[k] == '-';
      }
    }
  }

  /** A character is dropped exactly when it is white space or a hyphen, with a digit somewhere
    * before it and one somewhere after it, and nothing else than white space and hyphens
    * between the three. */
  lemma DroppedMeans(u: Classes, s: string, k: nat)
    requires k < |s|
    ensures Dropped(u, s, k)
       <==> && (u.isSpace(s[k]) || s[k] == '-')
            && (exists i :: 0 <= i < k && u.isDigit(s[i]) && forall m :: i < m < k ==> u.isSpace(s[m]) || s[m] == '-')
            && (exists j ::
                  k < j < |s| && u.isDigit(s[j]) && forall m :: k < m < j ==> u.isSpace(s[m]) || s[m] == '-')
  {
    hide DigitBehind, DigitAhead;
    BehindMeans(u, s, k);
    AheadMeans(u, s, k + 1);
  }

  // ---- What the scanner does ----------------------------------------------------------------

  /** A run ends where a character is no separator: what lies ahead of its parts is what
    * stands there. */
  lemma {:induction false} AheadOfRun(u: Classes, s: string, i: nat, j: nat)
    requires u.Disjoint()
    requires i <= j <= |s| && forall k :: i <= k < j ==> u.IsSeparator(s[k])
    requires j < |s| ==> !u.IsSeparator(s[j])
    ensures DigitAhead(u, s, i) <==> j < |s| && u.isDigit(s[j])
    decreases j - i
  {
    if i < j {
      AheadOfRun(u, s, i + 1, j);
    }
  }

  /** A run the pattern matches contributes nothing. */
  lemma {:induction false} RunDropped(u: Classes, s: string, i: nat, j: nat)
    requires u.Disjoint()
    requires i <= j < |s| && (forall k :: i <= k < j ==> u.IsSeparator(s[k])) && u.isDigit(s[j])
    requires DigitBehind(u, s, i)
    ensures JoinedFrom(u, s, i) == JoinedFrom(u, s, j)
    decreases j - i
  {
    if i < j {
      AheadOfRun(u, s, i + 1, j);
      RunDropped(u, s, i + 1, j);
    }
  }

  /** A run with no digit after it stays as it is. */
  lemma {:induction false} RunKept(u: Classes, s: string, i: nat, j: nat)
    requires u.Disjoint()
    requires i <= j <= |s| && forall k :: i <= k < j ==> u.IsSeparator(s[k])
    requires j < |s| ==> !u.IsSeparator(s[j]) && !u.isDigit(s[j])
    ensures JoinedFrom(u, s, i) == s[i..j] + JoinedFrom(u, s, j)
    decreases j - i
  {
    if i < j {
      AheadOfRun(u, s, i + 1, j);
      RunKept(u, s, i + 1, j);
      assert s[i..j] == [s[i]] + s[i + 1..j];
    }
  }

  /** joinDigitGroups: one pass from the left, looking ahead over a run only where a digit
    * stands behind it. */
  method JoinDigitGroups(u: Classes, s: string) returns (out: string)
    requires u.Disjoint()
    ensures out == Joined(u, s)
  {
    hide JoinedFrom, DigitBehind, DigitAhead, Dropped;
    out := "";
    var i := 0;
    while i < |s|
      invariant i <= |s|
      invariant out + JoinedFrom(u, s, i) == Joined(u, s)
      invariant i > 0 && i < |s| && u.IsSeparator(s[i]) && u.IsSeparator(s[i - 1]) ==> !DigitBehind(u, s, i)
    {
      if !u.IsSeparator(s[i]) || i == 0 || !u.isDigit(s[i - 1]) {
        KeepOne(u, s, i);
        assert (out + [s[i]]) + JoinedFrom(u, s, i + 1) == out + ([s[i]] + JoinedFrom(u, s, i + 1));
        out := out + [s[i]];
        i := i + 1;
      } else {
        var j := i;
        while j < |s| && u.IsSeparator(s[j])
          invariant i <= j <= |s| && forall k :: i <= k < j ==> u.IsSeparator(s[k])
        {
          j := j + 1;
        }
        AfterDigit(u, s, i);
        if j < |s| && u.isDigit(s[j]) {
          RunDropped(u, s, i, j);
        } else {
          RunKept(u, s, i, j);
          assert (out + s[i..j]) + JoinedFrom(u, s, j) == out + (s[i..j] + JoinedFrom(u, s, j));
          out := out + s[i..j];
        }
        i := j;
      }
    }
    NothingLeft(u, s);
    assert out + "" == out;
  }

  lemma AfterDigit(u: Classes, s: string, i: nat)
    requires 0 < i <= |s| && u.isDigit(s[i - 1])
    ensures DigitBehind(u, s, i)
  {
  }

  lemma NothingLeft(u: Classes, s: string)
    ensures JoinedFrom(u, s, |s|) == ""
  {
  }

  lemma KeepOne(u: Classes, s: string, i: nat)
    requires u.Disjoint() && i < |s|
    requires !u.IsSeparator(s[i]) || i == 0 || !u.isDigit(s[i - 1])
    requires i > 0 && u.IsSeparator(s[i]) && u.IsSeparator(s[i - 1]) ==> !DigitBehind(u, s, i)
    ensures JoinedFrom(u, s, i) == [s[i]] + JoinedFrom(u, s, i + 1)
    ensures u.IsSeparator(s[i]) ==> !DigitBehind(u, s, i + 1)
  {
  }

  // ---- Once is enough ----------------------------------------------------------------------

  /** How many characters before `k` are kept: where `s[k]` stands in the joined text. */
  function Place(u: Classes, s: string, k: nat): nat
    requires k <= |s|
  {
    if k == 0 then 0 else Place(u, s, k - 1) + if Dropped(u, s, k - 1) then 0 else 1
  }

  lemma {:induction false} JoinedSplits(u: Classes, s: string, k: nat) returns (front: string)
    requires k <= |s|
    ensures Joined(u, s) == front + JoinedFrom(u, s, k) && |front| == Place(u, s, k)
  {
    if k == 0 {
      front := "";
    } else {
      front := JoinedSplits(u, s, k - 1);
      var rest := JoinedFrom(u, s, k);
      if !Dropped(u, s, k - 1) {
        assert front + ([s[k - 1]] + rest) == (front + [s[k - 1]]) + rest;
        front := front + [s[k - 1]];
      } else {
        assert "" + rest == rest;
      }
    }
  }

  lemma KeptAt(u: Classes, s: string, k: nat)
    requires k < |s| && !Dropped(u, s, k)
    ensures Place(u, s, k) < |Joined(u, s)| && Joined(u, s)[Place(u, s, k)] == s[k]
  {
    var front := JoinedSplits(u, s, k);
  }

  lemma {:induction false} EveryPlace(u: Classes, s: string, n: nat, m: nat) returns (k: nat)
    requires n <= |s| && m < Place(u, s, n)
    ensures k < n && !Dropped(u, s, k) && Place(u, s, k) == m
  {
    if m < Place(u, s, n - 1) {
      k := EveryPlace(u, s, n - 1, m);
    } else {
      k := n - 1;
    }
  }

  lemma AllPlaces(u: Classes, s: string)
    ensures Place(u, s, |s|) == |Joined(u, s)|
  {
    var front := JoinedSplits(u, s, |s|);
    assert front + "" == front;
  }

  /** A run is kept or dropped as a whole. */
  lemma NeighbourKept(u: Classes, s: string, k: nat)
    requires u.Disjoint() && 0 < k < |s| && u.IsSeparator(s[k]) && !Dropped(u, s, k)
    ensures !Dropped(u, s, k - 1)
  {
  }

  lemma NextKept(u: Classes, s: string, k: nat)
    requires u.Disjoint() && k + 1 < |s| && u.IsSeparator(s[k]) && !Dropped(u, s, k)
    ensures !Dropped(u, s, k + 1)
  {
  }

  /** What stands behind a kept separator is what stood behind it. */
  lemma {:induction false} SameBehind(u: Classes, s: string, k: nat)
    requires u.Disjoint() && k < |s| && u.IsSeparator(s[k]) && !Dropped(u, s, k)
    ensures Place(u, s, k) <= |Joined(u, s)|
    ensures DigitBehind(u, Joined(u, s), Place(u, s, k)) ==> DigitBehind(u, s, k)
  {
    hide Dropped, JoinedFrom, Joined;
    KeptAt(u, s, k);
    if k > 0 {
      NeighbourKept(u, s, k);
      KeptAt(u, s, k - 1);
      if u.IsSeparator(s[k - 1]) {
        SameBehind(u, s, k - 1);
      }
    }
  }

  lemma {:induction false} SameAhead(u: Classes, s: string, k: nat)
    requires u.Disjoint() && k < |s| && u.IsSeparator(s[k]) && !Dropped(u, s, k)
    ensures Place(u, s, k) < |Joined(u, s)|
    ensures DigitAhead(u, Joined(u, s), Place(u, s, k) + 1) ==> DigitAhead(u, s, k + 1)
    decreases |s| - k
  {
    hide Dropped, JoinedFrom, Joined;
    KeptAt(u, s, k);
    if k + 1 < |s| {
      NextKept(u, s, k);
      KeptAt(u, s, k + 1);
      if u.IsSeparator(s[k + 1]) {
        SameAhead(u, s, k + 1);
      }
    } else {
      AllPlaces(u, s);
    }
  }

  lemma {:induction false} NothingDropped(u: Classes, t: string, k: nat)
    requires k <= |t| && forall m :: k <= m < |t| ==> !Dropped(u, t, m)
    ensures JoinedFrom(u, t, k) == t[k..]
    decreases |t| - k
  {
    hide Dropped;
    if k < |t| {
      NothingDropped(u, t, k + 1);
      assert t[k..] == [t[k]] + t[k + 1..];
    }
  }

  /** Joined text is left alone by joining it again. */
  lemma JoiningIsIdempotent(u: Classes, s: string)
    requires u.Disjoint()
    ensures Joined(u, Joined(u, s)) == Joined(u, s)
  {
    var t := Joined(u, s);
    hide JoinedFrom, Joined;
    AllPlaces(u, s);
    forall m | 0 <= m < |t|
      ensures !Dropped(u, t, m)
    {
      var k := EveryPlace(u, s, |s|, m);
      KeptAt(u, s, k);
      if u.IsSeparator(s[k]) {
        SameBehind(u, s, k);
        SameAhead(u, s, k);
      }
    }
    JoinedIsFrom(u, t);
    NothingDropped(u, t, 0);
  }

  lemma JoinedIsFrom(u: Classes, t: string)
    ensures Joined(u, t) == JoinedFrom(u, t, 0)
  {
  }

  function Digits(u: Classes, s: string): string {
    if s == "" then "" else (if u.isDigit(s[0]) then [s[0]] else "") + Digits(u, s[1..])
  }

  /** Joining loses no digit and moves none. */
  lemma {:induction false} DigitsStay(u: Classes, s: string, k: nat)
    requires u.Disjoint() && k <= |s|
    ensures Digits(u, JoinedFrom(u, s, k)) == Digits(u, s[k..])
    decreases |s| - k
  {
    if k < |s| {
      DigitsStay(u, s, k + 1);
      assert s[k..][1..] == s[k + 1..];
      var rest := JoinedFrom(u, s, k + 1);
      if Dropped(u, s, k) {
        assert "" + rest == rest;
      } else {
        assert ([s[k]] + rest)[1..] == rest;
      }
    }
  }
}
