/** Deduplication: rows are hashed with the number of times their content has been seen in
  * their own file, and a hash already stored is not stored again. */
module Dedup {
  import opened Text
  import opened Calendar
  import M = Money
  import Cursors

  /** What a duplicate must agree on. */
  datatype Content = Content(
    accountId: string, bookedOn: Date, amount: M.Amount, descriptionNorm: string, bankRef: string, documentRef: string,
    postingNo: int)

  const SEP: char := '\U{1f}'

  /** strings.Join(parts, fieldSeparator) */
  function JoinFields(parts: seq<string>): string {
    if parts == [] then ""
    else if |parts| == 1 then parts[0]
    else parts[0] + [SEP] + JoinFields(parts[1..])
  }

  function Fields(c: Content): (parts: seq<string>)
    ensures |parts| == 8
  {
    [c.accountId, Cursors.DateText(c.bookedOn), M.FormatInt(c.amount.minor), c.amount.currency, c.descriptionNorm,
     c.bankRef, c.documentRef, M.FormatInt(c.postingNo)]
  }

  function ContentKey(c: Content): string {
    JoinFields(Fields(c))
  }

  /** The text that is hashed: the content, and which occurrence of it in its file. */
  function Keyed(key: string, occurrence: nat): string {
    key + [SEP] + M.FormatInt(occurrence)
  }

  // ---- Keys tell contents apart -----------------------------------------------------------

  predicate Free(s: string) {
    SEP !in s
  }

  lemma {:induction false} JoinIsInjective(a: seq<string>, b: seq<string>)
    requires |a| == |b| && JoinFields(a) == JoinFields(b)
    requires forall k :: 0 <= k < |a| ==> Free(a[k]) && Free(b[k])
    ensures a == b
  {
    if |a| > 1 {
      CutAtFirst(a[0], SEP, JoinFields(a[1..]));
      CutAtFirst(b[0], SEP, JoinFields(b[1..]));
      JoinIsInjective(a[1..], b[1..]);
      assert a == [a[0]] + a[1..] && b == [b[0]] + b[1..];
    } else if |a| == 1 {
      assert a[0] == b[0];
    }
  }

  lemma IntTextIsFree(n: int)
    ensures Free(M.FormatInt(n))
  {
  }

  lemma IntTextIsInjective(a: int, b: int)
    requires M.FormatInt(a) == M.FormatInt(b)
    ensures a == b
  {
    if a >= 0 {
      M.FormatIntOfNat(a);
    } else {
      M.FormatIntOfNat(0 - a);
      NegativeText(a);
    }
    if b >= 0 {
      M.FormatIntOfNat(b);
    } else {
      M.FormatIntOfNat(0 - b);
      NegativeText(b);
    }
  }

  lemma NegativeText(n: int)
    requires n < 0
    ensures M.FormatInt(n) == ['-'] + M.FormatInt(0 - n)
    ensures M.FormatInt(n)[0] == '-' && M.FormatInt(n)[1..] == M.FormatInt(0 - n)
  {
  }

  lemma PaddedIsInjective(a: nat, b: nat, width: nat)
    requires PadZero(Digits(a), width) == PadZero(Digits(b), width)
    ensures a == b
  {
    hide Digits, Value, PadZero;
    ValueOfPadded(Digits(a), width);
    ValueOfPadded(Digits(b), width);
    ValueOfDigits(a);
    ValueOfDigits(b);
  }

  lemma {:induction false} TwoParts(a: string, x: string, b: string, y: string, c: char)
    requires c !in a && c !in b && a + [c] + x == b + [c] + y
    ensures a == b && x == y
  {
    CutAtFirst(a, c, x);
    CutAtFirst(b, c, y);
  }

  lemma PaddedIsDigits(n: nat, width: nat)
    ensures var s := PadZero(Digits(n), width); AllDigits(s) && '-' !in s && Free(s)
  {
    hide Digits, PadZero;
  }

  lemma DateTextParts(d: Date)
    ensures Cursors.DateText(d)
         == PadZero(Digits(d.year), 4) + ['-'] + (PadZero(Digits(d.month), 2) + ['-'] + PadZero(Digits(d.day), 2))
  {
    hide Digits, PadZero;
    var y, m, x := PadZero(Digits(d.year), 4), PadZero(Digits(d.month), 2), PadZero(Digits(d.day), 2);
    assert y + ("-" + m) + ("-" + x) == y + ['-'] + (m + ['-'] + x);
  }

  /** A day has one text and a text one day, however many digits the year takes. */
  lemma DateTextIsInjective(a: Date, b: Date)
    requires Cursors.DateText(a) == Cursors.DateText(b)
    ensures a == b && Free(Cursors.DateText(a))
  {
    hide Digits, PadZero, Cursors.DateText, AllDigits;
    DateTextParts(a);
    DateTextParts(b);
    var ya, ma, da := PadZero(Digits(a.year), 4), PadZero(Digits(a.month), 2), PadZero(Digits(a.day), 2);
    var yb, mb, db := PadZero(Digits(b.year), 4), PadZero(Digits(b.month), 2), PadZero(Digits(b.day), 2);
    PaddedIsDigits(a.year, 4);
    PaddedIsDigits(a.month, 2);
    PaddedIsDigits(a.day, 2);
    PaddedIsDigits(b.year, 4);
    PaddedIsDigits(b.month, 2);
    TwoParts(ya, ma + ['-'] + da, yb, mb + ['-'] + db, '-');
    TwoParts(ma, da, mb, db, '-');
    PaddedIsInjective(a.year, b.year, 4);
    PaddedIsInjective(a.month, b.month, 2);
    PaddedIsInjective(a.day, b.day, 2);
  }

  /** Nothing a customer or a bank wrote contains the separator. */
  predicate Clean(c: Content) {
    && Free(c.accountId) && Free(c.amount.currency)
    && Free(c.descriptionNorm) && Free(c.bankRef) && Free(c.documentRef)
  }

  lemma FieldsAreFree(c: Content)
    requires Clean(c)
    ensures forall k :: 0 <= k < |Fields(c)| ==> Free(Fields(c)[k])
  {
    DateTextIsInjective(c.bookedOn, c.bookedOn);
    IntTextIsFree(c.amount.minor);
    IntTextIsFree(c.postingNo);
    hide Cursors.DateText, M.FormatInt, Free;
  }

  lemma FieldsTellApart(a: Content, b: Content)
    requires Fields(a) == Fields(b)
    ensures a == b
  {
    hide Cursors.DateText, M.FormatInt;
    assert Fields(a)[1] == Fields(b)[1] && Fields(a)[2] == Fields(b)[2] && Fields(a)[7] == Fields(b)[7];
    assert Fields(a)[0] == Fields(b)[0] && Fields(a)[3] == Fields(b)[3] && Fields(a)[4] == Fields(b)[4];
    assert Fields(a)[5] == Fields(b)[5] && Fields(a)[6] == Fields(b)[6];
    DateTextIsInjective(a.bookedOn, b.bookedOn);
    IntTextIsInjective(a.amount.minor, b.amount.minor);
    IntTextIsInjective(a.postingNo, b.postingNo);
  }

  /** Account and currency are codes; only the three free texts can contain the separator. */
  predicate Framed(c: Content) {
    Free(c.accountId) && Free(c.amount.currency)
  }

  function Separators(s: string): nat {
    if s == [] then 0 else Separators(s[..|s| - 1]) + if s[|s| - 1] == SEP then 1 else 0
  }

  lemma {:induction false} SeparatorsAppend(a: string, b: string)
    ensures Separators(a + b) == Separators(a) + Separators(b)
  {
    if b == [] {
      assert a + b == a;
    } else {
      assert (a + b)[..|a + b| - 1] == a + b[..|b| - 1];
      SeparatorsAppend(a, b[..|b| - 1]);
    }
  }

  lemma {:induction false} FreeHasNone(s: string)
    ensures Separators(s) == 0 <==> Free(s)
  {
    if s != [] {
      FreeHasNone(s[..|s| - 1]);
      assert s == s[..|s| - 1] + [s[|s| - 1]];
    }
  }

  function SeparatorsIn(parts: seq<string>): nat {
    if parts == [] then 0 else Separators(parts[0]) + SeparatorsIn(parts[1..])
  }

  lemma {:induction false} JoinCounts(parts: seq<string>)
    requires parts != []
    ensures Separators(JoinFields(parts)) == SeparatorsIn(parts) + |parts| - 1
  {
    hide Separators;
    if |parts| == 1 {
      assert parts[1..] == [];
    } else {
      JoinCounts(parts[1..]);
      OneSeparator();
      SeparatorsAppend(parts[0], [SEP]);
      SeparatorsAppend(parts[0] + [SEP], JoinFields(parts[1..]));
    }
  }

  lemma OneSeparator()
    ensures Separators([SEP]) == 1
  {
    assert [SEP][..0] == [];
  }

  lemma {:induction false} NoneInAny(parts: seq<string>)
    ensures SeparatorsIn(parts) == 0 <==> forall k :: 0 <= k < |parts| ==> Free(parts[k])
  {
    hide Separators, Free;
    if parts != [] {
      NoneInAny(parts[1..]);
      FreeHasNone(parts[0]);
      assert forall k :: 1 <= k < |parts| ==> parts[k] == parts[1..][k - 1];
    }
  }

  /** A key in which the separator only separates is a key of free fields. */
  lemma SameKeyIsFree(a: Content, b: Content)
    requires Clean(a) && ContentKey(a) == ContentKey(b)
    ensures forall k :: 0 <= k < |Fields(b)| ==> Free(Fields(b)[k])
  {
    hide Fields, JoinFields, Clean, Free, SeparatorsIn, Separators;
    FieldsAreFree(a);
    NoneInAny(Fields(a));
    JoinCounts(Fields(a));
    JoinCounts(Fields(b));
    NoneInAny(Fields(b));
  }

  /** A row whose texts are free of the separator shares its key with no other. */
  lemma KeysTellApart(a: Content, b: Content)
    requires Clean(a)
    ensures ContentKey(a) == ContentKey(b) <==> a == b
  {
    hide Fields, JoinFields, Clean, Free;
    if ContentKey(a) == ContentKey(b) {
      FieldsAreFree(a);
      SameKeyIsFree(a, b);
      JoinIsInjective(Fields(a), Fields(b));
      FieldsTellApart(a, b);
    }
  }

  /** The key of a row whose bank reference and document reference are `bank` and `document`. */
  lemma KeyTail(c: Content)
    ensures
      ContentKey(c)
      == JoinFields(Fields(c)[..4] + [c.descriptionNorm + [SEP] + c.bankRef + [SEP] + c.documentRef + [SEP]
                                      + M.FormatInt(c.postingNo)])
  {
    hide Cursors.DateText, M.FormatInt;
    var tail := M.FormatInt(c.postingNo);
    var joined := c.descriptionNorm + [SEP] + c.bankRef + [SEP] + c.documentRef + [SEP] + tail;
    var parts := Fields(c)[..4] + [joined];
    assert Fields(c)[4..] == [c.descriptionNorm, c.bankRef, c.documentRef, tail];
    assert Fields(c)[4..][1..] == [c.bankRef, c.documentRef, tail];
    assert [c.bankRef, c.documentRef, tail][1..] == [c.documentRef, tail] && [c.documentRef, tail][1..] == [tail];
    assert joined == c.descriptionNorm + [SEP] + (c.bankRef + [SEP] + (c.documentRef + [SEP] + tail));
    assert parts[4..] == [joined] && parts[..4] == Fields(c)[..4];
    assert JoinFields([c.documentRef, tail]) == c.documentRef + [SEP] + tail;
    assert JoinFields([c.bankRef, c.documentRef, tail]) == c.bankRef + [SEP] + (c.documentRef + [SEP] + tail);
    assert JoinFields(Fields(c)[4..]) == JoinFields([joined]);
    SameTail(Fields(c), parts, 4);
  }

  /** Texts that run together to the same whole make the same key. */
  lemma SameTexts(c: Content, d: Content)
    requires d == c.(descriptionNorm := d.descriptionNorm, bankRef := d.bankRef, documentRef := d.documentRef)
    requires c.descriptionNorm + [SEP] + c.bankRef + [SEP] + c.documentRef
          == d.descriptionNorm + [SEP] + d.bankRef + [SEP] + d.documentRef
    ensures ContentKey(c) == ContentKey(d)
  {
    hide ContentKey, JoinFields;
    KeyTail(c);
    KeyTail(d);
    assert Fields(c)[..4] == Fields(d)[..4];
  }

  /** The text that is hashed, in full. */
  lemma HashedText(c: Content, n: nat)
    ensures
      var sep := "\U{001F}";
      Keyed(ContentKey(c), n)
      == c.accountId + sep + Cursors.DateText(c.bookedOn) + sep + M.FormatInt(c.amount.minor) + sep + c.amount.currency
      + sep + c.descriptionNorm + sep + c.bankRef + sep + c.documentRef + sep + M.FormatInt(c.postingNo)
      + sep + M.FormatInt(n)
  {
    hide Cursors.DateText, M.FormatInt;
    var f := Fields(c);
    assert f[4..] == [c.descriptionNorm, c.bankRef, c.documentRef, M.FormatInt(c.postingNo)];
    KeyTail(c);
    var joined := c.descriptionNorm + [SEP] + c.bankRef + [SEP] + c.documentRef + [SEP] + M.FormatInt(c.postingNo);
    FiveFields(f[0], f[1], f[2], f[3], joined);
    assert f[..4] + [joined] == [f[0], f[1], f[2], f[3], joined];
  }

  lemma FiveFields(a: string, b: string, c: string, d: string, e: string)
    ensures JoinFields([a, b, c, d, e]) == a + [SEP] + b + [SEP] + c + [SEP] + d + [SEP] + e
  {
    assert [a, b, c, d, e][1..] == [b, c, d, e] && [b, c, d, e][1..] == [c, d, e];
    assert [c, d, e][1..] == [d, e] && [d, e][1..] == [e];
    assert JoinFields([d, e]) == d + [SEP] + e;
    assert JoinFields([c, d, e]) == c + [SEP] + JoinFields([d, e]);
    assert JoinFields([b, c, d, e]) == b + [SEP] + JoinFields([c, d, e]);
  }

  /** A row of a bank's statement, as every import makes it and txn_grain admits it: no
    * document, and posting number 0. */
  predicate BankRow(c: Content) {
    Framed(c) && c.documentRef == "" && c.postingNo == 0
  }

  /** The key of `c` is some other bank row's as well. */
  ghost predicate Shared(c: Content) {
    exists d :: d != c && BankRow(d) && ContentKey(d) == ContentKey(c)
  }

  /** Exactly then do two bank rows share a key: a separator in the description or in the
    * bank's reference moves the border between the two. */
  lemma KeyIsShared(c: Content)
    requires BankRow(c)
    ensures Shared(c) <==> !Free(c.descriptionNorm) || !Free(c.bankRef)
  {
    hide ContentKey;
    if !Free(c.descriptionNorm) {
      var x, y := Halves(c.descriptionNorm);
      var d := c.(descriptionNorm := x, bankRef := y + [SEP] + c.bankRef);
      assert c.descriptionNorm + [SEP] + c.bankRef == d.descriptionNorm + [SEP] + d.bankRef;
      SameTexts(c, d);
    } else if !Free(c.bankRef) {
      var x, y := Halves(c.bankRef);
      var d := c.(descriptionNorm := c.descriptionNorm + [SEP] + x, bankRef := y);
      assert c.descriptionNorm + [SEP] + c.bankRef == d.descriptionNorm + [SEP] + d.bankRef;
      assert |d.bankRef| < |c.bankRef|;
      SameTexts(c, d);
    } else if Shared(c) {
      var d :| d != c && BankRow(d) && ContentKey(d) == ContentKey(c);
      KeysTellApart(c, d);
      assert false;
    }
  }

  /** A document's reference is no safer: there too a separator lends the key to another
    * content, of a document or of none. */
  lemma DocumentKeyIsShared(c: Content)
    requires Framed(c) && !Free(c.documentRef)
    ensures exists d :: d != c && Framed(d) && d.postingNo == c.postingNo && ContentKey(d) == ContentKey(c)
  {
    hide ContentKey;
    var x, y := Halves(c.documentRef);
    var d := c.(bankRef := c.bankRef + [SEP] + x, documentRef := y);
    assert c.bankRef + [SEP] + c.documentRef == d.bankRef + [SEP] + d.documentRef;
    assert |d.bankRef| > |c.bankRef|;
    SameTexts(c, d);
  }

  /** So two rows that differ in their texts alone: one key, and the second is skipped as a
    * duplicate of the first. */
  lemma SeparatorConfuses(c: Content)
    ensures
      var a := c.(descriptionNorm := [SEP], bankRef := "");
      var b := c.(descriptionNorm := "", bankRef := [SEP]);
      a != b && ContentKey(a) == ContentKey(b)
  {
    hide ContentKey;
    SameTexts(c.(descriptionNorm := [SEP], bankRef := ""), c.(descriptionNorm := "", bankRef := [SEP]));
  }

  /** A text that contains the separator, cut at one. */
  lemma Halves(s: string) returns (x: string, y: string)
    requires !Free(s)
    ensures s == x + [SEP] + y && |x| < |s| && |y| < |s|
  {
    var i :| 0 <= i < |s| && s[i] == SEP;
    x, y := s[..i], s[i + 1..];
  }

  lemma {:induction false} SameTail(a: seq<string>, b: seq<string>, k: nat)
    requires k < |a| && k < |b| && a[..k] == b[..k] && JoinFields(a[k..]) == JoinFields(b[k..])
    ensures JoinFields(a) == JoinFields(b)
    decreases k
  {
    if k == 0 {
      assert a[0..] == a && b[0..] == b;
    } else {
      assert a[0] == a[..k][0] == b[..k][0] == b[0];
      assert a[1..][..k - 1] == a[..k][1..] && b[1..][..k - 1] == b[..k][1..];
      assert a[1..][k - 1..] == a[k..] && b[1..][k - 1..] == b[k..];
      SameTail(a[1..], b[1..], k - 1);
    }
  }

  /** A hashed text names one key and one occurrence, whatever the key contains. */
  lemma KeyedIsInjective(k1: string, n1: nat, k2: string, n2: nat)
    requires Keyed(k1, n1) == Keyed(k2, n2)
    ensures k1 == k2 && n1 == n2
  {
    hide M.FormatInt;
    IntTextIsFree(n1);
    IntTextIsFree(n2);
    LastSeparator(k1, M.FormatInt(n1));
    LastSeparator(k2, M.FormatInt(n2));
    hide LastIndex;
    var s := Keyed(k1, n1);
    assert s[..|k1|] == k1 && s[..|k2|] == k2;
    assert s[|k1| + 1..] == M.FormatInt(n1) && s[|k2| + 1..] == M.FormatInt(n2);
    IntTextIsInjective(n1, n2);
  }

  lemma LastSeparator(key: string, tail: string)
    requires Free(tail)
    ensures LastIndex(key + [SEP] + tail, SEP) == |key|
  {
    hide LastIndex;
    var s, i := key + [SEP] + tail, LastIndex(key + [SEP] + tail, SEP);
    assert s[|key|] == SEP;
    forall k | |key| < k < |s|
      ensures s[k] != SEP
    {
      assert s[k] == tail[k - |key| - 1];
    }
  }

  // ---- Occurrences ------------------------------------------------------------------------

  function Count(keys: seq<string>, key: string): nat {
    if keys == [] then 0 else Count(keys[..|keys| - 1], key) + if keys[|keys| - 1] == key then 1 else 0
  }

  /** The hash of each row of a file: its key, and how often the key has come so far. */
  function Hashes(keys: seq<string>, hash: string -> string): (r: seq<string>)
    ensures |r| == |keys|
  {
    if keys == [] then []
    else
      var key := keys[|keys| - 1];
      Hashes(keys[..|keys| - 1], hash) + [hash(Keyed(key, Count(keys, key)))]
  }

  /** Partition: one pass, counting each key as it comes. */
  method Partition(contents: seq<Content>, hash: string -> string) returns (hashes: seq<string>)
    ensures hashes == Hashes(Keys(contents), hash)
  {
    hide ContentKey, Keyed;
    hashes := [];
    var seen: map<string, nat> := map[];
    var keys := Keys(contents);
    for i := 0 to |contents|
      invariant hashes == Hashes(keys[..i], hash)
      invariant forall key :: (if key in seen then seen[key] else 0) == Count(keys[..i], key)
    {
      assert keys[..i + 1][..i] == keys[..i];
      var key := keys[i];
      seen := seen[key := (if key in seen then seen[key] else 0) + 1];
      hashes := hashes + [hash(Keyed(key, seen[key]))];
    }
    assert keys[..|contents|] == keys;
  }

  function Keys(contents: seq<Content>): (keys: seq<string>)
    ensures |keys| == |contents| && forall i :: 0 <= i < |keys| ==> keys[i] == ContentKey(contents[i])
  {
    seq(|contents|, i requires 0 <= i < |contents| => ContentKey(contents[i]))
  }

  // ---- Imports ----------------------------------------------------------------------------

  /** The hashes of a file that nothing imported before it has. */
  function Fresh(stored: seq<string>, hashes: seq<string>): (r: seq<string>)
    ensures |r| <= |hashes|
    ensures forall h :: h in r <==> h in hashes && h !in stored
  {
    if hashes == [] then []
    else
      var h := hashes[|hashes| - 1];
      Fresh(stored, hashes[..|hashes| - 1]) + if h in stored then [] else [h]
  }

  /** One file imported after others: every hash is looked up among what was stored
    * before the file, and what is found is recorded as a skip instead. */
  method Import(stored: seq<string>, contents: seq<Content>, hash: string -> string)
    returns (after: seq<string>, inserted: nat, skipped: nat)
    ensures after == stored + Fresh(stored, Hashes(Keys(contents), hash))
    ensures |after| == |stored| + inserted && inserted + skipped == |contents|
  {
    hide Hashes, Fresh;
    var hashes := Partition(contents, hash);
    var toInsert;
    toInsert, skipped := LookUp(stored, hashes);
    after := stored + toInsert;
    inserted := |toInsert|;
  }

  method LookUp(stored: seq<string>, hashes: seq<string>) returns (toInsert: seq<string>, skipped: nat)
    ensures toInsert == Fresh(stored, hashes) && |toInsert| + skipped == |hashes|
  {
    toInsert, skipped := [], 0;
    for i := 0 to |hashes|
      invariant toInsert == Fresh(stored, hashes[..i])
      invariant |toInsert| + skipped == i
    {
      FreshStep(stored, hashes, i);
      if hashes[i] in stored {
        skipped := skipped + 1;
      } else {
        toInsert := toInsert + [hashes[i]];
      }
    }
    assert hashes[..|hashes|] == hashes;
  }

  lemma FreshStep(stored: seq<string>, hashes: seq<string>, i: nat)
    requires i < |hashes|
    ensures Fresh(stored, hashes[..i + 1])
         == if hashes[i] in stored then Fresh(stored, hashes[..i]) else Fresh(stored, hashes[..i]) + [hashes[i]]
  {
    assert hashes[..i + 1][..i] == hashes[..i];
    assert Fresh(stored, hashes[..i]) + [] == Fresh(stored, hashes[..i]);
  }

  /** What is stored after a history of files, each given by its rows' keys. */
  function Stored(history: seq<seq<string>>, hash: string -> string): seq<string> {
    if history == [] then []
    else
      var before := Stored(history[..|history| - 1], hash);
      before + Fresh(before, Hashes(history[|history| - 1], hash))
  }

  /** The largest number of times a key occurs in any one file. */
  function MostInOne(history: seq<seq<string>>, key: string): nat {
    if history == [] then 0
    else
      var before, last := MostInOne(history[..|history| - 1], key), Count(history[|history| - 1], key);
      if before < last then last else before
  }

  ghost predicate Injective(hash: string -> string) {
    forall a, b :: hash(a) == hash(b) ==> a == b
  }

  ghost predicate Distinct(s: seq<string>) {
    forall i, j :: 0 <= i < j < |s| ==> s[i] != s[j]
  }

  lemma HashIsInjective(hash: string -> string, k1: string, n1: nat, k2: string, n2: nat)
    requires Injective(hash) && hash(Keyed(k1, n1)) == hash(Keyed(k2, n2))
    ensures k1 == k2 && n1 == n2
  {
    hide Keyed;
    KeyedIsInjective(k1, n1, k2, n2);
  }

  /** Within a file a key's hashes are its occurrences one by one, from the first to the
    * last of them, and no hash comes twice. */
  lemma {:induction false} FileHashes(keys: seq<string>, hash: string -> string, key: string, n: nat)
    requires Injective(hash)
    ensures hash(Keyed(key, n)) in Hashes(keys, hash) <==> 1 <= n <= Count(keys, key)
  {
    hide Keyed, Injective;
    if keys != [] {
      var before, last := keys[..|keys| - 1], keys[|keys| - 1];
      FileHashes(before, hash, key, n);
      if hash(Keyed(key, n)) == hash(Keyed(last, Count(keys, last))) {
        HashIsInjective(hash, key, n, last, Count(keys, last));
      }
    }
  }

  lemma {:induction false} FileIsDistinct(keys: seq<string>, hash: string -> string)
    requires Injective(hash)
    ensures Distinct(Hashes(keys, hash))
  {
    hide Keyed, Injective;
    if keys != [] {
      var before, last := keys[..|keys| - 1], keys[|keys| - 1];
      FileIsDistinct(before, hash);
      FileHashes(before, hash, last, Count(keys, last));
    }
  }

  lemma {:induction false} FreshIsDistinct(stored: seq<string>, hashes: seq<string>)
    requires Distinct(hashes)
    ensures Distinct(Fresh(stored, hashes))
  {
    if hashes != [] {
      var before, last := hashes[..|hashes| - 1], hashes[|hashes| - 1];
      FreshIsDistinct(stored, before);
      assert last !in before;
    }
  }

  /** After any history of imports, a key is stored for exactly the occurrences 1 to the most
    * that any one file held. */
  lemma {:induction false} KeyStoredIsMaximum(history: seq<seq<string>>, hash: string -> string, key: string, n: nat)
    requires Injective(hash)
    ensures hash(Keyed(key, n)) in Stored(history, hash) <==> 1 <= n <= MostInOne(history, key)
  {
    hide Keyed, Injective, Hashes, Count;
    if history != [] {
      KeyStoredIsMaximum(history[..|history| - 1], hash, key, n);
      FileHashes(history[|history| - 1], hash, key, n);
    }
  }

  /** The times a content comes in a file. */
  function Copies(file: seq<Content>, c: Content): nat {
    if file == [] then 0 else Copies(file[..|file| - 1], c) + if file[|file| - 1] == c then 1 else 0
  }

  /** The most often a content comes in any one file. */
  function MostCopies(files: seq<seq<Content>>, c: Content): nat {
    if files == [] then 0
    else
      var before, last := MostCopies(files[..|files| - 1], c), Copies(files[|files| - 1], c);
      if before < last then last else before
  }

  function AllKeys(files: seq<seq<Content>>): (history: seq<seq<string>>)
    ensures |history| == |files| && forall i :: 0 <= i < |files| ==> history[i] == Keys(files[i])
  {
    seq(|files|, i requires 0 <= i < |files| => Keys(files[i]))
  }

  /** A content without separators is counted by its key, whatever else the file holds. */
  lemma {:induction false} CopiesAreKeys(file: seq<Content>, c: Content)
    requires Clean(c)
    ensures Count(Keys(file), ContentKey(c)) == Copies(file, c)
  {
    hide ContentKey, Clean;
    if file != [] {
      var before, last := file[..|file| - 1], file[|file| - 1];
      assert Keys(file)[..|file| - 1] == Keys(before);
      CopiesAreKeys(before, c);
      KeysTellApart(c, last);
    }
  }

  lemma {:induction false} MostCopiesAreKeys(files: seq<seq<Content>>, c: Content)
    requires Clean(c)
    ensures MostInOne(AllKeys(files), ContentKey(c)) == MostCopies(files, c)
  {
    hide ContentKey, Clean, Keys, Count, Copies;
    if files != [] {
      assert AllKeys(files)[..|files| - 1] == AllKeys(files[..|files| - 1]);
      MostCopiesAreKeys(files[..|files| - 1], c);
      CopiesAreKeys(files[|files| - 1], c);
    }
  }

  /** After any history of imports, a content is stored for exactly the occurrences 1 to the
    * most that any one file held of it: no payment is lost, and none is counted twice for
    * being in two files. */
  lemma StoredIsMaximum(files: seq<seq<Content>>, hash: string -> string, c: Content, n: nat)
    requires Injective(hash) && Clean(c)
    ensures hash(Keyed(ContentKey(c), n)) in Stored(AllKeys(files), hash) <==> 1 <= n <= MostCopies(files, c)
  {
    hide Keyed, Injective, ContentKey, Clean, Stored, MostInOne, AllKeys;
    KeyStoredIsMaximum(AllKeys(files), hash, ContentKey(c), n);
    MostCopiesAreKeys(files, c);
  }

  lemma {:induction false} StoredOnce(history: seq<seq<string>>, hash: string -> string)
    requires Injective(hash)
    ensures Distinct(Stored(history, hash))
  {
    hide Injective, Hashes;
    if history != [] {
      var before, file := Stored(history[..|history| - 1], hash), history[|history| - 1];
      StoredOnce(history[..|history| - 1], hash);
      FileIsDistinct(file, hash);
      FreshIsDistinct(before, Hashes(file, hash));
      DistinctTogether(before, Fresh(before, Hashes(file, hash)));
    }
  }

  lemma DistinctTogether(a: seq<string>, b: seq<string>)
    requires Distinct(a) && Distinct(b) && forall h :: h in b ==> h !in a
    ensures Distinct(a + b)
  {
    var all := a + b;
    forall i, j | 0 <= i < j < |all|
      ensures all[i] != all[j]
    {
      if i < |a| <= j {
        assert all[j] in b && all[i] in a;
      }
    }
  }

  lemma {:induction false} MostIsLeast(history: seq<seq<string>>, key: string)
    ensures forall i :: 0 <= i < |history| ==> Count(history[i], key) <= MostInOne(history, key)
    ensures MostInOne(history, key) > 0 ==>
              exists i :: 0 <= i < |history| && Count(history[i], key) == MostInOne(history, key)
  {
    hide Count;
    if history != [] {
      var before := history[..|history| - 1];
      MostIsLeast(before, key);
      assert forall i :: 0 <= i < |before| ==> before[i] == history[i];
    }
  }

  /** A file imported again inserts nothing, however much was imported in between. */
  lemma ImportedAgain(history: seq<seq<string>>, i: nat, hash: string -> string)
    requires Injective(hash) && i < |history|
    ensures Fresh(Stored(history, hash), Hashes(history[i], hash)) == []
  {
    hide Keyed, Injective, Stored, Fresh;
    var file := history[i];
    forall k | 0 <= k < |file|
      ensures Hashes(file, hash)[k] in Stored(history, hash)
    {
      HashAt(file, hash, k);
      MostIsLeast(history, file[k]);
      CountGrows(file, k + 1, file[k]);
      KeyStoredIsMaximum(history, hash, file[k], Count(file[..k + 1], file[k]));
    }
    NothingFresh(Stored(history, hash), Hashes(file, hash));
  }

  lemma {:induction false} NothingFresh(stored: seq<string>, hashes: seq<string>)
    requires forall k :: 0 <= k < |hashes| ==> hashes[k] in stored
    ensures Fresh(stored, hashes) == []
  {
    if hashes != [] {
      NothingFresh(stored, hashes[..|hashes| - 1]);
    }
  }

  lemma {:induction false} HashAt(keys: seq<string>, hash: string -> string, k: nat)
    requires k < |keys|
    ensures Hashes(keys, hash)[k] == hash(Keyed(keys[k], Count(keys[..k + 1], keys[k])))
    ensures Count(keys[..k + 1], keys[k]) >= 1
  {
    hide Keyed;
    if k < |keys| - 1 {
      HashAt(keys[..|keys| - 1], hash, k);
      assert keys[..|keys| - 1][..k + 1] == keys[..k + 1];
    } else {
      assert keys[..k + 1] == keys;
    }
  }

  lemma {:induction false} CountGrows(keys: seq<string>, k: nat, key: string)
    requires k <= |keys|
    ensures Count(keys[..k], key) <= Count(keys, key)
  {
    if k == |keys| {
      assert keys[..k] == keys;
    } else {
      CountGrows(keys[..|keys| - 1], k, key);
      assert keys[..|keys| - 1][..k] == keys[..k];
    }
  }

  /** The order files are imported in does not matter. */
  lemma OrderDoesNotMatter(a: seq<seq<string>>, b: seq<seq<string>>, hash: string -> string, key: string, n: nat)
    requires Injective(hash) && multiset(a) == multiset(b)
    ensures hash(Keyed(key, n)) in Stored(a, hash) <==> hash(Keyed(key, n)) in Stored(b, hash)
  {
    hide Keyed, Injective, Stored, Count, MostInOne;
    KeyStoredIsMaximum(a, hash, key, n);
    KeyStoredIsMaximum(b, hash, key, n);
    MostOfSame(a, b, key);
    MostOfSame(b, a, key);
  }

  lemma MostOfSame(a: seq<seq<string>>, b: seq<seq<string>>, key: string)
    requires multiset(a) == multiset(b)
    ensures MostInOne(a, key) <= MostInOne(b, key)
  {
    hide Count, MostInOne;
    MostIsLeast(a, key);
    MostIsLeast(b, key);
    if MostInOne(a, key) > 0 {
      var i :| 0 <= i < |a| && Count(a[i], key) == MostInOne(a, key);
      assert a[i] in multiset(b);
      var j :| 0 <= j < |b| && b[j] == a[i];
    }
  }
}
