/** What a rule asks of a transaction, told of the transaction's own fields, and when the
  * engine refuses it instead. */
module RuleMeaning {
  import opened Wrappers
  import opened Engine
  import Text

  // ---- Texts -------------------------------------------------------------------------------------

  /** `part` is a stretch of `s`. */
  ghost predicate Occurs(part: string, s: string) {
    exists before, after :: Around(s, before, part, after)
  }

  predicate Around(s: string, before: string, part: string, after: string) {
    s == before + part + after
  }

  lemma {:induction false} ContainsMeans(s: string, part: string)
    ensures Contains(s, part) <==> Occurs(part, s)
  {
    if part <= s {
      assert Around(s, "", part, s[|part|..]);
    } else if s == "" {
      NothingInNothing(part);
    } else {
      ContainsMeans(s[1..], part);
      if Occurs(part, s[1..]) {
        var before, after :| Around(s[1..], before, part, after);
        assert s == [s[0]] + s[1..] == ([s[0]] + before) + part + after;
        assert Around(s, [s[0]] + before, part, after);
      }
      if Occurs(part, s) {
        var before, after :| Around(s, before, part, after);
        assert before == "" ==> part <= s;
        assert s[1..] == before[1..] + part + after;
        assert Around(s[1..], before[1..], part, after);
      }
    }
  }

  lemma NothingInNothing(part: string)
    requires part != ""
    ensures !Occurs(part, "")
  {
  }

  /** A list of parts as it is written, `c` between them. */
  function Joined(parts: seq<string>, c: char): string {
    if parts == [] then "" else if |parts| == 1 then parts[0] else parts[0] + [c] + Joined(parts[1..], c)
  }

  ghost predicate Without(parts: seq<string>, c: char) {
    forall k :: 0 <= k < |parts| ==> c !in parts[k]
  }

  lemma {:induction false} SplitJoins(s: string, c: char)
    ensures Joined(Split(s, c), c) == s && Without(Split(s, c), c)
  {
    if s != "" {
      var rest, parts := Split(s[1..], c), Split(s, c);
      SplitJoins(s[1..], c);
      if s[0] == c {
        assert parts[1..] == rest;
        assert Joined(parts, c) == "" + [c] + Joined(rest, c);
      } else {
        assert parts[1..] == rest[1..] && parts[0] == [s[0]] + rest[0];
        assert |rest| > 1 ==> Joined(rest, c) == rest[0] + [c] + Joined(rest[1..], c);
        assert Joined(parts, c) == [s[0]] + Joined(rest, c);
      }
      assert s == [s[0]] + s[1..];
    }
  }

  lemma {:induction false} SplitFirst(first: string, c: char, rest: string)
    requires c !in first
    ensures Split(first + [c] + rest, c) == [first] + Split(rest, c)
    ensures Split(first, c) == [first]
  {
    if first == "" {
      assert first + [c] + rest == [c] + rest;
    } else {
      var s := first + [c] + rest;
      assert s[0] == first[0] && s[1..] == first[1..] + [c] + rest;
      SplitFirst(first[1..], c, rest);
      assert [first[0]] + first[1..] == first;
      assert ([first[1..]] + Split(rest, c))[1..] == Split(rest, c);
    }
  }

  /** There is one way to read it back. */
  lemma {:induction false} JoinedIsRead(parts: seq<string>, c: char)
    requires parts != [] && Without(parts, c)
    ensures Split(Joined(parts, c), c) == parts
  {
    if |parts| == 1 {
      SplitFirst(parts[0], c, "");
    } else {
      JoinedIsRead(parts[1..], c);
      SplitFirst(parts[0], c, Joined(parts[1..], c));
      assert [parts[0]] + parts[1..] == parts;
    }
  }

  /** `p` is `s` without the spaces around it. */
  ghost predicate TrimsTo(s: string, p: string) {
    exists i: nat, j: nat :: TrimsAt(s, p, i, j)
  }

  ghost predicate TrimsAt(s: string, p: string, i: nat, j: nat) {
    && i <= j <= |s| && p == s[i..j]
    && (forall k :: 0 <= k < i ==> IsBlank(s[k])) && (forall k :: j <= k < |s| ==> IsBlank(s[k]))
    && (p == "" || (!IsBlank(p[0]) && !IsBlank(p[|p| - 1])))
  }

  /** The characters Python's strip takes away, of those ASCII has. */
  predicate IsBlank(c: char) {
    c in " \t\n\r\U{000B}\U{000C}\U{001C}\U{001D}\U{001E}\U{001F}"
  }

  lemma BlankIsSpace(c: char)
    ensures IsBlank(c) <==> IsSpace(c)
  {
  }

  lemma {:induction false} StripTrims(s: string)
    ensures TrimsTo(s, Strip(s))
    decreases |s|
  {
    hide IsSpace, IsBlank, TrimsTo;
    forall c
      ensures IsBlank(c) <==> IsSpace(c)
    {
      BlankIsSpace(c);
    }
    if s != "" && IsSpace(s[0]) {
      StripTrims(s[1..]);
      SpaceBefore(s, Strip(s));
    } else if s != "" && IsSpace(s[|s| - 1]) {
      StripTrims(s[..|s| - 1]);
      SpaceAfter(s, Strip(s));
    } else {
      NoSpace(s);
    }
  }

  lemma SpaceBefore(s: string, p: string)
    requires s != "" && IsBlank(s[0]) && TrimsTo(s[1..], p)
    ensures TrimsTo(s, p)
  {
    hide IsBlank;
    var i: nat, j: nat :| TrimsAt(s[1..], p, i, j);
    assert forall k :: 1 <= k < |s| ==> s[k] == s[1..][k - 1];
    assert TrimsAt(s, p, i + 1, j + 1);
  }

  lemma SpaceAfter(s: string, p: string)
    requires s != "" && IsBlank(s[|s| - 1]) && TrimsTo(s[..|s| - 1], p)
    ensures TrimsTo(s, p)
  {
    hide IsBlank;
    var i: nat, j: nat :| TrimsAt(s[..|s| - 1], p, i, j);
    assert forall k :: 0 <= k < |s| - 1 ==> s[k] == s[..|s| - 1][k];
    assert TrimsAt(s, p, i, j);
  }

  lemma NoSpace(s: string)
    requires s == "" || (!IsBlank(s[0]) && !IsBlank(s[|s| - 1]))
    ensures TrimsTo(s, s)
  {
    hide IsBlank;
    assert s[0..|s|] == s;
    assert TrimsAt(s, s, 0, |s|);
  }

  lemma TrimIsUnique(s: string, p: string, q: string)
    requires TrimsTo(s, p) && TrimsTo(s, q)
    ensures p == q
  {
    hide IsBlank;
    var i: nat, j: nat :| TrimsAt(s, p, i, j);
    var a: nat, b: nat :| TrimsAt(s, q, a, b);
    assert p != "" ==> p[0] == s[i] && p[|p| - 1] == s[j - 1];
    assert q != "" ==> q[0] == s[a] && q[|q| - 1] == s[b - 1];
    if p != "" && q != "" {
      assert i == a && j == b;
    }
  }

  /** The list is parts with `;` between them, and each that is not blank occurs in the text. */
  ghost predicate MentionsAll(text: string, list: string) {
    exists parts :: IsList(parts, list) && Mentions(text, parts)
  }

  ghost predicate IsList(parts: seq<string>, list: string) {
    parts != [] && Without(parts, ';') && Joined(parts, ';') == list
  }

  ghost predicate Mentions(text: string, parts: seq<string>) {
    forall k, p :: 0 <= k < |parts| && TrimsTo(parts[k], p) && p != "" ==> Occurs(p, text)
  }

  lemma MentionsMeans(text: string, list: string)
    ensures ContainsAll(text, Split(list, ';')) <==> MentionsAll(text, list)
  {
    hide Joined, Without, Mentions, ContainsAll;
    SplitJoins(list, ';');
    ContainsAllMeans(text, Split(list, ';'));
    assert IsList(Split(list, ';'), list);
    if MentionsAll(text, list) {
      var parts :| IsList(parts, list) && Mentions(text, parts);
      JoinedIsRead(parts, ';');
    }
  }

  lemma ContainsAllMeans(text: string, parts: seq<string>)
    ensures ContainsAll(text, parts) <==> Mentions(text, parts)
  {
    hide TrimsTo, Occurs, Contains, Strip;
    forall k | 0 <= k < |parts|
      ensures Contains(text, Strip(parts[k]))
         <==> forall p :: TrimsTo(parts[k], p) && p != "" ==> Occurs(p, text)
    {
      StripTrims(parts[k]);
      ContainsMeans(text, Strip(parts[k]));
      NothingOccurs(text);
      forall p | TrimsTo(parts[k], p)
        ensures p == Strip(parts[k])
      {
        TrimIsUnique(parts[k], p, Strip(parts[k]));
      }
    }
  }

  lemma NothingOccurs(text: string)
    ensures Occurs("", text)
  {
    assert Around(text, "", "", text);
  }

  /** The same letters, whatever their case. */
  ghost predicate SameLetters(a: string, b: string) {
    |a| == |b| && forall i :: 0 <= i < |a| ==> SameLetter(a[i], b[i])
  }

  predicate SameLetter(x: char, y: char) {
    || x == y
    || ('A' <= x <= 'Z' && y as int == x as int + 32)
    || ('A' <= y <= 'Z' && x as int == y as int + 32)
  }

  lemma {:induction false} LowerMeans(a: string, b: string)
    ensures Lower(a) == Lower(b) <==> SameLetters(a, b)
  {
    if a == "" || b == "" {
      assert |Lower(a)| == 0 <==> a == "";
      assert |Lower(b)| == 0 <==> b == "";
    } else {
      LowerMeans(a[1..], b[1..]);
      assert Lower(a)[0] == LowerChar(a[0]) && Lower(b)[0] == LowerChar(b[0]);
      assert Lower(a)[1..] == Lower(a[1..]) && Lower(b)[1..] == Lower(b[1..]);
      assert LowerChar(a[0]) == LowerChar(b[0]) <==> SameLetter(a[0], b[0]);
      if SameLetters(a, b) {
        assert forall i :: 0 <= i < |a[1..]| ==> a[1..][i] == a[i + 1] && b[1..][i] == b[i + 1];
      }
      if SameLetters(a[1..], b[1..]) && SameLetter(a[0], b[0]) {
        assert forall i :: 1 <= i < |a| ==> a[i] == a[1..][i - 1] && b[i] == b[1..][i - 1];
      }
    }
  }

  // ---- One condition -----------------------------------------------------------------------------

  /** Why a condition cannot be asked: a field there is none of, or an operator its field does
    * not have. */
  function Refusal(c: Condition): Option<Rejection> {
    if c.field !in ["description", "direction", "regulated_code", "counterparty_key", "account", "amount"]
    then Some(UnsupportedField)
    else if (c.field == "description" && c.op != "contains_all") || (c.field == "amount" && c.op !in ["gte", "lte"])
            || (c.field !in ["description", "amount"] && c.op != "eq")
      then Some(UnsupportedOperator)
      else None
  }

  /** What a condition asks. Amounts are only compared within one currency, and then each way
    * to and including the amount named. */
  ghost predicate Met(txn: Txn, c: Condition) {
    && (c.field == "description" ==> MentionsAll(txn.descriptionNorm, c.value))
    && (c.field == "direction" ==> SameLetters(txn.direction, c.value))
    && (c.field == "regulated_code" ==> c.value == txn.regulatedCode)
    && (c.field == "counterparty_key" ==> c.value == txn.counterpartyKey)
    && (c.field == "account" ==> c.value == txn.accountId)
    && (c.field == "amount" ==>
          && txn.amount.currency == c.amountValue.currency && txn.amount.currency != ""
          && (c.op == "gte" ==> c.amountValue.minor <= txn.amount.minor)
          && (c.op == "lte" ==> txn.amount.minor <= c.amountValue.minor))
  }

  lemma ConditionMeans(txn: Txn, c: Condition)
    ensures ConditionHolds(txn, c)
         == match Refusal(c) case Some(e) => Err(e) case None => Ok(Met(txn, c))
  {
    hide ContainsAll, Split, MentionsAll, Lower, SameLetters;
    MentionsMeans(txn.descriptionNorm, c.value);
    LowerMeans(txn.direction, c.value);
  }

  // ---- A rule ------------------------------------------------------------------------------------

  lemma {:induction false} AllHoldMeans(txn: Txn, all: seq<Condition>)
    ensures AllHold(txn, all) == Ok(true) <==> forall k :: 0 <= k < |all| ==> Refusal(all[k]).None? && Met(txn, all[k])
    ensures forall e :: AllHold(txn, all) == Err(e) <==> exists k: nat :: RefusedFirst(txn, all, e, k)
  {
    hide ConditionHolds, Refusal, Met;
    if all != [] {
      var rest := all[1..];
      ConditionMeans(txn, all[0]);
      AllHoldMeans(txn, rest);
      assert forall k :: 1 <= k < |all| ==> all[k] == rest[k - 1];
      forall e
        ensures AllHold(txn, all) == Err(e) <==> exists k: nat :: RefusedFirst(txn, all, e, k)
      {
        RefusedFurtherOn(txn, all, e);
      }
    }
  }

  /** Condition `k` is refused, and every one before it is met. */
  ghost predicate RefusedFirst(txn: Txn, all: seq<Condition>, e: Rejection, k: nat) {
    && k < |all| && Refusal(all[k]) == Some(e)
    && forall j :: 0 <= j < k ==> Refusal(all[j]).None? && Met(txn, all[j])
  }

  lemma RefusedFurtherOn(txn: Txn, all: seq<Condition>, e: Rejection)
    requires all != []
    ensures (exists k: nat :: RefusedFirst(txn, all, e, k))
       <==> || Refusal(all[0]) == Some(e)
            || (Refusal(all[0]).None? && Met(txn, all[0]) && exists k: nat :: RefusedFirst(txn, all[1..], e, k))
  {
    hide Refusal, Met;
    var rest := all[1..];
    assert forall k :: 1 <= k < |all| ==> all[k] == rest[k - 1];
    if Refusal(all[0]) == Some(e) {
      assert RefusedFirst(txn, all, e, 0);
    }
    if Refusal(all[0]).None? && Met(txn, all[0]) && exists k: nat :: RefusedFirst(txn, rest, e, k) {
      var k: nat :| RefusedFirst(txn, rest, e, k);
      assert RefusedFirst(txn, all, e, k + 1);
    }
    if k: nat :| RefusedFirst(txn, all, e, k) && k > 0 {
      assert RefusedFirst(txn, rest, e, k - 1);
    }
  }

  /** A rule matches when its kind of source is left open or is the transaction's, it asks
    * something, and everything it asks is met; it is refused when it is of that kind and asks
    * nothing, or when it comes to something that cannot be asked while all before it was met. */
  lemma RuleMeans(txn: Txn, rule: Rule)
    ensures RuleMatches(txn, rule) == Ok(true)
       <==> && (rule.sourceKind == "" || txn.sourceKind == rule.sourceKind) && rule.all != []
            && forall k :: 0 <= k < |rule.all| ==> Refusal(rule.all[k]).None? && Met(txn, rule.all[k])
    ensures forall e ::
              RuleMatches(txn, rule) == Err(e)
              <==> && (rule.sourceKind == "" || txn.sourceKind == rule.sourceKind)
                   && ((rule.all == [] && e == EmptyMatcher) || exists k: nat :: RefusedFirst(txn, rule.all, e, k))
  {
    hide AllHold, Refusal, Met;
    AllHoldMeans(txn, rule.all);
    assert rule.all == [] ==> forall e, k: nat :: !RefusedFirst(txn, rule.all, e, k);
  }

  // ---- One transaction ------------------------------------------------------------------------------

  /** Memory is what the last row of the key says. */
  lemma {:induction false} MemoryIsLast(vendors: seq<Vendor>, key: string)
    ensures Remembered(vendors, key).Some? ==>
              exists k :: 0 <= k < |vendors| && vendors[k] == Remembered(vendors, key).value && vendors[k].key == key
                          && forall j :: k < j < |vendors| ==> vendors[j].key != key
    ensures Remembered(vendors, key).None? <==> forall k :: 0 <= k < |vendors| ==> vendors[k].key != key
  {
    if vendors != [] && vendors[|vendors| - 1].key != key {
      MemoryIsLast(vendors[..|vendors| - 1], key);
    }
  }

  /** The evidence of memory: which of its own names the key was remembered under. */
  lemma TierMeans(key: string, prefix: string, rest: string)
    requires ':' !in prefix && (key == prefix || key == prefix + [':'] + rest)
    ensures Tier(key) == match prefix
                         case "tax" => "tax_id"
                         case "name" => "name"
                         case "acct" => "account"
                         case _ => prefix
  {
    hide Split;
    SplitFirst(prefix, ':', rest);
  }

  /** A proposal is made of an answer exactly when the answer's layer is sure enough: memory at
    * 1.00, a regulated code at 0.99, a text at 0.95, against the threshold asked for, which is
    * 0.80 where none is. A rule's layer is the regulator's if any of its conditions is about
    * the regulated code. */
  lemma ProposalMeans(txn: Txn, req: BatchRequest)
    ensures
      var asked := if req.threshold == 0.0 then 0.80 else req.threshold;
      var memory := Remembered(req.vendors, txn.counterpartyKey);
      && (txn.counterpartyKey != "" && memory.Some? ==>
            Proposed(txn, req)
            == Ok(if asked <= 1.00
                  then [Proposal(txn.id, Answer(memory.value.categoryCode, L0, Tier(txn.counterpartyKey), 0))] else []))
      && (txn.counterpartyKey == "" || memory.None? ==>
            (forall j :: 0 <= j < |req.rules| ==> RuleMatches(txn, req.rules[j]) == Ok(false)) ==>
              Proposed(txn, req) == Ok([]))
  {
    hide RuleMatches, Tier, Remembered, Filtered, Scan;
    if txn.counterpartyKey == "" || Remembered(req.vendors, txn.counterpartyKey).None? {
      var w := AnswerIsLeast(txn, req.rules, req.vendors);
    }
  }

  /** Where memory is silent, the proposal is that of the first rule to settle the matter, the
    * rules about the regulated code before the others and each kind in the order of the
    * request; or its refusal. */
  lemma RuleProposalMeans(txn: Txn, req: BatchRequest, w: nat)
    requires txn.counterpartyKey == "" || Remembered(req.vendors, txn.counterpartyKey).None?
    requires w < |req.rules| && RuleMatches(txn, req.rules[w]) != Ok(false)
    requires
      forall j :: 0 <= j < |req.rules| && j != w && RuleMatches(txn, req.rules[j]) != Ok(false) ==>
                    var mine, other := AsksRegulator(req.rules[w]), AsksRegulator(req.rules[j]);
                    (mine && !other) || (mine == other && w < j)
    ensures
      var asked := if req.threshold == 0.0 then 0.80 else req.threshold;
      var rule, regulated := req.rules[w], AsksRegulator(req.rules[w]);
      Proposed(txn, req)
      == match RuleMatches(txn, rule)
         case Err(e) => Err(e)
         case Ok(_) =>
           Ok(if (if regulated then 0.99 else 0.95) >= asked
              then [Proposal(txn.id,
                             Answer(rule.categoryCode, if regulated then L05 else L1, rule.scope, rule.priority))]
              else [])
  {
    hide RuleMatches, Tier, Remembered, Filtered, Scan, IsRegulated;
    forall j | 0 <= j < |req.rules|
      ensures AsksRegulator(req.rules[j]) <==> IsRegulated(req.rules[j])
    {
      RegulatorMeans(req.rules[j]);
    }
    var v := AnswerIsLeast(txn, req.rules, req.vendors);
    assert Settles(txn, req.rules[w]);
    assert v == w;
  }

  ghost predicate AsksRegulator(rule: Rule) {
    exists c :: c in rule.all && c.field == "regulated_code"
  }

  lemma RegulatorMeans(rule: Rule)
    ensures AsksRegulator(rule) <==> IsRegulated(rule)
  {
    if IsRegulated(rule) {
      var k :| 0 <= k < |rule.all| && rule.all[k].field == "regulated_code";
      assert rule.all[k] in rule.all;
    }
  }

  /** `a` comes before `b` in the query: the organisation's own rules before the templates, then by
    * priority, then by id. */
  predicate Comes(a: Stored, b: Stored) {
    || (a.own && !b.own)
    || (a.own == b.own && a.rule.priority < b.rule.priority)
    || (a.own == b.own && a.rule.priority == b.rule.priority && Text.Less(a.id, b.id))
  }

  /** Over the rules as the query orders them, where memory is silent, the answer is that of the
    * rule least by: about the regulated code, own, priority, id, among those that match or are
    * refused. */
  lemma LeastRuleAnswers(txn: Txn, rows: seq<Stored>, vendors: seq<Vendor>, w: nat)
    requires forall i, j :: 0 <= i < j < |rows| ==> Comes(rows[i], rows[j])
    requires txn.counterpartyKey == "" || Remembered(vendors, txn.counterpartyKey).None?
    requires w < |rows| && RuleMatches(txn, rows[w].rule) != Ok(false)
    requires
      forall j :: 0 <= j < |rows| && j != w && RuleMatches(txn, rows[j].rule) != Ok(false) ==>
                    var mine, other := AsksRegulator(rows[w].rule), AsksRegulator(rows[j].rule);
                    (mine && !other) || (mine == other && Comes(rows[w], rows[j]))
    ensures
      var rule := rows[w].rule;
      ClassifyOne(txn, Filtered(Rules(rows), true), Filtered(Rules(rows), false), vendors)
      == match RuleMatches(txn, rule)
         case Err(e) => Err(e)
         case Ok(_) =>
           Ok(Some(Answer(rule.categoryCode, if AsksRegulator(rule) then L05 else L1, rule.scope, rule.priority)))
  {
    hide RuleMatches, Filtered, Remembered, IsRegulated;
    forall j | 0 <= j < |rows|
      ensures AsksRegulator(rows[j].rule) <==> IsRegulated(rows[j].rule)
    {
      RegulatorMeans(rows[j].rule);
    }
    AnswerIsArgmin(txn, rows, vendors, w);
  }
}
