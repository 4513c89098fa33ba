/** The classification engine: layers tried in order, rules first-match-wins within a
  * layer, and a batch that is answered whole or refused whole. */
module Engine {
  import opened Wrappers
  import opened Text
  import M = Money

  datatype Rejection =
    | UnsupportedNormalizeVersion | CategoryNotInRequest | UnsupportedOperator | UnsupportedField | EmptyMatcher

  datatype Condition = Condition(field: string, op: string, value: string, amountValue: M.Amount)

  datatype Rule = Rule(priority: int, scope: string, sourceKind: string, all: seq<Condition>, categoryCode: string)

  datatype Vendor = Vendor(key: string, categoryCode: string)

  datatype Txn = Txn(
    id: string, sourceKind: string, descriptionNorm: string, direction: string, regulatedCode: string,
    counterpartyKey: string, accountId: string, amount: M.Amount)

  /** Vendor memory, a regulated code, a rule over text: in that order. */
  datatype Layer = L0 | L05 | L1

  datatype Answer = Answer(categoryCode: string, layer: Layer, evidence: string, priority: int)

  datatype Proposal = Proposal(transactionId: string, answer: Answer)

  datatype BatchRequest = BatchRequest(
    normalizeVersion: string, categories: seq<string>, rules: seq<Rule>, vendors: seq<Vendor>, threshold: real,
    txns: seq<Txn>)

  const DEFAULT_THRESHOLD: real := 0.80

  function Confidence(layer: Layer): real {
    match layer
    case L0 => 1.00
    case L05 => 0.99
    case L1 => 0.95
  }

  // ---- Conditions -------------------------------------------------------------------------

  /** str.isspace, of the characters ASCII has. */
  predicate IsSpace(c: char) {
    c == ' ' || ('\t' <= c <= '\r') || ('\U{001C}' <= c <= '\U{001F}')
  }

  function Strip(s: string): string {
    if s != "" && IsSpace(s[0]) then Strip(s[1..])
    else if s != "" && IsSpace(s[|s| - 1]) then Strip(s[..|s| - 1])
    else s
  }

  function Split(s: string, c: char): (parts: seq<string>)
    ensures |parts| > 0
  {
    if s == "" then [""]
    else
      var rest := Split(s[1..], c);
      if s[0] == c then [""] + rest else [[s[0]] + rest[0]] + rest[1..]
  }

  predicate Contains(s: string, part: string) {
    part <= s || (s != "" && Contains(s[1..], part))
  }

  /** Every part of a `;` list that is not blank occurs in the text. */
  predicate ContainsAll(s: string, parts: seq<string>) {
    forall k :: 0 <= k < |parts| ==> Contains(s, Strip(parts[k]))
  }

  function LowerChar(c: char): char {
    if 'A' <= c <= 'Z' then 'a' + (c - 'A') else c
  }

  function Lower(s: string): string {
    if s == "" then "" else [LowerChar(s[0])] + Lower(s[1..])
  }

  function RequireEq(op: string, holds: bool): Result<bool, Rejection> {
    if op != "eq" then Err(UnsupportedOperator) else Ok(holds)
  }

  function ConditionHolds(txn: Txn, c: Condition): Result<bool, Rejection> {
    if c.field == "description" then
      if c.op != "contains_all" then Err(UnsupportedOperator)
      else Ok(ContainsAll(txn.descriptionNorm, Split(c.value, ';')))
    else if c.field == "direction" then RequireEq(c.op, Lower(txn.direction) == Lower(c.value))
    else if c.field == "regulated_code" then RequireEq(c.op, txn.regulatedCode == c.value)
    else if c.field == "counterparty_key" then RequireEq(c.op, txn.counterpartyKey == c.value)
    else if c.field == "account" then RequireEq(c.op, txn.accountId == c.value)
    else if c.field == "amount" then
      if c.op != "gte" && c.op != "lte" then Err(UnsupportedOperator)
      else if c.amountValue.currency == "" || c.amountValue.currency != txn.amount.currency then Ok(false)
      else if c.op == "gte" then Ok(txn.amount.minor >= c.amountValue.minor)
      else Ok(txn.amount.minor <= c.amountValue.minor)
    else Err(UnsupportedField)
  }

  /** all(...): stops at the first condition that fails or is refused. */
  function AllHold(txn: Txn, conditions: seq<Condition>): Result<bool, Rejection> {
    if conditions == [] then Ok(true)
    else
      var holds :- ConditionHolds(txn, conditions[0]);
      if holds then AllHold(txn, conditions[1..]) else Ok(false)
  }

  function RuleMatches(txn: Txn, rule: Rule): Result<bool, Rejection> {
    if rule.sourceKind != "" && rule.sourceKind != txn.sourceKind then Ok(false)
    else if rule.all == [] then Err(EmptyMatcher)
    else AllHold(txn, rule.all)
  }

  predicate IsRegulated(rule: Rule) {
    exists k :: 0 <= k < |rule.all| && rule.all[k].field == "regulated_code"
  }

  // ---- One transaction --------------------------------------------------------------------

  function Filtered(rules: seq<Rule>, regulated: bool): (r: seq<Rule>)
    ensures forall rule :: rule in r ==> rule in rules
  {
    if rules == [] then []
    else (if IsRegulated(rules[0]) == regulated then [rules[0]] else []) + Filtered(rules[1..], regulated)
  }

  /** The first rule of a list that matches, or that refuses the request. */
  function Scan(txn: Txn, rules: seq<Rule>): Result<Option<Rule>, Rejection> {
    if rules == [] then Ok(None)
    else
      var matches :- RuleMatches(txn, rules[0]);
      if matches then Ok(Some(rules[0])) else Scan(txn, rules[1..])
  }

  /** What the last vendor of that key remembers: later rows overwrite earlier ones. */
  function Remembered(vendors: seq<Vendor>, key: string): (v: Option<Vendor>)
    ensures v.Some? ==> v.value in vendors && v.value.key == key
    ensures v.None? ==> forall k :: 0 <= k < |vendors| ==> vendors[k].key != key
  {
    if vendors == [] then None
    else if vendors[|vendors| - 1].key == key then Some(vendors[|vendors| - 1])
    else Remembered(vendors[..|vendors| - 1], key)
  }

  function Tier(key: string): string {
    var prefix := Split(key, ':')[0];
    if prefix == "tax" then "tax_id" else if prefix == "name" then "name" else if prefix == "acct" then "account"
    else prefix
  }

  function ClassifyOne(txn: Txn, regulated: seq<Rule>, textual: seq<Rule>,
                       vendors: seq<Vendor>): Result<Option<Answer>, Rejection> {
    var memory := Remembered(vendors, txn.counterpartyKey);
    if txn.counterpartyKey != "" && memory.Some? then
      Ok(Some(Answer(memory.value.categoryCode, L0, Tier(txn.counterpartyKey), 0)))
    else
      var first :- Scan(txn, regulated);
      if first.Some? then Ok(Some(Answer(first.value.categoryCode, L05, first.value.scope, first.value.priority)))
      else
        var second :- Scan(txn, textual);
        if second.Some? then Ok(Some(Answer(second.value.categoryCode, L1, second.value.scope, second.value.priority)))
        else Ok(None)
  }

  // ---- A batch ----------------------------------------------------------------------------

  function Threshold(req: BatchRequest): real {
    if req.threshold == 0.0 then DEFAULT_THRESHOLD else req.threshold
  }

  /** A transaction's proposal, when a layer answers it with enough confidence. */
  function Proposed(txn: Txn, req: BatchRequest): Result<seq<Proposal>, Rejection> {
    var answer :- ClassifyOne(txn, Filtered(req.rules, true), Filtered(req.rules, false), req.vendors);
    if answer.None? || Confidence(answer.value.layer) < Threshold(req) then Ok([])
    else Ok([Proposal(txn.id, answer.value)])
  }

  /** The proposals of a list of transactions, refused at the first transaction that is. */
  function Proposals(txns: seq<Txn>, req: BatchRequest): Result<seq<Proposal>, Rejection> {
    if txns == [] then Ok([])
    else
      var before :- Proposals(txns[..|txns| - 1], req);
      var last :- Proposed(txns[|txns| - 1], req);
      Ok(before + last)
  }

  ghost predicate CodesKnown(req: BatchRequest) {
    && (forall k :: 0 <= k < |req.rules| ==> req.rules[k].categoryCode in req.categories)
    && (forall k :: 0 <= k < |req.vendors| ==> req.vendors[k].categoryCode in req.categories)
  }

  /** classify_batch: refused for its version or for a category it does not carry, and
    * otherwise answered one transaction at a time. */
  method ClassifyBatch(req: BatchRequest) returns (r: Result<seq<Proposal>, Rejection>)
    ensures req.normalizeVersion != "v1" ==> r == Err(UnsupportedNormalizeVersion)
    ensures req.normalizeVersion == "v1" && !CodesKnown(req) ==> r == Err(CategoryNotInRequest)
    ensures req.normalizeVersion == "v1" && CodesKnown(req) ==> r == Proposals(req.txns, req)
  {
    hide ClassifyOne, Filtered, Threshold;
    if req.normalizeVersion != "v1" {
      return Err(UnsupportedNormalizeVersion);
    }
    for k := 0 to |req.rules|
      invariant forall j :: 0 <= j < k ==> req.rules[j].categoryCode in req.categories
    {
      if req.rules[k].categoryCode !in req.categories {
        return Err(CategoryNotInRequest);
      }
    }
    for k := 0 to |req.vendors|
      invariant forall j :: 0 <= j < k ==> req.vendors[j].categoryCode in req.categories
    {
      if req.vendors[k].categoryCode !in req.categories {
        return Err(CategoryNotInRequest);
      }
    }
    var regulated, textual := Filtered(req.rules, true), Filtered(req.rules, false);
    var threshold := Threshold(req);
    var proposals: seq<Proposal> := [];
    for k := 0 to |req.txns|
      invariant Proposals(req.txns[..k], req) == Ok(proposals)
    {
      assert req.txns[..k + 1][..k] == req.txns[..k];
      var answer := ClassifyOne(req.txns[k], regulated, textual, req.vendors);
      if answer.Err? {
        RefusedAt(req, k);
        return Err(answer.error);
      }
      if answer.value.Some? && Confidence(answer.value.value.layer) >= threshold {
        proposals := proposals + [Proposal(req.txns[k].id, answer.value.value)];
      } else {
        assert proposals + [] == proposals;
      }
    }
    assert req.txns[..|req.txns|] == req.txns;
    return Ok(proposals);
  }

  lemma RefusedAt(req: BatchRequest, k: nat)
    requires k < |req.txns| && Proposals(req.txns[..k + 1], req).Err?
    ensures Proposals(req.txns, req) == Proposals(req.txns[..k + 1], req)
  {
    hide Proposed;
    RefusedWithin(req.txns, k + 1, req);
  }

  lemma {:induction false} RefusedWithin(txns: seq<Txn>, k: nat, req: BatchRequest)
    requires k <= |txns| && Proposals(txns[..k], req).Err?
    ensures Proposals(txns, req) == Proposals(txns[..k], req)
  {
    hide Proposed;
    if k == |txns| {
      assert txns[..k] == txns;
    } else {
      assert txns[..|txns| - 1][..k] == txns[..k];
      RefusedWithin(txns[..|txns| - 1], k, req);
    }
  }

  // ---- The answer is a minimum --------------------------------------------------------------

  /** A rule that settles the matter if it is reached: it matches, or it is refused. */
  predicate Settles(txn: Txn, rule: Rule) {
    RuleMatches(txn, rule) != Ok(false)
  }

  /** What the engine says when `rule` settles the matter. */
  function Verdict(txn: Txn, rule: Rule): Result<Option<Answer>, Rejection> {
    match RuleMatches(txn, rule)
    case Err(e) => Err(e)
    case Ok(_) => Ok(Some(Answer(rule.categoryCode, if IsRegulated(rule) then L05 else L1, rule.scope, rule.priority)))
  }

  /** Scanning one layer stops at the first rule of that layer that settles the matter. */
  lemma {:induction false} ScanStops(txn: Txn, rules: seq<Rule>, regulated: bool) returns (w: nat)
    ensures w <= |rules|
    ensures forall j :: 0 <= j < w && IsRegulated(rules[j]) == regulated ==> !Settles(txn, rules[j])
    ensures w < |rules| ==> IsRegulated(rules[w]) == regulated && Settles(txn, rules[w])
    ensures w < |rules| ==>
              Scan(txn, Filtered(rules, regulated))
              == match RuleMatches(txn, rules[w]) case Err(e) => Err(e) case Ok(_) => Ok(Some(rules[w]))
    ensures w == |rules| ==> Scan(txn, Filtered(rules, regulated)) == Ok(None)
  {
    hide RuleMatches, IsRegulated;
    if rules == [] {
      w := 0;
    } else if IsRegulated(rules[0]) == regulated && Settles(txn, rules[0]) {
      w := 0;
      assert Filtered(rules, regulated)[0] == rules[0];
    } else {
      w := ScanStops(txn, rules[1..], regulated);
      assert forall j :: 0 < j < |rules| ==> rules[j] == rules[1..][j - 1];
      if IsRegulated(rules[0]) == regulated {
        assert Filtered(rules, regulated)[1..] == Filtered(rules[1..], regulated);
      } else {
        assert Filtered(rules, regulated) == Filtered(rules[1..], regulated);
      }
      w := w + 1;
    }
  }

  predicate Silent(txn: Txn, vendors: seq<Vendor>) {
    txn.counterpartyKey == "" || Remembered(vendors, txn.counterpartyKey).None?
  }

  /** Does rule `a` of a list come before rule `b`? The regulator before wording, and
    * within a layer the order of the list. */
  predicate ComesFirst(rules: seq<Rule>, a: nat, b: nat)
    requires a < |rules| && b < |rules|
  {
    (IsRegulated(rules[a]) && !IsRegulated(rules[b])) || (IsRegulated(rules[a]) == IsRegulated(rules[b]) && a < b)
  }

  /** Two scans over two lists make one minimum: where memory is silent, the verdict is
    * that of the one rule which settles the matter and comes before every other that
    * does, however the layers are interleaved in the request. */
  lemma AnswerIsLeast(txn: Txn, rules: seq<Rule>, vendors: seq<Vendor>) returns (w: nat)
    requires Silent(txn, vendors)
    ensures w <= |rules|
    ensures w == |rules| <==> forall j :: 0 <= j < |rules| ==> !Settles(txn, rules[j])
    ensures w < |rules| ==>
              && Settles(txn, rules[w])
              && (forall j :: 0 <= j < |rules| && j != w && Settles(txn, rules[j]) ==> ComesFirst(rules, w, j))
    ensures ClassifyOne(txn, Filtered(rules, true), Filtered(rules, false), vendors)
         == if w == |rules| then Ok(None) else Verdict(txn, rules[w])
  {
    hide RuleMatches, IsRegulated, Filtered;
    w := ScanStops(txn, rules, true);
    if w == |rules| {
      w := ScanStops(txn, rules, false);
    }
  }

  /** A rule as it is stored: whose it is, and its id. */
  datatype Stored = Stored(own: bool, id: string, rule: Rule)

  /** ORDER BY (org_id IS NULL), priority, id */
  predicate QueryOrder(a: Stored, b: Stored) {
    if a.own != b.own then a.own
    else if a.rule.priority != b.rule.priority then a.rule.priority < b.rule.priority
    else Less(a.id, b.id)
  }

  ghost predicate Ordered(rows: seq<Stored>) {
    forall i, j :: 0 <= i < j < |rows| ==> QueryOrder(rows[i], rows[j])
  }

  function Rules(rows: seq<Stored>): (rules: seq<Rule>)
    ensures |rules| == |rows| && forall k :: 0 <= k < |rows| ==> rules[k] == rows[k].rule
  {
    seq(|rows|, k requires 0 <= k < |rows| => rows[k].rule)
  }

  /** (regulated before textual, own before template, priority, id) */
  predicate Outranks(a: Stored, b: Stored) {
    if IsRegulated(a.rule) != IsRegulated(b.rule) then IsRegulated(a.rule) else QueryOrder(a, b)
  }

  /** Over the rules as the query orders them the engine's answer is the lexicographic
    * minimum of those that settle the matter; and vendor memory comes before them all. */
  lemma AnswerIsArgmin(txn: Txn, rows: seq<Stored>, vendors: seq<Vendor>, w: nat)
    requires Ordered(rows) && w < |rows|
    requires Settles(txn, rows[w].rule)
    requires forall j :: 0 <= j < |rows| && j != w && Settles(txn, rows[j].rule) ==> Outranks(rows[w], rows[j])
    ensures
      var answer := ClassifyOne(txn, Filtered(Rules(rows), true), Filtered(Rules(rows), false), vendors);
      var memory := Remembered(vendors, txn.counterpartyKey);
      if txn.counterpartyKey != "" && memory.Some?
      then answer == Ok(Some(Answer(memory.value.categoryCode, L0, Tier(txn.counterpartyKey), 0)))
      else answer == Verdict(txn, rows[w].rule)
  {
    hide RuleMatches, IsRegulated, Filtered, Scan, Tier;
    if Silent(txn, vendors) {
      var v := AnswerIsLeast(txn, Rules(rows), vendors);
      assert Settles(txn, Rules(rows)[w]);
      if v != |rows| && ComesFirst(Rules(rows), v, w) && v != w {
        NotBothWays(rows, v, w);
      }
    }
  }

  lemma NotBothWays(rows: seq<Stored>, a: nat, b: nat)
    requires Ordered(rows) && a < |rows| && b < |rows| && a != b
    requires ComesFirst(Rules(rows), a, b)
    ensures !Outranks(rows[b], rows[a])
  {
    hide IsRegulated;
    if IsRegulated(rows[a].rule) == IsRegulated(rows[b].rule) {
      assert a < b && QueryOrder(rows[a], rows[b]);
      LessIsAsymmetric(rows[a].id, rows[b].id);
    }
  }

  lemma {:induction false} LessIsAsymmetric(a: string, b: string)
    ensures !(Less(a, b) && Less(b, a))
  {
    if a != "" && b != "" && a[0] == b[0] {
      LessIsAsymmetric(a[1..], b[1..]);
    }
  }

  // ---- Chunks -----------------------------------------------------------------------------

  /** Asking in two chunks is asking once: the same proposals in the same order, and the
    * same refusal when there is one. */
  lemma {:induction false} ChunksConcatenate(a: seq<Txn>, b: seq<Txn>, req: BatchRequest)
    ensures Proposals(a + b, req)
         == if Proposals(a, req).Err? then Proposals(a, req)
            else if Proposals(b, req).Err? then Proposals(b, req)
            else Ok(Proposals(a, req).value + Proposals(b, req).value)
  {
    hide Proposed;
    if b == [] {
      assert a + b == a;
      if Proposals(a, req).Ok? {
        assert Proposals(a, req).value + [] == Proposals(a, req).value;
      }
    } else {
      assert (a + b)[..|a + b| - 1] == a + b[..|b| - 1];
      ChunksConcatenate(a, b[..|b| - 1], req);
      if Proposals(a, req).Ok? && Proposals(b, req).Ok? {
        var last := Proposed(b[|b| - 1], req).value;
        var before := Proposals(b[..|b| - 1], req).value;
        assert Proposals(a, req).value + before + last == Proposals(a, req).value + (before + last);
      }
    }
  }

  // ---- The response core accepts ----------------------------------------------------------

  datatype Classification = Classification(txnId: string, categoryId: string, layer: Layer, evidence: string)

  datatype Fatal = UnknownCategory

  /** A response core can act on: about this page, once per transaction, in categories it
    * offered. */
  ghost predicate Acceptable(codes: map<string, string>, page: seq<Txn>, proposals: seq<Proposal>) {
    && (forall k :: 0 <= k < |proposals| ==>
                      InPage(page, proposals[k].transactionId) && proposals[k].answer.categoryCode in codes)
    && (forall j, k :: 0 <= j < k < |proposals| ==> proposals[j].transactionId != proposals[k].transactionId)
  }

  /** The row a proposal becomes. */
  function RowOf(codes: map<string, string>, p: Proposal): Classification
    requires p.answer.categoryCode in codes
  {
    Classification(p.transactionId, codes[p.answer.categoryCode], p.answer.layer, p.answer.evidence)
  }

  predicate InPage(page: seq<Txn>, id: string) {
    exists t :: t in page && t.id == id
  }

  method IdsOf(page: seq<Txn>) returns (ids: set<string>)
    ensures forall id :: id in ids <==> InPage(page, id)
  {
    ids := {};
    for k := 0 to |page|
      invariant forall id :: id in ids <==> exists j :: 0 <= j < k && page[j].id == id
    {
      ids := ids + {page[k].id};
    }
    forall id
      ensures id in ids <==> InPage(page, id)
    {
      if id in ids {
        var j :| 0 <= j < |page| && page[j].id == id;
        assert page[j] in page;
      }
    }
  }

  /** chunkClassifications: the whole response, or none of it. */
  method ChunkClassifications(codes: map<string, string>, page: seq<Txn>, proposals: seq<Proposal>)
    returns (r: Result<seq<Classification>, Fatal>)
    ensures r.Ok? <==> Acceptable(codes, page, proposals)
    ensures r.Ok? ==>
              && |r.value| == |proposals|
              && forall k :: 0 <= k < |proposals| ==>
                               && proposals[k].answer.categoryCode in codes
                               && r.value[k].txnId == proposals[k].transactionId
                               && r.value[k].categoryId == codes[proposals[k].answer.categoryCode]
                               && r.value[k].layer == proposals[k].answer.layer
                               && r.value[k].evidence == proposals[k].answer.evidence
  {
    hide InPage;
    var inPage := IdsOf(page);
    var out: seq<Classification> := [];
    var seen: set<string> := {};
    for k := 0 to |proposals|
      invariant |out| == k
      invariant forall id :: id in seen <==> exists j :: 0 <= j < k && proposals[j].transactionId == id
      invariant forall i, j :: 0 <= i < j < k ==> proposals[i].transactionId != proposals[j].transactionId
      invariant forall j :: 0 <= j < k ==>
                              && InPage(page, proposals[j].transactionId)
                              && proposals[j].answer.categoryCode in codes && out[j] == RowOf(codes, proposals[j])
    {
      var p := proposals[k];
      if p.transactionId !in inPage {
        return Err(UnknownCategory);
      }
      if p.transactionId in seen {
        return Err(UnknownCategory);
      }
      seen := seen + {p.transactionId};
      if p.answer.categoryCode !in codes {
        return Err(UnknownCategory);
      }
      out := out + [RowOf(codes, p)];
    }
    return Ok(out);
  }

  ghost predicate DistinctIds(txns: seq<Txn>) {
    forall i, j :: 0 <= i < j < |txns| ==> txns[i].id != txns[j].id
  }

  lemma AnswerIsOffered(txn: Txn, req: BatchRequest)
    requires CodesKnown(req) && Proposed(txn, req).Ok?
    ensures
      var p := Proposed(txn, req).value;
      && |p| <= 1
      && (p != [] ==>
            && p[0].transactionId == txn.id
            && p[0].answer.categoryCode in req.categories
            && Confidence(p[0].answer.layer) >= Threshold(req))
  {
    hide RuleMatches, Scan, Tier;
    if Silent(txn, req.vendors) {
      var w := AnswerIsLeast(txn, req.rules, req.vendors);
    }
  }

  lemma {:induction false} ProposalsAreOffered(txns: seq<Txn>, req: BatchRequest)
    requires CodesKnown(req) && DistinctIds(txns) && Proposals(txns, req).Ok?
    ensures
      var proposals := Proposals(txns, req).value;
      && (forall k :: 0 <= k < |proposals| ==>
                        && (exists t :: t in txns && t.id == proposals[k].transactionId)
                        && proposals[k].answer.categoryCode in req.categories
                        && Confidence(proposals[k].answer.layer) >= Threshold(req))
      && (forall j, k :: 0 <= j < k < |proposals| ==> proposals[j].transactionId != proposals[k].transactionId)
  {
    hide Proposed, Confidence, Threshold, CodesKnown;
    if txns != [] {
      var before, last := txns[..|txns| - 1], txns[|txns| - 1];
      ProposalsAreOffered(before, req);
      AnswerIsOffered(last, req);
      assert forall t :: t in before ==> t in txns && t.id != last.id;
      assert last in txns;
    }
  }

  /** The guard never fires on an engine that answers: every response to a page of
    * distinct transactions is one core accepts. */
  lemma GuardNeverFires(req: BatchRequest, codes: map<string, string>)
    requires CodesKnown(req) && DistinctIds(req.txns) && Proposals(req.txns, req).Ok?
    requires forall code :: code in req.categories ==> code in codes
    ensures Acceptable(codes, req.txns, Proposals(req.txns, req).value)
  {
    ProposalsAreOffered(req.txns, req);
    hide Proposals, CodesKnown;
    var proposals := Proposals(req.txns, req).value;
    assert forall j, k :: 0 <= j < k < |proposals| ==> proposals[j].transactionId != proposals[k].transactionId;
    forall k | 0 <= k < |proposals|
      ensures InPage(req.txns, proposals[k].transactionId) && proposals[k].answer.categoryCode in codes
    {
      assert proposals[k].answer.categoryCode in req.categories;
    }
  }
}
