/** Variances that were reviewed by hand, and the detection that marks them as resolved once new rows
    explain them. Bank rows are resolved one by one, fund rows by goal transaction code. */
module VarianceResolution {
  import opened Money
  import opened Text
  import opened Transactions

  const TIMING_DAYS := 3

  /** Dates are calendar days. */
  datatype BankEntry = BankEntry(id: string, goal: string, txnId: string, txnType: TxnType, amount: int, day: int,
                                 tag: Option<ReviewTag>, resolved: bool)

  datatype FundEntry = FundEntry(id: string, goal: string, code: string, txnId: Option<string>, txnType: TxnType,
                                 amount: int, day: int, tag: Option<ReviewTag>, resolved: bool)

  datatype Tables = Tables(banks: seq<BankEntry>, funds: seq<FundEntry>)

  datatype Range = Range(first: int, last: int)

  predicate InRange(day: int, range: Option<Range>) {
    range.Some? ==> range.value.first <= day <= range.value.last
  }

  function Around(day: int, days: int): Option<Range> {
    Some(Range(day - days, day + days))
  }

  // ---- The searches ----

  /** A row matches a search by goal and type, and by id and date where these are given. */
  datatype Search = Search(goal: string, txnType: TxnType, txnId: Option<string>, range: Option<Range>)

  predicate BankMeets(b: BankEntry, s: Search) {
    && b.goal == s.goal && b.txnType == s.txnType && InRange(b.day, s.range)
    && (s.txnId.Some? ==> b.txnId == s.txnId.value)
  }

  predicate FundMeets(f: FundEntry, s: Search) {
    f.goal == s.goal && f.txnType == s.txnType && (s.txnId.Some? ==> f.txnId == s.txnId) && InRange(f.day, s.range)
  }

  predicate Close(total: int, amount: int) {
    Within(total, amount, Tolerance(Abs(amount)))
  }

  predicate BankFound(banks: seq<BankEntry>, s: Search, amount: int) {
    exists b :: b in banks && BankMeets(b, s) && Close(b.amount, amount)
  }

  /** The rows of one code that meet the search, summed. */
  function CodeTotal(funds: seq<FundEntry>, s: Search, code: string): int {
    if funds == [] then 0
    else (if FundMeets(funds[0], s) &&
        funds[0].code == code then funds[0].amount else 0) + CodeTotal(funds[1..], s, code)
  }

  /** The rows of f's code that meet the search sum to about the amount, and f is one of them. */
  predicate FundHit(funds: seq<FundEntry>, s: Search, f: FundEntry, amount: int) {
    f in funds && FundMeets(f, s) && Close(CodeTotal(funds, s, f.code), amount)
  }

  predicate FundFound(funds: seq<FundEntry>, s: Search, amount: int) {
    exists f {:trigger FundHit(funds, s, f, amount)} :: f in funds && FundHit(funds, s, f, amount)
  }

  predicate HasId(txnId: Option<string>) {
    txnId.Some? && txnId.value != ""
  }

  /** What is looked for: by whom, how much and when. */
  datatype Probe = Probe(goal: string, txnId: Option<string>, txnType: TxnType, amount: int, day: int)

  function ById(p: Probe, range: Option<Range>): Search {
    Search(p.goal, p.txnType, p.txnId, range)
  }

  function ByDate(p: Probe): Search {
    Search(p.goal, p.txnType, None, Around(p.day, DATE_WINDOW_DAYS))
  }

  predicate FindGoal(funds: seq<FundEntry>, p: Probe) {
    (HasId(p.txnId) && FundFound(funds, ById(p, None), p.amount)) || FundFound(funds, ByDate(p), p.amount)
  }

  predicate FindBank(banks: seq<BankEntry>, p: Probe) {
    (HasId(p.txnId) && BankFound(banks, ById(p, None), p.amount)) || BankFound(banks, ByDate(p), p.amount)
  }

  predicate FindGoalInTime(funds: seq<FundEntry>, p: Probe) {
    HasId(p.txnId) && FundFound(funds, ById(p, Around(p.day, TIMING_DAYS)), p.amount)
  }

  predicate FindBankInTime(banks: seq<BankEntry>, p: Probe) {
    HasId(p.txnId) && BankFound(banks, ById(p, Around(p.day, TIMING_DAYS)), p.amount)
  }

  // ---- What is pending ----

  predicate BankPending(b: BankEntry, tag: ReviewTag, range: Option<Range>) {
    b.tag == Some(tag) && !b.resolved && InRange(b.day, range)
  }

  predicate FundPending(f: FundEntry, tag: ReviewTag, range: Option<Range>) {
    f.tag == Some(tag) && !f.resolved && InRange(f.day, range)
  }

  function PendingBanks(banks: seq<BankEntry>, tag: ReviewTag, range: Option<Range>): (r: seq<BankEntry>)
    ensures forall b :: b in r <==> b in banks && BankPending(b, tag, range)
  {
    if banks == [] then []
    else (if BankPending(banks[0], tag, range) then [banks[0]] else []) + PendingBanks(banks[1..], tag, range)
  }

  function PendingFunds(funds: seq<FundEntry>, tag: ReviewTag, range: Option<Range>): (r: seq<FundEntry>)
    ensures forall f :: f in r <==> f in funds && FundPending(f, tag, range)
  {
    if funds == [] then []
    else (if FundPending(funds[0], tag, range) then [funds[0]] else []) + PendingFunds(funds[1..], tag, range)
  }

  /** Pending fund rows are looked for by code, goal, id and type together. */
  datatype GroupKey = GroupKey(code: string, goal: string, txnId: Option<string>, txnType: TxnType)

  function KeyOf(f: FundEntry): GroupKey {
    GroupKey(f.code, f.goal, f.txnId, f.txnType)
  }

  function KeyTotal(funds: seq<FundEntry>, key: GroupKey): int {
    if funds == [] then 0
    else (if KeyOf(funds[0]) == key then funds[0].amount else 0) + KeyTotal(funds[1..], key)
  }

  /** The earliest day of the rows of a key. */
  function KeyDay(funds: seq<FundEntry>, key: GroupKey): Option<int> {
    if funds == [] then None
    else if KeyOf(funds[0]) != key then KeyDay(funds[1..], key)
    else
      match KeyDay(funds[1..], key)
      case None => Some(funds[0].day)
      case Some(d) => Some(if d < funds[0].day then d else funds[0].day)
  }

  datatype Group = Group(key: GroupKey, total: int, day: int)

  function GroupFor(funds: seq<FundEntry>, key: GroupKey): Group {
    var d := KeyDay(funds, key);
    Group(key, KeyTotal(funds, key), if d.Some? then d.value else 0)
  }

  function KeysOf(funds: seq<FundEntry>): (keys: seq<GroupKey>)
    ensures forall k :: k in keys <==> exists f :: f in funds && KeyOf(f) == k
  {
    if funds == [] then []
    else
      var rest := KeysOf(funds[1..]);
      if KeyOf(funds[0]) in rest then rest else [KeyOf(funds[0])] + rest
  }

  function GroupsOf(funds: seq<FundEntry>, keys: seq<GroupKey>): seq<Group> {
    if keys == [] then [] else [GroupFor(funds, keys[0])] + GroupsOf(funds, keys[1..])
  }

  function PendingGroups(funds: seq<FundEntry>, tag: ReviewTag, range: Option<Range>): seq<Group> {
    var rows := PendingFunds(funds, tag, range);
    GroupsOf(rows, KeysOf(rows))
  }

  function BankProbe(b: BankEntry): Probe {
    Probe(b.goal, Some(b.txnId), b.txnType, b.amount, b.day)
  }

  function GroupProbe(g: Group): Probe {
    Probe(g.key.goal, g.key.txnId, g.key.txnType, g.total, g.day)
  }

  // ---- Detection ----

  datatype Source = Bank | Goal

  datatype Resolution = Resolution(id: string, source: Source, goal: string, txnId: Option<string>, amount: int,
                                   tag: ReviewTag)

  /** MISSING_IN_GOAL and MISSING_IN_BANK use the wide search, TIMING_DIFFERENCE the narrow one. */
  predicate BankExplained(funds: seq<FundEntry>, b: BankEntry, tag: ReviewTag) {
    if tag == TimingDifference then FindGoalInTime(funds, BankProbe(b)) else FindGoal(funds, BankProbe(b))
  }

  predicate GroupExplained(banks: seq<BankEntry>, g: Group, tag: ReviewTag) {
    if tag == TimingDifference then FindBankInTime(banks, GroupProbe(g)) else FindBank(banks, GroupProbe(g))
  }

  function BankResolution(b: BankEntry, tag: ReviewTag): Resolution {
    Resolution(b.id, Bank, b.goal, Some(b.txnId), b.amount, tag)
  }

  function GroupResolution(g: Group, tag: ReviewTag): Resolution {
    Resolution(g.key.code, Goal, g.key.goal, g.key.txnId, g.total, tag)
  }

  function BankResults(pending: seq<BankEntry>, funds: seq<FundEntry>, tag: ReviewTag): seq<Resolution>
  {
    if pending == [] then []
    else
      (if BankExplained(funds, pending[0], tag) then [BankResolution(pending[0], tag)] else [])
      + BankResults(pending[1..], funds, tag)
  }

  function GoalResults(groups: seq<Group>, banks: seq<BankEntry>, tag: ReviewTag): seq<Resolution>
  {
    if groups == [] then []
    else
      (if GroupExplained(banks, groups[0], tag) then [GroupResolution(groups[0], tag)] else [])
      + GoalResults(groups[1..], banks, tag)
  }

  function MissingInGoalResults(t: Tables, range: Option<Range>): seq<Resolution> {
    BankResults(PendingBanks(t.banks, MissingInGoal, range), t.funds, MissingInGoal)
  }

  function MissingInBankResults(t: Tables, range: Option<Range>): seq<Resolution> {
    GoalResults(PendingGroups(t.funds, MissingInBank, range), t.banks, MissingInBank)
  }

  function TimingResults(t: Tables, range: Option<Range>): seq<Resolution> {
    BankResults(PendingBanks(t.banks, TimingDifference, range), t.funds, TimingDifference)
    + GoalResults(PendingGroups(t.funds, TimingDifference, range), t.banks, TimingDifference)
  }

  function Detected(t: Tables, range: Option<Range>): seq<Resolution> {
    MissingInGoalResults(t, range) + MissingInBankResults(t, range) + TimingResults(t, range)
  }

  // ---- Marking ----

  predicate Marks(results: seq<Resolution>, source: Source, id: string) {
    exists x :: x in results && x.source == source && x.id == id
  }

  function MarkBanks(banks: seq<BankEntry>, results: seq<Resolution>): (r: seq<BankEntry>)
    ensures |r| == |banks|
    ensures forall i :: 0 <= i < |r| ==> r[i] == banks[i].(resolved := banks[i].resolved ||
              Marks(results, Bank, banks[i].id))
  {
    if banks == [] then []
    else [banks[0].(resolved := banks[0].resolved ||
        Marks(results, Bank, banks[0].id))] + MarkBanks(banks[1..], results)
  }

  function MarkFunds(funds: seq<FundEntry>, results: seq<Resolution>): (r: seq<FundEntry>)
    ensures |r| == |funds|
    ensures forall i :: 0 <= i < |r| ==> r[i] == funds[i].(resolved := funds[i].resolved ||
              Marks(results, Goal, funds[i].code))
  {
    if funds == [] then []
    else [funds[0].(resolved := funds[0].resolved ||
        Marks(results, Goal, funds[0].code))] + MarkFunds(funds[1..], results)
  }

  function Marked(t: Tables, results: seq<Resolution>): Tables {
    Tables(MarkBanks(t.banks, results), MarkFunds(t.funds, results))
  }

  function After(t: Tables, range: Option<Range>): Tables {
    Marked(t, Detected(t, range))
  }

  // ---- The service ----

  function CountTag(results: seq<Resolution>, tag: ReviewTag): nat {
    if results == [] then 0 else (if results[0].tag == tag then 1 else 0) + CountTag(results[1..], tag)
  }

  lemma {:induction false} CountTagSnoc(results: seq<Resolution>, x: Resolution, tag: ReviewTag)
    ensures CountTag(results + [x], tag) == CountTag(results, tag) + if x.tag == tag then 1 else 0
  {
    if results == [] {
      assert results + [x] == [x];
    } else {
      assert (results + [x])[1..] == results[1..] + [x];
      CountTagSnoc(results[1..], x, tag);
    }
  }

  lemma {:induction false} MarksSnoc(results: seq<Resolution>, x: Resolution, source: Source, id: string)
    ensures Marks(results + [x], source, id) <==> Marks(results, source, id) || (x.source == source && x.id == id)
  {
    assert forall y :: y in results + [x] <==> y in results || y == x;
  }

  function SetBank(banks: seq<BankEntry>, id: string): (r: seq<BankEntry>)
    ensures |r| == |banks|
    ensures forall i :: 0 <= i < |r| ==> r[i] == if banks[i].id == id then banks[i].(resolved := true) else banks[i]
  {
    if banks == [] then []
    else [if banks[0].id == id then banks[0].(resolved := true) else banks[0]] + SetBank(banks[1..], id)
  }

  function SetFunds(funds: seq<FundEntry>, code: string): (r: seq<FundEntry>)
    ensures |r| == |funds|
    ensures forall i :: 0 <= i < |r| ==> r[i] == if funds[i].code == code then funds[i].(resolved := true) else funds[i]
  {
    if funds == [] then []
    else [if funds[0].code == code then funds[0].(resolved := true) else funds[0]] + SetFunds(funds[1..], code)
  }

  lemma {:induction false} MarkOneBank(banks: seq<BankEntry>, results: seq<Resolution>, x: Resolution)
    requires x.source == Bank
    ensures SetBank(MarkBanks(banks, results), x.id) == MarkBanks(banks, results + [x])
  {
    forall i | 0 <= i < |banks|
      ensures SetBank(MarkBanks(banks, results), x.id)[i] == MarkBanks(banks, results + [x])[i]
    {
      MarksSnoc(results, x, Bank, banks[i].id);
    }
  }

  lemma {:induction false} MarkOneCode(funds: seq<FundEntry>, results: seq<Resolution>, x: Resolution)
    requires x.source == Goal
    ensures SetFunds(MarkFunds(funds, results), x.id) == MarkFunds(funds, results + [x])
  {
    forall i | 0 <= i < |funds|
      ensures SetFunds(MarkFunds(funds, results), x.id)[i] == MarkFunds(funds, results + [x])[i]
    {
      MarksSnoc(results, x, Goal, funds[i].code);
    }
  }

  lemma {:induction false} MarkOther(t: Tables, results: seq<Resolution>, x: Resolution)
    ensures x.source == Goal ==> MarkBanks(t.banks, results + [x]) == MarkBanks(t.banks, results)
    ensures x.source == Bank ==> MarkFunds(t.funds, results + [x]) == MarkFunds(t.funds, results)
  {
    forall i | 0 <= i < |t.banks| && x.source == Goal
      ensures MarkBanks(t.banks, results + [x])[i] == MarkBanks(t.banks, results)[i]
    {
      MarksSnoc(results, x, Bank, t.banks[i].id);
    }
    forall i | 0 <= i < |t.funds| && x.source == Bank
      ensures MarkFunds(t.funds, results + [x])[i] == MarkFunds(t.funds, results)[i]
    {
      MarksSnoc(results, x, Goal, t.funds[i].code);
    }
  }

  lemma {:induction false} BankResultsStep(done: seq<Resolution>, pending: seq<BankEntry>, i: nat,
                                           funds: seq<FundEntry>, tag: ReviewTag)
    requires i < |pending|
    ensures done + BankResults(pending[i..], funds, tag)
         == (if BankExplained(funds, pending[i], tag) then done + [BankResolution(pending[i], tag)] else done)
            + BankResults(pending[i + 1..], funds, tag)
  {
    assert pending[i..][1..] == pending[i + 1..];
  }

  lemma {:induction false} GoalResultsStep(done: seq<Resolution>, groups: seq<Group>, i: nat, banks: seq<BankEntry>,
                                           tag: ReviewTag)
    requires i < |groups|
    ensures done + GoalResults(groups[i..], banks, tag)
         == (if GroupExplained(banks, groups[i], tag) then done + [GroupResolution(groups[i], tag)] else done)
            + GoalResults(groups[i + 1..], banks, tag)
  {
    assert groups[i..][1..] == groups[i + 1..];
  }

  function SetOne(t: Tables, x: Resolution): Tables {
    if x.source == Bank then t.(banks := SetBank(t.banks, x.id)) else t.(funds := SetFunds(t.funds, x.id))
  }

  /** One update of the loop that marks. */
  lemma {:induction false} MarkStep(t: Tables, results: seq<Resolution>, i: nat)
    requires i < |results|
    ensures Marked(t, results[..i + 1]) == SetOne(Marked(t, results[..i]), results[i])
  {
    assert results[..i + 1] == results[..i] + [results[i]];
    MarkOther(t, results[..i], results[i]);
    if results[i].source == Bank {
      MarkOneBank(t.banks, results[..i], results[i]);
    } else {
      MarkOneCode(t.funds, results[..i], results[i]);
    }
  }

  lemma {:induction false} NothingMarked(t: Tables)
    ensures Marked(t, []) == t
  {
    assert MarkBanks(t.banks, []) == t.banks && MarkFunds(t.funds, []) == t.funds;
  }

  class Detector {
    var banks: seq<BankEntry>
    var funds: seq<FundEntry>

    ghost function Data(): Tables
      reads this
    {
      Tables(banks, funds)
    }

    method CheckBanks(tag: ReviewTag, range: Option<Range>) returns (results: seq<Resolution>)
      ensures results == BankResults(PendingBanks(banks, tag, range), funds, tag)
    {
      results := [];
      var pending := PendingBanks(banks, tag, range);
      var i := 0;
      while i < |pending|
        invariant 0 <= i <= |pending|
        invariant results + BankResults(pending[i..], funds, tag) == BankResults(pending, funds, tag)
      {
        BankResultsStep(results, pending, i, funds, tag);
        if BankExplained(funds, pending[i], tag) {
          results := results + [BankResolution(pending[i], tag)];
        }
        i := i + 1;
      }
    }

    method CheckGoals(tag: ReviewTag, range: Option<Range>) returns (results: seq<Resolution>)
      ensures results == GoalResults(PendingGroups(funds, tag, range), banks, tag)
    {
      results := [];
      var groups := PendingGroups(funds, tag, range);
      var i := 0;
      while i < |groups|
        invariant 0 <= i <= |groups|
        invariant results + GoalResults(groups[i..], banks, tag) == GoalResults(groups, banks, tag)
      {
        GoalResultsStep(results, groups, i, banks, tag);
        if GroupExplained(banks, groups[i], tag) {
          results := results + [GroupResolution(groups[i], tag)];
        }
        i := i + 1;
      }
    }

    method MarkOne(x: Resolution)
      modifies this
      ensures Data() == SetOne(old(Data()), x)
    {
      if x.source == Bank {
        banks := SetBank(banks, x.id);
      } else {
        funds := SetFunds(funds, x.id);
      }
    }

    method MarkAsResolved(results: seq<Resolution>)
      modifies this
      ensures Data() == Marked(old(Data()), results)
    {
      var i := 0;
      ghost var was := Data();
      NothingMarked(was);
      while i < |results|
        invariant 0 <= i <= |results|
        invariant Data() == Marked(was, results[..i])
      {
        MarkStep(was, results, i);
        MarkOne(results[i]);
        i := i + 1;
      }
      assert results[..i] == results;
    }

    method DetectResolved(range: Option<Range>)
      returns (resolved: nat, byTag: map<ReviewTag, nat>, details: seq<Resolution>)
      modifies this
      ensures details == Detected(old(Data()), range) && Data() == After(old(Data()), range)
      ensures resolved == |details|
      ensures forall tag :: (tag in byTag <==> CountTag(details, tag) > 0) && (tag in byTag ==>
                byTag[tag] == CountTag(details, tag))
    {
      var missingInGoal := CheckBanks(MissingInGoal, range);
      var missingInBank := CheckGoals(MissingInBank, range);
      var timingBank := CheckBanks(TimingDifference, range);
      var timingGoal := CheckGoals(TimingDifference, range);
      details := missingInGoal + missingInBank + (timingBank + timingGoal);
      if |details| > 0 {
        MarkAsResolved(details);
      } else {
        NothingMarked(Data());
      }
      byTag := CountByTag(details);
      resolved := |details|;
    }
  }

  method CountByTag(results: seq<Resolution>) returns (byTag: map<ReviewTag, nat>)
    ensures forall tag :: (tag in byTag <==> CountTag(results, tag) > 0) && (tag in byTag ==>
              byTag[tag] == CountTag(results, tag))
  {
    byTag := map[];
    var i := 0;
    while i < |results|
      invariant 0 <= i <= |results|
      invariant forall tag :: tag in byTag <==> CountTag(results[..i], tag) > 0
      invariant forall tag :: tag in byTag ==> byTag[tag] == CountTag(results[..i], tag)
    {
      var t := results[i].tag;
      assert results[..i + 1] == results[..i] + [results[i]];
      forall tag {
        CountTagSnoc(results[..i], results[i], tag);
      }
      byTag := byTag[t := (if t in byTag then byTag[t] else 0) + 1];
      i := i + 1;
    }
    assert results[..i] == results;
  }

  // ---- Which rows a run resolves ----

  lemma {:induction false} BankResultsMembers(pending: seq<BankEntry>, funds: seq<FundEntry>, tag: ReviewTag,
                                              x: Resolution)
    ensures x in BankResults(pending, funds, tag) <==>
            exists b :: b in pending && BankExplained(funds, b, tag) && x == BankResolution(b, tag)
  {
    if pending != [] {
      BankResultsMembers(pending[1..], funds, tag, x);
      assert forall b :: b in pending <==> b == pending[0] || b in pending[1..];
    }
  }

  lemma {:induction false} GoalResultsMembers(groups: seq<Group>, banks: seq<BankEntry>, tag: ReviewTag, x: Resolution)
    ensures x in GoalResults(groups, banks, tag) <==>
            exists g :: g in groups && GroupExplained(banks, g, tag) && x == GroupResolution(g, tag)
  {
    if groups != [] {
      GoalResultsMembers(groups[1..], banks, tag, x);
      assert forall g :: g in groups <==> g == groups[0] || g in groups[1..];
    }
  }

  lemma {:induction false} GroupsOfMembers(funds: seq<FundEntry>, keys: seq<GroupKey>, g: Group)
    ensures g in GroupsOf(funds, keys) <==> exists k :: k in keys && g == GroupFor(funds, k)
  {
    if keys != [] {
      GroupsOfMembers(funds, keys[1..], g);
      assert forall k :: k in keys <==> k == keys[0] || k in keys[1..];
    }
  }

  /** The groups of a tag, seen from one of their rows. */
  lemma {:induction false} PendingGroupsMembers(funds: seq<FundEntry>, tag: ReviewTag, range: Option<Range>, g: Group)
    ensures g in PendingGroups(funds, tag, range) <==>
            exists f :: f in funds && FundPending(f, tag, range) &&
                g == GroupFor(PendingFunds(funds, tag, range), KeyOf(f))
  {
    var rows := PendingFunds(funds, tag, range);
    GroupsOfMembers(rows, KeysOf(rows), g);
    if f :| f in funds && FundPending(f, tag, range) && g == GroupFor(rows, KeyOf(f)) {
      assert f in rows;
      assert KeyOf(f) in KeysOf(rows);
    }
  }
}
