/** Exactly when a run of detection resolves a row, written out in sums, days and amounts. Amounts are cents. */
module ResolutionRules {
  import opened Money
  import opened Text
  import opened Transactions
  import opened Combination
  import opened VarianceResolution
  import opened ResolutionRuns

  // ---- The numbers ----

  /** At most one per cent of the amount, or 1,000 UGX, apart. */
  predicate CloseTo(total: int, amount: int) {
    var d, size := 100 * (total - amount), if amount < 0 then -amount else amount;
    (d <= size || d <= 10_000_000) && (-d <= size || -d <= 10_000_000)
  }

  predicate DaysApart(a: int, b: int, days: int) {
    a - b <= days && b - a <= days
  }

  predicate OfDays(day: int, range: Option<Range>) {
    range == None || (range.value.first <= day && day <= range.value.last)
  }

  /** The amounts of the rows that keep holds of. */
  ghost function SumOf(funds: seq<FundEntry>, keep: FundEntry -> bool): int {
    if funds == [] then 0 else (if keep(funds[0]) then funds[0].amount else 0) + SumOf(funds[1..], keep)
  }

  lemma {:induction false} CloseIsCloseTo(total: int, amount: int)
    ensures Close(total, amount) <==> CloseTo(total, amount)
  {
  }

  // ---- Looking for fund rows ----

  function OfCode(keep: FundEntry -> bool, code: string): FundEntry -> bool {
    (x: FundEntry) => keep(x) && x.code == code
  }

  /** Some code has rows that keep holds of, and these sum close to the amount. */
  ghost predicate SomeCode(funds: seq<FundEntry>, keep: FundEntry -> bool, amount: int) {
    exists f :: f in funds && keep(f) && CloseTo(SumOf(funds, OfCode(keep, f.code)), amount)
  }

  lemma {:induction false} CodeTotalIsSum(funds: seq<FundEntry>, s: Search, code: string, keep: FundEntry -> bool)
    requires forall f :: f in funds ==> (keep(f) <==> FundMeets(f, s) && f.code == code)
    ensures CodeTotal(funds, s, code) == SumOf(funds, keep)
  {
    if funds != [] {
      assert funds[0] in funds && forall f :: f in funds[1..] ==> f in funds;
      CodeTotalIsSum(funds[1..], s, code, keep);
    }
  }

  lemma {:induction false} FoundIsSomeCode(funds: seq<FundEntry>, s: Search, amount: int, keep: FundEntry -> bool)
    requires forall f :: f in funds ==> (keep(f) <==> FundMeets(f, s))
    ensures FundFound(funds, s, amount) <==> SomeCode(funds, keep, amount)
  {
    forall f | f in funds
      ensures FundHit(funds, s, f, amount) <==>
              keep(f) && CloseTo(SumOf(funds, OfCode(keep, f.code)), amount)
    {
      CodeTotalIsSum(funds, s, f.code, OfCode(keep, f.code));
      CloseIsCloseTo(CodeTotal(funds, s, f.code), amount);
    }
    if FundFound(funds, s, amount) {
      var f :| f in funds && FundHit(funds, s, f, amount);
      assert keep(f);
    }
    if SomeCode(funds, keep, amount) {
      var f :| f in funds && keep(f) && CloseTo(SumOf(funds, OfCode(keep, f.code)), amount);
      assert FundHit(funds, s, f, amount);
    }
  }

  function WithId(b: BankEntry): FundEntry -> bool {
    (f: FundEntry) => f.goal == b.goal && f.txnType == b.txnType && f.txnId == Some(b.txnId)
  }

  function WithinDays(b: BankEntry): FundEntry -> bool {
    (f: FundEntry) => f.goal == b.goal && f.txnType == b.txnType && DaysApart(f.day, b.day, 30)
  }

  function WithIdInTime(b: BankEntry): FundEntry -> bool {
    (f: FundEntry) => f.goal == b.goal && f.txnType == b.txnType && f.txnId == Some(b.txnId)
                      && DaysApart(f.day, b.day, 3)
  }

  /** What explains a bank row. MISSING_IN_GOAL: fund rows of one code with its goal and type, all those with its
      id or all those within thirty days, sum close to it. TIMING_DIFFERENCE: those with its id within three
      days do. */
  ghost predicate ExplainsBank(funds: seq<FundEntry>, b: BankEntry, tag: ReviewTag) {
    match tag
    case MissingInGoal =>
      (b.txnId != "" && SomeCode(funds, WithId(b), b.amount)) || SomeCode(funds, WithinDays(b), b.amount)
    case TimingDifference => b.txnId != "" && SomeCode(funds, WithIdInTime(b), b.amount)
    case _ => false
  }

  lemma {:induction false} BankExplainedIff(funds: seq<FundEntry>, b: BankEntry, tag: ReviewTag)
    requires tag == MissingInGoal || tag == TimingDifference
    ensures BankExplained(funds, b, tag) <==> ExplainsBank(funds, b, tag)
  {
    var p := BankProbe(b);
    FoundIsSomeCode(funds, ById(p, None), b.amount, WithId(b));
    FoundIsSomeCode(funds, ByDate(p), b.amount, WithinDays(b));
    FoundIsSomeCode(funds, ById(p, Around(b.day, TIMING_DAYS)), b.amount, WithIdInTime(b));
  }

  // ---- Bank rows ----

  /** Tagged, not resolved, and of the days of the run. */
  ghost predicate Open(tag: Option<ReviewTag>, resolved: bool, day: int, range: Option<Range>, wanted: ReviewTag) {
    tag == Some(wanted) && !resolved && OfDays(day, range)
  }

  ghost predicate DistinctIds(banks: seq<BankEntry>) {
    forall i, j :: 0 <= i < j < |banks| ==> banks[i].id != banks[j].id
  }

  /** A run resolves an unresolved bank row if and only if the row is open under one of the two tags and
      explained under it. */
  lemma {:induction false} BankRowResolvedIff(t: Tables, range: Option<Range>, i: nat)
    requires i < |t.banks| && !t.banks[i].resolved && DistinctIds(t.banks)
    ensures var b := t.banks[i];
            After(t, range).banks[i].resolved <==>
            exists tag | tag == MissingInGoal || tag == TimingDifference ::
              Open(b.tag, b.resolved, b.day, range, tag) && ExplainsBank(t.funds, b, tag)
  {
    var b := t.banks[i];
    ExactlyTheDetected(t, range);
    forall c | c in t.banks && c.id == b.id
      ensures c == b
    {
      var j :| 0 <= j < |t.banks| && t.banks[j] == c;
    }
    forall tag | tag == MissingInGoal || tag == TimingDifference {
      BankDetectedIff(t, range, b, tag);
    }
  }

  lemma {:induction false} BankDetectedIff(t: Tables, range: Option<Range>, b: BankEntry, tag: ReviewTag)
    requires (tag == MissingInGoal || tag == TimingDifference) && b in t.banks
    ensures BankDetected(t, range, b, tag) <==>
            Open(b.tag, b.resolved, b.day, range, tag) && ExplainsBank(t.funds, b, tag)
  {
    BankExplainedIff(t.funds, b, tag);
  }

  // ---- Fund rows ----

  /** A row of the group that f is looked for with. */
  predicate InGroup(x: FundEntry, f: FundEntry, range: Option<Range>, tag: ReviewTag) {
    && x.code == f.code && x.goal == f.goal && x.txnId == f.txnId && x.txnType == f.txnType
    && x.tag == Some(tag) && !x.resolved && OfDays(x.day, range)
  }

  function GroupRows(f: FundEntry, range: Option<Range>, tag: ReviewTag): FundEntry -> bool {
    (x: FundEntry) => InGroup(x, f, range, tag)
  }

  ghost predicate IsFirstDay(funds: seq<FundEntry>, f: FundEntry, range: Option<Range>, tag: ReviewTag, day: int) {
    && (exists x :: x in funds && InGroup(x, f, range, tag) && x.day == day)
    && (forall x :: x in funds && InGroup(x, f, range, tag) ==> day <= x.day)
  }

  /** What explains a group of fund rows with the total and the first day: a bank row of its goal and type close
      to the total. MISSING_IN_BANK: with its id, or within thirty days. TIMING_DIFFERENCE: with its id and
      within three days. */
  ghost predicate ExplainsFund(banks: seq<BankEntry>, f: FundEntry, total: int, day: int, tag: ReviewTag) {
    exists b :: b in banks && b.goal == f.goal && b.txnType == f.txnType && CloseTo(b.amount, total)
                && Fitting(b, f, day, tag)
  }

  predicate Fitting(b: BankEntry, f: FundEntry, day: int, tag: ReviewTag) {
    var sameId := f.txnId.Some? && f.txnId.value != "" && b.txnId == f.txnId.value;
    match tag
    case MissingInBank => sameId || DaysApart(b.day, day, 30)
    case TimingDifference => sameId && DaysApart(b.day, day, 3)
    case _ => false
  }

  lemma {:induction false} GroupTotalIs(funds: seq<FundEntry>, f: FundEntry, range: Option<Range>, tag: ReviewTag)
    ensures KeyTotal(PendingFunds(funds, tag, range), KeyOf(f)) == SumOf(funds, GroupRows(f, range, tag))
  {
    if funds != [] {
      GroupTotalIs(funds[1..], f, range, tag);
      KeyOfFirst(funds, tag, range, KeyOf(f));
    }
  }

  lemma {:induction false} GroupDayIs(funds: seq<FundEntry>, f: FundEntry, range: Option<Range>, tag: ReviewTag)
    ensures var d := KeyDay(PendingFunds(funds, tag, range), KeyOf(f));
            && (d.Some? ==> IsFirstDay(funds, f, range, tag, d.value))
            && (d.None? ==> forall x :: x in funds ==> !InGroup(x, f, range, tag))
  {
    if funds != [] {
      var x := funds[0];
      GroupDayIs(funds[1..], f, range, tag);
      KeyOfFirst(funds, tag, range, KeyOf(f));
      assert InGroup(x, f, range, tag) <==> FundPending(x, tag, range) && KeyOf(x) == KeyOf(f);
      FirstDayFirst(funds, f, range, tag, KeyDay(PendingFunds(funds[1..], tag, range), KeyOf(f)));
    }
  }

  /** The first day of a group, given that of the rows after the first one. */
  lemma {:induction false} FirstDayFirst(funds: seq<FundEntry>, f: FundEntry, range: Option<Range>, tag: ReviewTag,
                                         rest: Option<int>)
    requires funds != []
    requires rest.Some? ==> IsFirstDay(funds[1..], f, range, tag, rest.value)
    requires rest.None? ==> forall x :: x in funds[1..] ==> !InGroup(x, f, range, tag)
    ensures var day := funds[0].day;
            if InGroup(funds[0], f, range, tag) then
              IsFirstDay(funds, f, range, tag, if rest.Some? && rest.value < day then rest.value else day)
            else if rest.Some? then IsFirstDay(funds, f, range, tag, rest.value)
            else forall x :: x in funds ==> !InGroup(x, f, range, tag)
  {
    assert forall y :: y in funds <==> y == funds[0] || y in funds[1..];
  }

  /** A search that fits f's group under the tag, in the numbers of Fitting. */
  lemma {:induction false} SearchIff(banks: seq<BankEntry>, s: Search, f: FundEntry, total: int)
    requires s.goal == f.goal && s.txnType == f.txnType
    ensures BankFound(banks, s, total) <==>
            exists b :: b in banks && b.goal == f.goal && b.txnType == f.txnType && CloseTo(b.amount, total)
                        && (s.txnId.Some? ==> b.txnId == s.txnId.value) && OfDays(b.day, s.range)
  {
    forall b | b in banks
      ensures BankMeets(b, s) && Close(b.amount, total) <==>
              b.goal == f.goal && b.txnType == f.txnType && CloseTo(b.amount, total)
              && (s.txnId.Some? ==> b.txnId == s.txnId.value) && OfDays(b.day, s.range)
    {
      CloseIsCloseTo(b.amount, total);
    }
  }

  lemma {:induction false} GroupExplainedIff(banks: seq<BankEntry>, g: Group, f: FundEntry, tag: ReviewTag)
    requires (tag == MissingInBank || tag == TimingDifference) && g.key == KeyOf(f)
    ensures GroupExplained(banks, g, tag) <==> ExplainsFund(banks, f, g.total, g.day, tag)
  {
    var p := GroupProbe(g);
    SearchIff(banks, ById(p, None), f, g.total);
    SearchIff(banks, ByDate(p), f, g.total);
    SearchIff(banks, ById(p, Around(g.day, TIMING_DAYS)), f, g.total);
    forall b
      ensures OfDays(b, Around(g.day, DATE_WINDOW_DAYS)) <==> DaysApart(b, g.day, 30)
      ensures OfDays(b, Around(g.day, TIMING_DAYS)) <==> DaysApart(b, g.day, 3)
    {
    }
  }

  /** The group of f under the tag is explained. */
  ghost predicate GroupIsExplained(t: Tables, range: Option<Range>, f: FundEntry, tag: ReviewTag) {
    exists day :: IsFirstDay(t.funds, f, range, tag, day)
      && ExplainsFund(t.banks, f, SumOf(t.funds, GroupRows(f, range, tag)), day, tag)
  }

  lemma {:induction false} FundDetectedIff(t: Tables, range: Option<Range>, f: FundEntry, tag: ReviewTag)
    requires (tag == MissingInBank || tag == TimingDifference) && f in t.funds
    ensures FundDetected(t, range, f, tag) <==>
            Open(f.tag, f.resolved, f.day, range, tag) && GroupIsExplained(t, range, f, tag)
  {
    if FundPending(f, tag, range) {
      var g := GroupFor(PendingFunds(t.funds, tag, range), KeyOf(f));
      GroupTotalIs(t.funds, f, range, tag);
      GroupDayIs(t.funds, f, range, tag);
      assert InGroup(f, f, range, tag);
      GroupExplainedIff(t.banks, g, f, tag);
      assert IsFirstDay(t.funds, f, range, tag, g.day);
      assert forall day :: IsFirstDay(t.funds, f, range, tag, day) ==> day == g.day;
    }
  }

  /** A run resolves an unresolved fund row if and only if its code has a row that is open under one of the two
      tags and whose group is explained under it. */
  lemma {:induction false} FundRowResolvedIff(t: Tables, range: Option<Range>, i: nat)
    requires i < |t.funds| && !t.funds[i].resolved
    ensures After(t, range).funds[i].resolved <==>
            exists f, tag | tag == MissingInBank || tag == TimingDifference ::
              f in t.funds && f.code == t.funds[i].code && Open(f.tag, f.resolved, f.day, range, tag)
              && GroupIsExplained(t, range, f, tag)
  {
    ExactlyTheDetected(t, range);
    forall f, tag | (tag == MissingInBank || tag == TimingDifference) && f in t.funds
      ensures FundDetected(t, range, f, tag) <==>
              Open(f.tag, f.resolved, f.day, range, tag) && GroupIsExplained(t, range, f, tag)
    {
      FundDetectedIff(t, range, f, tag);
    }
  }

  // ---- The list of results ----

  ghost predicate FromBank(t: Tables, range: Option<Range>, x: Resolution, b: BankEntry) {
    && b in t.banks && (x.tag == MissingInGoal || x.tag == TimingDifference)
    && Open(b.tag, b.resolved, b.day, range, x.tag) && ExplainsBank(t.funds, b, x.tag)
    && x == Resolution(b.id, Bank, b.goal, Some(b.txnId), b.amount, x.tag)
  }

  ghost predicate FromFund(t: Tables, range: Option<Range>, x: Resolution, f: FundEntry) {
    && f in t.funds && (x.tag == MissingInBank || x.tag == TimingDifference)
    && Open(f.tag, f.resolved, f.day, range, x.tag) && GroupIsExplained(t, range, f, x.tag)
    && x == Resolution(f.code, Goal, f.goal, f.txnId, SumOf(t.funds, GroupRows(f, range, x.tag)), x.tag)
  }

  lemma {:induction false} BankResultsAre(t: Tables, range: Option<Range>, x: Resolution, tag: ReviewTag)
    requires tag == MissingInGoal || tag == TimingDifference
    ensures x in BankResults(PendingBanks(t.banks, tag, range), t.funds, tag) <==>
            x.tag == tag && exists b :: FromBank(t, range, x, b)
  {
    var pending := PendingBanks(t.banks, tag, range);
    BankResultsMembers(pending, t.funds, tag, x);
    forall b | b in t.banks
      ensures b in pending && BankExplained(t.funds, b, tag) && x == BankResolution(b, tag) <==>
              x.tag == tag && FromBank(t, range, x, b)
    {
      BankExplainedIff(t.funds, b, tag);
    }
  }

  lemma {:induction false} FromFundIs(t: Tables, range: Option<Range>, x: Resolution, f: FundEntry, tag: ReviewTag)
    requires (tag == MissingInBank || tag == TimingDifference) && f in t.funds
    ensures var g := GroupFor(PendingFunds(t.funds, tag, range), KeyOf(f));
            FundPending(f, tag, range) && GroupExplained(t.banks, g, tag) && x == GroupResolution(g, tag) <==>
            x.tag == tag && FromFund(t, range, x, f)
  {
    FundDetectedIff(t, range, f, tag);
    GroupTotalIs(t.funds, f, range, tag);
  }

  lemma {:induction false} GoalResultsAre(t: Tables, range: Option<Range>, x: Resolution, tag: ReviewTag)
    requires tag == MissingInBank || tag == TimingDifference
    ensures x in GoalResults(PendingGroups(t.funds, tag, range), t.banks, tag) <==>
            x.tag == tag && exists f :: FromFund(t, range, x, f)
  {
    var groups := PendingGroups(t.funds, tag, range);
    GoalResultsMembers(groups, t.banks, tag, x);
    forall g {
      PendingGroupsMembers(t.funds, tag, range, g);
    }
    forall f | f in t.funds {
      FromFundIs(t, range, x, f, tag);
    }
    if f :| x.tag == tag && FromFund(t, range, x, f) {
      var g := GroupFor(PendingFunds(t.funds, tag, range), KeyOf(f));
      assert g in groups;
    }
  }

  /** The results of a run are exactly those of the explained open bank rows and of the explained groups of open
      fund rows, each with its own goal, transaction id and amount. */
  lemma {:induction false} ResultIff(t: Tables, range: Option<Range>, x: Resolution)
    ensures x in Detected(t, range) <==>
            (exists b :: FromBank(t, range, x, b)) || (exists f :: FromFund(t, range, x, f))
  {
    BankResultsAre(t, range, x, MissingInGoal);
    BankResultsAre(t, range, x, TimingDifference);
    GoalResultsAre(t, range, x, MissingInBank);
    GoalResultsAre(t, range, x, TimingDifference);
  }

  lemma {:induction false} KeysOnce(funds: seq<FundEntry>)
    ensures forall i, j :: 0 <= i < j < |KeysOf(funds)| ==> KeysOf(funds)[i] != KeysOf(funds)[j]
  {
    if funds != [] {
      KeysOnce(funds[1..]);
      var rest := KeysOf(funds[1..]);
      assert forall j :: 0 <= j < |rest| ==> rest[j] in rest;
    }
  }

  lemma {:induction false} GroupsInOrder(funds: seq<FundEntry>, keys: seq<GroupKey>)
    ensures |GroupsOf(funds, keys)| == |keys|
    ensures forall i :: 0 <= i < |keys| ==> GroupsOf(funds, keys)[i] == GroupFor(funds, keys[i])
  {
    if keys != [] {
      GroupsInOrder(funds, keys[1..]);
    }
  }

  /** Each group is looked for once. */
  lemma {:induction false} GroupsOnce(funds: seq<FundEntry>, tag: ReviewTag, range: Option<Range>)
    ensures var groups := PendingGroups(funds, tag, range);
            forall i, j :: 0 <= i < j < |groups| ==> groups[i].key != groups[j].key
  {
    var rows := PendingFunds(funds, tag, range);
    KeysOnce(rows);
    GroupsInOrder(rows, KeysOf(rows));
  }

  /** And each row or group that is looked for gives one result or none, in order. */
  lemma {:induction false} ResultsInOrder(a: seq<Group>, b: seq<Group>, c: seq<BankEntry>, d: seq<BankEntry>, t: Tables,
                                          tag: ReviewTag)
    ensures GoalResults(a + b, t.banks, tag) == GoalResults(a, t.banks, tag) + GoalResults(b, t.banks, tag)
    ensures BankResults(c + d, t.funds, tag) == BankResults(c, t.funds, tag) + BankResults(d, t.funds, tag)
    ensures |GoalResults(a, t.banks, tag)| <= |a| && |BankResults(c, t.funds, tag)| <= |c|
  {
    GoalResultsParts(a, b, t.banks, tag);
    BankResultsParts(c, d, t.funds, tag);
  }

  lemma {:induction false} GoalResultsParts(a: seq<Group>, b: seq<Group>, banks: seq<BankEntry>, tag: ReviewTag)
    ensures GoalResults(a + b, banks, tag) == GoalResults(a, banks, tag) + GoalResults(b, banks, tag)
    ensures |GoalResults(a, banks, tag)| <= |a|
  {
    if a == [] {
      assert a + b == b;
    } else {
      assert (a + b)[1..] == a[1..] + b;
      GoalResultsParts(a[1..], b, banks, tag);
      var first := if GroupExplained(banks, a[0], tag) then [GroupResolution(a[0], tag)] else [];
      Associative(first, GoalResults(a[1..], banks, tag), GoalResults(b, banks, tag));
    }
  }

  lemma {:induction false} BankResultsParts(c: seq<BankEntry>, d: seq<BankEntry>, funds: seq<FundEntry>, tag: ReviewTag)
    ensures BankResults(c + d, funds, tag) == BankResults(c, funds, tag) + BankResults(d, funds, tag)
    ensures |BankResults(c, funds, tag)| <= |c|
  {
    if c == [] {
      assert c + d == d;
    } else {
      assert (c + d)[1..] == c[1..] + d;
      BankResultsParts(c[1..], d, funds, tag);
      var first := if BankExplained(funds, c[0], tag) then [BankResolution(c[0], tag)] else [];
      Associative(first, BankResults(c[1..], funds, tag), BankResults(d, funds, tag));
    }
  }
}
