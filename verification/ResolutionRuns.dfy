/** What detection of resolved variances guarantees over repeated runs. */
module ResolutionRuns {
  import opened Text
  import opened Transactions
  import opened VarianceResolution

  // ---- The searches do not look at the flags ----

  lemma {:induction false} CodeTotalOfMarked(funds: seq<FundEntry>, results: seq<Resolution>, s: Search, code: string)
    ensures CodeTotal(MarkFunds(funds, results), s, code) == CodeTotal(funds, s, code)
  {
    if funds != [] {
      CodeTotalOfMarked(funds[1..], results, s, code);
      assert MarkFunds(funds, results)[1..] == MarkFunds(funds[1..], results);
    }
  }

  lemma {:induction false} FundFoundInMarked(funds: seq<FundEntry>, results: seq<Resolution>, s: Search, amount: int)
    ensures FundFound(MarkFunds(funds, results), s, amount) <==> FundFound(funds, s, amount)
  {
    var marked := MarkFunds(funds, results);
    forall i | 0 <= i < |funds|
      ensures FundMeets(marked[i], s) <==> FundMeets(funds[i], s)
      ensures CodeTotal(marked, s, marked[i].code) == CodeTotal(funds, s, funds[i].code)
    {
      CodeTotalOfMarked(funds, results, s, funds[i].code);
    }
    if FundFound(funds, s, amount) {
      var f :| f in funds && FundHit(funds, s, f, amount);
      var i :| 0 <= i < |funds| && funds[i] == f;
      assert FundHit(marked, s, marked[i], amount);
    }
    if FundFound(marked, s, amount) {
      var f :| f in marked && FundHit(marked, s, f, amount);
      var i :| 0 <= i < |marked| && marked[i] == f;
      assert FundHit(funds, s, funds[i], amount);
    }
  }

  lemma {:induction false} BankFoundInMarked(banks: seq<BankEntry>, results: seq<Resolution>, s: Search, amount: int)
    ensures BankFound(MarkBanks(banks, results), s, amount) <==> BankFound(banks, s, amount)
  {
    var marked := MarkBanks(banks, results);
    if BankFound(banks, s, amount) {
      var b :| b in banks && BankMeets(b, s) && Close(b.amount, amount);
      var i :| 0 <= i < |banks| && banks[i] == b;
      assert marked[i] in marked;
    }
    if BankFound(marked, s, amount) {
      var b :| b in marked && BankMeets(b, s) && Close(b.amount, amount);
      var i :| 0 <= i < |marked| && marked[i] == b;
      assert banks[i] in banks;
    }
  }

  lemma {:induction false} ExplainedInMarked(t: Tables, results: seq<Resolution>, b: BankEntry, g: Group,
                                             tag: ReviewTag)
    ensures BankExplained(MarkFunds(t.funds, results), b, tag) <==> BankExplained(t.funds, b, tag)
    ensures GroupExplained(MarkBanks(t.banks, results), g, tag) <==> GroupExplained(t.banks, g, tag)
  {
    var p, q := BankProbe(b), GroupProbe(g);
    FundFoundInMarked(t.funds, results, ById(p, None), p.amount);
    FundFoundInMarked(t.funds, results, ByDate(p), p.amount);
    FundFoundInMarked(t.funds, results, ById(p, Around(p.day, TIMING_DAYS)), p.amount);
    BankFoundInMarked(t.banks, results, ById(q, None), q.amount);
    BankFoundInMarked(t.banks, results, ByDate(q), q.amount);
    BankFoundInMarked(t.banks, results, ById(q, Around(q.day, TIMING_DAYS)), q.amount);
  }

  // ---- Exactly what a run resolves ----

  predicate IsBankTag(tag: ReviewTag) {
    tag == MissingInGoal || tag == TimingDifference
  }

  predicate IsFundTag(tag: ReviewTag) {
    tag == MissingInBank || tag == TimingDifference
  }

  ghost predicate BankDetected(t: Tables, range: Option<Range>, b: BankEntry, tag: ReviewTag) {
    IsBankTag(tag) && b in t.banks && BankPending(b, tag, range) && BankExplained(t.funds, b, tag)
  }

  ghost predicate FundDetected(t: Tables, range: Option<Range>, f: FundEntry, tag: ReviewTag) {
    IsFundTag(tag) && f in t.funds && FundPending(f, tag, range)
    && GroupExplained(t.banks, GroupFor(PendingFunds(t.funds, tag, range), KeyOf(f)), tag)
  }

  lemma {:induction false} BankResultsMark(t: Tables, range: Option<Range>, tag: ReviewTag, id: string)
    requires IsBankTag(tag)
    ensures Marks(BankResults(PendingBanks(t.banks, tag, range), t.funds, tag), Bank, id) <==>
            exists b :: BankDetected(t, range, b, tag) && b.id == id
  {
    var pending := PendingBanks(t.banks, tag, range);
    var results := BankResults(pending, t.funds, tag);
    if Marks(results, Bank, id) {
      var x :| x in results && x.source == Bank && x.id == id;
      BankResultsMembers(pending, t.funds, tag, x);
      var b :| b in pending && BankExplained(t.funds, b, tag) && x == BankResolution(b, tag);
      assert BankDetected(t, range, b, tag);
    }
    if b :| BankDetected(t, range, b, tag) && b.id == id {
      BankResultsMembers(pending, t.funds, tag, BankResolution(b, tag));
      assert b in pending;
      assert BankResolution(b, tag) in results;
    }
  }

  lemma {:induction false} GoalResultsMark(t: Tables, range: Option<Range>, tag: ReviewTag, code: string)
    requires IsFundTag(tag)
    ensures Marks(GoalResults(PendingGroups(t.funds, tag, range), t.banks, tag), Goal, code) <==>
            exists f :: FundDetected(t, range, f, tag) && f.code == code
  {
    var groups := PendingGroups(t.funds, tag, range);
    var results := GoalResults(groups, t.banks, tag);
    if Marks(results, Goal, code) {
      var x :| x in results && x.source == Goal && x.id == code;
      GoalResultsMembers(groups, t.banks, tag, x);
      var g :| g in groups && GroupExplained(t.banks, g, tag) && x == GroupResolution(g, tag);
      PendingGroupsMembers(t.funds, tag, range, g);
      var f :| f in t.funds && FundPending(f, tag, range) && g == GroupFor(PendingFunds(t.funds, tag, range), KeyOf(f));
      assert FundDetected(t, range, f, tag);
    }
    if f :| FundDetected(t, range, f, tag) && f.code == code {
      var g := GroupFor(PendingFunds(t.funds, tag, range), KeyOf(f));
      PendingGroupsMembers(t.funds, tag, range, g);
      GoalResultsMembers(groups, t.banks, tag, GroupResolution(g, tag));
      assert GroupResolution(g, tag) in results;
    }
  }

  lemma {:induction false} MarksAppend(a: seq<Resolution>, b: seq<Resolution>, source: Source, id: string)
    ensures Marks(a + b, source, id) <==> Marks(a, source, id) || Marks(b, source, id)
  {
    assert forall x :: x in a + b <==> x in a || x in b;
  }

  lemma {:induction false} OnlyBanks(pending: seq<BankEntry>, funds: seq<FundEntry>, tag: ReviewTag, id: string)
    ensures !Marks(BankResults(pending, funds, tag), Goal, id)
  {
    var results := BankResults(pending, funds, tag);
    forall x | x in results
      ensures x.source == Bank
    {
      BankResultsMembers(pending, funds, tag, x);
    }
  }

  lemma {:induction false} OnlyGoals(groups: seq<Group>, banks: seq<BankEntry>, tag: ReviewTag, id: string)
    ensures !Marks(GoalResults(groups, banks, tag), Bank, id)
  {
    var results := GoalResults(groups, banks, tag);
    forall x | x in results
      ensures x.source == Goal
    {
      GoalResultsMembers(groups, banks, tag, x);
    }
  }

  lemma {:induction false} DetectedMarks(t: Tables, range: Option<Range>, source: Source, id: string)
    ensures Marks(Detected(t, range), source, id) <==>
            if source == Bank then exists b, tag :: BankDetected(t, range, b, tag) && b.id == id
            else exists f, tag :: FundDetected(t, range, f, tag) && f.code == id
  {
    var inGoal, inBank := MissingInGoalResults(t, range), MissingInBankResults(t, range);
    var timing := TimingResults(t, range);
    var late := BankResults(PendingBanks(t.banks, TimingDifference, range), t.funds, TimingDifference);
    var lateGoals := GoalResults(PendingGroups(t.funds, TimingDifference, range), t.banks, TimingDifference);
    MarksAppend(inGoal + inBank, timing, source, id);
    MarksAppend(inGoal, inBank, source, id);
    MarksAppend(late, lateGoals, source, id);
    if source == Bank {
      BankResultsMark(t, range, MissingInGoal, id);
      BankResultsMark(t, range, TimingDifference, id);
      OnlyGoals(PendingGroups(t.funds, MissingInBank, range), t.banks, MissingInBank, id);
      OnlyGoals(PendingGroups(t.funds, TimingDifference, range), t.banks, TimingDifference, id);
    } else {
      GoalResultsMark(t, range, MissingInBank, id);
      GoalResultsMark(t, range, TimingDifference, id);
      OnlyBanks(PendingBanks(t.banks, MissingInGoal, range), t.funds, MissingInGoal, id);
      OnlyBanks(PendingBanks(t.banks, TimingDifference, range), t.funds, TimingDifference, id);
    }
  }

  /** After a run a row is resolved exactly if it was before, or if it is a bank row that was detected,
      or a fund row that shares its code with a fund row that was detected. Nothing else changes. */
  lemma {:induction false} ExactlyTheDetected(t: Tables, range: Option<Range>)
    ensures var next := After(t, range);
            && |next.banks| == |t.banks| && |next.funds| == |t.funds|
            && (forall i :: 0 <= i < |t.banks| ==>
                  && next.banks[i] == t.banks[i].(resolved := next.banks[i].resolved)
                  && (next.banks[i].resolved <==>
                      t.banks[i].resolved || exists b, tag :: BankDetected(t, range, b, tag) && b.id == t.banks[i].id))
            && (forall i :: 0 <= i < |t.funds| ==>
                  && next.funds[i] == t.funds[i].(resolved := next.funds[i].resolved)
                  && (next.funds[i].resolved <==>
                      t.funds[i].resolved ||
                      exists f, tag :: FundDetected(t, range, f, tag) && f.code == t.funds[i].code))
  {
    forall i | 0 <= i < |t.banks|
      ensures Marks(Detected(t, range), Bank, t.banks[i].id) <==>
              exists b, tag :: BankDetected(t, range, b, tag) && b.id == t.banks[i].id
    {
      DetectedMarks(t, range, Bank, t.banks[i].id);
    }
    forall i | 0 <= i < |t.funds|
      ensures Marks(Detected(t, range), Goal, t.funds[i].code) <==>
              exists f, tag :: FundDetected(t, range, f, tag) && f.code == t.funds[i].code
    {
      DetectedMarks(t, range, Goal, t.funds[i].code);
    }
  }

  // ---- A second run ----

  /** Marking by code leaves the groups of every unmarked code as they were. */
  lemma {:induction false} UnmarkedGroup(funds: seq<FundEntry>, results: seq<Resolution>, tag: ReviewTag,
                                         range: Option<Range>, key: GroupKey)
    requires !Marks(results, Goal, key.code)
    ensures KeyTotal(PendingFunds(MarkFunds(funds, results), tag, range), key) ==
              KeyTotal(PendingFunds(funds, tag, range), key)
    ensures KeyDay(PendingFunds(MarkFunds(funds, results), tag, range), key) ==
              KeyDay(PendingFunds(funds, tag, range), key)
  {
    if funds != [] {
      UnmarkedGroup(funds[1..], results, tag, range, key);
      assert MarkFunds(funds, results)[1..] == MarkFunds(funds[1..], results);
      KeyOfFirst(funds, tag, range, key);
      KeyOfFirst(MarkFunds(funds, results), tag, range, key);
    }
  }

  lemma {:induction false} KeyOfFirst(funds: seq<FundEntry>, tag: ReviewTag, range: Option<Range>, key: GroupKey)
    requires funds != []
    ensures var (all, rest, f) := (PendingFunds(funds, tag, range), PendingFunds(funds[1..], tag, range), funds[0]);
            && (FundPending(f, tag, range) && KeyOf(f) == key ==>
                  && KeyTotal(all, key) == f.amount + KeyTotal(rest, key)
                  && KeyDay(all, key) == match KeyDay(rest, key)
                                         case None => Some(f.day)
                                         case Some(d) => Some(if d < f.day then d else f.day))
            && (!(FundPending(f, tag, range) && KeyOf(f) == key) ==>
                  KeyTotal(all, key) == KeyTotal(rest, key) && KeyDay(all, key) == KeyDay(rest, key))
  {
    var rest := PendingFunds(funds[1..], tag, range);
    assert ([funds[0]] + rest)[1..] == rest;
    assert [] + rest == rest;
  }

  ghost predicate Narrower(inner: Option<Range>, outer: Option<Range>) {
    forall day :: InRange(day, inner) ==> InRange(day, outer)
  }

  /** No bank row is found by a second run over the same or fewer days. */
  lemma {:induction false} NoBankAgain(t: Tables, range: Option<Range>, again: Option<Range>, b: BankEntry,
                                       tag: ReviewTag)
    requires Narrower(again, range)
    ensures !BankDetected(After(t, range), again, b, tag)
  {
    var results := Detected(t, range);
    if BankDetected(After(t, range), again, b, tag) {
      var i :| 0 <= i < |t.banks| && b == MarkBanks(t.banks, results)[i];
      assert b == t.banks[i] && !Marks(results, Bank, b.id);
      ExplainedInMarked(t, results, b, Group(GroupKey("", "", None, Deposit), 0, 0), tag);
      assert BankDetected(t, range, b, tag);
      DetectedMarks(t, range, Bank, b.id);
      assert false;
    }
  }

  /** A fund row that a second run detects was left by the first, with its group as it is now. */
  lemma {:induction false} DetectedAgain(t: Tables, range: Option<Range>, again: Option<Range>, f: FundEntry,
                                         tag: ReviewTag)
    requires FundDetected(After(t, range), again, f, tag)
    ensures f in t.funds && !Marks(Detected(t, range), Goal, f.code)
    ensures FundDetected(t, again, f, tag)
  {
    var results := Detected(t, range);
    var next := MarkFunds(t.funds, results);
    var i :| 0 <= i < |t.funds| && f == next[i];
    assert f == t.funds[i] && !Marks(results, Goal, f.code);
    UnmarkedGroup(t.funds, results, tag, again, KeyOf(f));
    var g := GroupFor(PendingFunds(t.funds, tag, again), KeyOf(f));
    assert g == GroupFor(PendingFunds(next, tag, again), KeyOf(f));
    ExplainedInMarked(t, results, BankEntry("", "", "", Deposit, 0, 0, None, false), g, tag);
  }

  /** No fund row is found by a second run over the same days. */
  lemma {:induction false} NoFundAgain(t: Tables, range: Option<Range>, f: FundEntry, tag: ReviewTag)
    ensures !FundDetected(After(t, range), range, f, tag)
  {
    if FundDetected(After(t, range), range, f, tag) {
      DetectedAgain(t, range, range, f, tag);
      DetectedMarks(t, range, Goal, f.code);
      assert false;
    }
  }

  lemma {:induction false} NothingDetected(t: Tables, range: Option<Range>)
    requires forall b, tag :: !BankDetected(t, range, b, tag)
    requires forall f, tag :: !FundDetected(t, range, f, tag)
    ensures Detected(t, range) == []
  {
    var found := Detected(t, range);
    if found != [] {
      var x := found[0];
      assert Marks(found, x.source, x.id);
      DetectedMarks(t, range, x.source, x.id);
      assert false;
    }
  }

  /** A second run over the same days and no new data finds nothing and changes nothing. */
  lemma {:induction false} SecondRunFindsNothing(t: Tables, range: Option<Range>)
    ensures Detected(After(t, range), range) == []
    ensures After(After(t, range), range) == After(t, range)
  {
    var next := After(t, range);
    forall b, tag
      ensures !BankDetected(next, range, b, tag)
    {
      NoBankAgain(t, range, range, b, tag);
    }
    forall f, tag
      ensures !FundDetected(next, range, f, tag)
    {
      NoFundAgain(t, range, f, tag);
    }
    NothingDetected(next, range);
    NothingMarked(next);
  }

  /** A second run over fewer days finds no bank row, whatever it finds among the fund rows. */
  lemma {:induction false} NarrowerRunFindsNoBank(t: Tables, range: Option<Range>, again: Option<Range>)
    requires Narrower(again, range)
    ensures forall x :: x in Detected(After(t, range), again) ==> x.source == Goal
  {
    var next := After(t, range);
    var results := Detected(next, again);
    forall x | x in results
      ensures x.source == Goal
    {
      if x.source == Bank {
        assert Marks(results, Bank, x.id);
        DetectedMarks(next, again, Bank, x.id);
        var b, tag :| BankDetected(next, again, b, tag);
        NoBankAgain(t, range, again, b, tag);
        assert false;
      }
    }
  }

  // ---- Runs ----

  /** What happens to the tables: uploads add rows, reviews set tags, detection sets flags. */
  datatype Event =
    | Upload(banks: seq<BankEntry>, funds: seq<FundEntry>)
    | ReviewBank(id: string, tag: Option<ReviewTag>)
    | ReviewFunds(code: string, tag: Option<ReviewTag>)
    | Detect(range: Option<Range>)

  function TagBanks(banks: seq<BankEntry>, id: string, tag: Option<ReviewTag>): (r: seq<BankEntry>)
    ensures |r| == |banks|
    ensures forall i :: 0 <= i < |r| ==> r[i] == if banks[i].id == id then banks[i].(tag := tag) else banks[i]
  {
    if banks == [] then []
    else [if banks[0].id == id then banks[0].(tag := tag) else banks[0]] + TagBanks(banks[1..], id, tag)
  }

  function TagFunds(funds: seq<FundEntry>, code: string, tag: Option<ReviewTag>): (r: seq<FundEntry>)
    ensures |r| == |funds|
    ensures forall i :: 0 <= i < |r| ==> r[i] == if funds[i].code == code then funds[i].(tag := tag) else funds[i]
  {
    if funds == [] then []
    else [if funds[0].code == code then funds[0].(tag := tag) else funds[0]] + TagFunds(funds[1..], code, tag)
  }

  function Step(t: Tables, e: Event): Tables {
    match e
    case Upload(banks, funds) => Tables(t.banks + banks, t.funds + funds)
    case ReviewBank(id, tag) => t.(banks := TagBanks(t.banks, id, tag))
    case ReviewFunds(code, tag) => t.(funds := TagFunds(t.funds, code, tag))
    case Detect(range) => After(t, range)
  }

  function RunAll(t: Tables, events: seq<Event>): Tables
    decreases events
  {
    if events == [] then t else RunAll(Step(t, events[0]), events[1..])
  }

  /** A run takes its events one after the other. */
  lemma {:induction false} LastEvent(t: Tables, events: seq<Event>, e: Event)
    ensures RunAll(t, []) == t && RunAll(t, events + [e]) == Step(RunAll(t, events), e)
    decreases events
  {
    if events == [] {
      assert ([] + [e])[1..] == [];
    } else {
      assert (events + [e])[1..] == events[1..] + [e];
      LastEvent(Step(t, events[0]), events[1..], e);
    }
  }

  /** Every row of before is still there with its data, and with its flag if it had it. */
  ghost predicate Grows(before: Tables, after: Tables) {
    && |before.banks| <= |after.banks| && |before.funds| <= |after.funds|
    && (forall i :: 0 <= i < |before.banks| ==>
          && after.banks[i] == before.banks[i].(tag := after.banks[i].tag, resolved := after.banks[i].resolved)
          && (before.banks[i].resolved ==> after.banks[i].resolved))
    && (forall i :: 0 <= i < |before.funds| ==>
          && after.funds[i] == before.funds[i].(tag := after.funds[i].tag, resolved := after.funds[i].resolved)
          && (before.funds[i].resolved ==> after.funds[i].resolved))
  }

  lemma {:induction false} StepGrows(t: Tables, e: Event)
    ensures Grows(t, Step(t, e))
  {
  }

  lemma {:induction false} GrowsTransitive(a: Tables, b: Tables, c: Tables)
    requires Grows(a, b) && Grows(b, c)
    ensures Grows(a, c)
  {
  }

  /** Over every run of uploads, reviews and detections no row is lost and no flag reverts. */
  lemma {:induction false} FlagsNeverRevert(t: Tables, events: seq<Event>)
    ensures Grows(t, RunAll(t, events))
    decreases events
  {
    if events != [] {
      StepGrows(t, events[0]);
      FlagsNeverRevert(Step(t, events[0]), events[1..]);
      GrowsTransitive(t, Step(t, events[0]), RunAll(t, events));
    }
  }

  // ---- The narrow search for bank rows and the wide one ----

  /** Bank rows within three days are also found by the search over thirty days. */
  lemma {:induction false} InTimeImpliesFound(banks: seq<BankEntry>, p: Probe)
    requires FindBankInTime(banks, p)
    ensures BankFound(banks, ById(p, None), p.amount) && BankFound(banks, ByDate(p), p.amount) && FindBank(banks, p)
  {
    var s := ById(p, Around(p.day, TIMING_DAYS));
    var b :| b in banks && BankMeets(b, s) && Close(b.amount, p.amount);
    assert BankMeets(b, ById(p, None)) && BankMeets(b, ByDate(p));
  }
}
