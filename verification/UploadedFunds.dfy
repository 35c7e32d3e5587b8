/** The fund rows that uploads can store: a goal code begins with the date of its row, and a row comes
    without a tag. What detection guarantees for such rows, over all runs. */
module UploadedFunds {
  import opened Text
  import opened Transactions
  import opened VarianceResolution
  import opened ResolutionRuns

  ghost predicate OneDayPerCode(funds: seq<FundEntry>) {
    forall f, g :: f in funds && g in funds && f.code == g.code ==> f.day == g.day
  }

  // ---- A second run over fewer days ----

  /** Two ranges that agree on the rows of a key see the same group. */
  lemma {:induction false} SameGroupInRanges(funds: seq<FundEntry>, tag: ReviewTag, a: Option<Range>,
                                             b: Option<Range>, key: GroupKey)
    requires forall f :: f in funds && KeyOf(f) == key ==> (InRange(f.day, a) <==> InRange(f.day, b))
    ensures KeyTotal(PendingFunds(funds, tag, a), key) == KeyTotal(PendingFunds(funds, tag, b), key)
    ensures KeyDay(PendingFunds(funds, tag, a), key) == KeyDay(PendingFunds(funds, tag, b), key)
  {
    if funds != [] {
      assert funds[0] in funds && forall f :: f in funds[1..] ==> f in funds;
      SameGroupInRanges(funds[1..], tag, a, b, key);
      KeyOfFirst(funds, tag, a, key);
      KeyOfFirst(funds, tag, b, key);
    }
  }

  lemma {:induction false} NoFundInFewerDays(t: Tables, range: Option<Range>, again: Option<Range>, f: FundEntry,
                                             tag: ReviewTag)
    requires Narrower(again, range) && OneDayPerCode(t.funds)
    ensures !FundDetected(After(t, range), again, f, tag)
  {
    if FundDetected(After(t, range), again, f, tag) {
      DetectedAgain(t, range, again, f, tag);
      SameGroupInRanges(t.funds, tag, again, range, KeyOf(f));
      assert FundDetected(t, range, f, tag);
      DetectedMarks(t, range, Goal, f.code);
      assert false;
    }
  }

  /** A second run over the same or fewer days and no new data finds nothing and changes nothing. */
  lemma {:induction false} NarrowerRunFindsNothing(t: Tables, range: Option<Range>, again: Option<Range>)
    requires Narrower(again, range) && OneDayPerCode(t.funds)
    ensures Detected(After(t, range), again) == [] && After(After(t, range), again) == After(t, range)
  {
    var next := After(t, range);
    forall b, tag
      ensures !BankDetected(next, again, b, tag)
    {
      NoBankAgain(t, range, again, b, tag);
    }
    forall f, tag
      ensures !FundDetected(next, again, f, tag)
    {
      NoFundInFewerDays(t, range, again, f, tag);
    }
    NothingDetected(next, again);
    NothingMarked(next);
  }

  // ---- The narrow search for fund rows and the wide one ----

  lemma {:induction false} CodeTotalInTime(funds: seq<FundEntry>, p: Probe, code: string)
    requires forall f :: f in funds && f.code == code ==> InRange(f.day, Around(p.day, TIMING_DAYS))
    ensures CodeTotal(funds, ById(p, Around(p.day, TIMING_DAYS)), code) == CodeTotal(funds, ById(p, None), code)
  {
    if funds != [] {
      assert funds[0] in funds && forall f :: f in funds[1..] ==> f in funds;
      CodeTotalInTime(funds[1..], p, code);
    }
  }

  lemma {:induction false} HitInTime(funds: seq<FundEntry>, p: Probe, f: FundEntry)
    requires OneDayPerCode(funds)
    ensures FundHit(funds, ById(p, Around(p.day, TIMING_DAYS)), f, p.amount) <==>
            FundHit(funds, ById(p, None), f, p.amount) && InRange(f.day, Around(p.day, TIMING_DAYS))
  {
    if f in funds && InRange(f.day, Around(p.day, TIMING_DAYS)) {
      CodeTotalInTime(funds, p, f.code);
    }
  }

  /** The narrow search finds a fund group if and only if the search by id does with a group of a day
      within the window. So whatever it finds the wide search finds. */
  lemma {:induction false} FundsInTimeIff(funds: seq<FundEntry>, p: Probe)
    requires OneDayPerCode(funds)
    ensures FindGoalInTime(funds, p) <==>
            HasId(p.txnId) &&
            exists f :: FundHit(funds, ById(p, None), f, p.amount) && InRange(f.day, Around(p.day, TIMING_DAYS))
    ensures FindGoalInTime(funds, p) ==> FindGoal(funds, p)
  {
    forall f {
      HitInTime(funds, p, f);
    }
    if f :| FundHit(funds, ById(p, None), f, p.amount) && InRange(f.day, Around(p.day, TIMING_DAYS)) {
      assert f in funds && FundHit(funds, ById(p, Around(p.day, TIMING_DAYS)), f, p.amount);
    }
  }

  // ---- What uploads store ----

  /** The text of a date has ten characters and differs from that of every other date. */
  ghost predicate IsDateText(dateText: int -> string) {
    (forall d :: |dateText(d)| == 10) && (forall d, e :: dateText(d) == dateText(e) ==> d == e)
  }

  /** The code was generated from the date of the row. */
  ghost predicate Generated(f: FundEntry, dateText: int -> string) {
    dateText(f.day) + "-" <= f.code
  }

  predicate Fresh(f: FundEntry) {
    f.tag == None && !f.resolved
  }

  ghost predicate AllGenerated(funds: seq<FundEntry>, dateText: int -> string) {
    forall f :: f in funds ==> Generated(f, dateText)
  }

  lemma {:induction false} GeneratedOneDay(funds: seq<FundEntry>, dateText: int -> string)
    requires IsDateText(dateText) && AllGenerated(funds, dateText)
    ensures OneDayPerCode(funds)
  {
    forall f, g | f in funds && g in funds && f.code == g.code
      ensures f.day == g.day
    {
      assert |dateText(f.day)| == |dateText(g.day)| == 10;
      assert f.code[..10] == dateText(f.day) && g.code[..10] == dateText(g.day);
    }
  }

  /** Within a code the tags that are set agree. */
  ghost predicate TagsAgree(funds: seq<FundEntry>) {
    forall f, g :: f in funds && g in funds && f.code == g.code && f.tag.Some? && g.tag.Some? ==> f.tag == g.tag
  }

  /** Uploads bring fresh rows with generated codes; reviews and detections are unrestricted. */
  ghost predicate Possible(e: Event, dateText: int -> string) {
    e.Upload? ==> AllGenerated(e.funds, dateText) && forall f :: f in e.funds ==> Fresh(f)
  }

  ghost predicate Storable(t: Tables, dateText: int -> string) {
    AllGenerated(t.funds, dateText) && TagsAgree(t.funds)
  }

  lemma {:induction false} ReviewKeepsStorable(t: Tables, code: string, tag: Option<ReviewTag>, dateText: int -> string)
    requires Storable(t, dateText)
    ensures Storable(Step(t, ReviewFunds(code, tag)), dateText)
  {
    var next := TagFunds(t.funds, code, tag);
    forall i | 0 <= i < |next|
      ensures t.funds[i] in t.funds &&
                next[i] == t.funds[i].(tag := if t.funds[i].code == code then tag else t.funds[i].tag)
    {
    }
  }

  lemma {:induction false} DetectKeepsStorable(t: Tables, range: Option<Range>, dateText: int -> string)
    requires Storable(t, dateText)
    ensures Storable(After(t, range), dateText)
  {
    var next := MarkFunds(t.funds, Detected(t, range));
    forall i | 0 <= i < |next|
      ensures t.funds[i] in t.funds && next[i] == t.funds[i].(resolved := next[i].resolved)
    {
    }
  }

  lemma {:induction false} StepKeepsStorable(t: Tables, e: Event, dateText: int -> string)
    requires Storable(t, dateText) && Possible(e, dateText)
    ensures Storable(Step(t, e), dateText)
  {
    match e
    case Upload(banks, funds) =>
      assert forall f :: f in t.funds + funds <==> f in t.funds || f in funds;
    case ReviewBank(id, tag) =>
    case ReviewFunds(code, tag) => ReviewKeepsStorable(t, code, tag, dateText);
    case Detect(range) => DetectKeepsStorable(t, range, dateText);
  }

  /** Over every run the rows of a code share their day, and the tags within a code are equal or missing. */
  lemma {:induction false} RunKeepsStorable(t: Tables, events: seq<Event>, dateText: int -> string)
    requires IsDateText(dateText) && Storable(t, dateText) && forall e :: e in events ==> Possible(e, dateText)
    ensures Storable(RunAll(t, events), dateText) && OneDayPerCode(RunAll(t, events).funds)
    decreases events
  {
    if events == [] {
      GeneratedOneDay(t.funds, dateText);
    } else {
      assert events[0] in events && forall e :: e in events[1..] ==> e in events;
      StepKeepsStorable(t, events[0], dateText);
      RunKeepsStorable(Step(t, events[0]), events[1..], dateText);
    }
  }

  const EMPTY := Tables([], [])

  /** After every run from empty tables: a detection repeated over the same or fewer days finds nothing
      more, and what a fund search finds within three days it finds within thirty. */
  lemma {:induction false} EveryRun(events: seq<Event>,
                                    dateText: int -> string, range: Option<Range>, again: Option<Range>, p: Probe)
    requires IsDateText(dateText) && Narrower(again, range) && forall e :: e in events ==> Possible(e, dateText)
    ensures var t := RunAll(EMPTY, events);
            && Detected(After(t, range), again) == []
            && (FindGoalInTime(t.funds, p) ==> FindGoal(t.funds, p))
  {
    var t := RunAll(EMPTY, events);
    RunKeepsStorable(EMPTY, events, dateText);
    NarrowerRunFindsNothing(t, range, again);
    FundsInTimeIff(t.funds, p);
  }

  // ---- Resolved with its code ----

  /** b explains f alone: same goal, type, amount and day. */
  predicate Explains(b: BankEntry, f: FundEntry) {
    b.goal == f.goal && b.txnType == f.txnType && b.amount == f.amount && b.day == f.day
  }

  lemma {:induction false} ExplainedAlone(b: BankEntry, f: FundEntry)
    requires Explains(b, f)
    ensures GroupExplained([b], GroupFor([f], KeyOf(f)), MissingInBank)
  {
    assert [f][1..] == [];
    assert KeyTotal([], KeyOf(f)) == 0 && KeyDay([], KeyOf(f)) == None;
    var g := GroupFor([f], KeyOf(f));
    assert g == Group(KeyOf(f), f.amount, f.day);
    assert b in [b] && BankMeets(b, ByDate(GroupProbe(g)));
  }

  function Reviewed(f: FundEntry): FundEntry {
    f.(tag := Some(MissingInBank))
  }

  /** A row uploaded after the review of its code was never reviewed and is not part of the sum that is
      compared. It is resolved with its code all the same. */
  lemma {:induction false} LateRowIsResolved(b: BankEntry, f: FundEntry, late: FundEntry)
    requires Fresh(f) && Fresh(late) && f.code == late.code && Explains(b, f)
    ensures var t := RunAll(EMPTY, [Upload([b], [f]), ReviewFunds(f.code, Some(MissingInBank)), Upload([], [late])]);
            && t.funds == [Reviewed(f), late]
            && After(t, None).funds[1] == late.(resolved := true)
  {
    var events := [Upload([b], [f]), ReviewFunds(f.code, Some(MissingInBank)), Upload([], [late])];
    var t1 := Step(EMPTY, events[0]);
    assert t1 == Tables([b], [f]);
    var t2 := Step(t1, events[1]);
    assert t2 == Tables([b], [Reviewed(f)]);
    var t := Step(t2, events[2]);
    assert t == Tables([b], [Reviewed(f), late]);
    RunOfThree(EMPTY, events);
    FirstIsPending(Reviewed(f), late);
    ExplainedAlone(b, Reviewed(f));
    assert FundDetected(t, None, Reviewed(f), MissingInBank);
    ExactlyTheDetected(t, None);
  }

  lemma {:induction false} RunOfTwo(t: Tables, events: seq<Event>)
    requires |events| == 2
    ensures RunAll(t, events) == Step(Step(t, events[0]), events[1])
  {
    assert events[1..] == [events[1]] && [events[1]][1..] == [];
    var first := Step(t, events[0]);
    assert RunAll(first, [events[1]]) == Step(first, events[1]);
  }

  lemma {:induction false} RunOfThree(t: Tables, events: seq<Event>)
    requires |events| == 3
    ensures RunAll(t, events) == Step(Step(Step(t, events[0]), events[1]), events[2])
  {
    RunOfTwo(Step(t, events[0]), events[1..]);
  }

  lemma {:induction false} FirstIsPending(f: FundEntry, g: FundEntry)
    requires FundPending(f, MissingInBank, None) && !FundPending(g, MissingInBank, None)
    ensures PendingFunds([f, g], MissingInBank, None) == [f]
  {
    assert [f, g][1..] == [g] && [g][1..] == [];
    assert PendingFunds([g], MissingInBank, None) == [];
  }

  /** A code can have rows of two types. The rows of one type are then resolved when the other type is
      explained, although no bank row explains them. */
  lemma {:induction false} OtherTypeIsResolved(b: BankEntry, f: FundEntry, other: FundEntry)
    requires Fresh(f) && Fresh(other) && f.code == other.code && f.txnType != other.txnType && Explains(b, f)
    ensures var t := RunAll(EMPTY, [Upload([b], [f, other]), ReviewFunds(f.code, Some(MissingInBank))]);
            var g := GroupFor(PendingFunds(t.funds, MissingInBank, None), KeyOf(other));
            && t.funds == [Reviewed(f), Reviewed(other)] && t.banks == [b]
            && !GroupExplained(t.banks, g, MissingInBank)
            && After(t, None).funds[1] == Reviewed(other).(resolved := true)
  {
    var events := [Upload([b], [f, other]), ReviewFunds(f.code, Some(MissingInBank))];
    var t1 := Step(EMPTY, events[0]);
    assert t1 == Tables([b], [f, other]);
    var t := Step(t1, events[1]);
    assert t == Tables([b], [Reviewed(f), Reviewed(other)]);
    RunOfTwo(EMPTY, events);
    BothPending(Reviewed(f), Reviewed(other));
    GroupAmongOthers(Reviewed(f), Reviewed(other));
    ExplainedAlone(b, Reviewed(f));
    NotExplained(b, GroupFor([Reviewed(f), Reviewed(other)], KeyOf(other)));
    assert FundDetected(t, None, Reviewed(f), MissingInBank);
    ExactlyTheDetected(t, None);
  }

  lemma {:induction false} BothPending(f: FundEntry, g: FundEntry)
    requires FundPending(f, MissingInBank, None) && FundPending(g, MissingInBank, None)
    ensures PendingFunds([f, g], MissingInBank, None) == [f, g]
  {
    assert [f, g][1..] == [g] && [g][1..] == [];
    assert PendingFunds([g], MissingInBank, None) == [g];
  }

  lemma {:induction false} GroupAmongOthers(f: FundEntry, g: FundEntry)
    requires KeyOf(f) != KeyOf(g)
    ensures GroupFor([f, g], KeyOf(f)) == GroupFor([f], KeyOf(f))
  {
    assert [f, g][1..] == [g] && [g][1..] == [] && [f][1..] == [];
    assert KeyTotal([g], KeyOf(f)) == 0 && KeyDay([g], KeyOf(f)) == None;
  }

  lemma {:induction false} NotExplained(b: BankEntry, g: Group)
    requires b.txnType != g.key.txnType
    ensures !GroupExplained([b], g, MissingInBank)
  {
    assert forall s: Search, amount: int :: s.txnType == g.key.txnType ==> !BankFound([b], s, amount);
  }
}
