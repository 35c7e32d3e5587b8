/** The codes that a table can hold: those that creations of manual matches and drill-downs have written.
    No such code lists a goal code twice, so every drill-down on such a table conserves the fund total. */
module CreatedCodes {
  import opened Text
  import opened Transactions
  import opened MatchCode
  import opened Matching
  import opened Ledger
  import opened Conservation
  import opened Rerun
  import opened Reload
  import opened ManualMatches
  import opened Removal
  import opened GoalDrillDown

  /** A list that creation accepts: it refuses repeated codes. Goal codes contain no comma. */
  ghost predicate Creatable(goalCodes: seq<string>) {
    NoRepeat(goalCodes) && forall c :: c in goalCodes ==> ',' !in c
  }

  ghost predicate IsCreated(code: string) {
    exists now: nat, goalCodes :: Creatable(goalCodes) && code == ManualCode(Decimal(now), goalCodes)
  }

  /** Every manual code of the table was written by a creation. */
  ghost predicate AllCreated(codes: map<string, string>) {
    forall id :: id in codes && IsManual(codes[id]) ==> IsCreated(codes[id])
  }

  lemma {:induction false} CreatedListsOnce(code: string)
    requires IsManual(code) && IsCreated(code)
    ensures ManualGoalCodes(code).Some? && NoRepeat(ManualGoalCodes(code).value)
  {
    var now: nat, goalCodes :| Creatable(goalCodes) && code == ManualCode(Decimal(now), goalCodes);
    if goalCodes == [] {
      CreatedCodeReadsBack([""], now);
    } else {
      CreatedCodeReadsBack(goalCodes, now);
    }
  }

  lemma {:induction false} CreatedNeverListTwice(inp: Input)
    requires AllCreated(inp.codes)
    ensures NoDoubleListing(inp)
  {
    forall r | r in inp.banks && HasManualCode(inp.codes, r.id)
      ensures ManualGoalCodes(inp.codes[r.id]).Some? && NoRepeat(ManualGoalCodes(inp.codes[r.id]).value)
    {
      CreatedListsOnce(inp.codes[r.id]);
    }
  }

  // ---- What happens to the codes ----

  /** A creation writes its code at its rows, a removal clears rows, a drill-down stores its matches. */
  datatype Event =
    | Create(ids: seq<string>, goalCodes: seq<string>, now: nat)
    | Remove(cleared: set<string>)
    | DrillDown(banks: seq<BankRow>, groups: seq<GoalTxn>)

  function Step(codes: map<string, string>, e: Event): map<string, string> {
    match e
    case Create(ids, goalCodes, now) => codes + map id | id in ids :: ManualCode(Decimal(now), goalCodes)
    case Remove(cleared) => codes - cleared
    case DrillDown(banks, groups) => Persist(codes, Run(Input(banks, groups, codes)).matches, groups)
  }

  function RunAll(codes: map<string, string>, events: seq<Event>): map<string, string>
    decreases events
  {
    if events == [] then codes else RunAll(Step(codes, events[0]), events[1..])
  }

  /** A creation that passes its checks is the event Create, any other changes nothing. */
  method CreateAsEvent(t: BankTable, ids: seq<string>, goalCodes: seq<string>, now: nat) returns (r: CreateResult)
    requires t.Valid()
    modifies t`codes, t`status
    ensures t.codes == if r.Created? then Step(old(t.codes), Create(ids, goalCodes, now)) else old(t.codes)
  {
    r := t.CreateManualMatch(ids, goalCodes, now);
  }

  /** A removal is the event Remove of the rows that it clears. */
  method RemoveAsEvent(t: BankTable, ids: seq<string>, goalCodes: seq<string>) returns (n: nat)
    requires t.Valid()
    modifies t`codes, t`status
    ensures t.codes == Step(old(t.codes), Remove(ClearedBy(t.rows, old(t.codes), ids, goalCodes)))
  {
    n := t.RemoveManualMatch(ids, goalCodes);
  }

  /** A drill-down is the event DrillDown of the rows and goal transactions that it loads. */
  method DrillDownAsEvent(s: Service, banks: seq<BankRow>, fundRows: seq<FundRow>)
    requires DistinctBankIds(banks) && DistinctFundIds(fundRows)
    modifies s
    ensures s.codes == Step(old(s.codes), DrillDown(banks, Group(fundRows)))
  {
    var groups, matches, freeBanks, freeGoals := s.GetGoalTransactions(banks, fundRows);
  }

  /** A run takes its events one after the other. */
  lemma {:induction false} LastEvent(codes: map<string, string>, events: seq<Event>, e: Event)
    ensures RunAll(codes, []) == codes && RunAll(codes, events + [e]) == Step(RunAll(codes, events), e)
    decreases events
  {
    if events == [] {
      assert ([] + [e])[1..] == [];
    } else {
      assert (events + [e])[1..] == events[1..] + [e];
      LastEvent(Step(codes, events[0]), events[1..], e);
    }
  }

  /** Creations pass their checks, and no goal code begins like a manual code. */
  ghost predicate Possible(e: Event) {
    match e
    case Create(_, goalCodes, _) => Creatable(goalCodes)
    case Remove(_) => true
    case DrillDown(_, groups) => NoneLooksManual(groups)
  }

  lemma {:induction false} StepKeepsCreated(codes: map<string, string>, e: Event)
    requires AllCreated(codes) && Possible(e)
    ensures AllCreated(Step(codes, e))
  {
    match e
    case Create(ids, goalCodes, now) =>
      assert IsCreated(ManualCode(Decimal(now), goalCodes));
    case Remove(cleared) =>
    case DrillDown(banks, groups) =>
      var matches := Run(Input(banks, groups, codes)).matches;
      forall id | HasManualCode(Persist(codes, matches, groups), id)
        ensures IsCreated(Persist(codes, matches, groups)[id])
      {
        PersistAddsNoManual(codes, matches, groups, id);
      }
  }

  lemma {:induction false} RunKeepsCreated(codes: map<string, string>, events: seq<Event>)
    requires AllCreated(codes) && forall e :: e in events ==> Possible(e)
    ensures AllCreated(RunAll(codes, events))
    decreases events
  {
    if events != [] {
      StepKeepsCreated(codes, events[0]);
      assert forall e :: e in events[1..] ==> e in events;
      RunKeepsCreated(Step(codes, events[0]), events[1..]);
    }
  }

  /** After any such events a drill-down conserves both totals and matches no goal transaction twice. */
  lemma {:induction false} EveryDrillDownConserves(events: seq<Event>, banks: seq<BankRow>, groups: seq<GoalTxn>)
    requires (forall e :: e in events ==> Possible(e)) && DistinctBankIds(banks) && WellGrouped(groups)
    ensures var end := Run(Input(banks, groups, RunAll(map[], events)));
            && SumOfBankTotals(Results(end.matches)) + BankTotal(FreeBanks(banks, end.claims.banks)) == BankTotal(banks)
            && SumOfFundTotals(Results(end.matches)) + GoalTotal(FreeGroups(groups, end.claims.funds)) ==
               GoalTotal(groups)
            && Exclusive(end)
  {
    var inp := Input(banks, groups, RunAll(map[], events));
    RunKeepsCreated(map[], events);
    CreatedNeverListTwice(inp);
    LedgerConserved(inp);
    RunSound(inp);
  }

  // ---- Removal after any such events ----

  /** Goal codes contain neither colon nor comma, and a creation has at least one. */
  ghost predicate HasPlainCodes(e: Event) {
    match e
    case Create(_, goalCodes, _) => goalCodes != [] && forall c :: c in goalCodes ==> PlainGoalCode(c)
    case Remove(_) => true
    case DrillDown(_, groups) => forall g :: g in groups ==> PlainGoalCode(g.code)
  }

  lemma {:induction false} AlgorithmicIsStored(kind: MatchKind, goalCodes: seq<string>)
    requires kind != Manual && goalCodes != [] && forall c :: c in goalCodes ==> PlainGoalCode(c)
    ensures IsStored(AlgorithmicCode(kind, goalCodes))
  {
    var code := AlgorithmicCode(kind, goalCodes);
    if |goalCodes| == 1 {
      var form := PlainForm(goalCodes[0]);
      assert goalCodes[0] in goalCodes;
      assert WellFormed(form) && code == Encode(form);
    } else {
      var form := GroupedForm(kind, goalCodes);
      assert WellFormed(form) && code == Encode(form);
    }
  }

  lemma {:induction false} PersistOneKeepsStored(codes: map<string, string>, m: Match, groups: seq<GoalTxn>)
    requires AllStored(codes) && forall g :: g in groups ==> PlainGoalCode(g.code)
    ensures AllStored(PersistOne(codes, m, groups))
  {
    var goalCodes := MatchedCodes(groups, FundIdsOf(m.groups));
    MatchedCodesMembers(groups, FundIdsOf(m.groups));
    if m.kind != Manual && goalCodes != [] {
      AlgorithmicIsStored(m.kind, goalCodes);
    }
  }

  lemma {:induction false} PersistKeepsStored(codes: map<string, string>, matches: seq<Match>, groups: seq<GoalTxn>)
    requires AllStored(codes) && forall g :: g in groups ==> PlainGoalCode(g.code)
    ensures AllStored(Persist(codes, matches, groups))
    decreases matches
  {
    if matches != [] {
      PersistOneKeepsStored(codes, matches[0], groups);
      PersistKeepsStored(PersistOne(codes, matches[0], groups), matches[1..], groups);
    }
  }

  lemma {:induction false} StepKeepsStored(codes: map<string, string>, e: Event)
    requires AllStored(codes) && HasPlainCodes(e)
    ensures AllStored(Step(codes, e))
  {
    match e
    case Create(ids, goalCodes, now) =>
      var form := ManualForm(Decimal(now), goalCodes);
      DecimalHasNoColon(now);
      assert WellFormed(form) && ManualCode(Decimal(now), goalCodes) == Encode(form);
      assert IsStored(ManualCode(Decimal(now), goalCodes));
    case Remove(cleared) =>
    case DrillDown(banks, groups) =>
      PersistKeepsStored(codes, Run(Input(banks, groups, codes)).matches, groups);
  }

  lemma {:induction false} RunKeepsStored(codes: map<string, string>, events: seq<Event>)
    requires AllStored(codes) && forall e :: e in events ==> HasPlainCodes(e)
    ensures AllStored(RunAll(codes, events))
    decreases events
  {
    if events != [] {
      StepKeepsStored(codes, events[0]);
      assert forall e :: e in events[1..] ==> e in events;
      RunKeepsStored(Step(codes, events[0]), events[1..]);
    }
  }

  /** After any such events: what removal by goal codes clears, and exactly when that is membership. */
  lemma {:induction false} EveryRemoval(events: seq<Event>, goalCodes: seq<string>)
    requires (forall e :: e in events ==> HasPlainCodes(e)) && Removable(goalCodes)
    ensures var codes := RunAll(map[], events);
            && ByGoal(codes, goalCodes) ==
               (Naming(codes, goalCodes) - GroupedNaming(codes, goalCodes)) + Hiding(codes, goalCodes)
            && (ByGoal(codes, goalCodes) == Naming(codes, goalCodes) <==>
                Hiding(codes, goalCodes) == {} && GroupedNaming(codes, goalCodes) == {})
  {
    RunKeepsStored(map[], events);
    RemovalExactly(RunAll(map[], events), goalCodes);
    RemovalIsMembership(RunAll(map[], events), goalCodes);
  }
}
