/** When the two engines agree, and where the drill-down claims more or less than the variance list. */
module TwoEngines {
  import opened Money
  import opened Text
  import opened Combination
  import opened Transactions
  import opened MatchCode
  import opened Matching
  import opened Ledger
  import opened Completeness
  import opened Conservation
  import opened VarianceList

  // ---- Pass 1 ----

  /** At most one goal transaction for each transaction id and type. */
  ghost predicate OnePerId(groups: seq<GoalTxn>) {
    forall g, h :: g in groups && h in groups && g.txnId.Some? && g.txnId == h.txnId && g.txnType == h.txnType ==>
      g == h
  }

  /** The first free goal transaction with the row's id agrees in amount, or no free one with that id does. */
  ghost predicate StepAgrees(st: State, b: BankRow, groups: seq<GoalTxn>) {
    b.id in st.claims.banks ||
    match First(SameId, b, groups, st.claims.funds)
    case Some(g) => AmountsAgree(b, g) || First(SameIdAndAmount, b, groups, st.claims.funds).None?
    case None => true
  }

  /** Exactly when one step of pass 1 is the same in both engines. */
  lemma {:induction false} ExactStepsAgree(st: State, b: BankRow, groups: seq<GoalTxn>)
    ensures ExactStep(st, b, groups) == VarianceExactStep(st, b, groups) <==> StepAgrees(st, b, groups)
  {
    FirstFound(SameId, b, groups, st.claims.funds);
    FirstFound(SameIdAndAmount, b, groups, st.claims.funds);
    FirstAgrees(b, groups, st.claims.funds);
    assert |st.matches + [Match(Exact, [b], [], 1.0)]| > |st.matches|;
  }

  lemma {:induction false} FirstAgrees(b: BankRow, groups: seq<GoalTxn>, claimed: set<string>)
    ensures var found := First(SameId, b, groups, claimed);
            found.Some? && AmountsAgree(b, found.value) ==> First(SameIdAndAmount, b, groups, claimed) == found
  {
    if groups != [] {
      FirstAgrees(b, groups[1..], claimed);
    }
  }

  /** Every step of pass 1 agrees, in the states that the drill-down goes through. */
  ghost predicate PassAgrees(st: State, rows: seq<BankRow>, groups: seq<GoalTxn>)
    decreases rows
  {
    rows == [] || (StepAgrees(st, rows[0], groups) && PassAgrees(ExactStep(st, rows[0], groups), rows[1..], groups))
  }

  lemma {:induction false} ExactPassesAgree(st: State, rows: seq<BankRow>, groups: seq<GoalTxn>)
    requires PassAgrees(st, rows, groups)
    ensures ExactPass(st, rows, groups) == VarianceExactPass(st, rows, groups)
    decreases rows
  {
    if rows != [] {
      ExactStepsAgree(st, rows[0], groups);
      ExactPassesAgree(ExactStep(st, rows[0], groups), rows[1..], groups);
    }
  }

  /** With at most one goal transaction for each id and type every step agrees. */
  lemma {:induction false} OnePerIdAgrees(st: State, rows: seq<BankRow>, groups: seq<GoalTxn>)
    requires OnePerId(groups)
    ensures PassAgrees(st, rows, groups)
    decreases rows
  {
    if rows != [] {
      FirstFound(SameId, rows[0], groups, st.claims.funds);
      FirstFound(SameIdAndAmount, rows[0], groups, st.claims.funds);
      OnePerIdAgrees(ExactStep(st, rows[0], groups), rows[1..], groups);
    }
  }

  // ---- A step that does not agree ----

  /** From the n-th match on no EXACT match has b. */
  ghost predicate NoExactFor(matches: seq<Match>, n: nat, b: BankRow) {
    forall k :: n <= k < |matches| && matches[k].kind == Exact ==> b !in matches[k].banks
  }

  lemma {:induction false} ExactPassWithout(st: State, rows: seq<BankRow>, groups: seq<GoalTxn>, n: nat, b: BankRow)
    requires b !in rows && NoExactFor(st.matches, n, b)
    ensures NoExactFor(ExactPass(st, rows, groups).matches, n, b)
    decreases rows
  {
    if rows != [] {
      ExactPassWithout(ExactStep(st, rows[0], groups), rows[1..], groups, n, b);
    }
  }

  lemma {:induction false} AmountPassWithout(st: State, rows: seq<BankRow>, groups: seq<GoalTxn>, n: nat, b: BankRow)
    requires NoExactFor(st.matches, n, b)
    ensures NoExactFor(AmountPass(st, rows, groups).matches, n, b)
    decreases rows
  {
    if rows != [] {
      AmountPassWithout(AmountStep(st, rows[0], groups), rows[1..], groups, n, b);
    }
  }

  lemma {:induction false} SplitBankPassWithout(st: State, groups: seq<GoalTxn>, rows: seq<BankRow>, n: nat, b: BankRow)
    requires NoExactFor(st.matches, n, b)
    ensures NoExactFor(SplitBankPass(st, groups, rows).matches, n, b)
    decreases groups
  {
    if groups != [] {
      SplitBankPassWithout(SplitBankStep(st, groups[0], rows), groups[1..], rows, n, b);
    }
  }

  lemma {:induction false} VarianceExactPassExtends(st: State, rows: seq<BankRow>, groups: seq<GoalTxn>)
    ensures Extends(st, VarianceExactPass(st, rows, groups))
    decreases rows
  {
    if rows != [] {
      VarianceExactPassExtends(VarianceExactStep(st, rows[0], groups), rows[1..], groups);
    }
  }

  /** The copy makes an EXACT match that the drill-down does not make there or later. */
  ghost predicate Diverge(drillDown: State, copy: State, n: nat, b: BankRow) {
    && n < |copy.matches| && copy.matches[n].kind == Exact && b in copy.matches[n].banks
    && NoExactFor(drillDown.matches, n, b)
  }

  /** At the first step that does not agree the copy matches a row that the drill-down leaves, and the
      drill-down does not come back to it in this pass. */
  lemma {:induction false} PassDiverges(st: State, rows: seq<BankRow>, groups: seq<GoalTxn>)
    returns (n: nat, b: BankRow)
    requires DistinctBankIds(rows) && !PassAgrees(st, rows, groups)
    ensures Diverge(ExactPass(st, rows, groups), VarianceExactPass(st, rows, groups), n, b)
    decreases rows
  {
    if StepAgrees(st, rows[0], groups) {
      ExactStepsAgree(st, rows[0], groups);
      n, b := PassDiverges(ExactStep(st, rows[0], groups), rows[1..], groups);
    } else {
      n, b := |st.matches|, rows[0];
      var next := VarianceExactStep(st, b, groups);
      assert ExactStep(st, b, groups) == st;
      assert next.matches[n].kind == Exact && b in next.matches[n].banks;
      VarianceExactPassExtends(next, rows[1..], groups);
      ExactPassWithout(st, rows[1..], groups, n, b);
    }
  }

  // ---- The rows that pass 1 claims ----

  lemma {:induction false} ExactPassLeaves(st: State, rows: seq<BankRow>, groups: seq<GoalTxn>, id: string)
    requires id !in BankIds(rows) && id !in st.claims.banks
    ensures id !in ExactPass(st, rows, groups).claims.banks
    decreases rows
  {
    if rows != [] {
      assert rows[0] in rows && forall r :: r in rows[1..] ==> r in rows;
      ExactPassLeaves(ExactStep(st, rows[0], groups), rows[1..], groups, id);
    }
  }

  /** At the first step that does not agree the copy claims a row that the drill-down leaves free. */
  lemma {:induction false} PassClaimsDiffer(st: State, rows: seq<BankRow>, groups: seq<GoalTxn>)
    requires DistinctBankIds(rows) && !PassAgrees(st, rows, groups)
    ensures ExactPass(st, rows, groups).claims != VarianceExactPass(st, rows, groups).claims
    decreases rows
  {
    if StepAgrees(st, rows[0], groups) {
      ExactStepsAgree(st, rows[0], groups);
      PassClaimsDiffer(ExactStep(st, rows[0], groups), rows[1..], groups);
    } else {
      var b := rows[0];
      var next := VarianceExactStep(st, b, groups);
      assert ExactStep(st, b, groups) == st;
      assert b in [b] && b.id in next.claims.banks;
      VarianceExactPassExtends(next, rows[1..], groups);
      ExactPassLeaves(st, rows[1..], groups, b.id);
    }
  }

  /** After pass 1 both engines have claimed the same bank and fund rows if and only if every step agrees. */
  lemma {:induction false} ExactClaimsIff(inp: Input)
    requires DistinctBankIds(inp.banks)
    ensures VarianceAfterExact(inp).claims == AfterExact(inp).claims <==>
            PassAgrees(AfterManual(inp), inp.banks, inp.groups)
  {
    if PassAgrees(AfterManual(inp), inp.banks, inp.groups) {
      ExactPassesAgree(AfterManual(inp), inp.banks, inp.groups);
    } else {
      PassClaimsDiffer(AfterManual(inp), inp.banks, inp.groups);
    }
  }

  // ---- Pass 2 ----

  lemma {:induction false} FirstOfFree(rule: Rule, b: BankRow, groups: seq<GoalTxn>, before: set<string>,
                                       claimed: set<string>)
    requires before <= claimed
    ensures First(rule, b, FreeGroups(groups, before), claimed) == First(rule, b, groups, claimed)
  {
    if groups != [] {
      FirstOfFree(rule, b, groups[1..], before, claimed);
      var tail := FreeGroups(groups[1..], before);
      if Taken(groups[0], before) {
        TakenMonotone(groups[0], before, claimed);
        assert FreeGroups(groups, before) == tail;
      } else {
        assert FreeGroups(groups, before)[1..] == tail;
      }
    }
  }

  /** Filtering out claimed rows before pass 2 changes nothing, since the pass skips them anyway. */
  lemma {:induction false} AmountPassOfFree(st: State, rows: seq<BankRow>, groups: seq<GoalTxn>, before: Claims)
    requires before.banks <= st.claims.banks && before.funds <= st.claims.funds
    ensures AmountPass(st, FreeBanks(rows, before.banks), FreeGroups(groups, before.funds)) ==
              AmountPass(st, rows, groups)
    decreases rows
  {
    if rows != [] {
      var b := rows[0];
      var tail := FreeBanks(rows[1..], before.banks);
      var fewer := FreeGroups(groups, before.funds);
      if b.id in before.banks {
        assert FreeBanks(rows, before.banks) == tail;
        assert AmountStep(st, b, groups) == st;
        AmountPassOfFree(st, rows[1..], groups, before);
      } else {
        assert FreeBanks(rows, before.banks)[1..] == tail;
        FirstOfFree(NearAmount, b, groups, before.funds, st.claims.funds);
        assert AmountStep(st, b, fewer) == AmountStep(st, b, groups);
        AmountPassOfFree(AmountStep(st, b, groups), rows[1..], groups, before);
      }
    }
  }

  // ---- Both engines ----

  lemma {:induction false} AgreeingPassesEnd(inp: Input)
    requires PassAgrees(AfterManual(inp), inp.banks, inp.groups)
    ensures VarianceRun(inp) == AfterSplitBank(inp)
  {
    ExactPassesAgree(AfterManual(inp), inp.banks, inp.groups);
    var st := AfterExact(inp);
    AmountPassOfFree(st, inp.banks, inp.groups, st.claims);
  }

  lemma {:induction false} DivergingPassesEnd(inp: Input)
    requires DistinctBankIds(inp.banks) && !PassAgrees(AfterManual(inp), inp.banks, inp.groups)
    ensures VarianceRun(inp) != AfterSplitBank(inp)
  {
    var n, b := PassDiverges(AfterManual(inp), inp.banks, inp.groups);
    var v1, v2 := VarianceAfterExact(inp), VarianceAfterAmount(inp);
    AmountPassExtends(v1, inp.banks, inp.groups);
    SplitBankPassExtends(v2, FreeGroups(inp.groups, v2.claims.funds), FreeBanks(inp.banks, v2.claims.banks));
    var d1, d2 := AfterExact(inp), AfterAmount(inp);
    AmountPassWithout(d1, FreeBanks(inp.banks, d1.claims.banks), FreeGroups(inp.groups, d1.claims.funds), n, b);
    SplitBankPassWithout(d2, FreeGroups(inp.groups, d2.claims.funds), FreeBanks(inp.banks, d2.claims.banks), n, b);
    assert Diverge(AfterSplitBank(inp), VarianceRun(inp), n, b);
  }

  /** The two engines agree after pass 3, match by match, if and only if every step of pass 1 agrees. */
  lemma {:induction false} EnginesAgreeIff(inp: Input)
    requires DistinctBankIds(inp.banks)
    ensures VarianceRun(inp) == AfterSplitBank(inp) <==> PassAgrees(AfterManual(inp), inp.banks, inp.groups)
  {
    if PassAgrees(AfterManual(inp), inp.banks, inp.groups) {
      AgreeingPassesEnd(inp);
    } else {
      DivergingPassesEnd(inp);
    }
  }

  /** With at most one goal transaction for each id and type they do. */
  lemma {:induction false} EnginesAgree(inp: Input)
    requires OnePerId(inp.groups)
    ensures VarianceRun(inp) == AfterSplitBank(inp)
  {
    OnePerIdAgrees(AfterManual(inp), inp.banks, inp.groups);
    AgreeingPassesEnd(inp);
  }

  /** end adds pass 3b matches to st and claims exactly their rows. */
  ghost predicate AddsSplitFund(st: State, end: State) {
    && st.matches <= end.matches
    && (forall m :: m in end.matches[|st.matches|..] ==> m.kind == SplitFundToBank)
    && end.claims.banks == st.claims.banks + BankIds(AllBanks(end.matches[|st.matches|..]))
    && end.claims.funds == st.claims.funds + FundIdsOf(AllGroups(end.matches[|st.matches|..]))
  }

  lemma {:induction false} AddsOneMore(st: State, m: Match, end: State)
    requires m.kind == SplitFundToBank && AddsSplitFund(Record(st, m), end)
    ensures AddsSplitFund(st, end)
  {
    var n := |st.matches|;
    var more := end.matches[n + 1..];
    assert end.matches[n] == (st.matches + [m])[n] == m;
    assert end.matches[n..] == [m] + more && end.matches[n..][1..] == more;
    BankIdsAppend(m.banks, AllBanks(more));
    FundIdsAppend(m.groups, AllGroups(more));
  }

  lemma {:induction false} BankIdsAppend(a: seq<BankRow>, b: seq<BankRow>)
    ensures BankIds(a + b) == BankIds(a) + BankIds(b)
  {
  }

  lemma {:induction false} FundIdsAppend(a: seq<GoalTxn>, b: seq<GoalTxn>)
    ensures FundIdsOf(a + b) == FundIdsOf(a) + FundIdsOf(b)
  {
  }

  lemma {:induction false} SplitFundPassAppends(st: State, rows: seq<BankRow>, groups: seq<GoalTxn>)
    ensures AddsSplitFund(st, SplitFundPass(st, rows, groups))
    decreases rows
  {
    if rows == [] {
      assert st.matches[|st.matches|..] == [];
    } else {
      var next := SplitFundStep(st, rows[0], groups);
      SplitFundPassAppends(next, rows[1..], groups);
      if next != st {
        var items := GoalItems(Candidates(groups, rows[0], st.claims.funds));
        var found := Find(items, rows[0].amount, Tolerance(rows[0].amount));
        AddsOneMore(st, Match(SplitFundToBank, [rows[0]], Refs(found), 0.7), SplitFundPass(st, rows, groups));
      }
    }
  }

  /** So the drill-down leaves unmatched what the variance list leaves unmatched, less exactly the rows
      of its pass 3b matches. */
  lemma {:induction false} DrillDownRefinesVarianceList(inp: Input)
    requires PassAgrees(AfterManual(inp), inp.banks, inp.groups)
    ensures AddsSplitFund(VarianceRun(inp), Run(inp))
    ensures forall b :: b in FreeBanks(inp.banks, Run(inp).claims.banks) ==>
                        b in FreeBanks(inp.banks, VarianceRun(inp).claims.banks)
    ensures forall g :: g in FreeGroups(inp.groups, Run(inp).claims.funds) ==>
                        g in FreeGroups(inp.groups, VarianceRun(inp).claims.funds)
  {
    AgreeingPassesEnd(inp);
    var st, d := AfterSplitBank(inp), Run(inp);
    SplitFundPassAppends(st, FreeBanks(inp.banks, st.claims.banks), FreeGroups(inp.groups, st.claims.funds));
    FreeBanksMembers(inp.banks, d.claims.banks);
    FreeBanksMembers(inp.banks, st.claims.banks);
    FreeGroupsMembers(inp.groups, d.claims.funds);
    FreeGroupsMembers(inp.groups, st.claims.funds);
    forall g | g in inp.groups && !Taken(g, d.claims.funds)
      ensures !Taken(g, st.claims.funds)
    {
      if Taken(g, st.claims.funds) {
        TakenMonotone(g, st.claims.funds, d.claims.funds);
      }
    }
  }

  // ---- Where they differ ----

  /** With two goal transactions of one id the drill-down looks only at the first: a row that fits the
      second in amount, but no day within the window, stays unmatched there and is matched in the copy. */
  lemma {:induction false} DrillDownLooksAtFirstOnly(b: BankRow, g: GoalTxn, h: GoalTxn)
    requires SameTransaction(b, g) && !AmountsAgree(b, g) && !InWindow(b, g)
    requires SameTransaction(b, h) && AmountsAgree(b, h) && !InWindow(b, h)
    ensures var inp := Input([b], [g, h], map[]);
            Run(inp).matches == [] && VarianceRun(inp).matches == [Match(Exact, [b], [h], 1.0)]
  {
    var inp := Input([b], [g, h], map[]);
    assert [b][1..] == [];
    assert AfterManual(inp) == ManualPass(START, [], inp) == START;
    DrillDownMisses(inp, b, g, h);
    CopyMatches(inp, b, g, h);
  }

  /** Within the window pass 2 makes up for it: the steps do not agree, and the same rows are claimed at the
      end, by an EXACT match in the copy and by an AMOUNT match in the drill-down. */
  lemma {:induction false} SameClaimsAnyway(b: BankRow, g: GoalTxn, h: GoalTxn)
    requires SameTransaction(b, g) && !AmountsAgree(b, g)
    requires SameTransaction(b, h) && AmountsAgree(b, h) && InWindow(b, h)
    ensures var inp := Input([b], [g, h], map[]);
            && !PassAgrees(AfterManual(inp), inp.banks, inp.groups)
            && VarianceRun(inp).claims == AfterSplitBank(inp).claims == Run(inp).claims
  {
    var inp := Input([b], [g, h], map[]);
    assert [b][1..] == [];
    assert AfterManual(inp) == ManualPass(START, [], inp) == START;
    CopyMatches(inp, b, g, h);
    PassTwoMatches(inp, b, g, h);
    FirstDisagrees(b, g, h);
    assert inp.banks[0] == b;
  }

  lemma {:induction false} FirstDisagrees(b: BankRow, g: GoalTxn, h: GoalTxn)
    requires SameTransaction(b, g) && !AmountsAgree(b, g) && SameTransaction(b, h) && AmountsAgree(b, h)
    ensures !StepAgrees(START, b, [g, h]) && !PassAgrees(START, [b], [g, h])
  {
    assert [g, h][1..] == [h];
    assert First(SameId, b, [g, h], {}) == Some(g);
    assert First(SameIdAndAmount, b, [h], {}) == Some(h);
  }

  lemma {:induction false} PassTwoMatches(inp: Input, b: BankRow, g: GoalTxn, h: GoalTxn)
    requires SameTransaction(b, g) && SameTransaction(b, h)
    requires !AmountsAgree(b, g) && AmountsAgree(b, h) && InWindow(b, h)
    requires inp == Input([b], [g, h], map[]) && AfterManual(inp) == START
    ensures Run(inp).claims == AfterSplitBank(inp).claims == Claims(BankIds([b]), FundIdsOf([h]))
  {
    var st := Record(START, Match(Amount, [b], [h], Confidence(b, h)));
    assert [b][1..] == [] && [g, h][1..] == [h];
    assert First(SameId, b, [g, h], {}) == Some(g);
    assert AfterExact(inp) == ExactPass(START, [], [g, h]) == START;
    NothingClaimed([b], [g, h]);
    assert First(NearAmount, b, [h], {}) == Some(h) && First(NearAmount, b, [g, h], {}) == Some(h);
    assert AmountStep(START, b, [g, h]) == st;
    assert AfterAmount(inp) == AmountPass(st, [], [g, h]) == st;
    assert b in [b] && b.id in st.claims.banks;
    assert FreeBanks([], st.claims.banks) == [] && FreeBanks([b], st.claims.banks) == [];
    NoRowsNoSplit(st, FreeGroups([g, h], st.claims.funds), []);
    assert AfterSplitBank(inp) == st;
    assert Run(inp) == SplitFundPass(st, [], FreeGroups([g, h], st.claims.funds)) == st;
    assert {} + BankIds([b]) == BankIds([b]) && {} + FundIdsOf([h]) == FundIdsOf([h]);
  }

  lemma {:induction false} DrillDownMisses(inp: Input, b: BankRow, g: GoalTxn, h: GoalTxn)
    requires SameTransaction(b, g) && !AmountsAgree(b, g) && !InWindow(b, g) && !InWindow(b, h)
    requires inp == Input([b], [g, h], map[]) && AfterManual(inp) == START
    ensures Run(inp).matches == []
  {
    assert [b][1..] == [];
    assert First(SameId, b, [g, h], {}) == Some(g);
    assert AfterExact(inp) == ExactPass(START, [], [g, h]) == START;
    NothingIn(b, g, h);
    assert AfterAmount(inp) == AmountPass(START, [], [g, h]) == START;
    assert AfterSplitBank(inp) == START;
    assert Run(inp) == SplitFundPass(START, [], [g, h]) == START;
  }

  lemma {:induction false} CopyMatches(inp: Input, b: BankRow, g: GoalTxn, h: GoalTxn)
    requires SameTransaction(b, h) && AmountsAgree(b, h) && !AmountsAgree(b, g)
    requires inp == Input([b], [g, h], map[]) && AfterManual(inp) == START
    ensures VarianceRun(inp).matches == [Match(Exact, [b], [h], 1.0)]
    ensures VarianceRun(inp).claims == Claims(BankIds([b]), FundIdsOf([h]))
  {
    var m := Match(Exact, [b], [h], 1.0);
    var st := Record(START, m);
    assert [b][1..] == [] && [g, h][1..] == [h];
    assert First(SameIdAndAmount, b, [h], {}) == Some(h);
    assert VarianceAfterExact(inp) == VarianceExactPass(st, [], [g, h]) == st;
    assert b in [b] && b.id in st.claims.banks;
    assert VarianceAfterAmount(inp) == AmountPass(st, [], [g, h]) == st;
    assert FreeBanks([], st.claims.banks) == [] && FreeBanks([b], st.claims.banks) == [];
    NoRowsNoSplit(st, FreeGroups([g, h], st.claims.funds), []);
    assert [] + [m] == [m];
    assert {} + BankIds([b]) == BankIds([b]) && {} + FundIdsOf([h]) == FundIdsOf([h]);
  }

  lemma {:induction false} NothingIn(b: BankRow, g: GoalTxn, h: GoalTxn)
    requires !InWindow(b, g)
    requires !InWindow(b, h)
    ensures FreeBanks([b], {}) == [b] && FreeGroups([g, h], {}) == [g, h]
    ensures First(NearAmount, b, [g, h], {}) == None
    ensures SplitBankPass(START, [g, h], [b]) == START
    ensures SplitFundStep(START, b, [g, h]) == START
  {
    NothingClaimed([b], [g, h]);
    FirstFound(NearAmount, b, [g, h], {});
    assert [g, h][1..] == [h] && [h][1..] == [];
    NotInBucket(b, g);
    NotInBucket(b, h);
    assert SplitBankStep(START, h, [b]) == START && SplitBankStep(START, g, [b]) == START;
    assert SplitBankPass(START, [h], [b]) == SplitBankPass(START, [], [b]) == START;
    var both := Candidates([g, h], b, {});
    CandidatesMembers([g, h], b, {});
    MemberOrEmpty(both);
    EmptyFind<GoalTxn>(b.amount, Tolerance(b.amount));
  }

  lemma {:induction false} NotInBucket(b: BankRow, g: GoalTxn)
    requires !InWindow(b, g)
    ensures !SameBucket(b, g)
    ensures SplitBankStep(START, g, [b]) == START
  {
    if SameBucket(b, g) {
      SameBucketInWindow(b, g);
    }
    var candidates := SplitCandidates(START, g, [b]);
    SplitCandidatesMembers(START, g, [b]);
    MemberOrEmpty(candidates);
    assert BankItems(candidates) == [];
    EmptyFind<BankRow>(g.total, Tolerance(g.total));
  }

  lemma {:induction false} EmptyFind<T>(target: int, tolerance: int)
    ensures Find<T>([], target, tolerance) == []
  {
    FindSound<T>([], target, tolerance);
    assert |multiset(Find<T>([], target, tolerance))| <= 0;
  }

  lemma {:induction false} NoRowsNoSplit(st: State, groups: seq<GoalTxn>, rows: seq<BankRow>)
    requires rows == []
    ensures SplitBankPass(st, groups, rows) == st
  {
    if groups != [] {
      EmptyFind<BankRow>(groups[0].total, Tolerance(groups[0].total));
      NoRowsNoSplit(st, groups[1..], rows);
    }
  }
}
