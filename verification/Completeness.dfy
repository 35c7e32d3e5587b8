/** What the run does not miss: after it, no set of unmatched bank rows of one day and type still sums
    to an unmatched goal transaction of that day and type. */
module Completeness {
  import opened Money
  import opened Combination
  import opened Transactions
  import opened Matching
  import opened DrillDown
  import opened Ledger

  // ---- Passes only add ----

  ghost predicate Extends(a: State, b: State) {
    && a.claims.banks <= b.claims.banks && a.claims.funds <= b.claims.funds
    && a.matches <= b.matches
  }

  lemma {:induction false} ManualPassExtends(st: State, rows: seq<BankRow>, inp: Input)
    ensures Extends(st, ManualPass(st, rows, inp))
    decreases rows
  {
    if rows != [] {
      var next := if HasManualCode(inp.codes, rows[0].id) then Attempt(st, inp.codes[rows[0].id], inp) else st;
      ManualPassExtends(next, rows[1..], inp);
    }
  }

  lemma {:induction false} ExactPassExtends(st: State, rows: seq<BankRow>, groups: seq<GoalTxn>)
    ensures Extends(st, ExactPass(st, rows, groups))
    decreases rows
  {
    if rows != [] {
      ExactPassExtends(ExactStep(st, rows[0], groups), rows[1..], groups);
    }
  }

  lemma {:induction false} AmountPassExtends(st: State, rows: seq<BankRow>, groups: seq<GoalTxn>)
    ensures Extends(st, AmountPass(st, rows, groups))
    decreases rows
  {
    if rows != [] {
      AmountPassExtends(AmountStep(st, rows[0], groups), rows[1..], groups);
    }
  }

  lemma {:induction false} SplitBankPassExtends(st: State, groups: seq<GoalTxn>, rows: seq<BankRow>)
    ensures Extends(st, SplitBankPass(st, groups, rows))
    decreases groups
  {
    if groups != [] {
      SplitBankPassExtends(SplitBankStep(st, groups[0], rows), groups[1..], rows);
    }
  }

  lemma {:induction false} SplitFundPassExtends(st: State, rows: seq<BankRow>, groups: seq<GoalTxn>)
    ensures Extends(st, SplitFundPass(st, rows, groups))
    decreases rows
  {
    if rows != [] {
      SplitFundPassExtends(SplitFundStep(st, rows[0], groups), rows[1..], groups);
    }
  }

  lemma {:induction false} RunExtends(inp: Input)
    ensures Extends(AfterManual(inp), AfterExact(inp)) && Extends(AfterExact(inp), AfterAmount(inp))
    ensures Extends(AfterAmount(inp), AfterSplitBank(inp)) && Extends(AfterSplitBank(inp), Run(inp))
  {
    ExactPassExtends(AfterManual(inp), inp.banks, inp.groups);
    var a := AfterExact(inp);
    AmountPassExtends(a, FreeBanks(inp.banks, a.claims.banks), FreeGroups(inp.groups, a.claims.funds));
    var b := AfterAmount(inp);
    SplitBankPassExtends(b, FreeGroups(inp.groups, b.claims.funds), FreeBanks(inp.banks, b.claims.banks));
    var c := AfterSplitBank(inp);
    SplitFundPassExtends(c, FreeBanks(inp.banks, c.claims.banks), FreeGroups(inp.groups, c.claims.funds));
  }

  // ---- Saturation of pass 2 ----

  /** No free pair fits in type, date and amount. */
  ghost predicate Saturated(claims: Claims, rows: seq<BankRow>, groups: seq<GoalTxn>) {
    forall b, g :: b in rows && g in groups && Fits(NearAmount, b, g) ==>
      b.id in claims.banks || Taken(g, claims.funds)
  }

  lemma {:induction false} SaturatedStays(a: State, b: State, rows: seq<BankRow>, groups: seq<GoalTxn>)
    requires Saturated(a.claims, rows, groups) && Extends(a, b)
    ensures Saturated(b.claims, rows, groups)
  {
    forall r, g | r in rows && g in groups && Fits(NearAmount, r, g)
      ensures r.id in b.claims.banks || Taken(g, b.claims.funds)
    {
      if r.id !in a.claims.banks {
        TakenMonotone(g, a.claims.funds, b.claims.funds);
      }
    }
  }

  lemma {:induction false} AmountPassSaturates(st: State, rows: seq<BankRow>, groups: seq<GoalTxn>)
    ensures Saturated(AmountPass(st, rows, groups).claims, rows, groups)
    decreases rows
  {
    if rows != [] {
      var b := rows[0];
      var next := AmountStep(st, b, groups);
      FirstFound(NearAmount, b, groups, st.claims.funds);
      assert b in [b];
      assert Saturated(next.claims, [b], groups);
      AmountPassExtends(next, rows[1..], groups);
      SaturatedStays(next, AmountPass(next, rows[1..], groups), [b], groups);
      AmountPassSaturates(next, rows[1..], groups);
    }
  }

  lemma {:induction false} SaturatedAfterAmount(inp: Input)
    ensures Saturated(AfterAmount(inp).claims, inp.banks, inp.groups)
  {
    var a := AfterExact(inp);
    var rows := FreeBanks(inp.banks, a.claims.banks);
    var groups := FreeGroups(inp.groups, a.claims.funds);
    FreeBanksMembers(inp.banks, a.claims.banks);
    FreeGroupsMembers(inp.groups, a.claims.funds);
    AmountPassSaturates(a, rows, groups);
    AmountPassExtends(a, rows, groups);
    var b := AfterAmount(inp);
    forall r, g | r in inp.banks && g in inp.groups && Fits(NearAmount, r, g)
      ensures r.id in b.claims.banks || Taken(g, b.claims.funds)
    {
      if Taken(g, a.claims.funds) {
        TakenMonotone(g, a.claims.funds, b.claims.funds);
      } else if r.id !in a.claims.banks {
        assert r in rows && g in groups;
      }
    }
  }

  lemma {:induction false} SameBucketInWindow(b: BankRow, g: GoalTxn)
    requires SameBucket(b, g)
    ensures InWindow(b, g)
  {
  }

  // ---- Pass 3 ----

  /** sub is a choice of unmatched rows of the day and type of g. */
  ghost predicate FreeChoice(sub: seq<BankRow>, claims: Claims, g: GoalTxn, rows: seq<BankRow>) {
    && sub != [] && DistinctBankIds(sub)
    && forall r :: r in sub ==> r in rows && SameBucket(r, g) && r.id !in claims.banks
  }

  /** Each row of sub is among the ten largest of rows of the day and type of g: at most ten of these, itself
      included, have at least its amount. */
  ghost predicate AmongLargest(sub: seq<BankRow>, g: GoalTxn, rows: seq<BankRow>) {
    forall r :: r in sub ==> AtLeast(BankItems(Bucket(rows, Day(g.date), g.txnType)), r.amount) <= 10
  }

  /** No choice of unmatched rows among the largest sums to g. */
  ghost predicate NoSplit(claims: Claims, g: GoalTxn, rows: seq<BankRow>) {
    forall sub :: FreeChoice(sub, claims, g, rows) && AmongLargest(sub, g, rows) ==>
      !Within(BankTotal(sub), g.total, Tolerance(g.total))
  }

  lemma {:induction false} AtLeastOfFree(rows: seq<BankRow>, claimed: set<string>, amount: int)
    ensures AtLeast(BankItems(FreeBanks(rows, claimed)), amount) <= AtLeast(BankItems(rows), amount)
  {
    if rows != [] {
      AtLeastOfFree(rows[1..], claimed, amount);
      var tail := FreeBanks(rows[1..], claimed);
      if rows[0].id in claimed {
        assert FreeBanks(rows, claimed) == tail;
      } else {
        assert FreeBanks(rows, claimed) == [rows[0]] + tail;
        assert BankItems([rows[0]] + tail) == [Item(rows[0], rows[0].amount)] + BankItems(tail);
      }
    }
  }

  lemma {:induction false} NoSplitStays(a: State, b: State, g: GoalTxn, rows: seq<BankRow>)
    requires NoSplit(a.claims, g, rows) && Extends(a, b)
    ensures NoSplit(b.claims, g, rows)
  {
    forall sub | FreeChoice(sub, b.claims, g, rows) && AmongLargest(sub, g, rows)
      ensures !Within(BankTotal(sub), g.total, Tolerance(g.total))
    {
      assert FreeChoice(sub, a.claims, g, rows);
    }
  }

  lemma {:induction false} SubMultiset<T>(a: seq<T>, b: seq<T>)
    requires NoRepeat(a) && forall x :: x in a ==> x in b
    ensures multiset(a) <= multiset(b)
  {
    forall x | x in multiset(a)
      ensures multiset(a)[x] <= multiset(b)[x]
    {
      CountAtMostOne(a, x);
      assert x in a;
      assert x in multiset(b);
    }
  }

  lemma {:induction false} ChoiceOfCandidates(sub: seq<BankRow>, candidates: seq<BankRow>)
    requires DistinctBankIds(sub) && forall r :: r in sub ==> r in candidates
    ensures multiset(BankItems(sub)) <= multiset(BankItems(candidates))
  {
    forall x | x in BankItems(sub)
      ensures x in BankItems(candidates)
    {
      var i :| 0 <= i < |sub| && BankItems(sub)[i] == x;
      assert sub[i] in sub;
      var j :| 0 <= j < |candidates| && candidates[j] == sub[i];
      assert BankItems(candidates)[j] == x;
    }
    SubMultiset(BankItems(sub), BankItems(candidates));
  }

  /** Under saturation the search never stops at a single row. */
  lemma {:induction false} NeverASingleton(st: State, g: GoalTxn, rows: seq<BankRow>)
    requires !Taken(g, st.claims.funds) && Saturated(st.claims, rows, [g])
    ensures |Find(BankItems(SplitCandidates(st, g, rows)), g.total, Tolerance(g.total))| != 1
  {
    var candidates := SplitCandidates(st, g, rows);
    var found := Find(BankItems(candidates), g.total, Tolerance(g.total));
    if |found| == 1 {
      FindSound(BankItems(candidates), g.total, Tolerance(g.total));
      FoundBanks(candidates, found);
      SplitCandidatesMembers(st, g, rows);
      var b := Refs(found)[0];
      assert b in candidates && g in [g];
      SameBucketInWindow(b, g);
      assert Refs(found) == [b];
      SingleBank(b);
      assert Fits(NearAmount, b, g);
      assert false;
    }
  }

  lemma {:induction false} SplitBankStepComplete(st: State, g: GoalTxn, rows: seq<BankRow>)
    requires g.ids != [] && Saturated(st.claims, rows, [g])
    ensures var next := SplitBankStep(st, g, rows);
            Taken(g, next.claims.funds) || NoSplit(next.claims, g, rows)
  {
    if !Taken(g, st.claims.funds) {
      var candidates := SplitCandidates(st, g, rows);
      var found := Find(BankItems(candidates), g.total, Tolerance(g.total));
      NeverASingleton(st, g, rows);
      if |found| > 1 {
        assert g in [g] && g.ids[0] in g.ids && g.ids[0] in FundIdsOf([g]);
      } else {
        assert found == [];
        forall sub | FreeChoice(sub, st.claims, g, rows) && AmongLargest(sub, g, rows)
          ensures !Within(BankTotal(sub), g.total, Tolerance(g.total))
        {
          NothingFoundNoChoice(st, g, rows, sub);
        }
      }
    }
  }

  lemma {:induction false} NoSingleRow(st: State, g: GoalTxn, rows: seq<BankRow>, b: BankRow)
    requires !Taken(g, st.claims.funds) && Saturated(st.claims, rows, [g])
    requires b in rows && SameBucket(b, g) && b.id !in st.claims.banks
    ensures !Within(BankTotal([b]), g.total, Tolerance(g.total))
  {
    SingleBank(b);
    SameBucketInWindow(b, g);
    assert g in [g];
    assert !Fits(NearAmount, b, g);
  }

  lemma {:induction false} LargestItems(st: State, g: GoalTxn, rows: seq<BankRow>, sub: seq<BankRow>)
    requires AmongLargest(sub, g, rows)
    ensures AmongTenLargest(BankItems(sub), BankItems(SplitCandidates(st, g, rows)))
  {
    forall x | x in BankItems(sub)
      ensures AtLeast(BankItems(SplitCandidates(st, g, rows)), x.amount) <= 10
    {
      var i :| 0 <= i < |sub| && BankItems(sub)[i] == x;
      assert sub[i] in sub;
      AtLeastOfFree(Bucket(rows, Day(g.date), g.txnType), st.claims.banks, x.amount);
    }
  }

  lemma {:induction false} NothingFoundNoChoice(st: State, g: GoalTxn, rows: seq<BankRow>, sub: seq<BankRow>)
    requires !Taken(g, st.claims.funds) && Saturated(st.claims, rows, [g])
    requires Find(BankItems(SplitCandidates(st, g, rows)), g.total, Tolerance(g.total)) == []
    requires FreeChoice(sub, st.claims, g, rows) && AmongLargest(sub, g, rows)
    ensures !Within(BankTotal(sub), g.total, Tolerance(g.total))
  {
    if |sub| == 1 {
      assert sub == [sub[0]];
      NoSingleRow(st, g, rows, sub[0]);
    } else {
      var candidates := SplitCandidates(st, g, rows);
      SplitCandidatesMembers(st, g, rows);
      ChoiceOfCandidates(sub, candidates);
      LargestItems(st, g, rows, sub);
      TenLargestComplete(BankItems(candidates), g.total, Tolerance(g.total), BankItems(sub));
    }
  }

  lemma {:induction false} SplitBankPassComplete(st: State, groups: seq<GoalTxn>, rows: seq<BankRow>, g: GoalTxn)
    requires g in groups && g.ids != [] && Saturated(st.claims, rows, [g])
    ensures var end := SplitBankPass(st, groups, rows);
            Taken(g, end.claims.funds) || NoSplit(end.claims, g, rows)
    decreases groups
  {
    var next := SplitBankStep(st, groups[0], rows);
    var end := SplitBankPass(next, groups[1..], rows);
    SplitBankPassExtends(next, groups[1..], rows);
    if groups[0] == g {
      SplitBankStepComplete(st, g, rows);
      if Taken(g, next.claims.funds) {
        TakenMonotone(g, next.claims.funds, end.claims.funds);
      } else {
        NoSplitStays(next, end, g, rows);
      }
    } else {
      SaturatedStays(st, next, rows, [g]);
      SplitBankPassComplete(next, groups[1..], rows, g);
    }
  }

  lemma {:induction false} FreeBanksShorter(rows: seq<BankRow>, claimed: set<string>)
    ensures |FreeBanks(rows, claimed)| <= |rows|
  {
    if rows != [] {
      FreeBanksShorter(rows[1..], claimed);
    }
  }

  /** If a goal transaction is unmatched at the end of the run, then no non-empty set of unmatched bank rows of
      its day and type sums within its tolerance that are all among the ten largest of those left after
      pass 2. */
  lemma {:induction false} BankToFundComplete(inp: Input, g: GoalTxn, sub: seq<BankRow>)
    requires WellFormedInput(inp)
    requires g in inp.groups && !Taken(g, Run(inp).claims.funds)
    requires FreeChoice(sub, Run(inp).claims, g, inp.banks)
    requires AmongLargest(sub, g, FreeBanks(inp.banks, AfterAmount(inp).claims.banks))
    ensures !Within(BankTotal(sub), g.total, Tolerance(g.total))
  {
    var a, b, end := AfterAmount(inp), AfterSplitBank(inp), Run(inp);
    RunExtends(inp);
    SaturatedAfterAmount(inp);
    if Taken(g, a.claims.funds) {
      TakenMonotone(g, a.claims.funds, b.claims.funds);
    }
    if Taken(g, b.claims.funds) {
      TakenMonotone(g, b.claims.funds, end.claims.funds);
    }
    var rows := FreeBanks(inp.banks, a.claims.banks);
    var groups := FreeGroups(inp.groups, a.claims.funds);
    FreeBanksMembers(inp.banks, a.claims.banks);
    FreeGroupsMembers(inp.groups, a.claims.funds);
    SplitBankPassComplete(a, groups, rows, g);
    NoSplitStays(b, end, g, rows);
    assert FreeChoice(sub, end.claims, g, rows);
  }

  /** In particular when at most ten such rows are left after pass 2: then no set at all does. */
  lemma {:induction false} SmallBucketComplete(inp: Input, g: GoalTxn, sub: seq<BankRow>)
    requires WellFormedInput(inp)
    requires |Bucket(FreeBanks(inp.banks, AfterAmount(inp).claims.banks), Day(g.date), g.txnType)| <= 10
    requires g in inp.groups && !Taken(g, Run(inp).claims.funds)
    requires FreeChoice(sub, Run(inp).claims, g, inp.banks)
    ensures !Within(BankTotal(sub), g.total, Tolerance(g.total))
  {
    var bucket := Bucket(FreeBanks(inp.banks, AfterAmount(inp).claims.banks), Day(g.date), g.txnType);
    forall r | r in sub
      ensures AtLeast(BankItems(bucket), r.amount) <= 10
    {
      AtLeastSize(BankItems(bucket), r.amount);
    }
    BankToFundComplete(inp, g, sub);
  }

  /** For a bucket of any size: when pass 3 reaches a free goal transaction whose free bank rows of that
      day and type are not negative and all together sum within tolerance, it is matched. */
  lemma {:induction false} WholeBucketIsMatched(st: State, g: GoalTxn, rows: seq<BankRow>)
    requires g.ids != [] && Saturated(st.claims, rows, [g])
    requires SplitCandidates(st, g, rows) != []
    requires forall r :: r in SplitCandidates(st, g, rows) ==> r.amount >= 0
    requires Within(BankTotal(SplitCandidates(st, g, rows)), g.total, Tolerance(g.total))
    ensures Taken(g, SplitBankStep(st, g, rows).claims.funds)
  {
    if !Taken(g, st.claims.funds) {
      var candidates := SplitCandidates(st, g, rows);
      forall x | x in BankItems(candidates)
        ensures x.amount >= 0
      {
        var i :| 0 <= i < |candidates| && BankItems(candidates)[i] == x;
        assert candidates[i] in candidates;
      }
      GreedyComplete(BankItems(candidates), g.total, Tolerance(g.total));
      NeverASingleton(st, g, rows);
      assert g in [g] && g.ids[0] in g.ids && g.ids[0] in FundIdsOf([g]);
    }
  }
}
