/** What pass 3b misses and what it does not: several goal transactions that sum to one bank row. */
module FundToBank {
  import opened Money
  import opened Combination
  import opened Transactions
  import opened Matching
  import opened DrillDown
  import opened Ledger
  import opened Completeness

  // ---- One step ----

  /** sub is a choice of two or more unmatched goal transactions of the day and type of b. */
  ghost predicate FundChoice(sub: seq<GoalTxn>, claims: Claims, b: BankRow, groups: seq<GoalTxn>) {
    && |sub| > 1 && DistinctKeys(sub)
    && forall g :: g in sub ==> g in groups && SameBucket(b, g) && !Taken(g, claims.funds)
  }

  /** Each goal transaction of sub is among the ten largest of the candidates of b. */
  ghost predicate AmongLargestFunds(sub: seq<GoalTxn>, candidates: seq<GoalTxn>) {
    forall g :: g in sub ==> AtLeast(GoalItems(candidates), g.total) <= 10
  }

  /** Some such choice sums to b. */
  ghost predicate SomeSplit(claims: Claims, b: BankRow, groups: seq<GoalTxn>) {
    exists sub :: FundChoice(sub, claims, b, groups) && Within(GoalTotal(sub), b.amount, Tolerance(b.amount))
  }

  /** Some such choice among the ten largest candidates does. */
  ghost predicate SomeLargeSplit(claims: Claims, b: BankRow, groups: seq<GoalTxn>, candidates: seq<GoalTxn>) {
    exists sub :: FundChoice(sub, claims, b, groups) && Within(GoalTotal(sub), b.amount, Tolerance(b.amount))
      && AmongLargestFunds(sub, candidates)
  }

  function Items(claims: Claims, b: BankRow, groups: seq<GoalTxn>): seq<Item<GoalTxn>> {
    GoalItems(Candidates(groups, b, claims.funds))
  }

  /** What the greedy phase finds for b. */
  function GreedyFor(claims: Claims, b: BankRow, groups: seq<GoalTxn>): seq<Item<GoalTxn>> {
    Greedy(SortDescending(Items(claims, b, groups)), [], b.amount, Tolerance(b.amount))
  }

  lemma {:induction false} ChoiceOfGroups(sub: seq<GoalTxn>, candidates: seq<GoalTxn>)
    requires DistinctKeys(sub) && forall g :: g in sub ==> g in candidates
    ensures multiset(GoalItems(sub)) <= multiset(GoalItems(candidates))
  {
    forall x | x in GoalItems(sub)
      ensures x in GoalItems(candidates)
    {
      var i :| 0 <= i < |sub| && GoalItems(sub)[i] == x;
      assert sub[i] in sub;
      var j :| 0 <= j < |candidates| && candidates[j] == sub[i];
      assert GoalItems(candidates)[j] == x;
    }
    SubMultiset(GoalItems(sub), GoalItems(candidates));
  }

  /** What the search finds, when it is more than one item, is a choice that sums to b. */
  lemma {:induction false} FoundIsSplit(st: State, b: BankRow, groups: seq<GoalTxn>)
    requires DistinctKeys(groups)
    requires |Find(Items(st.claims, b, groups), b.amount, Tolerance(b.amount))| > 1
    ensures SomeSplit(st.claims, b, groups)
  {
    var candidates := Candidates(groups, b, st.claims.funds);
    var found := Find(GoalItems(candidates), b.amount, Tolerance(b.amount));
    FindSound(GoalItems(candidates), b.amount, Tolerance(b.amount));
    FoundGroups(candidates, found);
    CandidatesDistinct(groups, b, st.claims.funds);
    FoundGroupsDistinct(candidates, found);
    CandidatesMembers(groups, b, st.claims.funds);
    assert FundChoice(Refs(found), st.claims, b, groups);
  }

  lemma {:induction false} LargestItems(sub: seq<GoalTxn>, candidates: seq<GoalTxn>)
    requires AmongLargestFunds(sub, candidates)
    ensures AmongTenLargest(GoalItems(sub), GoalItems(candidates))
  {
    forall x | x in GoalItems(sub)
      ensures AtLeast(GoalItems(candidates), x.amount) <= 10
    {
      var i :| 0 <= i < |sub| && GoalItems(sub)[i] == x;
      assert sub[i] in sub;
    }
  }

  lemma {:induction false} SplitIsFound(st: State, b: BankRow, groups: seq<GoalTxn>)
    requires SomeLargeSplit(st.claims, b, groups, Candidates(groups, b, st.claims.funds))
    requires |GreedyFor(st.claims, b, groups)| != 1
    ensures |Find(Items(st.claims, b, groups), b.amount, Tolerance(b.amount))| > 1
  {
    var candidates := Candidates(groups, b, st.claims.funds);
    var items := GoalItems(candidates);
    var sub :| FundChoice(sub, st.claims, b, groups) && Within(GoalTotal(sub), b.amount, Tolerance(b.amount))
      && AmongLargestFunds(sub, candidates);
    CandidatesMembers(groups, b, st.claims.funds);
    ChoiceOfGroups(sub, candidates);
    FindSound(items, b.amount, Tolerance(b.amount));
    LargestItems(sub, candidates);
    if Find(items, b.amount, Tolerance(b.amount)) == [] {
      TenLargestComplete(items, b.amount, Tolerance(b.amount), GoalItems(sub));
      assert false;
    }
  }

  lemma {:induction false} AllAreLarge(claims: Claims, b: BankRow, groups: seq<GoalTxn>, candidates: seq<GoalTxn>)
    requires |candidates| <= 10 && SomeSplit(claims, b, groups)
    ensures SomeLargeSplit(claims, b, groups, candidates)
  {
    var sub :| FundChoice(sub, claims, b, groups) && Within(GoalTotal(sub), b.amount, Tolerance(b.amount));
    forall g: GoalTxn | g in sub
      ensures AtLeast(GoalItems(candidates), g.total) <= 10
    {
      AtLeastSize(GoalItems(candidates), g.total);
    }
    assert AmongLargestFunds(sub, candidates);
  }

  /** Exactly when pass 3b matches a free row with at most ten candidates: some choice of two or more sums to
      it, and the greedy phase does not stop at a single one. */
  lemma {:induction false} SplitFundStepIff(st: State, b: BankRow, groups: seq<GoalTxn>)
    requires b.id !in st.claims.banks && DistinctKeys(groups)
    requires |Candidates(groups, b, st.claims.funds)| <= 10
    ensures b.id in SplitFundStep(st, b, groups).claims.banks <==>
            SomeSplit(st.claims, b, groups) && |GreedyFor(st.claims, b, groups)| != 1
  {
    var found := Find(Items(st.claims, b, groups), b.amount, Tolerance(b.amount));
    if |found| > 1 {
      FoundIsSplit(st, b, groups);
      assert b in [b] && b.id in BankIds([b]);
    } else if SomeSplit(st.claims, b, groups) && |GreedyFor(st.claims, b, groups)| != 1 {
      AllAreLarge(st.claims, b, groups, Candidates(groups, b, st.claims.funds));
      SplitIsFound(st, b, groups);
      assert false;
    }
  }

  // ---- The whole run ----

  /** No single unmatched goal transaction of the day and type of b is within b's tolerance of b. */
  ghost predicate NoneAlone(claims: Claims, b: BankRow, groups: seq<GoalTxn>) {
    forall g :: g in groups && SameBucket(b, g) && !Taken(g, claims.funds) ==>
      !Within(g.total, b.amount, Tolerance(b.amount))
  }

  lemma {:induction false} SingleItem<T>(items: seq<Item<T>>, target: int, tolerance: int)
    requires |Greedy(SortDescending(items), [], target, tolerance)| == 1
    ensures exists x :: x in items && Within(x.amount, target, tolerance)
  {
    var sorted := SortDescending(items);
    var r := Greedy(sorted, [], target, tolerance);
    GreedySound(sorted, [], target, tolerance);
    assert r == [r[0]];
    SubMember(r, items, r[0]);
    assert [r[0]][1..] == [];
  }

  lemma {:induction false} GreedySingle(claims: Claims, b: BankRow, groups: seq<GoalTxn>)
    requires |GreedyFor(claims, b, groups)| == 1
    ensures exists g :: g in Candidates(groups, b, claims.funds) && Within(g.total, b.amount, Tolerance(b.amount))
  {
    var candidates := Candidates(groups, b, claims.funds);
    SingleItem(GoalItems(candidates), b.amount, Tolerance(b.amount));
    var x :| x in GoalItems(candidates) && Within(x.amount, b.amount, Tolerance(b.amount));
    var i :| 0 <= i < |candidates| && GoalItems(candidates)[i] == x;
    assert candidates[i] in candidates;
  }

  lemma {:induction false} GreedyNotSingle(claims: Claims, b: BankRow, groups: seq<GoalTxn>)
    requires NoneAlone(claims, b, groups)
    ensures |GreedyFor(claims, b, groups)| != 1
  {
    CandidatesMembers(groups, b, claims.funds);
    if |GreedyFor(claims, b, groups)| == 1 {
      GreedySingle(claims, b, groups);
      assert false;
    }
  }

  lemma {:induction false} CandidatesShrink(groups: seq<GoalTxn>, b: BankRow, small: set<string>, large: set<string>,
                                            amount: int)
    requires small <= large
    ensures AtLeast(GoalItems(Candidates(groups, b, large)), amount)
         <= AtLeast(GoalItems(Candidates(groups, b, small)), amount)
  {
    if groups != [] {
      var g := groups[0];
      if Taken(g, small) {
        TakenMonotone(g, small, large);
      }
      CandidatesShrink(groups[1..], b, small, large, amount);
      AtLeastFirst(g, !Taken(g, small) && SameBucket(b, g), Candidates(groups[1..], b, small), amount);
      AtLeastFirst(g, !Taken(g, large) && SameBucket(b, g), Candidates(groups[1..], b, large), amount);
    }
  }

  lemma {:induction false} AtLeastFirst(g: GoalTxn, listed: bool, rest: seq<GoalTxn>, amount: int)
    ensures AtLeast(GoalItems((if listed then [g] else []) + rest), amount) ==
            AtLeast(GoalItems(rest), amount) + if listed && g.total >= amount then 1 else 0
  {
    if listed {
      assert ([g] + rest)[1..] == rest;
      assert GoalItems([g] + rest) == [Item(g, g.total)] + GoalItems(rest);
    } else {
      assert [] + rest == rest;
    }
  }

  lemma {:induction false} CandidatesOfFree(groups: seq<GoalTxn>, b: BankRow, claimed: set<string>)
    ensures Candidates(FreeGroups(groups, claimed), b, claimed) == Candidates(groups, b, claimed)
  {
    if groups != [] {
      CandidatesOfFree(groups[1..], b, claimed);
      var tail := FreeGroups(groups[1..], claimed);
      if Taken(groups[0], claimed) {
        assert FreeGroups(groups, claimed) == tail;
      } else {
        assert FreeGroups(groups, claimed)[1..] == tail;
      }
    }
  }

  lemma {:induction false} SplitWasThere(a: State, b: State, row: BankRow, groups: seq<GoalTxn>, base: set<string>)
    requires Extends(a, b) && base <= a.claims.funds
    requires SomeLargeSplit(b.claims, row, groups, Candidates(groups, row, base))
    ensures SomeLargeSplit(a.claims, row, groups, Candidates(groups, row, a.claims.funds))
  {
    var wide, candidates := Candidates(groups, row, base), Candidates(groups, row, a.claims.funds);
    var sub :| FundChoice(sub, b.claims, row, groups) && Within(GoalTotal(sub), row.amount, Tolerance(row.amount))
      && AmongLargestFunds(sub, wide);
    forall g | g in sub
      ensures !Taken(g, a.claims.funds) && AtLeast(GoalItems(candidates), g.total) <= 10
    {
      if Taken(g, a.claims.funds) {
        TakenMonotone(g, a.claims.funds, b.claims.funds);
      }
      CandidatesShrink(groups, row, base, a.claims.funds, g.total);
    }
    assert FundChoice(sub, a.claims, row, groups) && AmongLargestFunds(sub, candidates);
  }

  lemma {:induction false} NoneAloneStays(a: State, b: State, row: BankRow, groups: seq<GoalTxn>)
    requires Extends(a, b) && NoneAlone(a.claims, row, groups)
    ensures NoneAlone(b.claims, row, groups)
  {
    forall g | g in groups && SameBucket(row, g) && !Taken(g, b.claims.funds)
      ensures !Within(g.total, row.amount, Tolerance(row.amount))
    {
      if Taken(g, a.claims.funds) {
        TakenMonotone(g, a.claims.funds, b.claims.funds);
      }
    }
  }

  lemma {:induction false} SplitFundStepExtends(st: State, b: BankRow, groups: seq<GoalTxn>)
    ensures Extends(st, SplitFundStep(st, b, groups))
  {
  }

  lemma {:induction false} SplitFundPassComplete(st: State, rows: seq<BankRow>, groups: seq<GoalTxn>, b: BankRow,
                                                 base: set<string>)
    requires b in rows && DistinctKeys(groups) && NoneAlone(st.claims, b, groups) && base <= st.claims.funds
    ensures var end := SplitFundPass(st, rows, groups);
            b.id in end.claims.banks || !SomeLargeSplit(end.claims, b, groups, Candidates(groups, b, base))
    decreases rows
  {
    var next := SplitFundStep(st, rows[0], groups);
    var end := SplitFundPass(next, rows[1..], groups);
    SplitFundStepExtends(st, rows[0], groups);
    SplitFundPassExtends(next, rows[1..], groups);
    assert b in [b] && b.id in BankIds([b]);
    if rows[0] == b {
      if b.id !in next.claims.banks && SomeLargeSplit(end.claims, b, groups, Candidates(groups, b, base)) {
        assert Extends(st, end);
        SplitWasThere(st, end, b, groups, base);
        GreedyNotSingle(st.claims, b, groups);
        SplitIsFound(st, b, groups);
        assert false;
      }
    } else {
      NoneAloneStays(st, next, b, groups);
      SplitFundPassComplete(next, rows[1..], groups, b, base);
    }
  }

  /** A bank row is unmatched at the end of the run, and no goal transaction of its day and type left after
      pass 3 is within its tolerance alone. Then no two or more unmatched goal transactions of its day and
      type sum within its tolerance that are all among the ten largest of those left after pass 3. */
  lemma {:induction false} FundToBankComplete(inp: Input, b: BankRow, sub: seq<GoalTxn>)
    requires WellFormedInput(inp) && b in inp.banks && b.id !in Run(inp).claims.banks
    requires NoneAlone(AfterSplitBank(inp).claims, b, inp.groups)
    requires FundChoice(sub, Run(inp).claims, b, inp.groups)
    requires AmongLargestFunds(sub, Candidates(inp.groups, b, AfterSplitBank(inp).claims.funds))
    ensures !Within(GoalTotal(sub), b.amount, Tolerance(b.amount))
  {
    var c, end := AfterSplitBank(inp), Run(inp);
    var rows, groups := FreeBanks(inp.banks, c.claims.banks), FreeGroups(inp.groups, c.claims.funds);
    RunExtends(inp);
    FreeBanksMembers(inp.banks, c.claims.banks);
    FreeGroupsMembers(inp.groups, c.claims.funds);
    FreeGroupsDistinct(inp.groups, c.claims.funds);
    CandidatesOfFree(inp.groups, b, c.claims.funds);
    SplitFundPassComplete(c, rows, groups, b, c.claims.funds);
    forall g | g in sub
      ensures g in groups
    {
      if Taken(g, c.claims.funds) {
        TakenMonotone(g, c.claims.funds, end.claims.funds);
      }
    }
    assert FundChoice(sub, end.claims, b, groups);
  }

  // ---- What the greedy phase misses ----

  lemma {:induction false} SortedPair(x: Item<GoalTxn>, y: Item<GoalTxn>)
    requires x.amount > y.amount
    ensures SortDescending([x, y]) == [x, y]
  {
    assert [x, y][1..] == [y] && [y][1..] == [];
    assert SortDescending([y]) == [y];
  }

  lemma {:induction false} GreedyStopsAtFirst(x: Item<GoalTxn>, y: Item<GoalTxn>, target: int, tolerance: int)
    requires x.amount > y.amount && Within(x.amount, target, tolerance)
    ensures Find([x, y], target, tolerance) == [x]
  {
    SortedPair(x, y);
    assert [x][1..] == [] && Sum([x]) == x.amount && [] + [x] == [x];
    assert Sum<GoalTxn>([]) == 0;
  }

  lemma {:induction false} PartIsShorter<T>(a: seq<T>, b: seq<T>)
    requires multiset(a) <= multiset(b)
    ensures |a| <= |b|
  {
    assert multiset(b) == multiset(a) + (multiset(b) - multiset(a));
    assert |multiset(a)| == |a| && |multiset(b)| == |b|;
  }

  lemma {:induction false} OneRowNoSplit(st: State, b: BankRow, groups: seq<GoalTxn>)
    ensures SplitBankPass(st, groups, [b]) == st
    decreases groups
  {
    if groups != [] {
      var g := groups[0];
      var bucket := Bucket([b], Day(g.date), g.txnType);
      assert [b][1..] == [] && Bucket([], Day(g.date), g.txnType) == [];
      assert |bucket| <= 1;
      FreeBanksShorter(bucket, st.claims.banks);
      var items := BankItems(SplitCandidates(st, g, [b]));
      FindSound(items, g.total, Tolerance(g.total));
      var found := Find(items, g.total, Tolerance(g.total));
      assert multiset(found) <= multiset(items);
      PartIsShorter(found, items);
      OneRowNoSplit(st, b, groups[1..]);
    }
  }

  /** Two goal transactions sum to a bank row, but the larger alone is within the tolerance of the bank row,
      and the bank row not within the smaller tolerance of the goal transaction. The greedy phase stops at
      the one, and the run leaves all three unmatched. */
  lemma {:induction false} SingleGroupStopsSplit(b: BankRow, g: GoalTxn, h: GoalTxn)
    requires SameBucket(b, g) && SameBucket(b, h) && !SameTransaction(b, g) && !SameTransaction(b, h)
    requires g.total > h.total && g.total + h.total == b.amount
    requires Within(g.total, b.amount, Tolerance(b.amount)) && !AmountsAgree(b, g) && !AmountsAgree(b, h)
    ensures Run(Input([b], [g, h], map[])) == START
  {
    var inp := Input([b], [g, h], map[]);
    assert [b][1..] == [] && [g, h][1..] == [h] && [h][1..] == [];
    assert AfterManual(inp) == ManualPass(START, [], inp) == START;
    FirstFound(SameId, b, [g, h], {});
    assert ExactStep(START, b, [g, h]) == START;
    assert AfterExact(inp) == ExactPass(START, [], [g, h]) == START;
    NothingTaken(b, g, h);
    FirstFound(NearAmount, b, [g, h], {});
    assert AmountStep(START, b, [g, h]) == START;
    assert AfterAmount(inp) == AmountPass(START, [], [g, h]) == START;
    OneRowNoSplit(START, b, [g, h]);
    assert AfterSplitBank(inp) == START;
    assert Candidates([], b, {}) == [] && Candidates([h], b, {}) == [h];
    assert Candidates([g, h], b, {}) == [g] + [h] == [g, h];
    assert GoalItems([g, h]) == [Item(g, g.total), Item(h, h.total)];
    GreedyStopsAtFirst(Item(g, g.total), Item(h, h.total), b.amount, Tolerance(b.amount));
    assert SplitFundStep(START, b, [g, h]) == START;
    assert Run(inp) == SplitFundPass(START, [], [g, h]) == START;
  }

  lemma {:induction false} NothingTaken(b: BankRow, g: GoalTxn, h: GoalTxn)
    ensures FreeBanks([b], {}) == [b] && FreeGroups([g, h], {}) == [g, h]
  {
    assert [b][1..] == [] && [g, h][1..] == [h] && [h][1..] == [];
    assert FreeGroups([h], {}) == [h];
  }

  /** For instance 10,100,500 UGX in the bank and goal transactions of 10,000,000 and 100,500 UGX. */
  lemma {:induction false} MissedSplit(b: BankRow, g: GoalTxn, h: GoalTxn)
    requires SameBucket(b, g) && SameBucket(b, h) && !SameTransaction(b, g) && !SameTransaction(b, h)
    requires b.amount == 1_010_050_000 && g.total == 1_000_000_000 && h.total == 10_050_000
    ensures g.total + h.total == b.amount && Run(Input([b], [g, h], map[])) == START
  {
    SingleGroupStopsSplit(b, g, h);
  }
}
