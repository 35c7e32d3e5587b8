/** No money is lost or counted twice: the totals of the matches and the amounts left unmatched add up
    to the totals of the loaded lists, on the bank side and on the fund side. */
module Conservation {
  import opened Text
  import opened Combination
  import opened Transactions
  import opened MatchCode
  import opened Matching
  import opened DrillDown
  import opened Ledger

  function SumOfBankTotals(results: seq<MatchResult>): int {
    if results == [] then 0 else results[0].bankTotal + SumOfBankTotals(results[1..])
  }

  function SumOfFundTotals(results: seq<MatchResult>): int {
    if results == [] then 0 else results[0].fundTotal + SumOfFundTotals(results[1..])
  }

  lemma {:induction false} BankTotalAppend(a: seq<BankRow>, b: seq<BankRow>)
    ensures BankTotal(a + b) == BankTotal(a) + BankTotal(b)
  {
    assert BankItems(a + b) == BankItems(a) + BankItems(b);
    SumAppend(BankItems(a), BankItems(b));
  }

  lemma {:induction false} SumsOfLedger(matches: seq<Match>)
    ensures SumOfBankTotals(Results(matches)) == BankTotal(AllBanks(matches))
    ensures SumOfFundTotals(Results(matches)) == GoalTotal(AllGroups(matches))
  {
    if matches != [] {
      SumsOfLedger(matches[1..]);
      BankTotalAppend(matches[0].banks, AllBanks(matches[1..]));
      TotalSnoc(matches[0].groups, AllGroups(matches[1..]));
      assert Results(matches)[1..] == Results(matches[1..]);
    }
  }

  // ---- The bank side ----

  lemma {:induction false} FreeBanksSame(rows: seq<BankRow>, c: set<string>, d: set<string>)
    requires forall r :: r in rows ==> (r.id in c <==> r.id in d)
    ensures FreeBanks(rows, c) == FreeBanks(rows, d)
  {
    if rows != [] {
      assert rows[0] in rows;
      FreeBanksSame(rows[1..], c, d);
    }
  }

  lemma {:induction false} ClaimOneBank(rows: seq<BankRow>, claimed: set<string>, x: BankRow)
    requires DistinctBankIds(rows) && x in rows && x.id !in claimed
    ensures BankTotal(FreeBanks(rows, claimed)) == x.amount + BankTotal(FreeBanks(rows, claimed + {x.id}))
  {
    var next := claimed + {x.id};
    var tail := rows[1..];
    if rows[0] == x {
      forall r | r in tail
        ensures r.id in claimed <==> r.id in next
      {
      }
      FreeBanksSame(tail, claimed, next);
      assert FreeBanks(rows, next) == FreeBanks(tail, next);
      BankTotalAppend([x], FreeBanks(tail, claimed));
      SingleBank(x);
    } else {
      assert x in tail;
      ClaimOneBank(tail, claimed, x);
      assert rows[0].id != x.id;
      if rows[0].id !in claimed {
        BankTotalAppend([rows[0]], FreeBanks(tail, claimed));
        BankTotalAppend([rows[0]], FreeBanks(tail, next));
      } else {
        assert FreeBanks(rows, claimed) == FreeBanks(tail, claimed) && FreeBanks(rows, next) == FreeBanks(tail, next);
      }
    }
  }

  lemma {:induction false} RestOfBanksFree(rows: seq<BankRow>, claimed: set<string>, sub: seq<BankRow>)
    requires DistinctBankIds(sub) && sub != [] && forall r :: r in sub ==> r in rows && r.id !in claimed
    ensures DistinctBankIds(sub[1..]) && forall r :: r in sub[1..] ==> r in rows && r.id !in claimed + {sub[0].id}
  {
    forall r | r in sub[1..]
      ensures r in rows && r.id !in claimed + {sub[0].id}
    {
      var i :| 1 <= i < |sub| && sub[i] == r;
    }
  }

  lemma {:induction false} ClaimBanks(rows: seq<BankRow>, claimed: set<string>, sub: seq<BankRow>)
    requires DistinctBankIds(rows) && DistinctBankIds(sub)
    requires forall r :: r in sub ==> r in rows && r.id !in claimed
    ensures BankTotal(FreeBanks(rows, claimed)) == BankTotal(sub) + BankTotal(FreeBanks(rows, claimed + BankIds(sub)))
    decreases sub
  {
    if sub == [] {
      assert claimed + BankIds(sub) == claimed;
    } else {
      var x := sub[0];
      ClaimOneBank(rows, claimed, x);
      RestOfBanksFree(rows, claimed, sub);
      ClaimBanks(rows, claimed + {x.id}, sub[1..]);
      assert claimed + {x.id} + BankIds(sub[1..]) == claimed + BankIds(sub);
      assert sub == [x] + sub[1..];
      BankTotalAppend([x], sub[1..]);
      SingleBank(x);
    }
  }

  // ---- The fund side ----

  lemma {:induction false} FreeGroupsSame(groups: seq<GoalTxn>, c: set<string>, d: set<string>)
    requires forall g :: g in groups ==> (Taken(g, c) <==> Taken(g, d))
    ensures FreeGroups(groups, c) == FreeGroups(groups, d)
  {
    if groups != [] {
      assert groups[0] in groups;
      FreeGroupsSame(groups[1..], c, d);
    }
  }

  ghost function Ids(g: GoalTxn): set<string> {
    set id | id in g.ids
  }

  lemma {:induction false} OtherGroupUnaffected(g: GoalTxn, x: GoalTxn, claimed: set<string>)
    requires SharesNoId(g, x)
    ensures Taken(g, claimed) <==> Taken(g, claimed + Ids(x))
  {
    if Taken(g, claimed) {
      TakenMonotone(g, claimed, claimed + Ids(x));
    }
  }

  lemma {:induction false} WellGroupedTail(groups: seq<GoalTxn>)
    requires WellGrouped(groups) && groups != []
    ensures WellGrouped(groups[1..])
    ensures forall g :: g in groups[1..] ==> SharesNoId(g, groups[0]) && g != groups[0]
  {
    var tail := groups[1..];
    forall i, j | 0 <= i < |tail| && 0 <= j < |tail| && i != j
      ensures SharesNoId(tail[i], tail[j])
    {
      assert SharesNoId(groups[i + 1], groups[j + 1]);
    }
    forall g | g in tail
      ensures SharesNoId(g, groups[0]) && g != groups[0]
    {
      var i :| 0 <= i < |tail| && tail[i] == g;
      assert SharesNoId(groups[i + 1], groups[0]);
      assert GroupKey(groups[0]) != GroupKey(groups[i + 1]);
    }
  }

  lemma {:induction false} ClaimOneGroup(groups: seq<GoalTxn>, claimed: set<string>, x: GoalTxn)
    requires WellGrouped(groups) && x in groups && !Taken(x, claimed)
    ensures GoalTotal(FreeGroups(groups, claimed)) == x.total + GoalTotal(FreeGroups(groups, claimed + Ids(x)))
  {
    var next := claimed + Ids(x);
    var tail := groups[1..];
    WellGroupedTail(groups);
    assert x.ids[0] in x.ids && x.ids[0] in next;
    if groups[0] == x {
      forall g | g in tail
        ensures Taken(g, claimed) <==> Taken(g, next)
      {
        OtherGroupUnaffected(g, x, claimed);
      }
      FreeGroupsSame(tail, claimed, next);
      assert FreeGroups(groups, next) == FreeGroups(tail, next);
      TotalSnoc([x], FreeGroups(tail, claimed));
      SingleGroup(x);
    } else {
      assert x in tail;
      ClaimOneGroup(tail, claimed, x);
      OtherGroupUnaffected(groups[0], x, claimed);
      if !Taken(groups[0], claimed) {
        TotalSnoc([groups[0]], FreeGroups(tail, claimed));
        TotalSnoc([groups[0]], FreeGroups(tail, next));
      } else {
        assert FreeGroups(groups, claimed) == FreeGroups(tail, claimed);
        assert FreeGroups(groups, next) == FreeGroups(tail, next);
      }
    }
  }

  lemma {:induction false} RestStaysFree(groups: seq<GoalTxn>, claimed: set<string>, sub: seq<GoalTxn>)
    requires WellGrouped(groups) && DistinctKeys(sub) && sub != []
    requires forall g :: g in sub ==> g in groups && !Taken(g, claimed)
    ensures forall g :: g in sub[1..] ==> g in groups && !Taken(g, claimed + Ids(sub[0]))
  {
    forall g | g in sub[1..]
      ensures g in groups && !Taken(g, claimed + Ids(sub[0]))
    {
      var i :| 1 <= i < |sub| && sub[i] == g;
      assert GroupKey(sub[0]) != GroupKey(g);
      DifferentGroupsShareNothing(groups, g, sub[0]);
      OtherGroupUnaffected(g, sub[0], claimed);
    }
  }

  lemma {:induction false} ClaimGroups(groups: seq<GoalTxn>, claimed: set<string>, sub: seq<GoalTxn>)
    requires WellGrouped(groups) && DistinctKeys(sub)
    requires forall g :: g in sub ==> g in groups && !Taken(g, claimed)
    ensures GoalTotal(FreeGroups(groups, claimed)) ==
            GoalTotal(sub) + GoalTotal(FreeGroups(groups, claimed + FundIdsOf(sub)))
    decreases sub
  {
    if sub == [] {
      assert claimed + FundIdsOf(sub) == claimed;
    } else {
      var x := sub[0];
      ClaimOneGroup(groups, claimed, x);
      RestStaysFree(groups, claimed, sub);
      ClaimGroups(groups, claimed + Ids(x), sub[1..]);
      assert claimed + Ids(x) + FundIdsOf(sub[1..]) == claimed + FundIdsOf(sub);
      assert sub == [x] + sub[1..];
      TotalSnoc([x], sub[1..]);
      SingleGroup(x);
    }
  }

  lemma {:induction false} DifferentGroupsShareNothing(groups: seq<GoalTxn>, g: GoalTxn, h: GoalTxn)
    requires WellGrouped(groups) && g in groups && h in groups && g != h
    ensures SharesNoId(g, h)
  {
    var i :| 0 <= i < |groups| && groups[i] == g;
    var j :| 0 <= j < |groups| && groups[j] == h;
    assert SharesNoId(groups[i], groups[j]);
  }

  // ---- The whole run ----

  /** Each group at its first place. */
  function Once(groups: seq<GoalTxn>): seq<GoalTxn> {
    if groups == [] then []
    else
      var rest, last := groups[..|groups| - 1], groups[|groups| - 1];
      Once(rest) + if last in rest then [] else [last]
  }

  /** The other places, where a group stands again. */
  function Again(groups: seq<GoalTxn>): seq<GoalTxn> {
    if groups == [] then []
    else
      var rest, last := groups[..|groups| - 1], groups[|groups| - 1];
      Again(rest) + if last in rest then [last] else []
  }

  lemma {:induction false} OnceAndAgain(groups: seq<GoalTxn>)
    ensures GoalTotal(groups) == GoalTotal(Once(groups)) + GoalTotal(Again(groups))
    ensures forall g :: g in Once(groups) <==> g in groups
  {
    if groups != [] {
      var rest, last := groups[..|groups| - 1], groups[|groups| - 1];
      OnceAndAgain(rest);
      assert groups == rest + [last];
      TotalSnoc(rest, [last]);
      TotalSnoc(Once(rest), [last]);
      TotalSnoc(Again(rest), [last]);
      assert Once(rest) + [] == Once(rest) && Again(rest) + [] == Again(rest);
    }
  }

  lemma {:induction false} OnceDistinct(all: seq<GoalTxn>, groups: seq<GoalTxn>)
    requires DistinctKeys(all) && forall g :: g in groups ==> g in all
    ensures DistinctKeys(Once(groups))
  {
    if groups != [] {
      var rest, last := groups[..|groups| - 1], groups[|groups| - 1];
      OnceDistinct(all, rest);
      OnceAndAgain(rest);
      if last !in rest {
        forall i | 0 <= i < |Once(rest)|
          ensures GroupKey(Once(rest)[i]) != GroupKey(last)
        {
          assert Once(rest)[i] in rest;
          if GroupKey(Once(rest)[i]) == GroupKey(last) {
            SameKeySameGroup(all, Once(rest)[i], last);
          }
        }
      }
    }
  }

  lemma {:induction false} ClaimAll(groups: seq<GoalTxn>, all: seq<GoalTxn>)
    requires WellGrouped(groups) && forall g :: g in all ==> g in groups
    ensures GoalTotal(all) + GoalTotal(FreeGroups(groups, FundIdsOf(all))) == GoalTotal(groups) + GoalTotal(Again(all))
  {
    OnceAndAgain(all);
    OnceDistinct(groups, all);
    NothingClaimed([], groups);
    forall g | g in Once(all)
      ensures g in groups && !Taken(g, {})
    {
    }
    ClaimGroups(groups, {}, Once(all));
    assert {} + FundIdsOf(Once(all)) == FundIdsOf(all);
  }

  /** For every input the fund side is conserved up to the groups that a manual match holds again: the
      matched and unmatched fund totals exceed all that was loaded by exactly their total. */
  lemma {:induction false} FundsConservedUpToRepeats(inp: Input)
    requires WellFormedInput(inp)
    ensures var st := Run(inp);
            SumOfFundTotals(Results(st.matches)) + GoalTotal(FreeGroups(inp.groups, st.claims.funds)) ==
            GoalTotal(inp.groups) + GoalTotal(Again(AllGroups(st.matches)))
  {
    var st := Run(inp);
    var all := AllGroups(st.matches);
    RunSound(inp);
    SumsOfLedger(st.matches);
    ClaimAll(inp.groups, all);
  }

  /** Bank totals of the matches plus unmatched bank amounts are all bank amounts, and likewise for the
      fund side unless a manual code lists a goal code twice. */
  lemma {:induction false} LedgerConserved(inp: Input)
    requires WellFormedInput(inp)
    ensures var st := Run(inp);
            && SumOfBankTotals(Results(st.matches)) + BankTotal(FreeBanks(inp.banks, st.claims.banks)) ==
               BankTotal(inp.banks)
            && (NoDoubleListing(inp) ==>
                  SumOfFundTotals(Results(st.matches)) + GoalTotal(FreeGroups(inp.groups, st.claims.funds)) ==
                  GoalTotal(inp.groups))
  {
    var st := Run(inp);
    RunSound(inp);
    SumsOfLedger(st.matches);
    ClaimBanks(inp.banks, {}, AllBanks(st.matches));
    assert {} + BankIds(AllBanks(st.matches)) == st.claims.banks;
    NothingClaimed(inp.banks, inp.groups);
    if NoDoubleListing(inp) {
      ClaimGroups(inp.groups, {}, AllGroups(st.matches));
      assert {} + FundIdsOf(AllGroups(st.matches)) == st.claims.funds;
    }
  }

  lemma {:induction false} NothingClaimed(rows: seq<BankRow>, groups: seq<GoalTxn>)
    ensures FreeBanks(rows, {}) == rows && FreeGroups(groups, {}) == groups
    decreases |rows| + |groups|
  {
    if rows != [] {
      NothingClaimed(rows[1..], groups);
    } else if groups != [] {
      NothingClaimed(rows, groups[1..]);
    }
  }

  /** Every goal transaction is matched wholly or not at all: all its fund rows are claimed, or none is. */
  lemma {:induction false} WhollyOrNotAtAll(inp: Input, g: GoalTxn)
    requires WellFormedInput(inp) && g in inp.groups
    ensures (forall id :: id in g.ids ==> id in Run(inp).claims.funds) ||
            (forall id :: id in g.ids ==> id !in Run(inp).claims.funds)
    ensures Taken(g, Run(inp).claims.funds) <==> g in AllGroups(Run(inp).matches)
  {
    var st := Run(inp);
    RunSound(inp);
    assert g.ids[0] in g.ids;
    if Taken(g, st.claims.funds) {
      var id :| id in g.ids && id in st.claims.funds;
      var h :| h in AllGroups(st.matches) && id in h.ids;
      if g != h {
        DifferentGroupsShareNothing(inp.groups, g, h);
        assert false;
      }
    } else if g in AllGroups(st.matches) {
      assert false;
    }
  }

  // ---- Matches share no id ----

  /** Two different matches of a run share no bank row. */
  lemma {:induction false} MatchesShareNoBank(inp: Input, i: nat, j: nat)
    requires WellFormedInput(inp) && i < j < |Run(inp).matches|
    ensures BankIds(Run(inp).matches[i].banks) !! BankIds(Run(inp).matches[j].banks)
  {
    var matches := Run(inp).matches;
    RunSound(inp);
    assert matches == matches[..j] + matches[j..];
    AllBanksAppend(matches[..j], matches[j..]);
    DistinctParts(AllBanks(matches[..j]), AllBanks(matches[j..]));
    assert matches[..j][i] == matches[i] && matches[j..][0] == matches[j];
    MemberOfAll(matches[..j], matches[i]);
    MemberOfAll(matches[j..], matches[j]);
  }

  /** Nor do they share a fund row. */
  lemma {:induction false} MatchesShareNoFund(inp: Input, i: nat, j: nat)
    requires WellFormedInput(inp) && i < j < |Run(inp).matches|
    ensures FundIdsOf(Run(inp).matches[i].groups) !! FundIdsOf(Run(inp).matches[j].groups)
  {
    RunSound(inp);
  }

  // ---- Why the fund side needs lists without repetition ----

  lemma {:induction false} DoubleListingMatch(inp: Input, b: BankRow, g: GoalTxn, code: string)
    requires IsManual(code) && ManualGoalCodes(code) == Some([g.code, g.code])
    requires inp == Input([b], [g], map[b.id := code])
    ensures ManualMatch(START.claims, code, inp) == Some(Match(Manual, [b], [g, g], 1.0))
  {
    assert [b][1..] == [] && [g][1..] == [];
    var rows := RowsWithCode(inp.banks, inp.codes, code);
    assert inp.banks[1..] == [] && RowsWithCode(inp.banks[1..], inp.codes, code) == [];
    assert rows == [b] + [] == [b];
    assert b in rows && b.id in BankIds(rows) && !(BankIds(rows) <= START.claims.banks);
    assert FreeBanks([b], {}) == [b];
    assert GroupsNamed(g.code, [g], {}) == [g];
    assert [g.code, g.code][1..] == [g.code] && [g.code][1..] == [];
    assert AllNamed([g.code], [g], {}) == [g];
    assert AllNamed([g.code, g.code], [g], {}) == [g] + [g] == [g, g];
  }

  lemma {:induction false} DoubleListingRun(inp: Input, b: BankRow, g: GoalTxn, code: string)
    requires IsManual(code) && ManualGoalCodes(code) == Some([g.code, g.code]) && g.ids != []
    requires inp == Input([b], [g], map[b.id := code])
    ensures Run(inp).matches == [Match(Manual, [b], [g, g], 1.0)]
  {
    var m := Match(Manual, [b], [g, g], 1.0);
    var st := Record(START, m);
    DoubleListingMatch(inp, b, g, code);
    assert [b][1..] == [] && [g][1..] == [];
    assert HasManualCode(inp.codes, b.id) && Attempt(START, code, inp) == st;
    assert ManualPass(START, [b], inp) == ManualPass(st, [], inp) == st;
    assert AfterManual(inp) == st;
    assert g in m.groups && g.ids[0] in g.ids && g.ids[0] in FundIdsOf(m.groups);
    assert b in m.banks && b.id in st.claims.banks;
    assert Taken(g, st.claims.funds);
    assert FreeBanks([b][1..], st.claims.banks) == [] && FreeGroups([g][1..], st.claims.funds) == [];
    assert FreeBanks([b], st.claims.banks) == [] && FreeGroups([g], st.claims.funds) == [];
    assert ExactPass(st, [b], [g]) == ExactPass(st, [], [g]) == st;
    assert AfterExact(inp) == st;
    assert AfterAmount(inp) == AmountPass(st, [], []) == st;
    assert AfterSplitBank(inp) == SplitBankPass(st, [], []) == st;
    assert Run(inp) == SplitFundPass(st, [], []) == st;
    assert [] + [m] == [m];
  }

  /** A manual code that lists a goal code twice counts its goal transaction twice: the matched fund
      total is twice what was loaded. */
  lemma {:induction false} DoubleListingCountsTwice(b: BankRow, g: GoalTxn, stamp: string)
    requires ':' !in stamp && PlainGoalCode(g.code) && g.ids != []
    ensures var code := ManualCode(stamp, [g.code, g.code]);
            var inp := Input([b], [g], map[b.id := code]);
            && Run(inp).matches == [Match(Manual, [b], [g, g], 1.0)]
            && SumOfFundTotals(Results(Run(inp).matches)) == 2 * GoalTotal(inp.groups)
  {
    var form := ManualForm(stamp, [g.code, g.code]);
    RoundTrip(form);
    DoubleListingRun(Input([b], [g], map[b.id := Encode(form)]), b, g, Encode(form));
    OneDoubleMatch(b, g);
    SingleGroup(g);
  }

  lemma {:induction false} OneDoubleMatch(b: BankRow, g: GoalTxn)
    ensures SumOfFundTotals(Results([Match(Manual, [b], [g, g], 1.0)])) == 2 * g.total
  {
    var matches := [Match(Manual, [b], [g, g], 1.0)];
    SumsOfLedger(matches);
    assert matches[1..] == [] && AllGroups(matches) == [g, g] + [] == [g] + [g];
    SingleGroup(g);
    TotalSnoc([g], [g]);
  }

  // ---- What is reported ----

  /** The reported match has the ids of its rows and groups in their order, its kind, confidence and totals. */
  lemma {:induction false} ResultIs(m: Match)
    ensures var r := Result(m);
            && r.kind == m.kind && r.confidence == m.confidence
            && |r.bankIds| == |m.banks| && (forall i :: 0 <= i < |m.banks| ==> r.bankIds[i] == m.banks[i].id)
            && r.fundIds == FlatIds(m.groups)
            && r.bankTotal == BankTotal(m.banks) && r.fundTotal == GoalTotal(m.groups)
  {
  }

  /** Ids of groups follow one another, and totals of parts add up. */
  lemma {:induction false} PartsOfResults(a: seq<GoalTxn>, b: seq<GoalTxn>, c: seq<BankRow>, d: seq<BankRow>)
    ensures FlatIds(a + b) == FlatIds(a) + FlatIds(b) && GoalTotal(a + b) == GoalTotal(a) + GoalTotal(b)
    ensures BankTotal(c + d) == BankTotal(c) + BankTotal(d)
    ensures |a| == 1 ==> FlatIds(a) == a[0].ids && GoalTotal(a) == a[0].total
    ensures |c| == 1 ==> BankTotal(c) == c[0].amount
  {
    TotalSnoc(a, b);
    BankTotalAppend(c, d);
    if |a| == 1 {
      assert a == [a[0]];
      SingleGroup(a[0]);
    }
    if |c| == 1 {
      assert c == [c[0]];
      SingleBank(c[0]);
    }
  }
}
