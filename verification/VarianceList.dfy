/** The second copy of the engine, which lists variances over many goals: it keeps no matches, tries
    every goal transaction with the bank row's id in pass 1, does not filter its lists before pass 2
    and stops after pass 3. On equal input it claims the same rows up to there. */
module VarianceList {
  import opened Money
  import opened Text
  import opened Combination
  import opened Transactions
  import opened MatchCode
  import opened Matching
  import opened DrillDown

  // ---- The copy, as functions ----

  function VarianceExactStep(st: State, b: BankRow, groups: seq<GoalTxn>): State {
    if b.id in st.claims.banks then st
    else
      match First(SameIdAndAmount, b, groups, st.claims.funds)
      case None => st
      case Some(g) => Record(st, Match(Exact, [b], [g], 1.0))
  }

  function VarianceExactPass(st: State, rows: seq<BankRow>, groups: seq<GoalTxn>): State
    decreases rows
  {
    if rows == [] then st else VarianceExactPass(VarianceExactStep(st, rows[0], groups), rows[1..], groups)
  }

  function VarianceAfterExact(inp: Input): State {
    VarianceExactPass(AfterManual(inp), inp.banks, inp.groups)
  }

  /** Pass 2 over the whole lists. */
  function VarianceAfterAmount(inp: Input): State {
    AmountPass(VarianceAfterExact(inp), inp.banks, inp.groups)
  }

  function VarianceRun(inp: Input): State {
    var st := VarianceAfterAmount(inp);
    SplitBankPass(st, FreeGroups(inp.groups, st.claims.funds), FreeBanks(inp.banks, st.claims.banks))
  }

  // ---- The copy, as the code runs it ----

  /** The copy keeps only the two id sets; the matches behind them are ghost. */
  class VarianceEngine {
    var matchedBankIds: set<string>
    var matchedFundIds: set<string>
    ghost var ledger: seq<Match>

    ghost function Now(): State
      reads this
    {
      State(Claims(matchedBankIds, matchedFundIds), ledger)
    }

    constructor ()
      ensures Now() == START
    {
      matchedBankIds, matchedFundIds, ledger := {}, {}, [];
    }

    method Claim(bankIds: seq<string>, fundIds: seq<string>, ghost m: Match)
      requires bankIds == IdList(m.banks) && fundIds == FlatIds(m.groups)
      modifies this
      ensures Now() == Record(old(Now()), m)
    {
      IdListIds(m.banks);
      FlatIdsMembers(m.groups);
      assert (set id | id in fundIds) == FundIdsOf(m.groups);
      matchedBankIds := matchedBankIds + (set id | id in bankIds);
      matchedFundIds := matchedFundIds + (set id | id in fundIds);
      ledger := ledger + [m];
    }

    method TryManualCode(code: string, rows: seq<BankRow>, inp: Input)
      requires IsManual(code) && WellGrouped(inp.groups)
      requires rows == RowsWithCode(inp.banks, inp.codes, code)
      modifies this
      ensures Now() == Attempt(old(Now()), code, inp)
    {
      AllClaimed(rows, matchedBankIds);
      if forall r :: r in rows ==> r.id in matchedBankIds {
        return;
      }
      var colon := IndexOf(code, ':', |MANUAL_PREFIX|);
      if colon.None? {
        return;
      }
      var goalCodes := Split(code[colon.value + 1..], ',');
      ghost var named := AllNamed(goalCodes, inp.groups, matchedFundIds);
      var fundIds, _ := CollectNamed(goalCodes, inp.groups, matchedFundIds);
      SomeIds(goalCodes, inp.groups, matchedFundIds);
      if |fundIds| > 0 {
        var unmatched := FreeBanks(rows, matchedBankIds);
        ghost var m := Match(Manual, unmatched, named, 1.0);
        assert ManualMatch(Now().claims, code, inp) == Some(m);
        Claim(IdList(unmatched), fundIds, m);
      }
    }

    method MatchManual(inp: Input)
      requires WellGrouped(inp.groups)
      modifies this
      ensures Now() == ManualPass(old(Now()), inp.banks, inp)
    {
      var order, byCode := ByManualCode(inp.banks, inp.codes);
      OncePerCode(Now(), inp.banks, inp, {});
      for i := 0 to |order|
        invariant AttemptAll(Now(), order[i..], inp) == ManualPass(old(Now()), inp.banks, inp)
      {
        assert order[i..][1..] == order[i + 1..];
        TryManualCode(order[i], byCode[order[i]], inp);
      }
    }

    method TryPair(rule: Rule, b: BankRow, groups: seq<GoalTxn>, ghost kind: MatchKind)
      returns (ghost found: Option<GoalTxn>)
      modifies this
      ensures found == First(rule, b, groups, old(matchedFundIds))
      ensures Now() == match found
                       case None => old(Now())
                       case Some(g) => Record(old(Now()), Match(kind, [b], [g], if kind ==
                           Exact then 1.0 else Confidence(b, g)))
    {
      for i := 0 to |groups|
        invariant Now() == old(Now())
        invariant First(rule, b, groups[i..], matchedFundIds) == First(rule, b, groups, matchedFundIds)
      {
        var group := groups[i];
        assert groups[i..][1..] == groups[i + 1..];
        if !Taken(group, matchedFundIds) && Fits(rule, b, group) {
          found := Some(group);
          SingleGroup(group);
          SingleBank(b);
          Claim([b.id], group.ids, Match(kind, [b], [group], if kind == Exact then 1.0 else Confidence(b, group)));
          return;
        }
      }
      found := None;
    }

    method MatchExact(rows: seq<BankRow>, groups: seq<GoalTxn>)
      modifies this
      ensures Now() == VarianceExactPass(old(Now()), rows, groups)
    {
      for i := 0 to |rows|
        invariant VarianceExactPass(Now(), rows[i..], groups) == VarianceExactPass(old(Now()), rows, groups)
      {
        assert rows[i..][1..] == rows[i + 1..];
        if rows[i].id !in matchedBankIds {
          ghost var found := TryPair(SameIdAndAmount, rows[i], groups, Exact);
        }
      }
    }

    method MatchAmount(rows: seq<BankRow>, groups: seq<GoalTxn>)
      modifies this
      ensures Now() == AmountPass(old(Now()), rows, groups)
    {
      for i := 0 to |rows|
        invariant AmountPass(Now(), rows[i..], groups) == AmountPass(old(Now()), rows, groups)
      {
        assert rows[i..][1..] == rows[i + 1..];
        if rows[i].id !in matchedBankIds {
          ghost var found := TryPair(NearAmount, rows[i], groups, Amount);
        }
      }
    }

    method TrySplit(group: GoalTxn, candidates: seq<BankRow>)
      modifies this
      ensures var found := Find(BankItems(candidates), group.total, Tolerance(group.total));
              Now() == if |found| > 1 then Record(old(Now()), Match(SplitBankToFund, Refs(found), [group], 0.7))
                       else old(Now())
    {
      var found := FindCombinationSum(BankItems(candidates), group.total, Tolerance(group.total));
      if |found| > 1 {
        SingleGroup(group);
        Claim(IdList(Refs(found)), group.ids, Match(SplitBankToFund, Refs(found), [group], 0.7));
      }
    }

    method SplitBanks(groups: seq<GoalTxn>, rows: seq<BankRow>)
      modifies this
      ensures Now() == SplitBankPass(old(Now()), groups, rows)
    {
      var buckets := ByDayAndType(rows);
      for i := 0 to |groups|
        invariant SplitBankPass(Now(), groups[i..], rows) == SplitBankPass(old(Now()), groups, rows)
      {
        assert groups[i..][1..] == groups[i + 1..];
        if !Taken(groups[i], matchedFundIds) {
          TrySplit(groups[i],
                   FreeBanks(BucketOf(buckets, Day(groups[i].date), groups[i].txnType), matchedBankIds));
        }
      }
    }

    method RunPasses(inp: Input) returns (unmatchedBanks: seq<BankRow>, unmatchedGroups: seq<GoalTxn>)
      requires Now() == START && WellGrouped(inp.groups)
      modifies this
      ensures Now() == VarianceRun(inp)
      ensures unmatchedBanks == FreeBanks(inp.banks, matchedBankIds)
      ensures unmatchedGroups == FreeGroups(inp.groups, matchedFundIds)
    {
      MatchManual(inp);
      MatchExact(inp.banks, inp.groups);
      MatchAmount(inp.banks, inp.groups);
      SplitBanks(FreeGroups(inp.groups, matchedFundIds), FreeBanks(inp.banks, matchedBankIds));
      unmatchedBanks := FreeBanks(inp.banks, matchedBankIds);
      unmatchedGroups := FreeGroups(inp.groups, matchedFundIds);
    }
  }
}
