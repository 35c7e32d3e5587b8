/** The drill-down as its caller sees it: group, match, write the results back, report what is left. */
module GoalDrillDown {
  import opened Transactions
  import opened MatchCode
  import opened Matching
  import opened DrillDown
  import opened Ledger

  function GoalCodes(groups: seq<GoalTxn>): (codes: seq<string>)
    ensures |codes| == |groups| && forall i :: 0 <= i < |groups| ==> codes[i] == groups[i].code
  {
    if groups == [] then [] else [groups[0].code] + GoalCodes(groups[1..])
  }

  ghost function SetOf(ids: seq<string>): set<string> {
    set id | id in ids
  }

  lemma {:induction false} ResultIds(m: Match)
    ensures SetOf(Result(m).fundIds) == FundIdsOf(m.groups)
    ensures SetOf(Result(m).bankIds) == BankIds(m.banks)
  {
    FlatIdsMembers(m.groups);
    IdListIds(m.banks);
  }

  /** Some match has a fund row of g. */
  ghost predicate Covered(g: GoalTxn, matches: seq<Match>) {
    exists m :: m in matches && Taken(g, FundIdsOf(m.groups))
  }

  lemma {:induction false} CoveredIsTaken(g: GoalTxn, matches: seq<Match>)
    ensures Covered(g, matches) <==> Taken(g, FundIdsOf(AllGroups(matches)))
  {
    if matches != [] {
      var m, rest := matches[0], matches[1..];
      CoveredIsTaken(g, rest);
      assert FundIdsOf(AllGroups(matches)) == FundIdsOf(m.groups) + FundIdsOf(AllGroups(rest));
      assert forall x :: x in matches <==> x == m || x in rest;
      if Taken(g, FundIdsOf(m.groups)) {
        TakenMonotone(g, FundIdsOf(m.groups), FundIdsOf(AllGroups(matches)));
      }
      if Taken(g, FundIdsOf(AllGroups(rest))) {
        TakenMonotone(g, FundIdsOf(AllGroups(rest)), FundIdsOf(AllGroups(matches)));
      }
    }
  }

  /** The codes of the groups whose key is not among the matched keys. */
  function CodesWithoutKey(groups: seq<GoalTxn>, keys: set<Key>): seq<string> {
    if groups == [] then []
    else (if GroupKey(groups[0]) in keys then [] else [groups[0].code]) + CodesWithoutKey(groups[1..], keys)
  }

  /** Telling groups apart by code and type leaves exactly the free ones. */
  lemma {:induction false} UnmatchedByKey(all: seq<GoalTxn>, groups: seq<GoalTxn>, keys: set<Key>, claimed: set<string>)
    requires DistinctKeys(all) && forall g :: g in groups ==> g in all
    requires forall g :: g in all ==> (GroupKey(g) in keys <==> Taken(g, claimed))
    ensures CodesWithoutKey(groups, keys) == GoalCodes(FreeGroups(groups, claimed))
  {
    if groups != [] {
      assert groups[0] in all && forall g :: g in groups[1..] ==> g in all;
      UnmatchedByKey(all, groups[1..], keys, claimed);
      FreeCodesFirst(groups, claimed);
    }
  }

  lemma {:induction false} FreeCodesFirst(groups: seq<GoalTxn>, claimed: set<string>)
    requires groups != []
    ensures GoalCodes(FreeGroups(groups, claimed)) ==
            (if Taken(groups[0], claimed) then [] else [groups[0].code]) + GoalCodes(FreeGroups(groups[1..], claimed))
  {
    var tail := FreeGroups(groups[1..], claimed);
    if Taken(groups[0], claimed) {
      assert FreeGroups(groups, claimed) == tail;
    } else {
      assert FreeGroups(groups, claimed)[1..] == tail;
    }
  }

  /** The keys of the groups that share a fund row with a match. */
  method MatchedKeys(results: seq<MatchResult>, groups: seq<GoalTxn>, ghost matches: seq<Match>)
    returns (keys: set<Key>)
    requires results == Results(matches)
    ensures forall k :: k in keys <==> exists g :: g in groups && GroupKey(g) == k && Covered(g, matches)
  {
    keys := {};
    for i := 0 to |results|
      invariant forall k :: k in keys <==> exists g :: g in groups && GroupKey(g) == k && Covered(g, matches[..i])
    {
      var ids := set id | id in results[i].fundIds;
      ResultIds(matches[i]);
      CoveredSnoc(matches, i);
      keys := keys + set g | g in groups && Taken(g, ids) :: GroupKey(g);
    }
    assert matches[..|results|] == matches;
  }

  lemma {:induction false} CoveredSnoc(matches: seq<Match>, i: nat)
    requires i < |matches|
    ensures forall g :: Covered(g, matches[..i + 1]) <==>
                        Covered(g, matches[..i]) || Taken(g, FundIdsOf(matches[i].groups))
  {
    assert matches[..i + 1] == matches[..i] + [matches[i]];
    assert forall m :: m in matches[..i + 1] <==> m in matches[..i] || m == matches[i];
  }

  method CodesOfMatch(groups: seq<GoalTxn>, fundIds: set<string>) returns (goalCodes: seq<string>)
    ensures goalCodes == MatchedCodes(groups, fundIds)
  {
    goalCodes := [];
    for i := 0 to |groups|
      invariant goalCodes + MatchedCodes(groups[i..], fundIds) == MatchedCodes(groups, fundIds)
    {
      assert groups[i..][1..] == groups[i + 1..];
      if Taken(groups[i], fundIds) {
        goalCodes := goalCodes + [groups[i].code];
      }
    }
  }

  /** A new engine runs its passes over the input. */
  method MatchAll(inp: Input) returns (matches: seq<MatchResult>, unmatchedBank: seq<string>)
    requires WellGrouped(inp.groups)
    ensures matches == Results(Run(inp).matches)
    ensures unmatchedBank == IdList(FreeBanks(inp.banks, Run(inp).claims.banks))
  {
    var engine := new Engine();
    engine.RunPasses(inp);
    matches := engine.matches;
    var free := engine.UnmatchedBanks(inp.banks);
    unmatchedBank := IdList(free);
  }

  class Service {
    /** The stored match codes by bank id. */
    var codes: map<string, string>

    /** Write the algorithmic matches back, one after the other. */
    method PersistMatches(results: seq<MatchResult>, groups: seq<GoalTxn>, ghost matches: seq<Match>)
      requires results == Results(matches)
      modifies this
      ensures codes == Persist(old(codes), matches, groups)
    {
      for i := 0 to |results|
        invariant Persist(codes, matches[i..], groups) == Persist(old(codes), matches, groups)
      {
        assert matches[i..][1..] == matches[i + 1..];
        PersistMatch(results[i], groups, matches[i]);
      }
    }

    method PersistMatch(result: MatchResult, groups: seq<GoalTxn>, ghost m: Match)
      requires result == Result(m)
      modifies this
      ensures codes == PersistOne(old(codes), m, groups)
    {
      if result.kind != Manual {
        ResultIds(m);
        var funds := set id | id in result.fundIds;
        var banks := set id | id in result.bankIds;
        var goalCodes := CodesOfMatch(groups, funds);
        if |goalCodes| > 0 {
          codes := codes + map id | id in banks :: AlgorithmicCode(result.kind, goalCodes);
        }
      }
    }

    /** The matches are those of the five passes, the stored codes are updated by them, and the rows and
        goal transactions reported as unmatched are exactly the ones no match claims. */
    method GetGoalTransactions(banks: seq<BankRow>, fundRows: seq<FundRow>)
      returns (groups: seq<GoalTxn>, matches: seq<MatchResult>, unmatchedBank: seq<string>, unmatchedGoals: seq<string>)
      requires DistinctBankIds(banks) && DistinctFundIds(fundRows)
      modifies this
      ensures groups == Group(fundRows)
      ensures var end := Run(Input(banks, groups, old(codes)));
              && matches == Results(end.matches)
              && codes == Persist(old(codes), end.matches, groups)
              && unmatchedBank == IdList(FreeBanks(banks, end.claims.banks))
              && unmatchedGoals == GoalCodes(FreeGroups(groups, end.claims.funds))
    {
      groups := GroupFundRows(fundRows);
      GroupWellGrouped(fundRows);
      var inp := Input(banks, groups, codes);
      ghost var end := Run(inp);
      matches, unmatchedBank := MatchAll(inp);
      RunSound(inp);
      var keys := MatchedKeys(matches, groups, end.matches);
      UnmatchedGoals(groups, keys, end, inp);
      PersistMatches(matches, groups, end.matches);
      unmatchedGoals := CodesWithoutKey(groups, keys);
    }
  }

  lemma {:induction false} UnmatchedGoals(groups: seq<GoalTxn>, keys: set<Key>, end: State, inp: Input)
    requires DistinctKeys(groups) && Sound(end, inp)
    requires forall k :: k in keys <==> exists g :: g in groups && GroupKey(g) == k && Covered(g, end.matches)
    ensures CodesWithoutKey(groups, keys) == GoalCodes(FreeGroups(groups, end.claims.funds))
  {
    KeysAreTaken(groups, keys, end, inp);
    UnmatchedByKey(groups, groups, keys, end.claims.funds);
  }

  lemma {:induction false} KeysAreTaken(groups: seq<GoalTxn>, keys: set<Key>, end: State, inp: Input)
    requires DistinctKeys(groups) && Sound(end, inp)
    requires forall k :: k in keys <==> exists g :: g in groups && GroupKey(g) == k && Covered(g, end.matches)
    ensures forall g :: g in groups ==> (GroupKey(g) in keys <==> Taken(g, end.claims.funds))
  {
    forall g | g in groups
      ensures GroupKey(g) in keys <==> Taken(g, end.claims.funds)
    {
      CoveredIsTaken(g, end.matches);
      if GroupKey(g) in keys {
        var h :| h in groups && GroupKey(h) == GroupKey(g) && Covered(h, end.matches);
        SameKeySameGroup(groups, g, h);
      }
    }
  }
}
