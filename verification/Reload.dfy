/** A manual match survives: after its creation, a drill-down that loads its rows finds exactly it. */
module Reload {
  import opened Text
  import opened Combination
  import opened Transactions
  import opened MatchCode
  import opened Matching
  import opened DrillDown
  import opened Ledger
  import opened Conservation
  import opened Completeness
  import opened ManualMatches

  // ---- Pass 0 reaches the code with its goal transactions still free ----

  ghost predicate NamesNone(manual: string, goalCodes: seq<string>)
    requires IsManual(manual)
  {
    ManualGoalCodes(manual).Some? ==> forall c :: c in ManualGoalCodes(manual).value ==> c !in goalCodes
  }

  /** No other loaded manual code names one of the goal codes. */
  ghost predicate NoOtherNames(inp: Input, code: string, goalCodes: seq<string>) {
    forall r :: r in inp.banks && HasManualCode(inp.codes, r.id) && inp.codes[r.id] != code ==>
                  NamesNone(inp.codes[r.id], goalCodes)
  }

  /** The rows of the code and the groups it names are free. */
  ghost predicate StillFree(claims: Claims, inp: Input, code: string, goalCodes: seq<string>) {
    && BankIds(RowsWithCode(inp.banks, inp.codes, code)) !! claims.banks
    && forall g :: g in inp.groups && g.code in goalCodes ==> !Taken(g, claims.funds)
  }

  ghost function TheMatch(inp: Input, code: string, goalCodes: seq<string>): Match {
    Match(Manual, RowsWithCode(inp.banks, inp.codes, code), AllNamed(goalCodes, inp.groups, {}), 1.0)
  }

  lemma {:induction false} OtherAttemptKeepsFree(st: State, other: string, inp: Input, code: string,
                                                 goalCodes: seq<string>, r: BankRow)
    requires WellFormedInput(inp) && NoOtherNames(inp, code, goalCodes) && StillFree(st.claims, inp, code, goalCodes)
    requires r in inp.banks && HasManualCode(inp.codes, r.id) && inp.codes[r.id] == other && other != code
    ensures StillFree(Attempt(st, other, inp).claims, inp, code, goalCodes)
  {
    if ManualMatch(st.claims, other, inp).Some? {
      var m := ManualMatch(st.claims, other, inp).value;
      var rows := RowsWithCode(inp.banks, inp.codes, other);
      RowsWithCodeMembers(inp.banks, inp.codes, other);
      RowsWithCodeMembers(inp.banks, inp.codes, code);
      FreeBanksMembers(rows, st.claims.banks);
      AllNamedMembers(ManualGoalCodes(other).value, inp.groups, st.claims.funds);
      forall g | g in inp.groups && g.code in goalCodes
        ensures !Taken(g, st.claims.funds + FundIdsOf(m.groups))
      {
        forall id | id in g.ids
          ensures id !in FundIdsOf(m.groups)
        {
          if id in FundIdsOf(m.groups) {
            var h :| h in m.groups && id in h.ids;
            DifferentGroupsShareNothing(inp.groups, g, h);
            assert false;
          }
        }
      }
    }
  }

  lemma {:induction false} FreeRowsAll(rows: seq<BankRow>, claimed: set<string>)
    requires BankIds(rows) !! claimed
    ensures FreeBanks(rows, claimed) == rows
  {
    if rows != [] {
      assert rows[0] in rows && rows[0].id in BankIds(rows);
      assert BankIds(rows[1..]) <= BankIds(rows);
      FreeRowsAll(rows[1..], claimed);
    }
  }

  lemma {:induction false} NamedWhenFree(goalCodes: seq<string>, groups: seq<GoalTxn>, claimed: set<string>)
    requires forall g :: g in groups && g.code in goalCodes ==> !Taken(g, claimed)
    ensures AllNamed(goalCodes, groups, claimed) == AllNamed(goalCodes, groups, {})
  {
    if goalCodes != [] {
      GroupNamedWhenFree(goalCodes[0], groups, claimed);
      NamedWhenFree(goalCodes[1..], groups, claimed);
    }
  }

  lemma {:induction false} GroupNamedWhenFree(goalCode: string, groups: seq<GoalTxn>, claimed: set<string>)
    requires forall g :: g in groups && g.code == goalCode ==> !Taken(g, claimed)
    ensures GroupsNamed(goalCode, groups, claimed) == GroupsNamed(goalCode, groups, {})
  {
    if groups != [] {
      assert groups[0] in groups;
      GroupNamedWhenFree(goalCode, groups[1..], claimed);
    }
  }

  /** The attempt at the code itself makes the match. */
  lemma {:induction false} AttemptMakesMatch(st: State, inp: Input, code: string, goalCodes: seq<string>)
    requires IsManual(code) && ManualGoalCodes(code) == Some(goalCodes)
    requires StillFree(st.claims, inp, code, goalCodes)
    requires RowsWithCode(inp.banks, inp.codes, code) != []
    requires exists g :: g in inp.groups && g.code in goalCodes
    ensures Attempt(st, code, inp) == Record(st, TheMatch(inp, code, goalCodes))
  {
    var rows := RowsWithCode(inp.banks, inp.codes, code);
    assert rows[0] in rows && rows[0].id in BankIds(rows);
    FreeRowsAll(rows, st.claims.banks);
    NamedWhenFree(goalCodes, inp.groups, st.claims.funds);
    AllNamedMembers(goalCodes, inp.groups, {});
    var g :| g in inp.groups && g.code in goalCodes;
    assert g in AllNamed(goalCodes, inp.groups, {});
  }

  lemma {:induction false} ManualPassMakesMatch(st: State, rows: seq<BankRow>, inp: Input, code: string,
                                                goalCodes: seq<string>, b: BankRow)
    requires WellFormedInput(inp) && NoOtherNames(inp, code, goalCodes) && StillFree(st.claims, inp, code, goalCodes)
    requires IsManual(code) && ManualGoalCodes(code) == Some(goalCodes)
    requires exists g :: g in inp.groups && g.code in goalCodes
    requires (forall r :: r in rows ==> r in inp.banks)
    requires b in rows && b in RowsWithCode(inp.banks, inp.codes, code)
    ensures TheMatch(inp, code, goalCodes) in ManualPass(st, rows, inp).matches
    decreases rows
  {
    var r := rows[0];
    RowsWithCodeMembers(inp.banks, inp.codes, code);
    if HasManualCode(inp.codes, r.id) && inp.codes[r.id] == code {
      AttemptMakesMatch(st, inp, code, goalCodes);
      var next := Attempt(st, code, inp);
      assert next.matches[|st.matches|] == TheMatch(inp, code, goalCodes);
      ManualPassExtends(next, rows[1..], inp);
    } else {
      assert r != b && b in rows[1..];
      if HasManualCode(inp.codes, r.id) {
        OtherAttemptKeepsFree(st, inp.codes[r.id], inp, code, goalCodes, r);
        ManualPassMakesMatch(Attempt(st, inp.codes[r.id], inp), rows[1..], inp, code, goalCodes, b);
      } else {
        ManualPassMakesMatch(st, rows[1..], inp, code, goalCodes, b);
      }
    }
  }

  /** A loaded manual code whose goal codes no other loaded manual code names is found by every run, with
      all its rows and all the groups of its goal codes. */
  lemma {:induction false} ManualCodeIsFound(inp: Input, code: string, goalCodes: seq<string>)
    requires WellFormedInput(inp) && NoOtherNames(inp, code, goalCodes)
    requires IsManual(code) && ManualGoalCodes(code) == Some(goalCodes)
    requires RowsWithCode(inp.banks, inp.codes, code) != []
    requires exists g :: g in inp.groups && g.code in goalCodes
    ensures TheMatch(inp, code, goalCodes) in Run(inp).matches
  {
    var b := RowsWithCode(inp.banks, inp.codes, code)[0];
    assert b in RowsWithCode(inp.banks, inp.codes, code);
    RowsWithCodeMembers(inp.banks, inp.codes, code);
    ManualPassMakesMatch(START, inp.banks, inp, code, goalCodes, b);
    RunExtends(inp);
    assert AfterManual(inp).matches <= AfterExact(inp).matches <= AfterAmount(inp).matches;
    assert AfterAmount(inp).matches <= AfterSplitBank(inp).matches <= Run(inp).matches;
  }

  // ---- Totals ----

  lemma {:induction false} AddRowNamedTotal(goalCode: string, groups: seq<GoalTxn>, r: FundRow)
    ensures GoalTotal(GroupsNamed(goalCode, AddRow(groups, r), {})) ==
            GoalTotal(GroupsNamed(goalCode, groups, {})) + (if r.goalCode == goalCode then r.amount else 0)
  {
    if groups == [] {
      NamedCons(goalCode, NewGroup(r), []);
    } else if GroupKey(groups[0]) == FundKey(r) {
      NamedCons(goalCode, Extend(groups[0], r), groups[1..]);
      NamedCons(goalCode, groups[0], groups[1..]);
      assert [groups[0]] + groups[1..] == groups;
    } else {
      AddRowNamedTotal(goalCode, groups[1..], r);
      NamedCons(goalCode, groups[0], AddRow(groups[1..], r));
      NamedCons(goalCode, groups[0], groups[1..]);
      assert [groups[0]] + groups[1..] == groups;
    }
  }

  lemma {:induction false} NamedCons(goalCode: string, g: GoalTxn, rest: seq<GoalTxn>)
    ensures GoalTotal(GroupsNamed(goalCode, [g] + rest, {})) ==
            (if g.code == goalCode then g.total else 0) + GoalTotal(GroupsNamed(goalCode, rest, {}))
  {
    assert ([g] + rest)[1..] == rest;
    var tail := GroupsNamed(goalCode, rest, {});
    assert !Taken(g, {});
    if g.code == goalCode {
      TotalSnoc([g], tail);
      SingleGroup(g);
    } else {
      assert GroupsNamed(goalCode, [g] + rest, {}) == tail;
    }
  }

  lemma {:induction false} GroupFromNamedTotal(goalCode: string, groups: seq<GoalTxn>, rows: seq<FundRow>)
    requires goalCode != ""
    ensures GoalTotal(GroupsNamed(goalCode, GroupFrom(groups, rows), {})) ==
            GoalTotal(GroupsNamed(goalCode, groups, {})) + FundTotal(NamedRows(rows, [goalCode]))
    decreases rows
  {
    if rows != [] {
      AddRowNamedTotal(goalCode, groups, rows[0]);
      GroupFromNamedTotal(goalCode, AddRow(groups, rows[0]), rows[1..]);
      FirstNamedTotal(goalCode, rows);
    }
  }

  lemma {:induction false} FirstNamedTotal(goalCode: string, rows: seq<FundRow>)
    requires goalCode != "" && rows != []
    ensures FundTotal(NamedRows(rows, [goalCode])) ==
            (if rows[0].goalCode == goalCode then rows[0].amount else 0) + FundTotal(NamedRows(rows[1..], [goalCode]))
  {
    var rest := NamedRows(rows[1..], [goalCode]);
    if rows[0].goalCode == goalCode {
      assert FundItems([rows[0]] + rest)[1..] == FundItems(rest);
    } else {
      assert NamedRows(rows, [goalCode]) == [] + rest == rest;
    }
  }

  lemma {:induction false} NamedRowsCons(rows: seq<FundRow>, c: string, rest: seq<string>)
    requires c !in rest
    ensures FundTotal(NamedRows(rows, [c] + rest)) == FundTotal(NamedRows(rows, [c])) + FundTotal(NamedRows(rows, rest))
  {
    if rows != [] {
      var r := rows[0];
      NamedRowsCons(rows[1..], c, rest);
      NamedRowsHead(rows, [c] + rest);
      NamedRowsHead(rows, [c]);
      NamedRowsHead(rows, rest);
    }
  }

  lemma {:induction false} NamedRowsHead(rows: seq<FundRow>, goalCodes: seq<string>)
    requires rows != []
    ensures FundTotal(NamedRows(rows, goalCodes)) ==
            (if IsNamed(rows[0], goalCodes) then rows[0].amount else 0) + FundTotal(NamedRows(rows[1..], goalCodes))
  {
    var tail := NamedRows(rows[1..], goalCodes);
    if IsNamed(rows[0], goalCodes) {
      assert NamedRows(rows, goalCodes)[1..] == tail;
    } else {
      assert NamedRows(rows, goalCodes) == tail;
    }
  }

  /** The groups that goal codes name sum to the fund rows of those codes. */
  lemma {:induction false} NamedGroupsTotal(goalCodes: seq<string>, rows: seq<FundRow>)
    requires NoRepeat(goalCodes) && "" !in goalCodes
    ensures GoalTotal(AllNamed(goalCodes, Group(rows), {})) == FundTotal(NamedRows(rows, goalCodes))
  {
    if goalCodes == [] {
      NoneNamed(rows);
    } else {
      var c, rest := goalCodes[0], goalCodes[1..];
      NoRepeatCons(goalCodes);
      NamedGroupsTotal(rest, rows);
      TotalSnoc(GroupsNamed(c, Group(rows), {}), AllNamed(rest, Group(rows), {}));
      GroupFromNamedTotal(c, [], rows);
      NamedRowsCons(rows, c, rest);
      assert [c] + rest == goalCodes;
    }
  }

  lemma {:induction false} NoneNamed(rows: seq<FundRow>)
    ensures NamedRows(rows, []) == []
  {
    if rows != [] {
      NoneNamed(rows[1..]);
    }
  }

  lemma {:induction false} FundItemsCount(rows: seq<FundRow>, x: Item<FundRow>)
    ensures multiset(FundItems(rows))[x] == if x.amount == x.ref.amount then multiset(rows)[x.ref] else 0
  {
    if rows != [] {
      assert rows == [rows[0]] + rows[1..];
      FundItemsCount(rows[1..], x);
    }
  }

  lemma {:induction false} FundTotalOfPermutation(a: seq<FundRow>, b: seq<FundRow>)
    requires multiset(a) == multiset(b)
    ensures FundTotal(a) == FundTotal(b)
  {
    forall x
      ensures multiset(FundItems(a))[x] == multiset(FundItems(b))[x]
    {
      FundItemsCount(a, x);
      FundItemsCount(b, x);
    }
    SumOfPermutation(FundItems(a), FundItems(b));
  }

  lemma {:induction false} SameRowsSameTotal(a: seq<BankRow>, b: seq<BankRow>)
    requires DistinctBankIds(a) && DistinctBankIds(b) && forall r :: r in a <==> r in b
    ensures BankTotal(a) == BankTotal(b)
  {
    ChoiceOfCandidates(a, b);
    ChoiceOfCandidates(b, a);
    SumOfPermutation(BankItems(a), BankItems(b));
  }

  // ---- Created, then loaded ----

  /** What is loaded after the creation of a manual match between ids and goalCodes: the rows of the
      table with its codes, all rows of the match among them. */
  ghost predicate LoadedAfterCreate(inp: Input, loaded: seq<FundRow>, rows: map<string, BankRow>, funds: seq<FundRow>,
                                    before: map<string, string>, ids: seq<string>, goalCodes: seq<string>, now: nat) {
    && DistinctBankIds(inp.banks) && DistinctFundIds(loaded) && inp.groups == Group(loaded)
    && inp.codes == before + (map id | id in ids :: ManualCode(Decimal(now), goalCodes))
    && (forall r :: r in inp.banks ==> r.id in rows && rows[r.id] == r)
    && (forall id :: id in rows ==> rows[id].id == id)
    && (forall id :: id in ids ==> id in rows && rows[id] in inp.banks)
    && multiset(NamedRows(loaded, goalCodes)) == multiset(NamedRows(funds, goalCodes))
  }

  /** Before the creation no loaded row outside ids had a manual code naming one of the goal codes. */
  ghost predicate NotNamedBefore(inp: Input, before: map<string, string>, ids: seq<string>, goalCodes: seq<string>) {
    forall r :: r in inp.banks && r.id !in ids && HasManualCode(before, r.id) ==> NamesNone(before[r.id], goalCodes)
  }

  lemma {:induction false} CreatedCodeReadsBack(goalCodes: seq<string>, now: nat)
    requires goalCodes != [] && forall c :: c in goalCodes ==> ',' !in c
    ensures var code := ManualCode(Decimal(now), goalCodes);
            IsManual(code) && ManualGoalCodes(code) == Some(goalCodes)
  {
    var stamp, body := Decimal(now), Join(goalCodes, ',');
    assert ':' !in stamp;
    ManualParts(stamp, body);
    SplitJoin(goalCodes, ',');
    assert ManualCode(stamp, goalCodes) == MANUAL_PREFIX + stamp + ":" + body;
  }

  lemma {:induction false} OthersKeepOtherCodes(inp: Input, before: map<string, string>, ids: seq<string>,
                                                goalCodes: seq<string>, code: string, r: BankRow)
    requires inp.codes == before + (map id | id in ids :: code)
    requires IsManual(code) && goalCodes != [] && ManualGoalCodes(code) == Some(goalCodes)
    requires NotNamedBefore(inp, before, ids, goalCodes) && r in inp.banks && r.id !in ids
    ensures r.id in inp.codes ==> r.id in before && inp.codes[r.id] == before[r.id] != code
  {
    assert goalCodes[0] in goalCodes && !NamesNone(code, goalCodes);
  }

  lemma {:induction false} RowsOfOwnCode(inp: Input, before: map<string, string>, ids: seq<string>,
                                         goalCodes: seq<string>, code: string)
    requires inp.codes == before + (map id | id in ids :: code)
    requires IsManual(code) && goalCodes != [] && ManualGoalCodes(code) == Some(goalCodes)
    requires NotNamedBefore(inp, before, ids, goalCodes)
    ensures NoOtherNames(inp, code, goalCodes)
    ensures forall r :: r in RowsWithCode(inp.banks, inp.codes, code) <==> r in inp.banks && r.id in ids
  {
    RowsWithCodeMembers(inp.banks, inp.codes, code);
    forall r | r in inp.banks && r.id !in ids
      ensures r.id in inp.codes ==> r.id in before && inp.codes[r.id] == before[r.id] != code
    {
      OthersKeepOtherCodes(inp, before, ids, goalCodes, code, r);
    }
  }

  lemma {:induction false} RowsOfCreatedCode(inp: Input, loaded: seq<FundRow>, rows: map<string, BankRow>,
                                             funds: seq<FundRow>, before: map<string, string>, ids: seq<string>,
                                             goalCodes: seq<string>, now: nat)
    requires LoadedAfterCreate(inp, loaded, rows, funds, before, ids, goalCodes, now)
    requires NotNamedBefore(inp, before, ids, goalCodes)
    requires goalCodes != [] && forall c :: c in goalCodes ==> ',' !in c
    ensures var code := ManualCode(Decimal(now), goalCodes);
            && NoOtherNames(inp, code, goalCodes)
            && forall r :: r in RowsWithCode(inp.banks, inp.codes, code) <==> r in inp.banks && r.id in ids
  {
    CreatedCodeReadsBack(goalCodes, now);
    RowsOfOwnCode(inp, before, ids, goalCodes, ManualCode(Decimal(now), goalCodes));
  }

  lemma {:induction false} FetchedAreLoaded(banks: seq<BankRow>, rows: map<string, BankRow>, ids: seq<string>,
                                            chosen: seq<BankRow>)
    requires NoRepeat(ids) && DistinctBankIds(banks) && DistinctBankIds(chosen)
    requires forall r :: r in banks ==> r.id in rows && rows[r.id] == r
    requires forall id :: id in rows ==> rows[id].id == id
    requires forall id :: id in ids ==> id in rows && rows[id] in banks
    requires forall r :: r in chosen <==> r in banks && r.id in ids
    ensures BankTotal(chosen) == BankTotal(Fetch(rows, ids, {}))
    ensures ids != [] ==> chosen != []
  {
    var fetched := Fetch(rows, ids, {});
    FetchAll(rows, ids, {});
    forall r | r in chosen
      ensures r in fetched
    {
      var i :| 0 <= i < |ids| && ids[i] == r.id;
      assert fetched[i] == r;
    }
    forall i | 0 <= i < |fetched|
      ensures fetched[i] in chosen
    {
      assert ids[i] in ids;
    }
    SameRowsSameTotal(chosen, fetched);
    if ids != [] {
      assert rows[ids[0]] in chosen;
    }
  }

  lemma {:induction false} NamedGroupExists(loaded: seq<FundRow>, funds: seq<FundRow>, goalCodes: seq<string>)
    requires goalCodes != [] && AllNamedExist(funds, goalCodes)
    requires multiset(NamedRows(loaded, goalCodes)) == multiset(NamedRows(funds, goalCodes))
    ensures exists g :: g in Group(loaded) && g.code in goalCodes
  {
    var c := goalCodes[0];
    assert c in goalCodes && HasCode(funds, c);
    var r :| r in funds && r.goalCode == c;
    NamedRowsMembers(funds, goalCodes);
    NamedRowsMembers(loaded, goalCodes);
    assert r in multiset(NamedRows(funds, goalCodes));
    assert r in NamedRows(loaded, goalCodes);
    GroupPartitions(loaded);
    assert HasKey(Group(loaded), FundKey(r));
    var g :| g in Group(loaded) && GroupKey(g) == FundKey(r);
  }

  lemma {:induction false} NamedRowsMembers(rows: seq<FundRow>, goalCodes: seq<string>)
    ensures forall r :: r in NamedRows(rows, goalCodes) <==> r in rows && IsNamed(r, goalCodes)
  {
    if rows != [] {
      NamedRowsMembers(rows[1..], goalCodes);
      assert forall r :: r in rows <==> r == rows[0] || r in rows[1..];
    }
  }

  /** m is the match of exactly the rows of ids and exactly the groups of goalCodes. */
  ghost predicate IsThatMatch(m: Match, inp: Input, rows: map<string, BankRow>, funds: seq<FundRow>, ids: seq<string>,
                              goalCodes: seq<string>) {
    && m.kind == Manual
    && (forall r :: r in m.banks <==> r in inp.banks && r.id in ids)
    && (forall g :: g in m.groups <==> g in inp.groups && g.code in goalCodes)
    && BankTotal(m.banks) == BankTotal(Fetch(rows, ids, {}))
    && GoalTotal(m.groups) == FundTotal(NamedRows(funds, goalCodes))
  }

  lemma {:induction false} TheMatchIsThat(inp: Input, loaded: seq<FundRow>, rows: map<string, BankRow>,
                                          funds: seq<FundRow>, before: map<string, string>, ids: seq<string>,
                                          goalCodes: seq<string>, now: nat)
    requires LoadedAfterCreate(inp, loaded, rows, funds, before, ids, goalCodes, now)
    requires NotNamedBefore(inp, before, ids, goalCodes)
    requires ids != [] && AllExist(rows, ids)
    requires goalCodes != [] && AllNamedExist(funds, goalCodes) && forall c :: c in goalCodes ==> ',' !in c
    ensures var m := TheMatch(inp, ManualCode(Decimal(now), goalCodes), goalCodes);
            IsThatMatch(m, inp, rows, funds, ids, goalCodes) && m.banks != []
  {
    var code := ManualCode(Decimal(now), goalCodes);
    var m := TheMatch(inp, code, goalCodes);
    RowsOfCreatedCode(inp, loaded, rows, funds, before, ids, goalCodes, now);
    RowsWithCodeDistinct(inp.banks, inp.codes, code);
    FetchedAreLoaded(inp.banks, rows, ids, m.banks);
    AllNamedMembers(goalCodes, inp.groups, {});
    assert forall g :: g in inp.groups ==> !Taken(g, {});
    assert forall c :: c in goalCodes ==> HasCode(funds, c);
    NamedGroupsTotal(goalCodes, loaded);
    FundTotalOfPermutation(NamedRows(loaded, goalCodes), NamedRows(funds, goalCodes));
  }

  /** A manual match survives reload. Once created (its ids and goal codes exist, each once), a drill-down
      that loads its rows makes one manual match of exactly those bank rows and exactly the groups of
      those goal codes, with the totals that were checked at creation. */
  lemma {:induction false} ManualMatchSurvivesReload(inp: Input, loaded: seq<FundRow>, rows: map<string, BankRow>,
                                                     funds: seq<FundRow>, before: map<string, string>,
                                                     ids: seq<string>, goalCodes: seq<string>, now: nat)
    requires LoadedAfterCreate(inp, loaded, rows, funds, before, ids, goalCodes, now)
    requires NotNamedBefore(inp, before, ids, goalCodes)
    requires ids != [] && AllExist(rows, ids)
    requires goalCodes != [] && AllNamedExist(funds, goalCodes) && forall c :: c in goalCodes ==> ',' !in c
    ensures exists m :: m in Run(inp).matches && IsThatMatch(m, inp, rows, funds, ids, goalCodes)
  {
    var code := ManualCode(Decimal(now), goalCodes);
    GroupWellGrouped(loaded);
    CreatedCodeReadsBack(goalCodes, now);
    RowsOfCreatedCode(inp, loaded, rows, funds, before, ids, goalCodes, now);
    NamedGroupExists(loaded, funds, goalCodes);
    TheMatchIsThat(inp, loaded, rows, funds, before, ids, goalCodes, now);
    ManualCodeIsFound(inp, code, goalCodes);
  }

  /** And no other match of the run touches them: any other match shares no bank id and no fund id with it. */
  lemma {:induction false} NoOtherMatchTouches(inp: Input, i: nat, j: nat)
    requires WellFormedInput(inp) && i < |Run(inp).matches| && j < |Run(inp).matches| && i != j
    ensures BankIds(Run(inp).matches[i].banks) !! BankIds(Run(inp).matches[j].banks)
    ensures FundIdsOf(Run(inp).matches[i].groups) !! FundIdsOf(Run(inp).matches[j].groups)
  {
    if i < j {
      MatchesShareNoBank(inp, i, j);
      MatchesShareNoFund(inp, i, j);
    } else {
      MatchesShareNoBank(inp, j, i);
      MatchesShareNoFund(inp, j, i);
    }
  }
}
