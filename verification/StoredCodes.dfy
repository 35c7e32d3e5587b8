/** What the stored codes say after a run: those of algorithmic matches read back as the goal codes that
    were matched, and all others are as they were. */
module StoredCodes {
  import opened Transactions
  import opened MatchCode
  import opened Matching
  import opened Ledger
  import opened Conservation
  import opened Rerun

  lemma {:induction false} MatchedCodesAre(groups: seq<GoalTxn>, funds: set<string>, c: string)
    ensures c in MatchedCodes(groups, funds) <==> exists g :: g in groups && Taken(g, funds) && g.code == c
  {
    if groups != [] {
      MatchedCodesAre(groups[1..], funds, c);
      assert forall g :: g in groups <==> g == groups[0] || g in groups[1..];
    }
  }

  /** The codes come in the order of the groups, one for each group. */
  lemma {:induction false} MatchedCodesInOrder(a: seq<GoalTxn>, b: seq<GoalTxn>, funds: set<string>)
    ensures MatchedCodes(a + b, funds) == MatchedCodes(a, funds) + MatchedCodes(b, funds)
    ensures |a| == 1 ==>
              MatchedCodes(a, funds) == if exists id :: id in a[0].ids && id in funds then [a[0].code] else []
  {
    if a == [] {
      assert a + b == b;
    } else {
      assert (a + b)[1..] == a[1..] + b;
      MatchedCodesInOrder(a[1..], b, funds);
    }
  }

  /** The groups that share an id with some of them are those themselves. */
  lemma {:induction false} TakenByItself(groups: seq<GoalTxn>, sub: seq<GoalTxn>, g: GoalTxn)
    requires WellGrouped(groups) && g in groups && forall h :: h in sub ==> h in groups
    ensures Taken(g, FundIdsOf(sub)) <==> g in sub
  {
    if g in sub {
      assert g.ids[0] in g.ids && g.ids[0] in FundIdsOf(sub);
    }
    if Taken(g, FundIdsOf(sub)) {
      var id :| id in g.ids && id in FundIdsOf(sub);
      var h :| h in sub && id in h.ids;
      if g != h {
        DifferentGroupsShareNothing(groups, g, h);
        assert false;
      }
    }
  }

  lemma {:induction false} MatchedCodesOfMatch(groups: seq<GoalTxn>, sub: seq<GoalTxn>, c: string)
    requires WellGrouped(groups) && forall h :: h in sub ==> h in groups
    ensures c in MatchedCodes(groups, FundIdsOf(sub)) <==> exists g :: g in sub && g.code == c
  {
    MatchedCodesAre(groups, FundIdsOf(sub), c);
    forall g | g in groups
      ensures Taken(g, FundIdsOf(sub)) <==> g in sub
    {
      TakenByItself(groups, sub, g);
    }
  }

  lemma {:induction false} AlgorithmicReadsBack(kind: MatchKind, goalCodes: seq<string>)
    requires kind != Manual && goalCodes != [] && forall c :: c in goalCodes ==> PlainGoalCode(c)
    ensures SqlGoalCodes(AlgorithmicCode(kind, goalCodes)) == goalCodes
    ensures !IsManual(AlgorithmicCode(kind, goalCodes))
  {
    if |goalCodes| == 1 {
      assert goalCodes[0] in goalCodes;
      RoundTrip(PlainForm(goalCodes[0]));
      assert goalCodes == [goalCodes[0]];
    } else {
      RoundTrip(GroupedForm(kind, goalCodes));
    }
  }

  ghost predicate PlainCodes(groups: seq<GoalTxn>) {
    forall g :: g in groups ==> PlainGoalCode(g.code)
  }

  /** After a run the code at a row of an algorithmic match names exactly the goal codes of the match. */
  lemma {:induction false} StoredCodeNamesItsGroups(inp: Input, m: Match, id: string)
    requires WellFormedInput(inp) && PlainCodes(inp.groups)
    requires m in Run(inp).matches && m.kind != Manual && id in BankIds(m.banks)
    ensures var codes := Persist(inp.codes, Run(inp).matches, inp.groups);
            && id in codes && !IsManual(codes[id])
            && forall c :: c in SqlGoalCodes(codes[id]) <==> exists g :: g in m.groups && g.code == c
  {
    var matches := Run(inp).matches;
    RunSound(inp);
    PersistStores(inp.codes, matches, inp.groups);
    assert Justified(m) && m.groups != [];
    forall g | g in m.groups
      ensures g in inp.groups
    {
      GroupOfMatch(matches, m, g);
    }
    var goalCodes := MatchedCodes(inp.groups, FundIdsOf(m.groups));
    forall c
      ensures c in goalCodes <==> exists g :: g in m.groups && g.code == c
    {
      MatchedCodesOfMatch(inp.groups, m.groups, c);
    }
    assert m.groups[0] in m.groups && m.groups[0].code in goalCodes;
    AlgorithmicReadsBack(m.kind, goalCodes);
  }

  lemma {:induction false} GroupOfMatch(matches: seq<Match>, m: Match, g: GoalTxn)
    requires m in matches && g in m.groups
    ensures g in AllGroups(matches)
  {
    MemberOfAll(matches, m);
  }

  lemma {:induction false} StoredIsNotManual(inp: Input, m: Match, id: string)
    requires WellFormedInput(inp) && NoneLooksManual(inp.groups)
    requires m in Run(inp).matches && m.kind != Manual && id in BankIds(m.banks)
    ensures var codes := Persist(inp.codes, Run(inp).matches, inp.groups);
            id in codes && !IsManual(codes[id])
  {
    var matches := Run(inp).matches;
    var goalCodes := MatchedCodes(inp.groups, FundIdsOf(m.groups));
    RunSound(inp);
    PersistStores(inp.codes, matches, inp.groups);
    assert Justified(m) && m.groups != [];
    forall g | g in m.groups
      ensures g in inp.groups
    {
      GroupOfMatch(matches, m, g);
    }
    assert m.groups[0] in m.groups;
    MatchedCodesOfMatch(inp.groups, m.groups, m.groups[0].code);
    MatchedCodesMembers(inp.groups, FundIdsOf(m.groups));
    AlgorithmicIsNotManual(m.kind, goalCodes);
  }

  /** A run replaces a manual code if and only if an algorithmic match of the run holds its row, as when the
      fund rows of a manual match were not loaded. */
  lemma {:induction false} ManualCodeReplacedIff(inp: Input, id: string)
    requires WellFormedInput(inp) && NoneLooksManual(inp.groups) && HasManualCode(inp.codes, id)
    ensures !SameAt(Persist(inp.codes, Run(inp).matches, inp.groups), inp.codes, id) <==>
            exists m :: m in Run(inp).matches && m.kind != Manual && id in BankIds(m.banks)
  {
    if m :| m in Run(inp).matches && m.kind != Manual && id in BankIds(m.banks) {
      StoredIsNotManual(inp, m, id);
    } else {
      OtherCodesStay(inp, id);
    }
  }

  /** And the code of every row that no algorithmic match has is as it was before the run. */
  lemma {:induction false} OtherCodesStay(inp: Input, id: string)
    requires forall m :: m in Run(inp).matches && m.kind != Manual ==> id !in BankIds(m.banks)
    ensures SameAt(Persist(inp.codes, Run(inp).matches, inp.groups), inp.codes, id)
  {
    OthersStay(inp.codes, Run(inp).matches, inp.groups, id);
  }

  lemma {:induction false} OthersStay(codes: map<string, string>, matches: seq<Match>, groups: seq<GoalTxn>, id: string)
    requires forall m :: m in matches && m.kind != Manual ==> id !in BankIds(m.banks)
    ensures SameAt(Persist(codes, matches, groups), codes, id)
    decreases matches
  {
    if matches != [] {
      assert matches[0] in matches;
      assert forall m :: m in matches[1..] ==> m in matches;
      OthersStay(PersistOne(codes, matches[0], groups), matches[1..], groups, id);
    }
  }
}
