/** The rules of the passes in the source's own numbers: which pairs and splits every match is, and which ones
    no run leaves open. Amounts are cents, times milliseconds. */
module PassRules {
  import opened Money
  import opened Text
  import opened Combination
  import opened Transactions
  import opened MatchCode
  import opened Matching
  import opened DrillDown
  import opened Ledger
  import opened Completeness
  import opened Conservation
  import opened VarianceList
  import opened TwoEngines
  import opened FundToBank

  // ---- The numbers ----

  /** At most one per cent of the total, or 1,000 UGX, apart. */
  predicate CloseTo(amount: int, total: int) {
    var d := 100 * (amount - total);
    (d <= total || d <= 10_000_000) && (-d <= total || -d <= 10_000_000)
  }

  predicate ThirtyDays(b: BankRow, g: GoalTxn) {
    -2_592_000_000 <= b.date - g.date <= 2_592_000_000
  }

  predicate SameUtcDay(b: BankRow, g: GoalTxn) {
    b.date / 86_400_000 == g.date / 86_400_000
  }

  /** No id of the group is claimed. */
  ghost predicate Unclaimed(g: GoalTxn, funds: set<string>) {
    forall id :: id in g.ids ==> id !in funds
  }

  lemma {:induction false} WithinIsCloseTo(amount: int, total: int)
    ensures Within(amount, total, Tolerance(total)) <==> CloseTo(amount, total)
  {
  }

  lemma {:induction false} UnclaimedIsFree(g: GoalTxn, funds: set<string>)
    ensures Unclaimed(g, funds) <==> !Taken(g, funds)
  {
  }

  // ---- Every match follows its rule ----

  /** What each kind of match is, written out. */
  ghost predicate FollowsRule(m: Match) {
    match m.kind
    case Manual => m.groups != [] && m.confidence == 1.0
    case Exact =>
      && |m.banks| == |m.groups| == 1 && m.confidence == 1.0
      && m.groups[0].txnId == Some(m.banks[0].txnId) && m.groups[0].txnType == m.banks[0].txnType
      && CloseTo(m.banks[0].amount, m.groups[0].total)
    case Amount =>
      && |m.banks| == |m.groups| == 1 && 0.5 <= m.confidence <= 0.8
      && m.groups[0].txnType == m.banks[0].txnType && ThirtyDays(m.banks[0], m.groups[0])
      && CloseTo(m.banks[0].amount, m.groups[0].total)
    case SplitBankToFund =>
      && |m.banks| > 1 && |m.groups| == 1 && m.confidence == 0.7
      && (forall b :: b in m.banks ==> b.txnType == m.groups[0].txnType && SameUtcDay(b, m.groups[0]))
      && CloseTo(BankTotal(m.banks), m.groups[0].total)
    case SplitFundToBank =>
      && |m.banks| == 1 && |m.groups| > 1 && m.confidence == 0.7
      && (forall g :: g in m.groups ==> g.txnType == m.banks[0].txnType && SameUtcDay(m.banks[0], g))
      && CloseTo(GoalTotal(m.groups), m.banks[0].amount)
  }

  lemma {:induction false} JustifiedFollows(m: Match)
    requires Justified(m)
    ensures FollowsRule(m)
  {
    match m.kind
    case Manual =>
    case Exact => WithinIsCloseTo(m.banks[0].amount, m.groups[0].total);
    case Amount => WithinIsCloseTo(m.banks[0].amount, m.groups[0].total);
    case SplitBankToFund => WithinIsCloseTo(BankTotal(m.banks), m.groups[0].total);
    case SplitFundToBank => WithinIsCloseTo(GoalTotal(m.groups), m.banks[0].amount);
  }

  lemma {:induction false} VarianceExactPassSound(st: State, rows: seq<BankRow>, inp: Input)
    requires WellFormedInput(inp) && Sound(st, inp) && forall r :: r in rows ==> r in inp.banks
    ensures Sound(VarianceExactPass(st, rows, inp.groups), inp)
    decreases rows
  {
    if rows != [] {
      var b := rows[0];
      var next := VarianceExactStep(st, b, inp.groups);
      FirstFound(SameIdAndAmount, b, inp.groups, st.claims.funds);
      if next != st {
        var m := Match(Exact, [b], [First(SameIdAndAmount, b, inp.groups, st.claims.funds).value], 1.0);
        assert Claimable(st, m, inp);
        RecordKeepsSound(st, m, inp);
      }
      VarianceExactPassSound(next, rows[1..], inp);
    }
  }

  lemma {:induction false} VarianceRunSound(inp: Input)
    requires WellFormedInput(inp)
    ensures Sound(VarianceRun(inp), inp)
  {
    RunSound(inp);
    VarianceExactPassSound(AfterManual(inp), inp.banks, inp);
    AmountPassSound(VarianceAfterExact(inp), inp.banks, inp.groups, inp);
    var st := VarianceAfterAmount(inp);
    FreeBanksMembers(inp.banks, st.claims.banks);
    FreeBanksDistinct(inp.banks, st.claims.banks);
    FreeGroupsMembers(inp.groups, st.claims.funds);
    SplitBankPassSound(st, FreeGroups(inp.groups, st.claims.funds), FreeBanks(inp.banks, st.claims.banks), inp);
  }

  /** In both engines every match follows the rule of its kind, and everything claimed was loaded and is in
      one match. */
  lemma {:induction false} EveryMatchFollowsRule(inp: Input)
    requires WellFormedInput(inp)
    ensures forall m :: m in Run(inp).matches ==> FollowsRule(m)
    ensures forall m :: m in VarianceRun(inp).matches ==> FollowsRule(m)
    ensures Sound(Run(inp), inp) && Sound(VarianceRun(inp), inp)
  {
    RunSound(inp);
    VarianceRunSound(inp);
    forall m | m in Run(inp).matches || m in VarianceRun(inp).matches
      ensures FollowsRule(m)
    {
      JustifiedFollows(m);
    }
  }

  // ---- No pair is left open ----

  /** An amount match that both sides are free for. */
  predicate NearPair(b: BankRow, g: GoalTxn) {
    b.txnType == g.txnType && ThirtyDays(b, g) && CloseTo(b.amount, g.total)
  }

  lemma {:induction false} NearPairFits(b: BankRow, g: GoalTxn)
    ensures Fits(NearAmount, b, g) <==> NearPair(b, g)
  {
    WithinIsCloseTo(b.amount, g.total);
  }

  lemma {:induction false} ClaimedStays(a: State, b: State, row: BankRow, g: GoalTxn)
    requires Extends(a, b) && (row.id in a.claims.banks || !Unclaimed(g, a.claims.funds))
    ensures row.id in b.claims.banks || !Unclaimed(g, b.claims.funds)
  {
    if !Unclaimed(g, a.claims.funds) {
      var id :| id in g.ids && id in a.claims.funds;
      assert id in b.claims.funds;
    }
  }

  lemma {:induction false} VarianceExtends(inp: Input)
    ensures Extends(VarianceAfterExact(inp), VarianceAfterAmount(inp))
    ensures Extends(VarianceAfterAmount(inp), VarianceRun(inp))
  {
    AmountPassExtends(VarianceAfterExact(inp), inp.banks, inp.groups);
    var st := VarianceAfterAmount(inp);
    SplitBankPassExtends(st, FreeGroups(inp.groups, st.claims.funds), FreeBanks(inp.banks, st.claims.banks));
  }

  lemma {:induction false} NearPairAfterAmount(inp: Input, b: BankRow, g: GoalTxn)
    requires b in inp.banks && g in inp.groups && NearPair(b, g)
    ensures b.id in AfterAmount(inp).claims.banks || !Unclaimed(g, AfterAmount(inp).claims.funds)
    ensures b.id in VarianceAfterAmount(inp).claims.banks || !Unclaimed(g, VarianceAfterAmount(inp).claims.funds)
  {
    NearPairFits(b, g);
    SaturatedAfterAmount(inp);
    AmountPassSaturates(VarianceAfterExact(inp), inp.banks, inp.groups);
    UnclaimedIsFree(g, AfterAmount(inp).claims.funds);
    UnclaimedIsFree(g, VarianceAfterAmount(inp).claims.funds);
  }

  /** A bank row and a goal transaction of its type, at most thirty days apart and close in amount, are not both
      unmatched after pass 2, nor at the end, in either engine. */
  lemma {:induction false} NearPairIsClaimed(inp: Input, b: BankRow, g: GoalTxn)
    requires b in inp.banks && g in inp.groups && NearPair(b, g)
    ensures b.id in AfterAmount(inp).claims.banks || !Unclaimed(g, AfterAmount(inp).claims.funds)
    ensures b.id in Run(inp).claims.banks || !Unclaimed(g, Run(inp).claims.funds)
    ensures b.id in VarianceRun(inp).claims.banks || !Unclaimed(g, VarianceRun(inp).claims.funds)
  {
    NearPairAfterAmount(inp, b, g);
    RunExtends(inp);
    ClaimedStays(AfterAmount(inp), AfterSplitBank(inp), b, g);
    ClaimedStays(AfterSplitBank(inp), Run(inp), b, g);
    VarianceExtends(inp);
    ClaimedStays(VarianceAfterAmount(inp), VarianceRun(inp), b, g);
  }

  /** A bank row and a goal transaction of its id and type that are close in amount. */
  predicate ExactPair(b: BankRow, g: GoalTxn) {
    g.txnId == Some(b.txnId) && g.txnType == b.txnType && CloseTo(b.amount, g.total)
  }

  /** No other group has the id and type of the row. */
  ghost predicate OnlyOne(b: BankRow, g: GoalTxn, groups: seq<GoalTxn>) {
    forall h :: h in groups && h.txnId == Some(b.txnId) && h.txnType == b.txnType ==> h == g
  }

  lemma {:induction false} ExactPassClaims(st: State, rows: seq<BankRow>, groups: seq<GoalTxn>, b: BankRow, g: GoalTxn)
    requires b in rows && g in groups && ExactPair(b, g) && OnlyOne(b, g, groups)
    ensures var end := ExactPass(st, rows, groups);
            b.id in end.claims.banks || !Unclaimed(g, end.claims.funds)
    decreases rows
  {
    var next := ExactStep(st, rows[0], groups);
    ExactPassExtends(next, rows[1..], groups);
    if rows[0] == b {
      FirstFound(SameId, b, groups, st.claims.funds);
      WithinIsCloseTo(b.amount, g.total);
      UnclaimedIsFree(g, st.claims.funds);
      assert b in [b];
      ClaimedStays(next, ExactPass(next, rows[1..], groups), b, g);
    } else {
      ExactPassClaims(next, rows[1..], groups, b, g);
    }
  }

  lemma {:induction false} VarianceExactPassClaims(st: State, rows: seq<BankRow>, groups: seq<GoalTxn>, b: BankRow,
                                                   g: GoalTxn)
    requires b in rows && g in groups && ExactPair(b, g)
    ensures var end := VarianceExactPass(st, rows, groups);
            b.id in end.claims.banks || !Unclaimed(g, end.claims.funds)
    decreases rows
  {
    var next := VarianceExactStep(st, rows[0], groups);
    VarianceExactPassExtends(next, rows[1..], groups);
    if rows[0] == b {
      FirstFound(SameIdAndAmount, b, groups, st.claims.funds);
      WithinIsCloseTo(b.amount, g.total);
      UnclaimedIsFree(g, st.claims.funds);
      assert b in [b];
      ClaimedStays(next, VarianceExactPass(next, rows[1..], groups), b, g);
    } else {
      VarianceExactPassClaims(next, rows[1..], groups, b, g);
    }
  }

  /** A bank row and a goal transaction of its id and type that are close in amount are not both unmatched after
      pass 1: in the copy always, in the drill-down when no other group has that id and type. */
  lemma {:induction false} ExactPairIsClaimed(inp: Input, b: BankRow, g: GoalTxn)
    requires b in inp.banks && g in inp.groups && ExactPair(b, g)
    ensures b.id in VarianceAfterExact(inp).claims.banks || !Unclaimed(g, VarianceAfterExact(inp).claims.funds)
    ensures OnlyOne(b, g, inp.groups) ==>
              b.id in AfterExact(inp).claims.banks || !Unclaimed(g, AfterExact(inp).claims.funds)
  {
    VarianceExactPassClaims(AfterManual(inp), inp.banks, inp.groups, b, g);
    if OnlyOne(b, g, inp.groups) {
      ExactPassClaims(AfterManual(inp), inp.banks, inp.groups, b, g);
    }
  }

  // ---- No split is left open ----

  /** Distinct unmatched bank rows of the day and type of g. */
  ghost predicate BanksOfDay(sub: seq<BankRow>, claimed: set<string>, g: GoalTxn, banks: seq<BankRow>) {
    && sub != [] && (forall i, j :: 0 <= i < j < |sub| ==> sub[i].id != sub[j].id)
    && forall r :: r in sub ==> r in banks && r.txnType == g.txnType && SameUtcDay(r, g) && r.id !in claimed
  }

  /** How many of the rows have the day and type of g and at least the amount. */
  function LargerOfDay(rows: seq<BankRow>, g: GoalTxn, amount: int): nat {
    if rows == [] then 0
    else
      (if rows[0].txnType == g.txnType && SameUtcDay(rows[0], g) && rows[0].amount >= amount then 1 else 0)
      + LargerOfDay(rows[1..], g, amount)
  }

  lemma {:induction false} LargerOfDayIs(rows: seq<BankRow>, g: GoalTxn, amount: int)
    ensures LargerOfDay(rows, g, amount) == AtLeast(BankItems(Bucket(rows, Day(g.date), g.txnType)), amount)
  {
    if rows != [] {
      LargerOfDayIs(rows[1..], g, amount);
      var rest := Bucket(rows[1..], Day(g.date), g.txnType);
      assert BankItems([rows[0]] + rest) == [Item(rows[0], rows[0].amount)] + BankItems(rest);
      assert [] + rest == rest;
    }
  }

  /** A goal transaction unmatched at the end and unmatched bank rows of its day and type do not sum close to
      it, when each of the rows is among the ten largest of these left after pass 2. */
  lemma {:induction false} NoBankSplitLeft(inp: Input, g: GoalTxn, sub: seq<BankRow>)
    requires WellFormedInput(inp) && g in inp.groups && Unclaimed(g, Run(inp).claims.funds)
    requires BanksOfDay(sub, Run(inp).claims.banks, g, inp.banks)
    requires forall r :: r in sub ==>
               LargerOfDay(FreeBanks(inp.banks, AfterAmount(inp).claims.banks), g, r.amount) <= 10
    ensures !CloseTo(BankTotal(sub), g.total)
  {
    var rows := FreeBanks(inp.banks, AfterAmount(inp).claims.banks);
    forall r | r in sub
      ensures AtLeast(BankItems(Bucket(rows, Day(g.date), g.txnType)), r.amount) <= 10
    {
      LargerOfDayIs(rows, g, r.amount);
    }
    UnclaimedIsFree(g, Run(inp).claims.funds);
    assert FreeChoice(sub, Run(inp).claims, g, inp.banks);
    BankToFundComplete(inp, g, sub);
    WithinIsCloseTo(BankTotal(sub), g.total);
  }

  /** Two or more unmatched goal transactions of the day and type of b, of different keys. */
  ghost predicate FundsOfDay(sub: seq<GoalTxn>, claimed: set<string>, b: BankRow, groups: seq<GoalTxn>) {
    && |sub| > 1 && DistinctKeys(sub)
    && forall g :: g in sub ==> g in groups && g.txnType == b.txnType && SameUtcDay(b, g) && Unclaimed(g, claimed)
  }

  /** How many of the groups are unclaimed, have the day and type of b and at least the total. */
  ghost function LargerFunds(groups: seq<GoalTxn>, b: BankRow, claimed: set<string>, total: int): nat {
    if groups == [] then 0
    else
      var g := groups[0];
      (if Unclaimed(g, claimed) && g.txnType == b.txnType && SameUtcDay(b, g) && g.total >= total then 1 else 0)
      + LargerFunds(groups[1..], b, claimed, total)
  }

  lemma {:induction false} LargerFundsIs(groups: seq<GoalTxn>, b: BankRow, claimed: set<string>, total: int)
    ensures LargerFunds(groups, b, claimed, total) == AtLeast(GoalItems(Candidates(groups, b, claimed)), total)
  {
    if groups != [] {
      LargerFundsIs(groups[1..], b, claimed, total);
      UnclaimedIsFree(groups[0], claimed);
      AtLeastFirst(groups[0], !Taken(groups[0], claimed) && SameBucket(b, groups[0]),
                   Candidates(groups[1..], b, claimed), total);
    }
  }

  ghost predicate NoneCloseAlone(groups: seq<GoalTxn>, b: BankRow, claimed: set<string>) {
    forall g :: g in groups && g.txnType == b.txnType && SameUtcDay(b, g) && Unclaimed(g, claimed) ==>
      !CloseTo(g.total, b.amount)
  }

  /** A bank row unmatched at the end and unmatched goal transactions of its day and type do not sum close to
      it, when each is among the ten largest of these left after pass 3 and none of these is close alone. */
  lemma {:induction false} NoFundSplitLeft(inp: Input, b: BankRow, sub: seq<GoalTxn>)
    requires WellFormedInput(inp) && b in inp.banks && b.id !in Run(inp).claims.banks
    requires FundsOfDay(sub, Run(inp).claims.funds, b, inp.groups)
    requires forall g :: g in sub ==>
               LargerFunds(inp.groups, b, AfterSplitBank(inp).claims.funds, g.total) <= 10
    requires NoneCloseAlone(inp.groups, b, AfterSplitBank(inp).claims.funds)
    ensures !CloseTo(GoalTotal(sub), b.amount)
  {
    var c := AfterSplitBank(inp);
    forall g | g in sub
      ensures !Taken(g, Run(inp).claims.funds)
      ensures AtLeast(GoalItems(Candidates(inp.groups, b, c.claims.funds)), g.total) <= 10
    {
      UnclaimedIsFree(g, Run(inp).claims.funds);
      LargerFundsIs(inp.groups, b, c.claims.funds, g.total);
    }
    forall g | g in inp.groups && SameBucket(b, g) && !Taken(g, c.claims.funds)
      ensures !Within(g.total, b.amount, Tolerance(b.amount))
    {
      UnclaimedIsFree(g, c.claims.funds);
      WithinIsCloseTo(g.total, b.amount);
    }
    assert FundChoice(sub, Run(inp).claims, b, inp.groups);
    FundToBankComplete(inp, b, sub);
    WithinIsCloseTo(GoalTotal(sub), b.amount);
  }

  // ---- What one step records ----

  function IdSet(g: GoalTxn): set<string> {
    set id | id in g.ids
  }

  lemma {:induction false} RecordOnePair(st: State, kind: MatchKind, b: BankRow, g: GoalTxn, confidence: real)
    ensures Record(st, Match(kind, [b], [g], confidence)) ==
            State(Claims(st.claims.banks + {b.id}, st.claims.funds + IdSet(g)),
                  st.matches + [Match(kind, [b], [g], confidence)])
  {
    assert BankIds([b]) == {b.id};
    assert g in [g] && FundIdsOf([g]) == IdSet(g);
  }

  /** Pass 2 takes the first unclaimed goal transaction that is near, with a confidence that falls from 0.8 by 0.01
      a day. */
  lemma {:induction false} AmountStepTakes(st: State, b: BankRow, groups: seq<GoalTxn>, i: nat)
    requires b.id !in st.claims.banks && i < |groups|
    requires Unclaimed(groups[i], st.claims.funds) && NearPair(b, groups[i])
    requires forall j :: 0 <= j < i ==> !Unclaimed(groups[j], st.claims.funds) || !NearPair(b, groups[j])
    ensures var (g, apart) := (groups[i], b.date - groups[i].date);
            var gap := if apart < 0 then -apart else apart;
            AmountStep(st, b, groups) ==
            State(Claims(st.claims.banks + {b.id}, st.claims.funds + IdSet(g)),
                  st.matches + [Match(Amount, [b], [g], 0.8 - gap as real / 8_640_000_000.0)])
  {
    forall j | 0 <= j <= i
      ensures Taken(groups[j], st.claims.funds) <==> !Unclaimed(groups[j], st.claims.funds)
      ensures Fits(NearAmount, b, groups[j]) <==> NearPair(b, groups[j])
    {
      UnclaimedIsFree(groups[j], st.claims.funds);
      NearPairFits(b, groups[j]);
    }
    FirstIsFirst(NearAmount, b, groups, st.claims.funds, i);
    ConfidenceIs(b, groups[i]);
    RecordOnePair(st, Amount, b, groups[i], Confidence(b, groups[i]));
  }

  /** Pass 1 looks at the first unclaimed goal transaction with the id and type of the row, and takes it if it is
      close in amount. */
  lemma {:induction false} ExactStepTakes(st: State, b: BankRow, groups: seq<GoalTxn>, i: nat)
    requires b.id !in st.claims.banks && i < |groups|
    requires Unclaimed(groups[i], st.claims.funds)
    requires groups[i].txnId == Some(b.txnId) && groups[i].txnType == b.txnType
    requires forall j :: 0 <= j < i ==>
               !Unclaimed(groups[j], st.claims.funds) || groups[j].txnId != Some(b.txnId) ||
               groups[j].txnType != b.txnType
    ensures var g := groups[i];
            ExactStep(st, b, groups) ==
            if CloseTo(b.amount, g.total) then
              State(Claims(st.claims.banks + {b.id}, st.claims.funds + IdSet(g)),
                    st.matches + [Match(Exact, [b], [g], 1.0)])
            else st
  {
    forall j | 0 <= j <= i
      ensures Taken(groups[j], st.claims.funds) <==> !Unclaimed(groups[j], st.claims.funds)
    {
      UnclaimedIsFree(groups[j], st.claims.funds);
    }
    FirstIsFirst(SameId, b, groups, st.claims.funds, i);
    WithinIsCloseTo(b.amount, groups[i].total);
    RecordOnePair(st, Exact, b, groups[i], 1.0);
  }

  // ---- Manual codes ----

  /** A manual code is matched if and only if one of the rows that carry it is unmatched and one of the goal codes
      after its second colon names an unmatched goal transaction; the match has all of these and no other. */
  lemma {:induction false} ManualMatchIff(c: Claims, stamp: string, list: string, inp: Input)
    requires ':' !in stamp
    ensures var code := "MANUAL:" + stamp + ":" + list;
            && IsManual(code)
            && (ManualMatch(c, code, inp).Some? <==>
                  && (exists b :: b in inp.banks && b.id in inp.codes && inp.codes[b.id] == code && b.id !in c.banks)
                  && (exists g :: g in inp.groups && g.code in Split(list, ',') && Unclaimed(g, c.funds)))
            && (ManualMatch(c, code, inp).Some? ==>
                  var m := ManualMatch(c, code, inp).value;
                  && m.kind == Manual && m.confidence == 1.0
                  && (forall b :: b in m.banks <==>
                        b in inp.banks && b.id in inp.codes && inp.codes[b.id] == code && b.id !in c.banks)
                  && (forall g :: g in m.groups <==>
                        g in inp.groups && g.code in Split(list, ',') && Unclaimed(g, c.funds)))
  {
    var code := "MANUAL:" + stamp + ":" + list;
    ManualParts(stamp, list);
    var goalCodes := Split(list, ',');
    var rows := RowsWithCode(inp.banks, inp.codes, code);
    var named := AllNamed(goalCodes, inp.groups, c.funds);
    RowsWithCodeMembers(inp.banks, inp.codes, code);
    FreeBanksMembers(rows, c.banks);
    AllNamedMembers(goalCodes, inp.groups, c.funds);
    forall g {
      UnclaimedIsFree(g, c.funds);
    }
    if !(BankIds(rows) <= c.banks) {
      var id :| id in BankIds(rows) && id !in c.banks;
      var b :| b in rows && b.id == id;
    }
    assert named != [] ==> named[0] in named;
  }

  // ---- Order ----

  lemma {:induction false} ManualPassEnds(st: State, rows: seq<BankRow>, b: BankRow, inp: Input)
    ensures var before := ManualPass(st, rows, inp);
            ManualPass(st, rows + [b], inp) ==
            if HasManualCode(inp.codes, b.id) then Attempt(before, inp.codes[b.id], inp) else before
    decreases rows
  {
    if rows == [] {
      assert ([] + [b])[1..] == [];
    } else {
      assert (rows + [b])[1..] == rows[1..] + [b];
      ManualPassEnds(if HasManualCode(inp.codes, rows[0].id) then Attempt(st, inp.codes[rows[0].id], inp) else st,
                     rows[1..], b, inp);
    }
  }

  /** Every pass goes through its list from the front: the last element meets the state that the others left. */
  lemma {:induction false} BankPassesEnd(st: State, rows: seq<BankRow>, b: BankRow, groups: seq<GoalTxn>)
    ensures ExactPass(st, rows + [b], groups) == ExactStep(ExactPass(st, rows, groups), b, groups)
    ensures AmountPass(st, rows + [b], groups) == AmountStep(AmountPass(st, rows, groups), b, groups)
    ensures SplitFundPass(st, rows + [b], groups) == SplitFundStep(SplitFundPass(st, rows, groups), b, groups)
    decreases rows
  {
    if rows == [] {
      assert ([] + [b])[1..] == [];
    } else {
      assert (rows + [b])[1..] == rows[1..] + [b];
      BankPassesEnd(ExactStep(st, rows[0], groups), rows[1..], b, groups);
      BankPassesEnd(AmountStep(st, rows[0], groups), rows[1..], b, groups);
      BankPassesEnd(SplitFundStep(st, rows[0], groups), rows[1..], b, groups);
    }
  }

  lemma {:induction false} GroupPassEnds(st: State, groups: seq<GoalTxn>, g: GoalTxn, rows: seq<BankRow>)
    ensures SplitBankPass(st, groups + [g], rows) == SplitBankStep(SplitBankPass(st, groups, rows), g, rows)
    decreases groups
  {
    if groups == [] {
      assert ([] + [g])[1..] == [];
    } else {
      assert (groups + [g])[1..] == groups[1..] + [g];
      GroupPassEnds(SplitBankStep(st, groups[0], rows), groups[1..], g, rows);
    }
  }
}
