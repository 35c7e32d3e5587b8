/** What every pass keeps: claimed ids are exactly those of the matches made so far, no row is in two
    matches, every algorithmic match is justified, and no money is lost or counted twice. */
module Ledger {
  import opened Money
  import opened Combination
  import opened Transactions
  import opened MatchCode
  import opened Matching
  import opened DrillDown

  function AllBanks(matches: seq<Match>): seq<BankRow> {
    if matches == [] then [] else matches[0].banks + AllBanks(matches[1..])
  }

  function AllGroups(matches: seq<Match>): seq<GoalTxn> {
    if matches == [] then [] else matches[0].groups + AllGroups(matches[1..])
  }

  /** The reason an algorithmic match was made; a manual match needs none but its goal transactions. */
  ghost predicate Justified(m: Match) {
    match m.kind
    case Manual => m.groups != [] && m.confidence == 1.0
    case Exact =>
      && |m.banks| == |m.groups| == 1
      && SameTransaction(m.banks[0], m.groups[0]) && AmountsAgree(m.banks[0], m.groups[0])
      && m.confidence == 1.0
    case Amount =>
      && |m.banks| == |m.groups| == 1
      && m.banks[0].txnType == m.groups[0].txnType
      && InWindow(m.banks[0], m.groups[0]) && AmountsAgree(m.banks[0], m.groups[0])
      && 0.5 <= m.confidence <= 0.8
    case SplitBankToFund =>
      && |m.banks| > 1 && |m.groups| == 1
      && (forall b :: b in m.banks ==> SameBucket(b, m.groups[0]))
      && Within(BankTotal(m.banks), m.groups[0].total, Tolerance(m.groups[0].total))
      && m.confidence == 0.7
    case SplitFundToBank =>
      && |m.banks| == 1 && |m.groups| > 1
      && (forall g :: g in m.groups ==> SameBucket(m.banks[0], g))
      && Within(GoalTotal(m.groups), m.banks[0].amount, Tolerance(m.banks[0].amount))
      && m.confidence == 0.7
  }

  ghost predicate WellFormedInput(inp: Input) {
    DistinctBankIds(inp.banks) && WellGrouped(inp.groups)
  }

  /** No fund row is in two matches. */
  ghost predicate Apart(matches: seq<Match>) {
    forall i, j :: 0 <= i < j < |matches| ==> FundIdsOf(matches[i].groups) !! FundIdsOf(matches[j].groups)
  }

  ghost predicate Sound(st: State, inp: Input) {
    && DistinctBankIds(AllBanks(st.matches))
    && (forall r :: r in AllBanks(st.matches) ==> r in inp.banks)
    && (forall g :: g in AllGroups(st.matches) ==> g in inp.groups)
    && st.claims == Claims(BankIds(AllBanks(st.matches)), FundIdsOf(AllGroups(st.matches)))
    && (forall m :: m in st.matches ==> Justified(m))
    && Apart(st.matches)
  }

  /** No goal transaction is in the matches twice. */
  ghost predicate Exclusive(st: State) {
    DistinctKeys(AllGroups(st.matches))
  }

  // ---- Recording one match ----

  lemma {:induction false} AllBanksAppend(a: seq<Match>, b: seq<Match>)
    ensures AllBanks(a + b) == AllBanks(a) + AllBanks(b)
  {
    if a == [] {
      assert a + b == b;
    } else {
      assert (a + b)[1..] == a[1..] + b;
      AllBanksAppend(a[1..], b);
    }
  }

  lemma {:induction false} AllGroupsAppend(a: seq<Match>, b: seq<Match>)
    ensures AllGroups(a + b) == AllGroups(a) + AllGroups(b)
  {
    if a == [] {
      assert a + b == b;
    } else {
      assert (a + b)[1..] == a[1..] + b;
      AllGroupsAppend(a[1..], b);
    }
  }

  lemma {:induction false} AllSnoc(matches: seq<Match>, m: Match)
    ensures AllBanks(matches + [m]) == AllBanks(matches) + m.banks
    ensures AllGroups(matches + [m]) == AllGroups(matches) + m.groups
  {
    AllBanksAppend(matches, [m]);
    AllGroupsAppend(matches, [m]);
    assert [m][1..] == [];
    assert AllBanks([m]) == m.banks + [] == m.banks && AllGroups([m]) == m.groups + [] == m.groups;
  }

  lemma {:induction false} DistinctParts(a: seq<BankRow>, b: seq<BankRow>)
    requires DistinctBankIds(a + b)
    ensures DistinctBankIds(a) && DistinctBankIds(b)
    ensures BankIds(a) !! BankIds(b)
  {
    assert forall i :: 0 <= i < |a| ==> (a + b)[i] == a[i];
    assert forall j :: 0 <= j < |b| ==> (a + b)[|a| + j] == b[j];
    forall x, y | x in a && y in b
      ensures x.id != y.id
    {
      var i :| 0 <= i < |a| && a[i] == x;
      var j :| 0 <= j < |b| && b[j] == y;
      assert (a + b)[i] == x && (a + b)[|a| + j] == y;
    }
  }

  lemma {:induction false} MemberOfAll(matches: seq<Match>, m: Match)
    requires m in matches
    ensures BankIds(m.banks) <= BankIds(AllBanks(matches))
    ensures forall g :: g in m.groups ==> g in AllGroups(matches)
  {
    var i :| 0 <= i < |matches| && matches[i] == m;
    var rest := matches[i + 1..];
    assert matches == matches[..i] + ([m] + rest) && ([m] + rest)[1..] == rest;
    AllBanksAppend(matches[..i], [m] + rest);
    AllGroupsAppend(matches[..i], [m] + rest);
    assert forall r :: r in m.banks ==> r in AllBanks(matches);
  }

  ghost predicate Claimable(st: State, m: Match, inp: Input) {
    && DistinctBankIds(m.banks)
    && (forall r :: r in m.banks ==> r in inp.banks && r.id !in st.claims.banks)
    && (forall g :: g in m.groups ==> g in inp.groups && !Taken(g, st.claims.funds))
    && Justified(m)
  }

  /** Every group of a new match is compared with all claimed ids, so it shares none with an earlier match. */
  lemma {:induction false} RecordKeepsApart(st: State, m: Match)
    requires Apart(st.matches) && st.claims.funds == FundIdsOf(AllGroups(st.matches))
    requires forall g :: g in m.groups ==> !Taken(g, st.claims.funds)
    ensures Apart(st.matches + [m])
  {
    forall i | 0 <= i < |st.matches|
      ensures FundIdsOf(st.matches[i].groups) !! FundIdsOf(m.groups)
    {
      MemberOfAll(st.matches, st.matches[i]);
      assert FundIdsOf(st.matches[i].groups) <= st.claims.funds;
      assert FundIdsOf(m.groups) !! st.claims.funds;
    }
  }

  lemma {:induction false} RecordKeepsSound(st: State, m: Match, inp: Input)
    requires Sound(st, inp) && Claimable(st, m, inp)
    ensures Sound(Record(st, m), inp)
  {
    AllSnoc(st.matches, m);
    RecordKeepsApart(st, m);
    var earlier, later := AllBanks(st.matches), AllBanks(st.matches + [m]);
    forall i, j | 0 <= i < j < |later|
      ensures later[i].id != later[j].id
    {
      if i < |earlier| <= j {
        assert earlier[i] in earlier && earlier[i].id in BankIds(earlier);
        assert m.banks[j - |earlier|] in m.banks;
      }
    }
    assert BankIds(later) == BankIds(earlier) + BankIds(m.banks);
    assert FundIdsOf(AllGroups(st.matches + [m])) == FundIdsOf(AllGroups(st.matches)) + FundIdsOf(m.groups);
  }

  lemma {:induction false} SameKeySameGroup(groups: seq<GoalTxn>, g: GoalTxn, h: GoalTxn)
    requires DistinctKeys(groups) && g in groups && h in groups && GroupKey(g) == GroupKey(h)
    ensures g == h
  {
  }

  lemma {:induction false} RecordKeepsExclusive(st: State, m: Match, inp: Input)
    requires Sound(st, inp) && Claimable(st, m, inp) && WellGrouped(inp.groups)
    requires Exclusive(st) && DistinctKeys(m.groups)
    ensures Exclusive(Record(st, m))
  {
    AllSnoc(st.matches, m);
    var earlier, later := AllGroups(st.matches), AllGroups(st.matches + [m]);
    forall i, j | 0 <= i < j < |later|
      ensures GroupKey(later[i]) != GroupKey(later[j])
    {
      if i < |earlier| <= j {
        var g, h := earlier[i], m.groups[j - |earlier|];
        assert g in earlier && h in m.groups;
        assert g.ids[0] in g.ids && g.ids[0] in FundIdsOf(earlier);
        if GroupKey(g) == GroupKey(h) {
          SameKeySameGroup(inp.groups, g, h);
          assert false;
        }
      }
    }
  }

  // ---- Parts of a combination ----

  ghost predicate NoRepeat<T>(s: seq<T>) {
    forall i, j :: 0 <= i < j < |s| ==> s[i] != s[j]
  }

  lemma {:induction false} CountAtMostOne<T>(s: seq<T>, x: T)
    requires NoRepeat(s)
    ensures multiset(s)[x] <= 1
  {
    if s != [] {
      assert s == [s[0]] + s[1..];
      CountAtMostOne(s[1..], x);
      if s[0] == x {
        assert x !in s[1..];
      }
    }
  }

  lemma {:induction false} SubNoRepeat<T>(a: seq<T>, b: seq<T>)
    requires NoRepeat(b) && multiset(a) <= multiset(b)
    ensures NoRepeat(a)
  {
    forall i, j | 0 <= i < j < |a|
      ensures a[i] != a[j]
    {
      if a[i] == a[j] {
        assert a == a[..i] + [a[i]] + a[i + 1..j] + [a[j]] + a[j + 1..];
        assert multiset(a)[a[i]] >= 2;
        CountAtMostOne(b, a[i]);
        assert false;
      }
    }
  }

  lemma {:induction false} FoundBanksDistinct(candidates: seq<BankRow>, found: seq<Item<BankRow>>)
    requires DistinctBankIds(candidates) && multiset(found) <= multiset(BankItems(candidates))
    ensures DistinctBankIds(Refs(found))
  {
    SubNoRepeat(found, BankItems(candidates));
    FoundBanks(candidates, found);
    assert BankItems(Refs(found)) == found;
    forall i, j | 0 <= i < j < |found|
      ensures Refs(found)[i].id != Refs(found)[j].id
    {
      assert found[i] != found[j];
      assert Refs(found)[i] in candidates && Refs(found)[j] in candidates;
    }
  }

  lemma {:induction false} FoundGroupsDistinct(candidates: seq<GoalTxn>, found: seq<Item<GoalTxn>>)
    requires DistinctKeys(candidates) && multiset(found) <= multiset(GoalItems(candidates))
    ensures DistinctKeys(Refs(found))
  {
    SubNoRepeat(found, GoalItems(candidates));
    FoundGroups(candidates, found);
    assert GoalItems(Refs(found)) == found;
    forall i, j | 0 <= i < j < |found|
      ensures GroupKey(Refs(found)[i]) != GroupKey(Refs(found)[j])
    {
      assert found[i] != found[j];
      assert Refs(found)[i] in candidates && Refs(found)[j] in candidates;
    }
  }

  lemma {:induction false} CandidatesDistinct(groups: seq<GoalTxn>, b: BankRow, claimed: set<string>)
    requires DistinctKeys(groups)
    ensures DistinctKeys(Candidates(groups, b, claimed))
  {
    if groups != [] {
      var tail := Candidates(groups[1..], b, claimed);
      CandidatesDistinct(groups[1..], b, claimed);
      CandidatesMembers(groups[1..], b, claimed);
      forall j | 0 <= j < |tail|
        ensures GroupKey(tail[j]) != GroupKey(groups[0])
      {
        assert tail[j] in groups[1..];
      }
    }
  }

  lemma {:induction false} FreeGroupsDistinct(groups: seq<GoalTxn>, claimed: set<string>)
    requires DistinctKeys(groups)
    ensures DistinctKeys(FreeGroups(groups, claimed))
  {
    if groups != [] {
      var tail := FreeGroups(groups[1..], claimed);
      FreeGroupsDistinct(groups[1..], claimed);
      FreeGroupsMembers(groups[1..], claimed);
      forall j | 0 <= j < |tail|
        ensures GroupKey(tail[j]) != GroupKey(groups[0])
      {
        assert tail[j] in groups[1..];
      }
    }
  }

  // ---- Manual code lists without repetition ----

  /** No stored manual code lists a goal code twice. */
  ghost predicate NoDoubleListing(inp: Input) {
    forall r :: r in inp.banks && HasManualCode(inp.codes, r.id) && ManualGoalCodes(inp.codes[r.id]).Some? ==>
      NoRepeat(ManualGoalCodes(inp.codes[r.id]).value)
  }

  lemma {:induction false} GroupsNamedDistinct(goalCode: string, groups: seq<GoalTxn>, claimed: set<string>)
    requires DistinctKeys(groups)
    ensures DistinctKeys(GroupsNamed(goalCode, groups, claimed))
  {
    if groups != [] {
      var tail := GroupsNamed(goalCode, groups[1..], claimed);
      GroupsNamedDistinct(goalCode, groups[1..], claimed);
      GroupsNamedMembers(goalCode, groups[1..], claimed);
      forall j | 0 <= j < |tail|
        ensures GroupKey(tail[j]) != GroupKey(groups[0])
      {
        assert tail[j] in groups[1..];
      }
    }
  }

  /** A goal code that is listed twice and names a free group. */
  ghost predicate ListsFreeGroupTwice(goalCodes: seq<string>, groups: seq<GoalTxn>, claimed: set<string>) {
    exists i, j, g :: 0 <= i < j < |goalCodes| && goalCodes[i] == goalCodes[j] &&
      g in groups && g.code == goalCodes[i] && !Taken(g, claimed)
  }

  lemma {:induction false} NotTwiceDistinct(goalCodes: seq<string>, groups: seq<GoalTxn>, claimed: set<string>)
    requires DistinctKeys(groups) && !ListsFreeGroupTwice(goalCodes, groups, claimed)
    ensures DistinctKeys(AllNamed(goalCodes, groups, claimed))
  {
    if goalCodes != [] {
      var head := GroupsNamed(goalCodes[0], groups, claimed);
      var tail := AllNamed(goalCodes[1..], groups, claimed);
      GroupsNamedDistinct(goalCodes[0], groups, claimed);
      GroupsNamedMembers(goalCodes[0], groups, claimed);
      AllNamedMembers(goalCodes[1..], groups, claimed);
      NotTwiceInTail(goalCodes, groups, claimed);
      NotTwiceDistinct(goalCodes[1..], groups, claimed);
      forall a, b | 0 <= a < |head| && 0 <= b < |tail|
        ensures GroupKey(head[a]) != GroupKey(tail[b])
      {
        assert head[a] in head && tail[b] in tail;
        ListedAgain(goalCodes, groups, claimed, head[a]);
      }
    }
  }

  lemma {:induction false} SharedNotDistinct(head: seq<GoalTxn>, tail: seq<GoalTxn>, g: GoalTxn)
    requires g in head && g in tail
    ensures !DistinctKeys(head + tail)
  {
    var a :| 0 <= a < |head| && head[a] == g;
    var b :| 0 <= b < |tail| && tail[b] == g;
    assert (head + tail)[a] == (head + tail)[|head| + b];
  }

  lemma {:induction false} TwiceNotDistinct(goalCodes: seq<string>, groups: seq<GoalTxn>, claimed: set<string>,
                                            i: nat, j: nat, g: GoalTxn)
    requires i < j < |goalCodes| && goalCodes[i] == goalCodes[j]
    requires g in groups && g.code == goalCodes[i] && !Taken(g, claimed)
    ensures !DistinctKeys(AllNamed(goalCodes, groups, claimed))
  {
    var head := GroupsNamed(goalCodes[0], groups, claimed);
    var tail := AllNamed(goalCodes[1..], groups, claimed);
    if i == 0 {
      GroupsNamedMembers(goalCodes[0], groups, claimed);
      AllNamedMembers(goalCodes[1..], groups, claimed);
      assert goalCodes[1..][j - 1] == goalCodes[0];
      SharedNotDistinct(head, tail, g);
    } else {
      TwiceNotDistinct(goalCodes[1..], groups, claimed, i - 1, j - 1, g);
      DistinctTail(head, tail);
    }
  }

  /** A manual code collects a goal transaction twice exactly when it lists a code twice that still
      names a free one. */
  lemma {:induction false} AllNamedDistinct(goalCodes: seq<string>, groups: seq<GoalTxn>, claimed: set<string>)
    requires DistinctKeys(groups)
    ensures DistinctKeys(AllNamed(goalCodes, groups, claimed)) <==> !ListsFreeGroupTwice(goalCodes, groups, claimed)
  {
    if ListsFreeGroupTwice(goalCodes, groups, claimed) {
      var i, j, g :| 0 <= i < j < |goalCodes| && goalCodes[i] == goalCodes[j] &&
        g in groups && g.code == goalCodes[i] && !Taken(g, claimed);
      TwiceNotDistinct(goalCodes, groups, claimed, i, j, g);
    } else {
      NotTwiceDistinct(goalCodes, groups, claimed);
    }
  }

  lemma {:induction false} ListedAgain(goalCodes: seq<string>, groups: seq<GoalTxn>, claimed: set<string>, g: GoalTxn)
    requires goalCodes != [] && g in groups && g.code == goalCodes[0] && !Taken(g, claimed)
    ensures g.code in goalCodes[1..] ==> ListsFreeGroupTwice(goalCodes, groups, claimed)
  {
    if g.code in goalCodes[1..] {
      var k :| 0 <= k < |goalCodes[1..]| && goalCodes[1..][k] == g.code;
      assert goalCodes[0] == goalCodes[k + 1];
    }
  }

  lemma {:induction false} DistinctTail(head: seq<GoalTxn>, tail: seq<GoalTxn>)
    ensures DistinctKeys(head + tail) ==> DistinctKeys(tail)
  {
    assert forall j :: 0 <= j < |tail| ==> tail[j] == (head + tail)[|head| + j];
  }

  lemma {:induction false} NotTwiceInTail(goalCodes: seq<string>, groups: seq<GoalTxn>, claimed: set<string>)
    requires goalCodes != [] && !ListsFreeGroupTwice(goalCodes, groups, claimed)
    ensures !ListsFreeGroupTwice(goalCodes[1..], groups, claimed)
  {
    forall i, j, g | 0 <= i < j < |goalCodes[1..]| && goalCodes[1..][i] == goalCodes[1..][j] &&
      g in groups && g.code == goalCodes[1..][i]
      ensures Taken(g, claimed)
    {
      assert goalCodes[i + 1] == goalCodes[j + 1];
    }
  }

  // ---- Each step ----

  lemma {:induction false} ManualClaimable(st: State, code: string, inp: Input)
    requires WellFormedInput(inp) && IsManual(code) && ManualMatch(st.claims, code, inp).Some?
    ensures Claimable(st, ManualMatch(st.claims, code, inp).value, inp)
    ensures NoRepeat(ManualGoalCodes(code).value) ==> DistinctKeys(ManualMatch(st.claims, code, inp).value.groups)
  {
    var rows := RowsWithCode(inp.banks, inp.codes, code);
    RowsWithCodeMembers(inp.banks, inp.codes, code);
    RowsWithCodeDistinct(inp.banks, inp.codes, code);
    FreeBanksMembers(rows, st.claims.banks);
    FreeBanksDistinct(rows, st.claims.banks);
    AllNamedMembers(ManualGoalCodes(code).value, inp.groups, st.claims.funds);
    AllNamedDistinct(ManualGoalCodes(code).value, inp.groups, st.claims.funds);
  }

  lemma {:induction false} ManualPassSound(st: State, rows: seq<BankRow>, inp: Input)
    requires WellFormedInput(inp) && Sound(st, inp) && forall r :: r in rows ==> r in inp.banks
    ensures Sound(ManualPass(st, rows, inp), inp)
    ensures NoDoubleListing(inp) && Exclusive(st) ==> Exclusive(ManualPass(st, rows, inp))
    decreases rows
  {
    if rows != [] {
      assert rows[0] in inp.banks;
      var next := if HasManualCode(inp.codes, rows[0].id) then Attempt(st, inp.codes[rows[0].id], inp) else st;
      if next != st {
        var code := inp.codes[rows[0].id];
        var m := ManualMatch(st.claims, code, inp).value;
        ManualClaimable(st, code, inp);
        RecordKeepsSound(st, m, inp);
        if NoDoubleListing(inp) && Exclusive(st) {
          RecordKeepsExclusive(st, m, inp);
        }
      }
      ManualPassSound(next, rows[1..], inp);
    }
  }

  /** Within the window the confidence lies between 0.5, at its edge, and 0.8, at the same time. */
  lemma {:induction false} ConfidenceRange(b: BankRow, g: GoalTxn)
    requires InWindow(b, g)
    ensures 0.5 <= Confidence(b, g) <= 0.8
    ensures b.date == g.date ==> Confidence(b, g) == 0.8
    ensures Abs(b.date - g.date) == DATE_WINDOW_DAYS * DAY_MS ==> Confidence(b, g) == 0.5
  {
    var diff := Abs(b.date - g.date);
    var days := diff as real / DAY_MS as real;
    assert 0.0 <= diff as real <= (DATE_WINDOW_DAYS * DAY_MS) as real;
    assert 0.0 <= days <= 30.0;
  }

  /** It falls by a hundredth a day. */
  lemma {:induction false} ConfidenceIs(b: BankRow, g: GoalTxn)
    ensures b.date >= g.date ==> Confidence(b, g) == 0.8 - (b.date - g.date) as real / 8_640_000_000.0
    ensures b.date <= g.date ==> Confidence(b, g) == 0.8 - (g.date - b.date) as real / 8_640_000_000.0
  {
    var gap := Abs(b.date - g.date) as real;
    assert gap / 86_400_000.0 / 30.0 * 0.3 == gap / 8_640_000_000.0;
  }

  /** And it is the higher the closer the two times are. */
  lemma {:induction false} CloserIsSurer(b: BankRow, g: GoalTxn, c: BankRow, h: GoalTxn)
    requires Abs(b.date - g.date) < Abs(c.date - h.date)
    ensures Confidence(b, g) > Confidence(c, h)
  {
    var near, far := Abs(b.date - g.date) as real, Abs(c.date - h.date) as real;
    assert near / DAY_MS as real < far / DAY_MS as real;
  }

  lemma {:induction false} ExactPassSound(st: State, rows: seq<BankRow>, inp: Input)
    requires WellFormedInput(inp) && Sound(st, inp) && forall r :: r in rows ==> r in inp.banks
    ensures Sound(ExactPass(st, rows, inp.groups), inp)
    ensures Exclusive(st) ==> Exclusive(ExactPass(st, rows, inp.groups))
    decreases rows
  {
    if rows != [] {
      var b := rows[0];
      var next := ExactStep(st, b, inp.groups);
      FirstFound(SameId, b, inp.groups, st.claims.funds);
      if next != st {
        var m := Match(Exact, [b], [First(SameId, b, inp.groups, st.claims.funds).value], 1.0);
        assert Claimable(st, m, inp);
        RecordKeepsSound(st, m, inp);
        if Exclusive(st) {
          RecordKeepsExclusive(st, m, inp);
        }
      }
      ExactPassSound(next, rows[1..], inp);
    }
  }

  lemma {:induction false} AmountPassSound(st: State, rows: seq<BankRow>, groups: seq<GoalTxn>, inp: Input)
    requires WellFormedInput(inp) && Sound(st, inp)
    requires (forall r :: r in rows ==> r in inp.banks) && (forall g :: g in groups ==> g in inp.groups)
    ensures Sound(AmountPass(st, rows, groups), inp)
    ensures Exclusive(st) ==> Exclusive(AmountPass(st, rows, groups))
    decreases rows
  {
    if rows != [] {
      var b := rows[0];
      var next := AmountStep(st, b, groups);
      FirstFound(NearAmount, b, groups, st.claims.funds);
      if next != st {
        var g := First(NearAmount, b, groups, st.claims.funds).value;
        var m := Match(Amount, [b], [g], Confidence(b, g));
        ConfidenceRange(b, g);
        assert Claimable(st, m, inp);
        RecordKeepsSound(st, m, inp);
        if Exclusive(st) {
          RecordKeepsExclusive(st, m, inp);
        }
      }
      AmountPassSound(next, rows[1..], groups, inp);
    }
  }

  /** The bank rows that pass 3 searches for a goal transaction. */
  function SplitCandidates(st: State, g: GoalTxn, rows: seq<BankRow>): seq<BankRow> {
    FreeBanks(Bucket(rows, Day(g.date), g.txnType), st.claims.banks)
  }

  lemma {:induction false} SplitCandidatesMembers(st: State, g: GoalTxn, rows: seq<BankRow>)
    ensures forall r :: r in SplitCandidates(st, g, rows) <==> r in rows && SameBucket(r, g) && r.id !in st.claims.banks
    ensures DistinctBankIds(rows) ==> DistinctBankIds(SplitCandidates(st, g, rows))
  {
    var bucket := Bucket(rows, Day(g.date), g.txnType);
    BucketMembers(rows, Day(g.date), g.txnType);
    FreeBanksMembers(bucket, st.claims.banks);
    if DistinctBankIds(rows) {
      BucketDistinct(rows, Day(g.date), g.txnType);
      FreeBanksDistinct(bucket, st.claims.banks);
    }
  }

  lemma {:induction false} SplitBankClaimable(st: State, g: GoalTxn, rows: seq<BankRow>, inp: Input)
    requires g in inp.groups && !Taken(g, st.claims.funds)
    requires DistinctBankIds(rows) && forall r :: r in rows ==> r in inp.banks
    ensures var found := Find(BankItems(SplitCandidates(st, g, rows)), g.total, Tolerance(g.total));
            |found| > 1 ==> Claimable(st, Match(SplitBankToFund, Refs(found), [g], 0.7), inp)
  {
    var candidates := SplitCandidates(st, g, rows);
    SplitCandidatesMembers(st, g, rows);
    FindSound(BankItems(candidates), g.total, Tolerance(g.total));
    var found := Find(BankItems(candidates), g.total, Tolerance(g.total));
    if |found| > 1 {
      FoundBanks(candidates, found);
      FoundBanksDistinct(candidates, found);
      SplitIsClaimable(st, g, Refs(found), inp);
    }
  }

  lemma {:induction false} SplitIsClaimable(st: State, g: GoalTxn, banks: seq<BankRow>, inp: Input)
    requires g in inp.groups && !Taken(g, st.claims.funds) && |banks| > 1 && DistinctBankIds(banks)
    requires forall b :: b in banks ==> b in inp.banks && b.id !in st.claims.banks && SameBucket(b, g)
    requires Within(BankTotal(banks), g.total, Tolerance(g.total))
    ensures Claimable(st, Match(SplitBankToFund, banks, [g], 0.7), inp)
  {
    JustifiedSplit(g, banks);
  }

  lemma {:induction false} JustifiedSplit(g: GoalTxn, banks: seq<BankRow>)
    requires |banks| > 1 && forall b :: b in banks ==> SameBucket(b, g)
    requires Within(BankTotal(banks), g.total, Tolerance(g.total))
    ensures Justified(Match(SplitBankToFund, banks, [g], 0.7))
  {
    assert |[g]| == 1 && [g][0] == g;
  }

  lemma {:induction false} SplitBankPassSound(st: State, groups: seq<GoalTxn>, rows: seq<BankRow>, inp: Input)
    requires WellFormedInput(inp) && Sound(st, inp) && DistinctBankIds(rows)
    requires (forall r :: r in rows ==> r in inp.banks) && (forall g :: g in groups ==> g in inp.groups)
    ensures Sound(SplitBankPass(st, groups, rows), inp)
    ensures Exclusive(st) ==> Exclusive(SplitBankPass(st, groups, rows))
    decreases groups
  {
    if groups != [] {
      var g := groups[0];
      var next := SplitBankStep(st, g, rows);
      if next != st {
        SplitBankClaimable(st, g, rows, inp);
        var m := next.matches[|next.matches| - 1];
        RecordKeepsSound(st, m, inp);
        if Exclusive(st) {
          RecordKeepsExclusive(st, m, inp);
        }
      }
      SplitBankPassSound(next, groups[1..], rows, inp);
    }
  }

  lemma {:induction false} SplitFundClaimable(st: State, b: BankRow, groups: seq<GoalTxn>, inp: Input)
    requires b in inp.banks && b.id !in st.claims.banks
    requires DistinctKeys(groups) && forall g :: g in groups ==> g in inp.groups
    ensures var found := Find(GoalItems(Candidates(groups, b, st.claims.funds)), b.amount, Tolerance(b.amount));
            |found| > 1 ==>
              && Claimable(st, Match(SplitFundToBank, [b], Refs(found), 0.7), inp)
              && DistinctKeys(Refs(found))
  {
    var candidates := Candidates(groups, b, st.claims.funds);
    var found := Find(GoalItems(candidates), b.amount, Tolerance(b.amount));
    FindSound(GoalItems(candidates), b.amount, Tolerance(b.amount));
    if |found| > 1 {
      FoundGroups(candidates, found);
      CandidatesDistinct(groups, b, st.claims.funds);
      FoundGroupsDistinct(candidates, found);
      CandidatesMembers(groups, b, st.claims.funds);
      assert forall g :: g in Refs(found) ==> g in candidates;
      JustifiedFundSplit(b, Refs(found));
    }
  }

  lemma {:induction false} JustifiedFundSplit(b: BankRow, groups: seq<GoalTxn>)
    requires |groups| > 1 && forall g :: g in groups ==> SameBucket(b, g)
    requires Within(GoalTotal(groups), b.amount, Tolerance(b.amount))
    ensures Justified(Match(SplitFundToBank, [b], groups, 0.7)) && DistinctBankIds([b])
  {
    assert |[b]| == 1 && [b][0] == b;
  }

  lemma {:induction false} SplitFundPassSound(st: State, rows: seq<BankRow>, groups: seq<GoalTxn>, inp: Input)
    requires WellFormedInput(inp) && Sound(st, inp) && DistinctKeys(groups)
    requires (forall r :: r in rows ==> r in inp.banks) && (forall g :: g in groups ==> g in inp.groups)
    ensures Sound(SplitFundPass(st, rows, groups), inp)
    ensures Exclusive(st) ==> Exclusive(SplitFundPass(st, rows, groups))
    decreases rows
  {
    if rows != [] {
      var b := rows[0];
      var next := SplitFundStep(st, b, groups);
      if next != st {
        SplitFundClaimable(st, b, groups, inp);
        var m := next.matches[|next.matches| - 1];
        RecordKeepsSound(st, m, inp);
        if Exclusive(st) {
          RecordKeepsExclusive(st, m, inp);
        }
      }
      SplitFundPassSound(next, rows[1..], groups, inp);
    }
  }

  // ---- Every run ----

  /** Every run from the empty state is sound after each pass, and exclusive as long as no manual code
      lists a goal code twice. */
  lemma {:induction false} RunSound(inp: Input)
    requires WellFormedInput(inp)
    ensures Sound(AfterManual(inp), inp) && Sound(AfterExact(inp), inp) && Sound(AfterAmount(inp), inp)
    ensures Sound(AfterSplitBank(inp), inp) && Sound(Run(inp), inp)
    ensures NoDoubleListing(inp) ==> Exclusive(Run(inp))
  {
    ManualPassSound(START, inp.banks, inp);
    ExactPassSound(AfterManual(inp), inp.banks, inp);
    var a := AfterExact(inp);
    FreeBanksMembers(inp.banks, a.claims.banks);
    FreeGroupsMembers(inp.groups, a.claims.funds);
    AmountPassSound(a, FreeBanks(inp.banks, a.claims.banks), FreeGroups(inp.groups, a.claims.funds), inp);
    var b := AfterAmount(inp);
    FreeBanksMembers(inp.banks, b.claims.banks);
    FreeBanksDistinct(inp.banks, b.claims.banks);
    FreeGroupsMembers(inp.groups, b.claims.funds);
    SplitBankPassSound(b, FreeGroups(inp.groups, b.claims.funds), FreeBanks(inp.banks, b.claims.banks), inp);
    var c := AfterSplitBank(inp);
    FreeBanksMembers(inp.banks, c.claims.banks);
    FreeGroupsMembers(inp.groups, c.claims.funds);
    FreeGroupsDistinct(inp.groups, c.claims.funds);
    SplitFundPassSound(c, FreeBanks(inp.banks, c.claims.banks), FreeGroups(inp.groups, c.claims.funds), inp);
  }
}
