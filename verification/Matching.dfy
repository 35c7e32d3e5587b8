/** What the five matching passes of one goal do, as functions from state to state. */
module Matching {
  import opened Money
  import opened Text
  import opened Combination
  import opened Transactions
  import opened MatchCode

  /** A match with the rows it was made from. */
  datatype Match = Match(kind: MatchKind, banks: seq<BankRow>, groups: seq<GoalTxn>, confidence: real)

  /** The ids that earlier matches have claimed. */
  datatype Claims = Claims(banks: set<string>, funds: set<string>)

  datatype State = State(claims: Claims, matches: seq<Match>)

  /** The loaded lists in their order, and the stored match codes by bank id. */
  datatype Input = Input(banks: seq<BankRow>, groups: seq<GoalTxn>, codes: map<string, string>)

  const START := State(Claims({}, {}), [])

  function BankIds(rows: seq<BankRow>): set<string> {
    set r | r in rows :: r.id
  }

  function FundIdsOf(groups: seq<GoalTxn>): set<string> {
    set g, id | g in groups && id in g.ids :: id
  }

  predicate Taken(g: GoalTxn, funds: set<string>) {
    exists id :: id in g.ids && id in funds
  }

  function Record(st: State, m: Match): State {
    State(Claims(st.claims.banks + BankIds(m.banks), st.claims.funds + FundIdsOf(m.groups)), st.matches + [m])
  }

  function FreeBanks(rows: seq<BankRow>, claimed: set<string>): seq<BankRow> {
    if rows == [] then []
    else (if rows[0].id in claimed then [] else [rows[0]]) + FreeBanks(rows[1..], claimed)
  }

  function FreeGroups(groups: seq<GoalTxn>, claimed: set<string>): seq<GoalTxn> {
    if groups == [] then []
    else (if Taken(groups[0], claimed) then [] else [groups[0]]) + FreeGroups(groups[1..], claimed)
  }

  // ---- Pass 0: manual matches ----

  predicate HasManualCode(codes: map<string, string>, id: string) {
    id in codes && IsManual(codes[id])
  }

  function RowsWithCode(rows: seq<BankRow>, codes: map<string, string>, code: string): seq<BankRow> {
    if rows == [] then []
    else
      (if rows[0].id in codes && codes[rows[0].id] == code then [rows[0]] else []) +
      RowsWithCode(rows[1..], codes, code)
  }

  /** The free groups of a goal code; there can be one per transaction type. */
  function GroupsNamed(goalCode: string, groups: seq<GoalTxn>, claimed: set<string>): seq<GoalTxn> {
    if groups == [] then []
    else
      (if groups[0].code == goalCode && !Taken(groups[0], claimed) then [groups[0]] else []) +
      GroupsNamed(goalCode, groups[1..], claimed)
  }

  function AllNamed(goalCodes: seq<string>, groups: seq<GoalTxn>, claimed: set<string>): seq<GoalTxn> {
    if goalCodes == [] then []
    else GroupsNamed(goalCodes[0], groups, claimed) + AllNamed(goalCodes[1..], groups, claimed)
  }

  /** The match that a manual code leads to, if any. */
  function ManualMatch(claims: Claims, code: string, inp: Input): Option<Match>
    requires IsManual(code)
  {
    var rows := RowsWithCode(inp.banks, inp.codes, code);
    if BankIds(rows) <= claims.banks then None
    else
      match ManualGoalCodes(code)
      case None => None
      case Some(goalCodes) =>
        var named := AllNamed(goalCodes, inp.groups, claims.funds);
        if named == [] then None
        else Some(Match(Manual, FreeBanks(rows, claims.banks), named, 1.0))
  }

  function Attempt(st: State, code: string, inp: Input): State
    requires IsManual(code)
  {
    match ManualMatch(st.claims, code, inp)
    case None => st
    case Some(m) => Record(st, m)
  }

  /** Row by row; the code of a row is tried at every row that carries it. */
  function ManualPass(st: State, rows: seq<BankRow>, inp: Input): State
    decreases rows
  {
    if rows == [] then st
    else if HasManualCode(inp.codes, rows[0].id) then
      ManualPass(Attempt(st, inp.codes[rows[0].id], inp), rows[1..], inp)
    else ManualPass(st, rows[1..], inp)
  }

  // ---- Passes 1 and 2: one bank row, one goal transaction ----

  datatype Rule = SameId | NearAmount | SameIdAndAmount

  predicate SameTransaction(b: BankRow, g: GoalTxn) {
    g.txnId == Some(b.txnId) && g.txnType == b.txnType
  }

  predicate AmountsAgree(b: BankRow, g: GoalTxn) {
    Within(b.amount, g.total, Tolerance(g.total))
  }

  predicate InWindow(b: BankRow, g: GoalTxn) {
    Abs(b.date - g.date) <= DATE_WINDOW_DAYS * DAY_MS
  }

  predicate Fits(rule: Rule, b: BankRow, g: GoalTxn) {
    match rule
    case SameId => SameTransaction(b, g)
    case NearAmount => g.txnType == b.txnType && InWindow(b, g) && AmountsAgree(b, g)
    case SameIdAndAmount => SameTransaction(b, g) && AmountsAgree(b, g)
  }

  function First(rule: Rule, b: BankRow, groups: seq<GoalTxn>, claimed: set<string>): Option<GoalTxn> {
    if groups == [] then None
    else if !Taken(groups[0], claimed) && Fits(rule, b, groups[0]) then Some(groups[0])
    else First(rule, b, groups[1..], claimed)
  }

  /** Only the first free goal transaction with the bank row's id is considered. */
  function ExactStep(st: State, b: BankRow, groups: seq<GoalTxn>): State {
    if b.id in st.claims.banks then st
    else
      match First(SameId, b, groups, st.claims.funds)
      case None => st
      case Some(g) => if AmountsAgree(b, g) then Record(st, Match(Exact, [b], [g], 1.0)) else st
  }

  function ExactPass(st: State, rows: seq<BankRow>, groups: seq<GoalTxn>): State
    decreases rows
  {
    if rows == [] then st else ExactPass(ExactStep(st, rows[0], groups), rows[1..], groups)
  }

  function Confidence(b: BankRow, g: GoalTxn): real {
    0.8 - (Abs(b.date - g.date) as real / DAY_MS as real) / DATE_WINDOW_DAYS as real * 0.3
  }

  function AmountStep(st: State, b: BankRow, groups: seq<GoalTxn>): State {
    if b.id in st.claims.banks then st
    else
      match First(NearAmount, b, groups, st.claims.funds)
      case None => st
      case Some(g) => Record(st, Match(Amount, [b], [g], Confidence(b, g)))
  }

  function AmountPass(st: State, rows: seq<BankRow>, groups: seq<GoalTxn>): State
    decreases rows
  {
    if rows == [] then st else AmountPass(AmountStep(st, rows[0], groups), rows[1..], groups)
  }

  // ---- Pass 3: several bank rows, one goal transaction ----

  predicate SameBucket(b: BankRow, g: GoalTxn) {
    Day(b.date) == Day(g.date) && b.txnType == g.txnType
  }

  function Bucket(rows: seq<BankRow>, day: int, txnType: TxnType): seq<BankRow> {
    if rows == [] then []
    else
      (if Day(rows[0].date) == day && rows[0].txnType == txnType then [rows[0]] else []) +
      Bucket(rows[1..], day, txnType)
  }

  function Refs<T>(items: seq<Item<T>>): (refs: seq<T>)
    ensures |refs| == |items| && forall i :: 0 <= i < |items| ==> refs[i] == items[i].ref
  {
    if items == [] then [] else [items[0].ref] + Refs(items[1..])
  }

  function SplitBankStep(st: State, g: GoalTxn, rows: seq<BankRow>): State {
    if Taken(g, st.claims.funds) then st
    else
      var candidates := FreeBanks(Bucket(rows, Day(g.date), g.txnType), st.claims.banks);
      var found := Find(BankItems(candidates), g.total, Tolerance(g.total));
      if |found| > 1 then Record(st, Match(SplitBankToFund, Refs(found), [g], 0.7)) else st
  }

  function SplitBankPass(st: State, groups: seq<GoalTxn>, rows: seq<BankRow>): State
    decreases groups
  {
    if groups == [] then st else SplitBankPass(SplitBankStep(st, groups[0], rows), groups[1..], rows)
  }

  // ---- Pass 3b: one bank row, several goal transactions ----

  function Candidates(groups: seq<GoalTxn>, b: BankRow, claimed: set<string>): seq<GoalTxn> {
    if groups == [] then []
    else
      (if !Taken(groups[0], claimed) && SameBucket(b, groups[0]) then [groups[0]] else []) +
      Candidates(groups[1..], b, claimed)
  }

  function SplitFundStep(st: State, b: BankRow, groups: seq<GoalTxn>): State {
    if b.id in st.claims.banks then st
    else
      var found := Find(GoalItems(Candidates(groups, b, st.claims.funds)), b.amount, Tolerance(b.amount));
      if |found| > 1 then Record(st, Match(SplitFundToBank, [b], Refs(found), 0.7)) else st
  }

  function SplitFundPass(st: State, rows: seq<BankRow>, groups: seq<GoalTxn>): State
    decreases rows
  {
    if rows == [] then st else SplitFundPass(SplitFundStep(st, rows[0], groups), rows[1..], groups)
  }

  // ---- The whole run ----

  function AfterManual(inp: Input): State {
    ManualPass(START, inp.banks, inp)
  }

  function AfterExact(inp: Input): State {
    ExactPass(AfterManual(inp), inp.banks, inp.groups)
  }

  function AfterAmount(inp: Input): State {
    var st := AfterExact(inp);
    AmountPass(st, FreeBanks(inp.banks, st.claims.banks), FreeGroups(inp.groups, st.claims.funds))
  }

  function AfterSplitBank(inp: Input): State {
    var st := AfterAmount(inp);
    SplitBankPass(st, FreeGroups(inp.groups, st.claims.funds), FreeBanks(inp.banks, st.claims.banks))
  }

  function Run(inp: Input): State {
    var st := AfterSplitBank(inp);
    SplitFundPass(st, FreeBanks(inp.banks, st.claims.banks), FreeGroups(inp.groups, st.claims.funds))
  }

  // ---- What a run returns and stores ----

  /** A match as the caller sees it. */
  datatype MatchResult = MatchResult(bankIds: seq<string>, fundIds: seq<string>, kind: MatchKind,
                                     confidence: real, bankTotal: int, fundTotal: int)

  function IdList(rows: seq<BankRow>): (ids: seq<string>)
    ensures |ids| == |rows| && forall i :: 0 <= i < |rows| ==> ids[i] == rows[i].id
  {
    if rows == [] then [] else [rows[0].id] + IdList(rows[1..])
  }

  function FlatIds(groups: seq<GoalTxn>): seq<string> {
    if groups == [] then [] else groups[0].ids + FlatIds(groups[1..])
  }

  function Result(m: Match): MatchResult {
    MatchResult(IdList(m.banks), FlatIds(m.groups), m.kind, m.confidence, BankTotal(m.banks), GoalTotal(m.groups))
  }

  function Results(matches: seq<Match>): (results: seq<MatchResult>)
    ensures |results| == |matches| && forall i :: 0 <= i < |matches| ==> results[i] == Result(matches[i])
  {
    if matches == [] then [] else [Result(matches[0])] + Results(matches[1..])
  }

  /** The codes of the groups that share an id with the match, in group order. */
  function MatchedCodes(groups: seq<GoalTxn>, funds: set<string>): seq<string> {
    if groups == [] then []
    else (if Taken(groups[0], funds) then [groups[0].code] else []) + MatchedCodes(groups[1..], funds)
  }

  function PersistOne(codes: map<string, string>, m: Match, groups: seq<GoalTxn>): map<string, string> {
    var goalCodes := MatchedCodes(groups, FundIdsOf(m.groups));
    if m.kind == Manual || goalCodes == [] then codes
    else codes + map id | id in BankIds(m.banks) :: AlgorithmicCode(m.kind, goalCodes)
  }

  /** The stored codes after the non-manual matches have been written back, one after the other. */
  function Persist(codes: map<string, string>, matches: seq<Match>, groups: seq<GoalTxn>): map<string, string>
    decreases matches
  {
    if matches == [] then codes else Persist(PersistOne(codes, matches[0], groups), matches[1..], groups)
  }

  // ---- Facts about the lists ----

  lemma {:induction false} FreeBanksMembers(rows: seq<BankRow>, claimed: set<string>)
    ensures forall r :: r in FreeBanks(rows, claimed) <==> r in rows && r.id !in claimed
  {
    if rows != [] {
      FreeBanksMembers(rows[1..], claimed);
      assert forall r :: r in rows <==> r == rows[0] || r in rows[1..];
    }
  }

  lemma {:induction false} FreeBanksDistinct(rows: seq<BankRow>, claimed: set<string>)
    requires DistinctBankIds(rows)
    ensures DistinctBankIds(FreeBanks(rows, claimed))
  {
    if rows != [] {
      var tail := FreeBanks(rows[1..], claimed);
      FreeBanksDistinct(rows[1..], claimed);
      FreeBanksMembers(rows[1..], claimed);
      forall j | 0 <= j < |tail|
        ensures tail[j].id != rows[0].id
      {
        assert tail[j] in rows[1..];
      }
    }
  }

  lemma {:induction false} FreeGroupsMembers(groups: seq<GoalTxn>, claimed: set<string>)
    ensures forall g :: g in FreeGroups(groups, claimed) <==> g in groups && !Taken(g, claimed)
  {
    if groups != [] {
      FreeGroupsMembers(groups[1..], claimed);
      assert forall g :: g in groups <==> g == groups[0] || g in groups[1..];
    }
  }

  lemma {:induction false} RowsWithCodeMembers(rows: seq<BankRow>, codes: map<string, string>, code: string)
    ensures forall r :: r in RowsWithCode(rows, codes, code) <==> r in rows && r.id in codes && codes[r.id] == code
  {
    if rows != [] {
      RowsWithCodeMembers(rows[1..], codes, code);
      assert forall r :: r in rows <==> r == rows[0] || r in rows[1..];
    }
  }

  lemma {:induction false} RowsWithCodeDistinct(rows: seq<BankRow>, codes: map<string, string>, code: string)
    requires DistinctBankIds(rows)
    ensures DistinctBankIds(RowsWithCode(rows, codes, code))
  {
    if rows != [] {
      var tail := RowsWithCode(rows[1..], codes, code);
      RowsWithCodeDistinct(rows[1..], codes, code);
      RowsWithCodeMembers(rows[1..], codes, code);
      forall j | 0 <= j < |tail|
        ensures tail[j].id != rows[0].id
      {
        assert tail[j] in rows[1..];
      }
    }
  }

  lemma {:induction false} BucketMembers(rows: seq<BankRow>, day: int, txnType: TxnType)
    ensures forall r :: r in Bucket(rows, day, txnType) <==> r in rows && Day(r.date) == day && r.txnType == txnType
  {
    if rows != [] {
      BucketMembers(rows[1..], day, txnType);
      assert forall r :: r in rows <==> r == rows[0] || r in rows[1..];
    }
  }

  lemma {:induction false} BucketDistinct(rows: seq<BankRow>, day: int, txnType: TxnType)
    requires DistinctBankIds(rows)
    ensures DistinctBankIds(Bucket(rows, day, txnType))
  {
    if rows != [] {
      var tail := Bucket(rows[1..], day, txnType);
      BucketDistinct(rows[1..], day, txnType);
      BucketMembers(rows[1..], day, txnType);
      forall j | 0 <= j < |tail|
        ensures tail[j].id != rows[0].id
      {
        assert tail[j] in rows[1..];
      }
    }
  }

  lemma {:induction false} CandidatesMembers(groups: seq<GoalTxn>, b: BankRow, claimed: set<string>)
    ensures forall g :: g in Candidates(groups, b, claimed) <==> g in groups && !Taken(g, claimed) && SameBucket(b, g)
  {
    if groups != [] {
      CandidatesMembers(groups[1..], b, claimed);
      assert forall g :: g in groups <==> g == groups[0] || g in groups[1..];
    }
  }

  lemma {:induction false} GroupsNamedMembers(goalCode: string, groups: seq<GoalTxn>, claimed: set<string>)
    ensures forall g :: g in GroupsNamed(goalCode, groups, claimed) <==>
                        g in groups && g.code == goalCode && !Taken(g, claimed)
  {
    if groups != [] {
      GroupsNamedMembers(goalCode, groups[1..], claimed);
      assert forall g :: g in groups <==> g == groups[0] || g in groups[1..];
    }
  }

  lemma {:induction false} AllNamedMembers(goalCodes: seq<string>, groups: seq<GoalTxn>, claimed: set<string>)
    ensures forall g :: g in AllNamed(goalCodes, groups, claimed) <==>
                        g in groups && g.code in goalCodes && !Taken(g, claimed)
  {
    if goalCodes != [] {
      GroupsNamedMembers(goalCodes[0], groups, claimed);
      AllNamedMembers(goalCodes[1..], groups, claimed);
      assert forall c :: c in goalCodes <==> c == goalCodes[0] || c in goalCodes[1..];
    }
  }

  lemma {:induction false} FirstFound(rule: Rule, b: BankRow, groups: seq<GoalTxn>, claimed: set<string>)
    ensures match First(rule, b, groups, claimed)
            case Some(g) => g in groups && !Taken(g, claimed) && Fits(rule, b, g)
            case None => forall g :: g in groups && Fits(rule, b, g) ==> Taken(g, claimed)
  {
    if groups != [] {
      FirstFound(rule, b, groups[1..], claimed);
      assert forall g :: g in groups <==> g == groups[0] || g in groups[1..];
    }
  }

  /** What is found stands before everything else that is free and fits. */
  lemma {:induction false} FirstIsFirst(rule: Rule, b: BankRow, groups: seq<GoalTxn>, claimed: set<string>, i: nat)
    requires i < |groups| && !Taken(groups[i], claimed) && Fits(rule, b, groups[i])
    requires forall j :: 0 <= j < i ==> Taken(groups[j], claimed) || !Fits(rule, b, groups[j])
    ensures First(rule, b, groups, claimed) == Some(groups[i])
  {
    if i > 0 {
      FirstIsFirst(rule, b, groups[1..], claimed, i - 1);
    }
  }

  lemma {:induction false} TakenMonotone(g: GoalTxn, small: set<string>, large: set<string>)
    requires small <= large && Taken(g, small)
    ensures Taken(g, large)
  {
    var id :| id in g.ids && id in small;
    assert id in large;
  }

  lemma {:induction false} FlatIdsMembers(groups: seq<GoalTxn>)
    ensures forall id :: id in FlatIds(groups) <==> id in FundIdsOf(groups)
  {
    if groups != [] {
      FlatIdsMembers(groups[1..]);
      assert forall g :: g in groups <==> g == groups[0] || g in groups[1..];
    }
  }
}
