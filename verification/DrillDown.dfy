/** The drill-down of one goal as the code runs it: two growing sets of claimed ids, a growing list
    of matches, and the stored codes. Each pass is proved to do what the functions of Matching say. */
module DrillDown {
  import opened Money
  import opened Text
  import opened Combination
  import opened Transactions
  import opened MatchCode
  import opened Matching

  // ---- Read-only helpers ----

  lemma {:induction false} IdListIds(rows: seq<BankRow>)
    ensures (set id | id in IdList(rows)) == BankIds(rows)
  {
    forall id | id in BankIds(rows)
      ensures id in IdList(rows)
    {
      var r :| r in rows && r.id == id;
      var i :| 0 <= i < |rows| && rows[i] == r;
      assert IdList(rows)[i] == id;
    }
    forall id | id in IdList(rows)
      ensures id in BankIds(rows)
    {
      var i :| 0 <= i < |rows| && IdList(rows)[i] == id;
      assert rows[i] in rows;
    }
  }

  lemma {:induction false} FreeBanksSnoc(rows: seq<BankRow>, r: BankRow, claimed: set<string>)
    ensures FreeBanks(rows + [r], claimed) == FreeBanks(rows, claimed) + (if r.id in claimed then [] else [r])
  {
    if rows != [] {
      assert (rows + [r])[1..] == rows[1..] + [r];
      FreeBanksSnoc(rows[1..], r, claimed);
    }
  }

  lemma {:induction false} TotalSnoc(groups: seq<GoalTxn>, more: seq<GoalTxn>)
    ensures GoalTotal(groups + more) == GoalTotal(groups) + GoalTotal(more)
    ensures FlatIds(groups + more) == FlatIds(groups) + FlatIds(more)
  {
    if groups == [] {
      assert groups + more == more;
    } else {
      assert (groups + more)[1..] == groups[1..] + more;
      TotalSnoc(groups[1..], more);
    }
  }

  lemma {:induction false} SingleGroup(g: GoalTxn)
    ensures FlatIds([g]) == g.ids && GoalTotal([g]) == g.total
  {
    assert FlatIds([g]) == g.ids + [];
    assert GoalItems([g]) == [Item(g, g.total)];
    assert Sum([Item(g, g.total)][1..]) == 0;
  }

  lemma {:induction false} SingleBank(b: BankRow)
    ensures IdList([b]) == [b.id] && BankTotal([b]) == b.amount
  {
    assert BankItems([b]) == [Item(b, b.amount)];
    assert Sum([Item(b, b.amount)][1..]) == 0;
  }

  lemma {:induction false} GroupsNamedSuffix(goalCode: string, groups: seq<GoalTxn>, claimed: set<string>, i: nat,
                                             before: seq<GoalTxn>)
    requires i < |groups|
    ensures before + GroupsNamed(goalCode, groups[i..], claimed) ==
            (if groups[i].code == goalCode && !Taken(groups[i], claimed) then before + [groups[i]] else before) +
            GroupsNamed(goalCode, groups[i + 1..], claimed)
  {
    assert groups[i..][1..] == groups[i + 1..];
  }

  lemma {:induction false} AllNamedSuffix(goalCodes: seq<string>, groups: seq<GoalTxn>, claimed: set<string>, c: nat,
                                          before: seq<GoalTxn>)
    requires c < |goalCodes|
    ensures before + AllNamed(goalCodes[c..], groups, claimed) ==
            before + GroupsNamed(goalCodes[c], groups, claimed) + AllNamed(goalCodes[c + 1..], groups, claimed)
  {
    assert goalCodes[c..][1..] == goalCodes[c + 1..];
  }

  /** The ids and the total of the free groups that one goal code names. */
  method CollectOne(goalCode: string, groups: seq<GoalTxn>, claimed: set<string>) returns (ids: seq<string>, total: int)
    ensures ids == FlatIds(GroupsNamed(goalCode, groups, claimed))
    ensures total == GoalTotal(GroupsNamed(goalCode, groups, claimed))
  {
    ids, total := [], 0;
    ghost var named := [];
    assert groups[0..] == groups;
    for i := 0 to |groups|
      invariant named + GroupsNamed(goalCode, groups[i..], claimed) == GroupsNamed(goalCode, groups, claimed)
      invariant ids == FlatIds(named) && total == GoalTotal(named)
    {
      var group := groups[i];
      GroupsNamedSuffix(goalCode, groups, claimed, i, named);
      if group.code == goalCode && !Taken(group, claimed) {
        TotalSnoc(named, [group]);
        SingleGroup(group);
        named := named + [group];
        ids := ids + group.ids;
        total := total + group.total;
      }
    }
    assert named + [] == named;
  }

  /** The ids and the total of all free groups named by a manual code. */
  method CollectNamed(goalCodes: seq<string>, groups: seq<GoalTxn>, claimed: set<string>)
    returns (ids: seq<string>, total: int)
    ensures ids == FlatIds(AllNamed(goalCodes, groups, claimed))
    ensures total == GoalTotal(AllNamed(goalCodes, groups, claimed))
  {
    ids, total := [], 0;
    ghost var named := [];
    assert goalCodes[0..] == goalCodes;
    for c := 0 to |goalCodes|
      invariant named + AllNamed(goalCodes[c..], groups, claimed) == AllNamed(goalCodes, groups, claimed)
      invariant ids == FlatIds(named) && total == GoalTotal(named)
    {
      var moreIds, moreTotal := CollectOne(goalCodes[c], groups, claimed);
      ghost var more := GroupsNamed(goalCodes[c], groups, claimed);
      AllNamedSuffix(goalCodes, groups, claimed, c, named);
      TotalSnoc(named, more);
      ids, total, named := ids + moreIds, total + moreTotal, named + more;
    }
    assert named + [] == named;
  }

  /** The free groups with the bank row's id and type. */
  method WithSameId(b: BankRow, groups: seq<GoalTxn>, claimed: set<string>) returns (found: seq<GoalTxn>)
    ensures First(SameId, b, groups, claimed) == if found == [] then None else Some(found[0])
  {
    found := [];
    for i := 0 to |groups|
      invariant if found == [] then First(SameId, b, groups[i..], claimed) == First(SameId, b, groups, claimed)
                else First(SameId, b, groups, claimed) == Some(found[0])
    {
      assert groups[i..][1..] == groups[i + 1..];
      if SameTransaction(b, groups[i]) && !Taken(groups[i], claimed) {
        found := found + [groups[i]];
      }
    }
  }

  method NearestFit(b: BankRow, groups: seq<GoalTxn>, claimed: set<string>) returns (found: Option<GoalTxn>)
    ensures found == First(NearAmount, b, groups, claimed)
  {
    for i := 0 to |groups|
      invariant First(NearAmount, b, groups[i..], claimed) == First(NearAmount, b, groups, claimed)
    {
      var group := groups[i];
      assert groups[i..][1..] == groups[i + 1..];
      if Taken(group, claimed) || group.txnType != b.txnType {
        continue;
      }
      if Abs(b.date - group.date) <= DATE_WINDOW_DAYS * DAY_MS {
        if Within(b.amount, group.total, Tolerance(group.total)) {
          return Some(group);
        }
      }
    }
    found := None;
  }

  function BucketOf(buckets: map<(int, TxnType), seq<BankRow>>, day: int, txnType: TxnType): seq<BankRow> {
    if (day, txnType) in buckets then buckets[(day, txnType)] else []
  }

  lemma {:induction false} BucketSnoc(rows: seq<BankRow>, r: BankRow, day: int, txnType: TxnType)
    ensures Bucket(rows + [r], day, txnType) ==
            Bucket(rows, day, txnType) + (if Day(r.date) == day && r.txnType == txnType then [r] else [])
  {
    if rows != [] {
      assert (rows + [r])[1..] == rows[1..] + [r];
      BucketSnoc(rows[1..], r, day, txnType);
    }
  }

  /** Bank rows by day and type. */
  method ByDayAndType(rows: seq<BankRow>) returns (buckets: map<(int, TxnType), seq<BankRow>>)
    ensures forall day, txnType :: BucketOf(buckets, day, txnType) == Bucket(rows, day, txnType)
  {
    buckets := map[];
    for i := 0 to |rows|
      invariant forall day, txnType :: BucketOf(buckets, day, txnType) == Bucket(rows[..i], day, txnType)
    {
      var r := rows[i];
      var key := (Day(r.date), r.txnType);
      ghost var before := buckets;
      buckets := buckets[key := (if key in buckets then buckets[key] else []) + [r]];
      assert rows[..i + 1] == rows[..i] + [r];
      forall day, txnType
        ensures BucketOf(buckets, day, txnType) == Bucket(rows[..i + 1], day, txnType)
      {
        BucketSnoc(rows[..i], r, day, txnType);
        assert BucketOf(before, day, txnType) == Bucket(rows[..i], day, txnType);
      }
    }
    assert rows[..|rows|] == rows;
  }

  // ---- The order of manual codes ----

  /** The manual codes of rows in order of first appearance, those in seen left out. */
  function ManualCodes(rows: seq<BankRow>, codes: map<string, string>, seen: set<string>): (found: seq<string>)
    ensures forall c :: c in found ==> IsManual(c)
    decreases rows
  {
    if rows == [] then []
    else if HasManualCode(codes, rows[0].id) && codes[rows[0].id] !in seen then
      [codes[rows[0].id]] + ManualCodes(rows[1..], codes, seen + {codes[rows[0].id]})
    else ManualCodes(rows[1..], codes, seen)
  }

  function AttemptAll(st: State, manual: seq<string>, inp: Input): State
    requires forall c :: c in manual ==> IsManual(c)
    decreases manual
  {
    if manual == [] then st else AttemptAll(Attempt(st, manual[0], inp), manual[1..], inp)
  }

  predicate Settled(claims: Claims, code: string, inp: Input) {
    IsManual(code) && ManualMatch(claims, code, inp) == None
  }

  lemma {:induction false} AttemptSettles(st: State, code: string, inp: Input)
    requires IsManual(code)
    ensures Settled(Attempt(st, code, inp).claims, code, inp)
    ensures var next := Attempt(st, code, inp).claims;
            st.claims.banks <= next.banks && st.claims.funds <= next.funds
  {
    var rows := RowsWithCode(inp.banks, inp.codes, code);
    FreeBanksMembers(rows, st.claims.banks);
  }

  lemma {:induction false} SettledStays(a: Claims, b: Claims, code: string, inp: Input)
    requires Settled(a, code, inp) && a.banks <= b.banks && a.funds <= b.funds
    ensures Settled(b, code, inp)
  {
    var rows := RowsWithCode(inp.banks, inp.codes, code);
    if !(BankIds(rows) <= a.banks) && ManualGoalCodes(code).Some? {
      var goalCodes := ManualGoalCodes(code).value;
      AllNamedMembers(goalCodes, inp.groups, a.funds);
      AllNamedMembers(goalCodes, inp.groups, b.funds);
      var named := AllNamed(goalCodes, inp.groups, b.funds);
      forall g | g in named
        ensures g in AllNamed(goalCodes, inp.groups, a.funds)
      {
        if Taken(g, a.funds) {
          TakenMonotone(g, a.funds, b.funds);
        }
      }
      assert named != [] ==> named[0] in named;
    }
  }

  /** Trying each manual code once, in order of first appearance, is the same as trying it at every row. */
  lemma {:induction false} OncePerCode(st: State, rows: seq<BankRow>, inp: Input, seen: set<string>)
    requires forall c :: c in seen ==> Settled(st.claims, c, inp)
    ensures AttemptAll(st, ManualCodes(rows, inp.codes, seen), inp) == ManualPass(st, rows, inp)
    decreases rows
  {
    if rows != [] {
      if HasManualCode(inp.codes, rows[0].id) {
        var code := inp.codes[rows[0].id];
        if code in seen {
          OncePerCode(st, rows[1..], inp, seen);
        } else {
          var next := Attempt(st, code, inp);
          AttemptSettles(st, code, inp);
          forall c | c in seen + {code}
            ensures Settled(next.claims, c, inp)
          {
            if c in seen {
              SettledStays(st.claims, next.claims, c, inp);
            }
          }
          OncePerCode(next, rows[1..], inp, seen + {code});
        }
      } else {
        OncePerCode(st, rows[1..], inp, seen);
      }
    }
  }

  lemma {:induction false} RowsWithCodeSnoc(rows: seq<BankRow>, r: BankRow, codes: map<string, string>, code: string)
    ensures RowsWithCode(rows + [r], codes, code) ==
            RowsWithCode(rows, codes, code) + (if r.id in codes && codes[r.id] == code then [r] else [])
  {
    if rows != [] {
      assert (rows + [r])[1..] == rows[1..] + [r];
      RowsWithCodeSnoc(rows[1..], r, codes, code);
    }
  }

  /** What the insertion-ordered map from manual code to rows holds after the rows done. */
  ghost predicate GroupedByCode(order: seq<string>, byCode: map<string, seq<BankRow>>, done: seq<BankRow>,
                                codes: map<string, string>) {
    && (forall c :: c in order <==> c in byCode)
    && (forall c :: c in byCode ==> IsManual(c) && byCode[c] == RowsWithCode(done, codes, c))
    && (forall c :: IsManual(c) && c !in byCode ==> RowsWithCode(done, codes, c) == [])
  }

  method PushByCode(order0: seq<string>, byCode0: map<string, seq<BankRow>>, r: BankRow, ghost done: seq<BankRow>,
                    codes: map<string, string>)
    returns (order: seq<string>, byCode: map<string, seq<BankRow>>)
    requires GroupedByCode(order0, byCode0, done, codes)
    ensures GroupedByCode(order, byCode, done + [r], codes)
    ensures if HasManualCode(codes, r.id) && codes[r.id] !in byCode0
            then order == order0 + [codes[r.id]] && byCode.Keys == byCode0.Keys + {codes[r.id]}
            else order == order0 && byCode.Keys == byCode0.Keys
  {
    order, byCode := order0, byCode0;
    forall c
      ensures RowsWithCode(done + [r], codes, c) ==
              RowsWithCode(done, codes, c) + (if r.id in codes && codes[r.id] == c then [r] else [])
    {
      RowsWithCodeSnoc(done, r, codes, c);
    }
    if HasManualCode(codes, r.id) {
      var code := codes[r.id];
      if code !in byCode {
        order := order + [code];
        byCode := byCode[code := []];
      }
      byCode := byCode[code := byCode[code] + [r]];
    }
  }

  lemma {:induction false} ManualCodesStep(order: seq<string>, rows: seq<BankRow>, i: nat, codes: map<string, string>,
                                           seen: set<string>)
    requires i < |rows|
    ensures var id := rows[i].id;
            order + ManualCodes(rows[i..], codes, seen) ==
            if HasManualCode(codes, id) && codes[id] !in seen
            then (order + [codes[id]]) + ManualCodes(rows[i + 1..], codes, seen + {codes[id]})
            else order + ManualCodes(rows[i + 1..], codes, seen)
  {
    assert rows[i..][1..] == rows[i + 1..];
  }

  /** Bank rows by manual code, the codes in order of first appearance. */
  method ByManualCode(rows: seq<BankRow>, codes: map<string, string>)
    returns (order: seq<string>, byCode: map<string, seq<BankRow>>)
    ensures order == ManualCodes(rows, codes, {})
    ensures forall c :: c in order ==> c in byCode && byCode[c] == RowsWithCode(rows, codes, c)
  {
    order, byCode := [], map[];
    ghost var done := [];
    assert byCode.Keys == {} && rows[0..] == rows;
    for i := 0 to |rows|
      invariant done == rows[..i] && GroupedByCode(order, byCode, done, codes)
      invariant order + ManualCodes(rows[i..], codes, byCode.Keys) == ManualCodes(rows, codes, {})
    {
      ManualCodesStep(order, rows, i, codes, byCode.Keys);
      order, byCode := PushByCode(order, byCode, rows[i], done, codes);
      done := done + [rows[i]];
    }
    assert done == rows && rows[|rows|..] == [] && order + [] == order;
  }

  lemma {:induction false} AllClaimed(rows: seq<BankRow>, claimed: set<string>)
    ensures (forall r :: r in rows ==> r.id in claimed) <==> BankIds(rows) <= claimed
  {
    if BankIds(rows) <= claimed {
      forall r | r in rows
        ensures r.id in claimed
      {
        assert r.id in BankIds(rows);
      }
    }
  }

  /** Named groups have ids, so there are ids exactly when there are groups. */
  lemma {:induction false} SomeIds(goalCodes: seq<string>, groups: seq<GoalTxn>, claimed: set<string>)
    requires WellGrouped(groups)
    ensures var named := AllNamed(goalCodes, groups, claimed); FlatIds(named) == [] <==> named == []
  {
    var named := AllNamed(goalCodes, groups, claimed);
    AllNamedMembers(goalCodes, groups, claimed);
    if named != [] {
      assert named[0] in named;
      assert |FlatIds(named)| == |named[0].ids| + |FlatIds(named[1..])|;
    }
  }

  // ---- The engine ----

  lemma {:induction false} FoundBanks(candidates: seq<BankRow>, found: seq<Item<BankRow>>)
    requires multiset(found) <= multiset(BankItems(candidates))
    ensures BankItems(Refs(found)) == found
    ensures forall r :: r in Refs(found) ==> r in candidates
  {
    forall i | 0 <= i < |found|
      ensures found[i].amount == found[i].ref.amount && found[i].ref in candidates
    {
      assert found[i] in multiset(found);
      assert found[i] in BankItems(candidates);
    }
  }

  lemma {:induction false} FoundGroups(candidates: seq<GoalTxn>, found: seq<Item<GoalTxn>>)
    requires multiset(found) <= multiset(GoalItems(candidates))
    ensures GoalItems(Refs(found)) == found
    ensures forall g :: g in Refs(found) ==> g in candidates
  {
    forall i | 0 <= i < |found|
      ensures found[i].amount == found[i].ref.total && found[i].ref in candidates
    {
      assert found[i] in multiset(found);
      assert found[i] in GoalItems(candidates);
    }
  }

  class Engine {
    var matchedBankIds: set<string>
    var matchedFundIds: set<string>
    var matches: seq<MatchResult>
    /** The matches with the rows they were made from. */
    ghost var ledger: seq<Match>

    ghost predicate Valid()
      reads this
    {
      matches == Results(ledger)
    }

    ghost function Now(): State
      reads this
    {
      State(Claims(matchedBankIds, matchedFundIds), ledger)
    }

    constructor ()
      ensures Valid() && Now() == START
    {
      matchedBankIds, matchedFundIds, matches, ledger := {}, {}, [], [];
    }

    method Claim(result: MatchResult, ghost m: Match)
      requires Valid() && result == Result(m)
      modifies this
      ensures Valid() && Now() == Record(old(Now()), m)
    {
      IdListIds(m.banks);
      FlatIdsMembers(m.groups);
      assert (set id | id in result.fundIds) == FundIdsOf(m.groups);
      matches := matches + [result];
      matchedBankIds := matchedBankIds + (set id | id in result.bankIds);
      matchedFundIds := matchedFundIds + (set id | id in result.fundIds);
      ledger := ledger + [m];
    }

    method UnmatchedBanks(rows: seq<BankRow>) returns (free: seq<BankRow>)
      ensures free == FreeBanks(rows, matchedBankIds)
    {
      free := [];
      for i := 0 to |rows|
        invariant free == FreeBanks(rows[..i], matchedBankIds)
      {
        assert rows[..i + 1] == rows[..i] + [rows[i]];
        FreeBanksSnoc(rows[..i], rows[i], matchedBankIds);
        if rows[i].id !in matchedBankIds {
          free := free + [rows[i]];
        }
      }
      assert rows[..|rows|] == rows;
    }

    method UnmatchedGroups(groups: seq<GoalTxn>) returns (free: seq<GoalTxn>)
      ensures free == FreeGroups(groups, matchedFundIds)
    {
      free := [];
      for i := 0 to |groups|
        invariant free + FreeGroups(groups[i..], matchedFundIds) == FreeGroups(groups, matchedFundIds)
      {
        assert groups[i..][1..] == groups[i + 1..];
        if !Taken(groups[i], matchedFundIds) {
          free := free + [groups[i]];
        }
      }
    }

    /** One manual code: all its unmatched rows against all its free goal transactions. */
    method TryManualCode(code: string, rows: seq<BankRow>, inp: Input)
      requires Valid() && IsManual(code) && WellGrouped(inp.groups)
      requires rows == RowsWithCode(inp.banks, inp.codes, code)
      modifies this
      ensures Valid() && Now() == Attempt(old(Now()), code, inp)
    {
      AllClaimed(rows, matchedBankIds);
      if forall r :: r in rows ==> r.id in matchedBankIds {
        return;
      }
      var colon := IndexOf(code, ':', |MANUAL_PREFIX|);
      if colon.None? {
        return;
      }
      var goalCodes := Split(code[colon.value + 1..], ',');
      ghost var named := AllNamed(goalCodes, inp.groups, matchedFundIds);
      var fundIds, fundTotal := CollectNamed(goalCodes, inp.groups, matchedFundIds);
      SomeIds(goalCodes, inp.groups, matchedFundIds);
      if |fundIds| > 0 {
        var unmatched := UnmatchedBanks(rows);
        ghost var m := Match(Manual, unmatched, named, 1.0);
        Claim(MatchResult(IdList(unmatched), fundIds, Manual, 1.0, BankTotal(unmatched), fundTotal), m);
      }
    }

    method MatchManual(inp: Input)
      requires Valid() && WellGrouped(inp.groups)
      modifies this
      ensures Valid() && Now() == ManualPass(old(Now()), inp.banks, inp)
    {
      var order, byCode := ByManualCode(inp.banks, inp.codes);
      OncePerCode(Now(), inp.banks, inp, {});
      for i := 0 to |order|
        invariant Valid()
        invariant AttemptAll(Now(), order[i..], inp) == ManualPass(old(Now()), inp.banks, inp)
      {
        assert order[i..][1..] == order[i + 1..];
        TryManualCode(order[i], byCode[order[i]], inp);
      }
    }

    method MatchExact(rows: seq<BankRow>, groups: seq<GoalTxn>)
      requires Valid()
      modifies this
      ensures Valid() && Now() == ExactPass(old(Now()), rows, groups)
    {
      for i := 0 to |rows|
        invariant Valid()
        invariant ExactPass(Now(), rows[i..], groups) == ExactPass(old(Now()), rows, groups)
      {
        var b := rows[i];
        assert rows[i..][1..] == rows[i + 1..];
        if b.id in matchedBankIds {
          continue;
        }
        var found := WithSameId(b, groups, matchedFundIds);
        if |found| > 0 {
          var group := found[0];
          if Within(b.amount, group.total, Tolerance(group.total)) {
            SingleGroup(group);
            SingleBank(b);
            Claim(MatchResult([b.id], group.ids, Exact, 1.0, b.amount, group.total), Match(Exact, [b], [group], 1.0));
          }
        }
      }
    }

    method MatchNear(b: BankRow, groups: seq<GoalTxn>)
      requires Valid()
      modifies this
      ensures Valid() && Now() == AmountStep(old(Now()), b, groups)
    {
      if b.id in matchedBankIds {
        return;
      }
      var found := NearestFit(b, groups, matchedFundIds);
      if found.Some? {
        var group := found.value;
        var days := Abs(b.date - group.date) as real / DAY_MS as real;
        var confidence := 0.8 - days / DATE_WINDOW_DAYS as real * 0.3;
        SingleGroup(group);
        SingleBank(b);
        Claim(MatchResult([b.id], group.ids, Amount, confidence, b.amount, group.total),
              Match(Amount, [b], [group], confidence));
      }
    }

    method MatchAmount(rows: seq<BankRow>, groups: seq<GoalTxn>)
      requires Valid()
      modifies this
      ensures Valid() && Now() == AmountPass(old(Now()), rows, groups)
    {
      for i := 0 to |rows|
        invariant Valid()
        invariant AmountPass(Now(), rows[i..], groups) == AmountPass(old(Now()), rows, groups)
      {
        assert rows[i..][1..] == rows[i + 1..];
        MatchNear(rows[i], groups);
      }
    }

    method TrySplitBanks(group: GoalTxn, candidates: seq<BankRow>)
      requires Valid()
      modifies this
      ensures Valid()
      ensures var found := Find(BankItems(candidates), group.total, Tolerance(group.total));
              Now() == if |found| > 1 then Record(old(Now()), Match(SplitBankToFund, Refs(found), [group], 0.7))
                       else old(Now())
    {
      var found := FindCombinationSum(BankItems(candidates), group.total, Tolerance(group.total));
      if |found| > 1 {
        FoundBanks(candidates, found);
        SingleGroup(group);
        Claim(MatchResult(IdList(Refs(found)), group.ids, SplitBankToFund, 0.7, Sum(found), group.total),
              Match(SplitBankToFund, Refs(found), [group], 0.7));
      }
    }

    method SplitBanks(groups: seq<GoalTxn>, rows: seq<BankRow>)
      requires Valid()
      modifies this
      ensures Valid() && Now() == SplitBankPass(old(Now()), groups, rows)
    {
      var buckets := ByDayAndType(rows);
      for i := 0 to |groups|
        invariant Valid()
        invariant SplitBankPass(Now(), groups[i..], rows) == SplitBankPass(old(Now()), groups, rows)
      {
        var group := groups[i];
        assert groups[i..][1..] == groups[i + 1..];
        if Taken(group, matchedFundIds) {
          continue;
        }
        var candidates := UnmatchedBanks(BucketOf(buckets, Day(group.date), group.txnType));
        TrySplitBanks(group, candidates);
      }
    }

    method TrySplitFunds(b: BankRow, candidates: seq<GoalTxn>)
      requires Valid()
      modifies this
      ensures Valid()
      ensures var found := Find(GoalItems(candidates), b.amount, Tolerance(b.amount));
              Now() == if |found| > 1 then Record(old(Now()), Match(SplitFundToBank, [b], Refs(found), 0.7))
                       else old(Now())
    {
      var found := FindCombinationSum(GoalItems(candidates), b.amount, Tolerance(b.amount));
      if |found| > 1 {
        FoundGroups(candidates, found);
        SingleBank(b);
        Claim(MatchResult([b.id], FlatIds(Refs(found)), SplitFundToBank, 0.7, b.amount, Sum(found)),
              Match(SplitFundToBank, [b], Refs(found), 0.7));
      }
    }

    method SplitFunds(rows: seq<BankRow>, groups: seq<GoalTxn>)
      requires Valid()
      modifies this
      ensures Valid() && Now() == SplitFundPass(old(Now()), rows, groups)
    {
      for i := 0 to |rows|
        invariant Valid()
        invariant SplitFundPass(Now(), rows[i..], groups) == SplitFundPass(old(Now()), rows, groups)
      {
        var b := rows[i];
        assert rows[i..][1..] == rows[i + 1..];
        if b.id !in matchedBankIds {
          TrySplitFunds(b, Candidates(groups, b, matchedFundIds));
        }
      }
    }

    /** All passes over one goal. */
    method RunPasses(inp: Input)
      requires Valid() && Now() == START && WellGrouped(inp.groups)
      modifies this
      ensures Valid() && Now() == Run(inp)
    {
      MatchManual(inp);
      MatchExact(inp.banks, inp.groups);
      var banks := UnmatchedBanks(inp.banks);
      var groups := UnmatchedGroups(inp.groups);
      MatchAmount(banks, groups);
      banks := UnmatchedBanks(inp.banks);
      groups := UnmatchedGroups(inp.groups);
      SplitBanks(groups, banks);
      banks := UnmatchedBanks(inp.banks);
      groups := UnmatchedGroups(inp.groups);
      SplitFunds(banks, groups);
    }
  }
}
