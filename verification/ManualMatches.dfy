/** Manual matches: how they are created, removed, written back and found again by the drill-down. */
module ManualMatches {
  import opened Money
  import opened Text
  import opened Transactions
  import opened MatchCode
  import opened Ledger

  datatype Status = Pending | Matched

  datatype CreateResult =
    | Created(bankCount: nat, goalCount: nat, bankTotal: int, goalTotal: int)
    | BankRowsMissing(expected: nat, found: nat)
    | GoalTxnsMissing(expected: nat, found: nat)
    | TotalsDiffer(bankTotal: int, goalTotal: int)

  // 1 UGX in hundredths of a cent
  const MIN_MANUAL_TOLERANCE := 10_000

  /** max(1% of the bank total, 1 UGX), a hundredfold. */
  function ManualTolerance(bankTotal: int): int {
    Max(bankTotal, MIN_MANUAL_TOLERANCE)
  }

  // ---- Lookups ----

  /** The rows of the given ids that exist, each once. */
  function Fetch(rows: map<string, BankRow>, ids: seq<string>, seen: set<string>): seq<BankRow>
    decreases ids
  {
    if ids == [] then []
    else if ids[0] in rows && ids[0] !in seen then [rows[ids[0]]] + Fetch(rows, ids[1..], seen + {ids[0]})
    else Fetch(rows, ids[1..], seen)
  }

  /** A row with an empty goal code counts for nothing. */
  predicate IsNamed(r: FundRow, goalCodes: seq<string>) {
    r.goalCode in goalCodes && r.goalCode != ""
  }

  /** The fund rows of the given goal codes. */
  function NamedRows(funds: seq<FundRow>, goalCodes: seq<string>): seq<FundRow> {
    if funds == [] then []
    else (if IsNamed(funds[0], goalCodes) then [funds[0]] else []) + NamedRows(funds[1..], goalCodes)
  }

  ghost predicate AllExist(rows: map<string, BankRow>, ids: seq<string>) {
    NoRepeat(ids) && forall id :: id in ids ==> id in rows
  }

  ghost predicate HasCode(funds: seq<FundRow>, code: string) {
    code != "" && exists r :: r in funds && r.goalCode == code
  }

  ghost predicate AllNamedExist(funds: seq<FundRow>, goalCodes: seq<string>) {
    NoRepeat(goalCodes) && forall c :: c in goalCodes ==> HasCode(funds, c)
  }

  lemma {:induction false} FetchCount(rows: map<string, BankRow>, ids: seq<string>, seen: set<string>)
    ensures |Fetch(rows, ids, seen)| <= |ids|
    ensures |Fetch(rows, ids, seen)| == |ids| <==>
            NoRepeat(ids) && forall id :: id in ids ==> id in rows && id !in seen
    decreases ids
  {
    if ids != [] {
      var more := seen + {ids[0]};
      FetchCount(rows, ids[1..], more);
      FetchCount(rows, ids[1..], seen);
      NoRepeatCons(ids);
      assert forall id :: id in ids <==> id == ids[0] || id in ids[1..];
    }
  }

  lemma {:induction false} NoRepeatCons<T>(s: seq<T>)
    requires s != []
    ensures NoRepeat(s) <==> s[0] !in s[1..] && NoRepeat(s[1..])
  {
    var tail := s[1..];
    if NoRepeat(s) {
      forall i, j | 0 <= i < j < |tail|
        ensures tail[i] != tail[j]
      {
        assert s[i + 1] != s[j + 1];
      }
    } else if s[0] !in tail && NoRepeat(tail) {
      forall i, j | 0 <= i < j < |s|
        ensures s[i] != s[j]
      {
        assert s[j] == tail[j - 1];
        assert i > 0 ==> s[i] == tail[i - 1];
      }
    }
  }

  lemma {:induction false} NoRepeatSnoc<T>(s: seq<T>, x: T)
    requires NoRepeat(s) && x !in s
    ensures NoRepeat(s + [x])
    ensures forall y :: y in s + [x] <==> y in s || y == x
  {
  }

  /** When every id exists once, the fetched rows are the rows of the ids in order. */
  lemma {:induction false} FetchAll(rows: map<string, BankRow>, ids: seq<string>, seen: set<string>)
    requires NoRepeat(ids) && forall id :: id in ids ==> id in rows && id !in seen
    ensures var found := Fetch(rows, ids, seen);
            |found| == |ids| && forall i :: 0 <= i < |ids| ==> found[i] == rows[ids[i]]
    decreases ids
  {
    if ids != [] {
      NoRepeatCons(ids);
      FetchAll(rows, ids[1..], seen + {ids[0]});
    }
  }

  // ---- Summing fund rows per goal code ----

  function MapTotal(order: seq<string>, sums: map<string, int>): int
    requires forall c :: c in order ==> c in sums
  {
    if order == [] then 0 else sums[order[0]] + MapTotal(order[1..], sums)
  }

  lemma {:induction false} MapTotalOther(order: seq<string>, sums: map<string, int>, code: string, amount: int)
    requires (forall c :: c in order ==> c in sums) && code !in order
    ensures MapTotal(order, sums[code := amount]) == MapTotal(order, sums)
  {
    if order != [] {
      MapTotalOther(order[1..], sums, code, amount);
    }
  }

  lemma {:induction false} MapTotalAdd(order: seq<string>, sums: map<string, int>, code: string, amount: int)
    requires (forall c :: c in order ==> c in sums) && code in order && NoRepeat(order)
    ensures MapTotal(order, sums[code := sums[code] + amount]) == MapTotal(order, sums) + amount
  {
    NoRepeatCons(order);
    if order[0] == code {
      MapTotalOther(order[1..], sums, code, sums[code] + amount);
    } else {
      MapTotalAdd(order[1..], sums, code, amount);
    }
  }

  lemma {:induction false} MapTotalOpen(order: seq<string>, sums: map<string, int>, code: string, amount: int)
    requires (forall c :: c in order ==> c in sums) && code !in order
    ensures MapTotal(order + [code], sums[code := amount]) == MapTotal(order, sums) + amount
  {
    if order == [] {
      assert [] + [code] == [code] && [code][1..] == [];
    } else {
      assert (order + [code])[1..] == order[1..] + [code];
      MapTotalOpen(order[1..], sums, code, amount);
    }
  }

  lemma {:induction false} NamedRowsSnoc(funds: seq<FundRow>, r: FundRow, goalCodes: seq<string>)
    ensures NamedRows(funds + [r], goalCodes) ==
            NamedRows(funds, goalCodes) + (if IsNamed(r, goalCodes) then [r] else [])
  {
    if funds != [] {
      assert (funds + [r])[1..] == funds[1..] + [r];
      NamedRowsSnoc(funds[1..], r, goalCodes);
    }
  }

  /** order lists the named codes that have fund rows. */
  ghost predicate CodesFound(order: seq<string>, funds: seq<FundRow>, goalCodes: seq<string>) {
    forall c :: c in order <==> c in goalCodes && HasCode(funds, c)
  }

  lemma {:induction false} CodesFoundSnoc(order: seq<string>, done: seq<FundRow>, r: FundRow, goalCodes: seq<string>)
    requires CodesFound(order, done, goalCodes)
    ensures !IsNamed(r, goalCodes) || r.goalCode in order ==> CodesFound(order, done + [r], goalCodes)
    ensures IsNamed(r, goalCodes) ==> CodesFound(order + [r.goalCode], done + [r], goalCodes)
  {
    HasCodeSnoc(done, r);
    assert forall c :: c in order + [r.goalCode] <==> c in order || c == r.goalCode;
  }

  ghost predicate SameKeys(order: seq<string>, sums: map<string, int>) {
    forall c :: c in order <==> c in sums
  }

  /** order and sums are an insertion-ordered map from each named code to the sum of its rows. */
  ghost predicate SumsOf(order: seq<string>, sums: map<string, int>, funds: seq<FundRow>, goalCodes: seq<string>) {
    && SameKeys(order, sums)
    && NoRepeat(order) && CodesFound(order, funds, goalCodes)
    && MapTotal(order, sums) == FundTotal(NamedRows(funds, goalCodes))
  }

  lemma {:induction false} HasCodeSnoc(funds: seq<FundRow>, r: FundRow)
    ensures forall c :: HasCode(funds + [r], c) <==> HasCode(funds, c) || (c == r.goalCode && c != "")
  {
    assert forall x :: x in funds + [r] <==> x in funds || x == r;
    assert r in funds + [r];
  }

  lemma {:induction false} SumsSkip(order: seq<string>, sums: map<string, int>, r: FundRow, done: seq<FundRow>,
                                    goalCodes: seq<string>)
    requires SumsOf(order, sums, done, goalCodes) && !IsNamed(r, goalCodes)
    ensures SumsOf(order, sums, done + [r], goalCodes)
  {
    NamedRowsSnoc(done, r, goalCodes);
    CodesFoundSnoc(order, done, r, goalCodes);
    assert NamedRows(done, goalCodes) + [] == NamedRows(done, goalCodes);
  }

  lemma {:induction false} NamedTotalSnoc(done: seq<FundRow>, r: FundRow, goalCodes: seq<string>)
    requires IsNamed(r, goalCodes)
    ensures FundTotal(NamedRows(done + [r], goalCodes)) == FundTotal(NamedRows(done, goalCodes)) + r.amount
  {
    NamedRowsSnoc(done, r, goalCodes);
    FundTotalSnoc(NamedRows(done, goalCodes), r);
  }

  lemma {:induction false} SumsAdd(order: seq<string>, sums: map<string, int>, r: FundRow, done: seq<FundRow>,
                                   goalCodes: seq<string>)
    requires SumsOf(order, sums, done, goalCodes) && IsNamed(r, goalCodes) && r.goalCode in sums
    ensures SumsOf(order, sums[r.goalCode := sums[r.goalCode] + r.amount], done + [r], goalCodes)
  {
    CodesFoundSnoc(order, done, r, goalCodes);
    UpdateTotal(order, sums, r, done, goalCodes);
  }

  lemma {:induction false} UpdateTotal(order: seq<string>, sums: map<string, int>, r: FundRow, done: seq<FundRow>,
                                       goalCodes: seq<string>)
    requires SameKeys(order, sums) && NoRepeat(order) && r.goalCode in sums && IsNamed(r, goalCodes)
    requires MapTotal(order, sums) == FundTotal(NamedRows(done, goalCodes))
    ensures var next := sums[r.goalCode := sums[r.goalCode] + r.amount];
            SameKeys(order, next) && MapTotal(order, next) == FundTotal(NamedRows(done + [r], goalCodes))
  {
    NamedTotalSnoc(done, r, goalCodes);
    MapTotalAdd(order, sums, r.goalCode, r.amount);
  }

  lemma {:induction false} SumsOpen(order: seq<string>, sums: map<string, int>, r: FundRow, done: seq<FundRow>,
                                    goalCodes: seq<string>)
    requires SumsOf(order, sums, done, goalCodes) && IsNamed(r, goalCodes) && r.goalCode !in sums
    ensures SumsOf(order + [r.goalCode], sums[r.goalCode := r.amount], done + [r], goalCodes)
  {
    NamedTotalSnoc(done, r, goalCodes);
    CodesFoundSnoc(order, done, r, goalCodes);
    MapTotalOpen(order, sums, r.goalCode, r.amount);
    NoRepeatSnoc(order, r.goalCode);
  }

  method SumByCode(funds: seq<FundRow>, goalCodes: seq<string>) returns (order: seq<string>, sums: map<string, int>)
    ensures SumsOf(order, sums, funds, goalCodes)
  {
    order, sums := [], map[];
    for i := 0 to |funds|
      invariant SumsOf(order, sums, funds[..i], goalCodes)
    {
      assert funds[..i + 1] == funds[..i] + [funds[i]];
      order, sums := PushSum(order, sums, funds[i], funds[..i], goalCodes);
    }
    assert funds[..|funds|] == funds;
  }

  method PushSum(order0: seq<string>, sums0: map<string, int>, r: FundRow, ghost done: seq<FundRow>,
                 goalCodes: seq<string>)
    returns (order: seq<string>, sums: map<string, int>)
    requires SumsOf(order0, sums0, done, goalCodes)
    ensures SumsOf(order, sums, done + [r], goalCodes)
  {
    order, sums := order0, sums0;
    if !IsNamed(r, goalCodes) {
      SumsSkip(order, sums, r, done, goalCodes);
    } else if r.goalCode in sums {
      SumsAdd(order, sums, r, done, goalCodes);
      sums := sums[r.goalCode := sums[r.goalCode] + r.amount];
    } else {
      SumsOpen(order, sums, r, done, goalCodes);
      order := order + [r.goalCode];
      sums := sums[r.goalCode := r.amount];
    }
  }

  lemma {:induction false} CountOfDistinct(order: seq<string>, goalCodes: seq<string>, funds: seq<FundRow>)
    requires NoRepeat(order) && CodesFound(order, funds, goalCodes)
    ensures |order| == |goalCodes| <==> AllNamedExist(funds, goalCodes)
  {
    if AllNamedExist(funds, goalCodes) {
      SameElementsSameLength(order, goalCodes);
    } else if |order| == |goalCodes| {
      CoverIsExact(order, goalCodes);
      assert false;
    }
  }

  lemma {:induction false} SetOfNoRepeat<T>(s: seq<T>)
    ensures |(set x | x in s)| <= |s|
    ensures |(set x | x in s)| == |s| <==> NoRepeat(s)
  {
    if s != [] {
      NoRepeatCons(s);
      SetOfNoRepeat(s[1..]);
      assert (set x | x in s) == {s[0]} + (set x | x in s[1..]);
    }
  }

  lemma {:induction false} SameElementsSameLength<T>(a: seq<T>, b: seq<T>)
    requires NoRepeat(a) && NoRepeat(b) && forall x :: x in a <==> x in b
    ensures |a| == |b|
  {
    SetOfNoRepeat(a);
    SetOfNoRepeat(b);
    assert (set x | x in a) == (set x | x in b);
  }

  /** Distinct elements of b, as many as b is long, are all of b, and b has no repetition. */
  lemma {:induction false} CoverIsExact<T>(a: seq<T>, b: seq<T>)
    requires NoRepeat(a) && |a| == |b| && forall x :: x in a ==> x in b
    ensures NoRepeat(b) && forall x :: x in b ==> x in a
  {
    SetOfNoRepeat(a);
    SetOfNoRepeat(b);
    var sa, sb := set x | x in a, set x | x in b;
    assert sa <= sb;
    SubsetSizes(sa, sb);
    forall x | x in b
      ensures x in a
    {
      assert x in sb;
    }
  }

  lemma {:induction false} SubsetSizes<T>(a: set<T>, b: set<T>)
    requires a <= b
    ensures |a| <= |b|
    ensures |a| == |b| ==> a == b
  {
    assert b == a + (b - a);
    assert |b| == |a| + |b - a|;
  }

  // ---- The bank table ----

  class BankTable {
    var rows: map<string, BankRow>
    var funds: seq<FundRow>
    var codes: map<string, string>
    var status: map<string, Status>

    ghost predicate Valid()
      reads this
    {
      && (forall id :: id in rows ==> rows[id].id == id)
      && codes.Keys <= rows.Keys
    }

    /** Link bank rows to goal transactions; nothing changes unless all checks pass. */
    method CreateManualMatch(bankIds: seq<string>, goalCodes: seq<string>, now: nat) returns (r: CreateResult)
      requires Valid()
      modifies this`codes, this`status
      ensures Valid()
      ensures r.BankRowsMissing? <==> !AllExist(rows, bankIds)
      ensures r.GoalTxnsMissing? <==> AllExist(rows, bankIds) && !AllNamedExist(funds, goalCodes)
      ensures r.TotalsDiffer? || r.Created? ==>
                r.bankTotal == BankTotal(Fetch(rows, bankIds, {})) &&
                    r.goalTotal == FundTotal(NamedRows(funds, goalCodes))
      ensures r.TotalsDiffer? ==> !Within(r.bankTotal, r.goalTotal, ManualTolerance(r.bankTotal))
      ensures r.Created? ==>
                && Within(r.bankTotal, r.goalTotal, ManualTolerance(r.bankTotal))
                && r.bankCount == |bankIds| && r.goalCount == |goalCodes|
                && codes == old(codes) + (map id | id in bankIds :: ManualCode(Decimal(now), goalCodes))
                && status == old(status) + (map id | id in bankIds :: Matched)
      ensures !r.Created? ==> codes == old(codes) && status == old(status)
    {
      FetchCount(rows, bankIds, {});
      var bankRows := Fetch(rows, bankIds, {});
      if |bankRows| != |bankIds| {
        return BankRowsMissing(|bankIds|, |bankRows|);
      }
      var order, sums := SumByCode(funds, goalCodes);
      CountOfDistinct(order, goalCodes, funds);
      if |order| != |goalCodes| {
        return GoalTxnsMissing(|goalCodes|, |order|);
      }
      var bankTotal := BankTotal(bankRows);
      var goalTotal := MapTotal(order, sums);
      if 100 * Abs(bankTotal - goalTotal) > Max(bankTotal, MIN_MANUAL_TOLERANCE) {
        return TotalsDiffer(bankTotal, goalTotal);
      }
      var code := ManualCode(Decimal(now), goalCodes);
      codes := codes + map id | id in bankIds :: code;
      status := status + map id | id in bankIds :: Matched;
      r := Created(|bankRows|, |goalCodes|, bankTotal, goalTotal);
    }

    /** Clear the codes of the given rows. */
    method Clear(ids: set<string>)
      requires Valid()
      modifies this`codes, this`status
      ensures Valid() && codes == old(codes) - ids && status == old(status) + Reopened(ids)
    {
      codes := codes - ids;
      status := status + Reopened(ids);
    }

    /** Unlink rows by their ids, by plain goal codes, and by goal codes inside manual codes. */
    method RemoveManualMatch(bankIds: seq<string>, goalCodes: seq<string>) returns (unmatched: nat)
      requires Valid()
      modifies this`codes, this`status
      ensures Valid()
      ensures var cleared := ClearedBy(rows, old(codes), bankIds, goalCodes);
              && codes == old(codes) - cleared
              && status == old(status) + Reopened(cleared)
              && (forall id :: id in cleared ==> id in status && status[id] == Pending)
              && unmatched == |cleared|
    {
      unmatched := 0;
      ghost var byId := set id | id in bankIds && id in rows;
      ClearNothing(codes, status);
      if |bankIds| > 0 {
        unmatched := ClearIds(bankIds);
      }
      ghost var left := codes;
      assert left == old(codes) - byId && status == old(status) + Reopened(byId);
      ClearedParts(rows, old(codes), bankIds, goalCodes);
      ClearTwice(old(codes), old(status), byId, ByGoal(left, goalCodes));
      ClearNothing(codes, status);
      if |goalCodes| > 0 {
        var more := ClearCodes(goalCodes);
        unmatched := unmatched + more;
      }
    }

    method ClearCodes(goalCodes: seq<string>) returns (n: nat)
      requires Valid()
      modifies this`codes, this`status
      ensures Valid()
      ensures var hit := ByGoal(old(codes), goalCodes);
              codes == old(codes) - hit && status == old(status) + Reopened(hit) && n == |hit|
    {
      var hit := Carrying(codes, goalCodes);
      Clear(hit);
      ghost var left := codes;
      var inside := ClearMentions(goalCodes);
      ClearTwice(old(codes), old(status), hit, Mentioning(left, goalCodes));
      ByGoalParts(old(codes), goalCodes);
      n := |hit| + inside;
    }

    method ClearIds(bankIds: seq<string>) returns (n: nat)
      requires Valid()
      modifies this`codes, this`status
      ensures Valid()
      ensures var hit := set id | id in bankIds && id in rows;
              codes == old(codes) - hit && status == old(status) + Reopened(hit) && n == |hit|
    {
      var hit := set id | id in bankIds && id in rows;
      Clear(hit);
      n := |hit|;
    }

    /** One update for each goal code, counting the rows each update reaches. */
    method ClearMentions(goalCodes: seq<string>) returns (n: nat)
      requires Valid()
      modifies this`codes, this`status
      ensures Valid()
      ensures var hit := Mentioning(old(codes), goalCodes);
              codes == old(codes) - hit && status == old(status) + Reopened(hit) && n == |hit|
    {
      n := 0;
      ghost var gone: set<string> := {};
      assert status + Reopened({}) == status;
      for i := 0 to |goalCodes|
        invariant Valid() && gone == Mentioning(old(codes), goalCodes[..i])
        invariant codes == old(codes) - gone && status == old(status) + Reopened(gone) && n == |gone|
      {
        var inside := set id | id in codes && IsManual(codes[id]) && Contains(codes[id], goalCodes[i]);
        MentioningSnoc(old(codes), goalCodes, i);
        Clear(inside);
        ClearTwice(old(codes), old(status), gone, inside);
        n := n + |inside|;
        gone := gone + inside;
      }
      assert goalCodes[..|goalCodes|] == goalCodes;
    }
  }

  /** The status that cleared rows get. */
  function Reopened(ids: set<string>): map<string, Status> {
    map id | id in ids :: Pending
  }

  lemma {:induction false} ClearTwice(codes: map<string, string>, status: map<string, Status>, a: set<string>,
                                      b: set<string>)
    ensures codes - a - b == codes - (a + b)
    ensures status + Reopened(a) + Reopened(b) == status + Reopened(a + b)
    ensures a !! b ==> |a + b| == |a| + |b|
  {
  }

  lemma {:induction false} MentioningSnoc(codes: map<string, string>, goalCodes: seq<string>, i: nat)
    requires i < |goalCodes|
    ensures var gone := Mentioning(codes, goalCodes[..i]);
            var left := codes - gone;
            var inside := set id | id in left && IsManual(left[id]) && Contains(left[id], goalCodes[i]);
            gone !! inside && gone + inside == Mentioning(codes, goalCodes[..i + 1])
  {
    MentionsSnoc(goalCodes, i);
  }

  lemma {:induction false} ClearNothing(codes: map<string, string>, status: map<string, Status>)
    ensures codes - {} == codes && status + Reopened({}) == status
  {
  }

  /** What the goal codes clear as plain codes, and inside manual codes among the rest. */
  lemma {:induction false} ByGoalParts(codes: map<string, string>, goalCodes: seq<string>)
    ensures var hit := Carrying(codes, goalCodes);
            var inside := Mentioning(codes - hit, goalCodes);
            hit !! inside && hit + inside == ByGoal(codes, goalCodes)
  {
  }

  /** What the ids clear, and what the goal codes clear among the rest. */
  lemma {:induction false} ClearedParts(rows: map<string, BankRow>, codes: map<string, string>, bankIds: seq<string>,
                                        goalCodes: seq<string>)
    ensures var byId := set id | id in bankIds && id in rows;
            var byGoal := ByGoal(codes - byId, goalCodes);
            && byId !! byGoal
            && byId + byGoal == ClearedBy(rows, codes, bankIds, goalCodes)
            && (bankIds == [] ==> byId == {})
            && (goalCodes == [] ==> byGoal == {})
  {
  }

  /** Some goal code occurs in the stored code as a substring. */
  predicate Mentions(code: string, goalCodes: seq<string>) {
    exists c :: c in goalCodes && Contains(code, c)
  }

  lemma {:induction false} MentionsSnoc(goalCodes: seq<string>, i: nat)
    requires i < |goalCodes|
    ensures forall code :: Mentions(code, goalCodes[..i + 1]) <==>
                           Mentions(code, goalCodes[..i]) || Contains(code, goalCodes[i])
  {
    assert goalCodes[..i + 1] == goalCodes[..i] + [goalCodes[i]];
    assert forall c :: c in goalCodes[..i + 1] <==> c in goalCodes[..i] || c == goalCodes[i];
    assert goalCodes[i] in goalCodes[..i + 1];
  }

  /** The rows whose stored code is one of the goal codes. */
  function Carrying(codes: map<string, string>, goalCodes: seq<string>): set<string> {
    set id | id in codes && codes[id] in goalCodes
  }

  /** The rows whose manual code has one of the goal codes as a substring. */
  function Mentioning(codes: map<string, string>, goalCodes: seq<string>): set<string> {
    set id | id in codes && IsManual(codes[id]) && Mentions(codes[id], goalCodes)
  }

  /** The rows that the goal codes clear. */
  function ByGoal(codes: map<string, string>, goalCodes: seq<string>): set<string> {
    Carrying(codes, goalCodes) + Mentioning(codes, goalCodes)
  }

  /** The rows that removal clears. */
  function ClearedBy(rows: map<string, BankRow>, codes: map<string, string>, bankIds: seq<string>,
                     goalCodes: seq<string>): set<string> {
    (set id | id in bankIds && id in rows) + ByGoal(codes, goalCodes)
  }
}
