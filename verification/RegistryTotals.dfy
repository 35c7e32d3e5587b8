/** The fast unit registry agrees with the simple one, and its totals with its parts. */
module RegistryTotals {
  import opened Text
  import opened UnitRegistry

  // ---- Pricing sums ----

  lemma {:induction false} ValueOfPlus(a: Units, b: Units, prices: Units)
    ensures ValueOf(Plus(a, b), prices) == ValueOf(a, prices) + ValueOf(b, prices)
  {
  }

  lemma {:induction false} ValueOfZero(prices: Units)
    ensures ValueOf(ZERO, prices) == 0.0
  {
  }

  lemma {:induction false} PlusZero(u: Units)
    ensures Plus(ZERO, u) == u && Plus(u, ZERO) == u
  {
  }

  lemma {:induction false} PlusSwap(a: Units, b: Units, c: Units, d: Units)
    ensures Plus(Plus(a, b), Plus(c, d)) == Plus(Plus(a, c), Plus(b, d))
  {
  }

  ghost predicate AllPriced(entries: seq<Entry>, prices: Units) {
    forall e :: e in entries ==> e.values == Priced(e.units, prices) && e.value == ValueOf(e.units, prices)
  }

  /** Pricing the summed units, as the fast form does, is summing the priced entries, as the simple one does. */
  lemma {:induction false} PricingSumsIsSummingPrices(entries: seq<Entry>, prices: Units)
    requires AllPriced(entries, prices)
    ensures ValueOf(UnitTotal(entries), prices) == ValueTotal(entries)
  {
    ValueOfZero(prices);
    if entries != [] {
      assert entries[0] in entries;
      assert forall e :: e in entries[1..] ==> e in entries;
      PricingSumsIsSummingPrices(entries[1..], prices);
      ValueOfPlus(entries[0].units, UnitTotal(entries[1..]), prices);
    }
  }

  lemma {:induction false} SlowEntriesPriced(accounts: seq<Account>, txns: seq<Txn>, prices: Units, includeZero: bool)
    ensures AllPriced(SlowEntries(accounts, txns, prices, includeZero), prices)
  {
    if accounts != [] {
      SlowEntriesPriced(accounts[1..], txns, prices, includeZero);
    }
  }

  lemma {:induction false} AccountRowsPriced(accounts: seq<Account>, txns: seq<Txn>, goals: seq<Goal>, asOf: int,
                                             prices: Units)
    ensures AllPriced(AccountRows(accounts, txns, goals, asOf, prices), prices)
  {
    if accounts != [] {
      AccountRowsPriced(accounts[1..], txns, goals, asOf, prices);
    }
  }

  lemma {:induction false} FundedMembers(rows: seq<Entry>, threshold: Option<real>, e: Entry)
    ensures e in Funded(rows, threshold) <==> e in rows && (threshold.Some? ==> e.value >= threshold.value)
  {
    if rows != [] {
      FundedMembers(rows[1..], threshold, e);
      assert rows == [rows[0]] + rows[1..];
    }
  }

  // ---- The same units for an account ----

  /** Every transaction belongs to one goal, and is booked on the account of that goal. */
  ghost predicate WellBooked(txns: seq<Txn>, goals: seq<Goal>) {
    && DistinctGoals(goals)
    && (forall t :: t in txns ==> Goal(t.goal, t.account) in goals)
  }

  lemma {:induction false} NotJoined(t: Txn, goals: seq<Goal>, account: string, asOf: int)
    requires !Joins(t, goals, account, asOf)
    ensures JoinedUnits(t, goals, account, asOf) == ZERO
  {
    if goals != [] {
      assert goals[0] in goals;
      assert forall g :: g in goals[1..] ==> g in goals;
      NotJoined(t, goals[1..], account, asOf);
      PlusZero(ZERO);
    }
  }

  ghost predicate DistinctGoals(goals: seq<Goal>) {
    forall i, j :: 0 <= i < j < |goals| ==> goals[i].id != goals[j].id
  }

  lemma {:induction false} OnlyFirst(goals: seq<Goal>, g: Goal)
    requires goals != [] && DistinctGoals(goals) && g in goals[1..]
    ensures g.id != goals[0].id
  {
    var j :| 0 <= j < |goals[1..]| && goals[1..][j] == g;
    assert goals[j + 1] == g;
  }

  lemma {:induction false} JoinedOnce(t: Txn, goals: seq<Goal>, account: string, asOf: int)
    requires DistinctGoals(goals) && Goal(t.goal, t.account) in goals
    ensures JoinedUnits(t, goals, account, asOf) == if t.account == account && t.day <= asOf then UnitsOf(t) else ZERO
  {
    var g := Goal(t.goal, t.account);
    forall x | x in goals[1..]
      ensures x.id != goals[0].id
    {
      OnlyFirst(goals, x);
    }
    if goals[0] == g {
      NotJoined(t, goals[1..], account, asOf);
      PlusZero(JoinedWith(t, g, account, asOf));
    } else {
      assert g in goals[1..];
      JoinedOnce(t, goals[1..], account, asOf);
      PlusZero(JoinedUnits(t, goals[1..], account, asOf));
    }
  }

  /** No transaction is later than asOf. */
  ghost predicate AllBy(txns: seq<Txn>, asOf: int) {
    forall t :: t in txns ==> t.day <= asOf
  }

  lemma {:induction false} SameUnits(txns: seq<Txn>, goals: seq<Goal>, account: string, asOf: int)
    requires WellBooked(txns, goals) && AllBy(txns, asOf)
    ensures AccountUnits(txns, goals, account, asOf) == Held(txns, account)
  {
    if txns != [] {
      assert txns[0] in txns;
      assert forall t :: t in txns[1..] ==> t in txns;
      JoinedOnce(txns[0], goals, account, asOf);
      SameUnits(txns[1..], goals, account, asOf);
    }
  }

  lemma {:induction false} NoRowsNoUnits(txns: seq<Txn>, goals: seq<Goal>, account: string, asOf: int)
    requires !HasRows(txns, goals, account, asOf)
    ensures AccountUnits(txns, goals, account, asOf) == ZERO
  {
    if txns != [] {
      assert txns[0] in txns;
      assert forall t :: t in txns[1..] ==> t in txns;
      NotJoined(txns[0], goals, account, asOf);
      NoRowsNoUnits(txns[1..], goals, account, asOf);
      PlusZero(ZERO);
    }
  }

  /** The totals of a list with one entry before it, or none. */
  lemma {:induction false} TotalPossiblyFirst(listed: bool, e: Entry, rest: seq<Entry>, all: seq<Entry>)
    requires all == (if listed then [e] else []) + rest
    ensures listed ==> UnitTotal(all) == Plus(e.units, UnitTotal(rest)) && ValueTotal(all) == e.value + ValueTotal(rest)
    ensures !listed ==> all == rest
  {
    if listed {
      TotalFirst(e, rest);
    }
  }

  lemma {:induction false} SlowTotalFirst(accounts: seq<Account>, txns: seq<Txn>, prices: Units, includeZero: bool)
    requires accounts != []
    ensures var all := SlowEntries(accounts, txns, prices, includeZero);
            var rest := SlowEntries(accounts[1..], txns, prices, includeZero);
            var e := SlowEntry(accounts[0], txns, prices);
            if Listed(accounts[0], txns, includeZero)
            then UnitTotal(all) == Plus(e.units, UnitTotal(rest)) && ValueTotal(all) == e.value + ValueTotal(rest)
            else all == rest
  {
    TotalPossiblyFirst(Listed(accounts[0], txns, includeZero), SlowEntry(accounts[0], txns, prices),
                       SlowEntries(accounts[1..], txns, prices, includeZero),
                       SlowEntries(accounts, txns, prices, includeZero));
  }

  lemma {:induction false} FastRowsFirst(accounts: seq<Account>, txns: seq<Txn>, goals: seq<Goal>, asOf: int,
                                         prices: Units)
    requires accounts != []
    ensures var all := AccountRows(accounts, txns, goals, asOf, prices);
            var rest := AccountRows(accounts[1..], txns, goals, asOf, prices);
            if HasRows(txns, goals, accounts[0].id, asOf)
            then UnitTotal(all) == Plus(AccountRow(accounts[0], txns, goals, asOf, prices).units, UnitTotal(rest))
            else all == rest
  {
    TotalPossiblyFirst(HasRows(txns, goals, accounts[0].id, asOf), AccountRow(accounts[0], txns, goals, asOf, prices),
                       AccountRows(accounts[1..], txns, goals, asOf, prices),
                       AccountRows(accounts, txns, goals, asOf, prices));
  }

  lemma {:induction false} FastTotalFirst(accounts: seq<Account>, txns: seq<Txn>, goals: seq<Goal>, asOf: int,
                                          prices: Units)
    requires accounts != []
    ensures var all := AccountRows(accounts, txns, goals, asOf, prices);
            var rest := AccountRows(accounts[1..], txns, goals, asOf, prices);
            UnitTotal(all) == Plus(AccountUnits(txns, goals, accounts[0].id, asOf), UnitTotal(rest))
  {
    FastRowsFirst(accounts, txns, goals, asOf, prices);
    if !HasRows(txns, goals, accounts[0].id, asOf) {
      NoRowsNoUnits(txns, goals, accounts[0].id, asOf);
      PlusZero(UnitTotal(AccountRows(accounts[1..], txns, goals, asOf, prices)));
    }
  }

  /** The fast rows and the simple entries with zero balances hold the same units in all. */
  lemma {:induction false} SameTotals(accounts: seq<Account>, txns: seq<Txn>, goals: seq<Goal>, asOf: int,
                                      prices: Units)
    requires WellBooked(txns, goals) && AllBy(txns, asOf)
    ensures UnitTotal(AccountRows(accounts, txns, goals, asOf, prices)) ==
              UnitTotal(SlowEntries(accounts, txns, prices, true))
  {
    if accounts != [] {
      SameTotals(accounts[1..], txns, goals, asOf, prices);
      SameUnits(txns, goals, accounts[0].id, asOf);
      FastTotalFirst(accounts, txns, goals, asOf, prices);
      SlowTotalFirst(accounts, txns, prices, true);
    }
  }

  lemma {:induction false} TotalFirst(e: Entry, rest: seq<Entry>)
    ensures UnitTotal([e] + rest) == Plus(e.units, UnitTotal(rest))
    ensures ValueTotal([e] + rest) == e.value + ValueTotal(rest)
  {
    assert ([e] + rest)[1..] == rest;
  }

  /** The fast summary without a threshold is the simple summary with zero balances: units and value. */
  lemma {:induction false} FastRefinesSlow(accounts: seq<Account>, txns: seq<Txn>, goals: seq<Goal>, asOf: int,
                                           prices: Units, sort: SortBy, descending: bool, offset: nat, limit: nat)
    requires WellBooked(txns, goals) && AllBy(txns, asOf)
    ensures var slow := SlowEntries(accounts, txns, prices, true);
            var rows := AccountRows(accounts, txns, goals, asOf, prices);
            var fast := FastRegistry(rows, prices, None, sort, descending, offset, limit);
            fast.summary.units == UnitTotal(slow) && fast.summary.value == ValueTotal(slow)
  {
    var rows := AccountRows(accounts, txns, goals, asOf, prices);
    SameTotals(accounts, txns, goals, asOf, prices);
    AccountRowsPriced(accounts, txns, goals, asOf, prices);
    PricingSumsIsSummingPrices(rows, prices);
    SlowEntriesPriced(accounts, txns, prices, true);
    PricingSumsIsSummingPrices(SlowEntries(accounts, txns, prices, true), prices);
    EverythingFunded(rows);
  }

  lemma {:induction false} EverythingFunded(rows: seq<Entry>)
    ensures Funded(rows, None) == rows
  {
    if rows != [] {
      EverythingFunded(rows[1..]);
    }
  }

  /** With a threshold the summary leaves out exactly the worth of the accounts below it. */
  lemma {:induction false} FundedTotals(rows: seq<Entry>, threshold: real, prices: Units)
    requires AllPriced(rows, prices)
    ensures ValueOf(UnitTotal(Funded(rows, Some(threshold))), prices) + ValueTotal(Unfunded(rows, threshold)) ==
              ValueTotal(rows)
  {
    var funded := Funded(rows, Some(threshold));
    forall e | e in funded
      ensures e in rows
    {
      FundedMembers(rows, Some(threshold), e);
    }
    PricingSumsIsSummingPrices(funded, prices);
    FundedAndNot(rows, threshold);
  }

  function Unfunded(rows: seq<Entry>, threshold: real): seq<Entry> {
    if rows == [] then [] else (if rows[0].value < threshold then [rows[0]] else []) + Unfunded(rows[1..], threshold)
  }

  lemma {:induction false} FundedAndNot(rows: seq<Entry>, threshold: real)
    ensures ValueTotal(Funded(rows, Some(threshold))) + ValueTotal(Unfunded(rows, threshold)) == ValueTotal(rows)
  {
    if rows != [] {
      FundedAndNot(rows[1..], threshold);
      var funded, other := Funded(rows[1..], Some(threshold)), Unfunded(rows[1..], threshold);
      assert [] + funded == funded && [] + other == other;
      assert ([rows[0]] + funded)[1..] == funded && ([rows[0]] + other)[1..] == other;
    }
  }

  // ---- Zero balances ----

  /** The worth of the accounts whose units add up to zero across their funds. */
  function LeftOut(accounts: seq<Account>, txns: seq<Txn>, prices: Units): real {
    if accounts == [] then 0.0
    else
      (if Listed(accounts[0], txns, false) then 0.0 else ValueOf(Held(txns, accounts[0].id),
          prices)) + LeftOut(accounts[1..], txns, prices)
  }

  /** What the total of the simple form lacks when it leaves these accounts out, which need not be nothing. */
  lemma {:induction false} ZeroBalancesLeaveOut(accounts: seq<Account>, txns: seq<Txn>, prices: Units)
    ensures ValueTotal(SlowEntries(accounts, txns, prices, false)) + LeftOut(accounts, txns, prices)
         == ValueTotal(SlowEntries(accounts, txns, prices, true))
  {
    if accounts != [] {
      ZeroBalancesLeaveOut(accounts[1..], txns, prices);
      SlowTotalFirst(accounts, txns, prices, false);
      SlowTotalFirst(accounts, txns, prices, true);
    }
  }

  lemma {:induction false} HeldOfTwo(s: Txn, t: Txn)
    requires s.account == t.account
    ensures Held([s, t], s.account) == Plus(UnitsOf(s), UnitsOf(t))
  {
    HeldOfOne(t);
    assert [s, t][1..] == [t];
  }

  lemma {:induction false} HeldOfOne(t: Txn)
    ensures Held([t], t.account) == UnitsOf(t)
  {
    assert [t][1..] == [];
    PlusZero(UnitsOf(t));
  }

  /** One unit sold in a fund and one bought in a dearer one: the account is worth something and is left out. */
  lemma {:induction false} WorthButLeftOut(a: Account, bought: Txn, sold: Txn, prices: Units)
    requires bought.account == sold.account == a.id
    requires bought.fund == Xubf && sold.fund == Xummf && sold.units == -bought.units
    ensures SlowEntries([a], [bought, sold], prices, false) == []
    ensures LeftOut([a], [bought, sold], prices) == bought.units * (prices.xubf - prices.xummf)
  {
    HeldOfTwo(bought, sold);
    TwoFunds(bought.units, prices);
    assert [a][1..] == [];
  }

  lemma {:induction false} TwoFunds(units: real, prices: Units)
    ensures ValueOf(Units(-units, units, 0.0, 0.0), prices) == units * (prices.xubf - prices.xummf)
    ensures Across(Units(-units, units, 0.0, 0.0)) == 0.0
  {
  }

  // ---- The goals of an account ----

  function BalanceTotal(balances: seq<GoalBalance>): Units {
    if balances == [] then ZERO else Plus(balances[0].units, BalanceTotal(balances[1..]))
  }

  function WorthTotal(balances: seq<GoalBalance>): real {
    if balances == [] then 0.0 else balances[0].value + WorthTotal(balances[1..])
  }

  lemma {:induction false} NoTxnsNoUnits(txns: seq<Txn>, goal: string, asOf: Option<int>)
    requires !HasTxns(txns, goal, asOf)
    ensures GoalUnits(txns, goal, asOf) == ZERO
  {
    if txns != [] {
      assert txns[0] in txns;
      assert forall t :: t in txns[1..] ==> t in txns;
      NoTxnsNoUnits(txns[1..], goal, asOf);
      PlusZero(ZERO);
    }
  }

  function OwnGoalUnits(txns: seq<Txn>, g: Goal, account: string, asOf: int): Units {
    if g.account == account then GoalUnits(txns, g.id, Some(asOf)) else ZERO
  }

  lemma {:induction false} OwnGoalFirst(txns: seq<Txn>, g: Goal, account: string, asOf: int)
    requires txns != []
    ensures OwnGoalUnits(txns, g, account, asOf) ==
            Plus(JoinedWith(txns[0], g, account, asOf), OwnGoalUnits(txns[1..], g, account, asOf))
  {
    PlusZero(ZERO);
  }

  /** The units of an account, with those of the first goal taken apart. */
  lemma {:induction false} AccountUnitsByGoal(txns: seq<Txn>, goals: seq<Goal>, account: string, asOf: int)
    requires goals != []
    ensures AccountUnits(txns, goals, account, asOf) ==
            Plus(OwnGoalUnits(txns, goals[0], account, asOf), AccountUnits(txns, goals[1..], account, asOf))
  {
    PlusZero(ZERO);
    if txns != [] {
      AccountUnitsByGoal(txns[1..], goals, account, asOf);
      OwnGoalFirst(txns, goals[0], account, asOf);
      PlusSwap(JoinedWith(txns[0], goals[0], account, asOf), JoinedUnits(txns[0], goals[1..], account, asOf),
               OwnGoalUnits(txns[1..], goals[0], account, asOf), AccountUnits(txns[1..], goals[1..], account, asOf));
    }
  }

  lemma {:induction false} NoGoalsNoUnits(txns: seq<Txn>, account: string, asOf: int)
    ensures AccountUnits(txns, [], account, asOf) == ZERO
  {
    if txns != [] {
      NoGoalsNoUnits(txns[1..], account, asOf);
      PlusZero(ZERO);
    }
  }

  lemma {:induction false} GoalUnitsAddUp(txns: seq<Txn>, goals: seq<Goal>, account: string, asOf: int, prices: Units)
    ensures BalanceTotal(GoalBreakdown(txns, goals, account, Some(asOf), prices)) ==
              AccountUnits(txns, goals, account, asOf)
  {
    if goals == [] {
      NoGoalsNoUnits(txns, account, asOf);
    } else {
      GoalUnitsAddUp(txns, goals[1..], account, asOf, prices);
      AccountUnitsByGoal(txns, goals, account, asOf);
      BreakdownFirst(txns, goals, account, asOf, prices);
    }
  }

  lemma {:induction false} BalanceFirst(b: GoalBalance, rest: seq<GoalBalance>)
    ensures BalanceTotal([b] + rest) == Plus(b.units, BalanceTotal(rest))
  {
    assert ([b] + rest)[1..] == rest;
  }

  lemma {:induction false} NoOwnUnits(txns: seq<Txn>, g: Goal, account: string, asOf: int)
    requires g.account != account || !HasTxns(txns, g.id, Some(asOf))
    ensures OwnGoalUnits(txns, g, account, asOf) == ZERO
  {
    if g.account == account {
      NoTxnsNoUnits(txns, g.id, Some(asOf));
    }
  }

  lemma {:induction false} BreakdownFirst(txns: seq<Txn>, goals: seq<Goal>, account: string, asOf: int, prices: Units)
    requires goals != []
    ensures BalanceTotal(GoalBreakdown(txns, goals, account, Some(asOf), prices)) ==
            Plus(OwnGoalUnits(txns, goals[0], account, asOf),
                 BalanceTotal(GoalBreakdown(txns, goals[1..], account, Some(asOf), prices)))
  {
    var rest := GoalBreakdown(txns, goals[1..], account, Some(asOf), prices);
    var b := BalanceFor(goals[0], GoalUnits(txns, goals[0].id, Some(asOf)), prices);
    var all := GoalBreakdown(txns, goals, account, Some(asOf), prices);
    if goals[0].account == account && HasTxns(txns, goals[0].id, Some(asOf)) {
      assert all == [b] + rest;
      BalanceFirst(b, rest);
    } else {
      NoOwnUnits(txns, goals[0], account, asOf);
      PlusZero(BalanceTotal(rest));
      assert all == [] + rest == rest;
    }
  }

  lemma {:induction false} WorthOfSum(txns: seq<Txn>, goals: seq<Goal>, account: string, asOf: Option<int>,
                                      prices: Units)
    ensures var balances := GoalBreakdown(txns, goals, account, asOf, prices);
            WorthTotal(balances) == ValueOf(BalanceTotal(balances), prices)
  {
    ValueOfZero(prices);
    if goals != [] {
      WorthOfSum(txns, goals[1..], account, asOf, prices);
      var rest := GoalBreakdown(txns, goals[1..], account, asOf, prices);
      var b := BalanceFor(goals[0], GoalUnits(txns, goals[0].id, asOf), prices);
      ValueOfPlus(b.units, BalanceTotal(rest), prices);
      assert ([b] + rest)[1..] == rest && [] + rest == rest;
    }
  }

  /** The goals of an account together hold what the account's row for the same day holds, and are worth
      what it is worth. */
  lemma {:induction false} GoalsAddUpToAccount(a: Account, txns: seq<Txn>, goals: seq<Goal>, asOf: int, prices: Units)
    ensures var row := AccountRow(a, txns, goals, asOf, prices);
            var balances := GoalBreakdown(txns, goals, a.id, Some(asOf), prices);
            BalanceTotal(balances) == row.units && WorthTotal(balances) == row.value
  {
    GoalUnitsAddUp(txns, goals, a.id, asOf, prices);
    WorthOfSum(txns, goals, a.id, Some(asOf), prices);
  }

  // ---- Sorting and pages ----

  ghost predicate InOrder(rows: seq<Entry>, sort: SortBy, descending: bool) {
    forall i, j :: 0 <= i < j < |rows| ==> Before(sort, descending, rows[i], rows[j])
  }

  lemma {:induction false} LexTotal(a: string, b: string)
    ensures LexLe(a, b) || LexLe(b, a)
  {
    if a != "" && b != "" && a[0] == b[0] {
      LexTotal(a[1..], b[1..]);
    }
  }

  lemma {:induction false} LexTransitive(a: string, b: string, c: string)
    requires LexLe(a, b) && LexLe(b, c)
    ensures LexLe(a, c)
  {
    if a != "" && b != "" && c != "" && a[0] == b[0] == c[0] {
      LexTransitive(a[1..], b[1..], c[1..]);
    }
  }

  lemma {:induction false} BeforeTotal(sort: SortBy, descending: bool, a: Entry, b: Entry)
    ensures Before(sort, descending, a, b) || Before(sort, descending, b, a)
  {
    LexTotal(a.account.name, b.account.name);
    LexTotal(a.account.number, b.account.number);
  }

  lemma {:induction false} AscendingTransitive(sort: SortBy, a: Entry, b: Entry, c: Entry)
    requires Ascending(sort, a, b) && Ascending(sort, b, c)
    ensures Ascending(sort, a, c)
  {
    match sort
    case ClientName => LexTransitive(a.account.name, b.account.name, c.account.name);
    case AccountNumber => LexTransitive(a.account.number, b.account.number, c.account.number);
    case _ =>
  }

  lemma {:induction false} BeforeTransitive(sort: SortBy, descending: bool, a: Entry, b: Entry, c: Entry)
    requires Before(sort, descending, a, b) && Before(sort, descending, b, c)
    ensures Before(sort, descending, a, c)
  {
    if descending {
      AscendingTransitive(sort, c, b, a);
    } else {
      AscendingTransitive(sort, a, b, c);
    }
  }

  lemma {:induction false} InsertMembers(e: Entry, sorted: seq<Entry>, sort: SortBy, descending: bool)
    ensures multiset(Insert(e, sorted, sort, descending)) == multiset{e} + multiset(sorted)
  {
    if sorted != [] {
      assert sorted == [sorted[0]] + sorted[1..];
      if !Before(sort, descending, e, sorted[0]) {
        InsertMembers(e, sorted[1..], sort, descending);
      }
    }
  }

  lemma {:induction false} InsertInOrder(e: Entry, sorted: seq<Entry>, sort: SortBy, descending: bool)
    requires InOrder(sorted, sort, descending)
    ensures InOrder(Insert(e, sorted, sort, descending), sort, descending)
  {
    if sorted == [] {
    } else if Before(sort, descending, e, sorted[0]) {
      forall j | 0 <= j < |sorted|
        ensures Before(sort, descending, e, sorted[j])
      {
        if j > 0 {
          BeforeTransitive(sort, descending, e, sorted[0], sorted[j]);
        }
      }
    } else {
      var rest := Insert(e, sorted[1..], sort, descending);
      InsertInOrder(e, sorted[1..], sort, descending);
      InsertMembers(e, sorted[1..], sort, descending);
      BeforeTotal(sort, descending, e, sorted[0]);
      forall k | 0 <= k < |rest|
        ensures Before(sort, descending, sorted[0], rest[k])
      {
        assert rest[k] in multiset(rest);
        if rest[k] != e {
          assert rest[k] in sorted[1..];
          var j :| 0 <= j < |sorted[1..]| && sorted[1..][j] == rest[k];
          assert sorted[j + 1] == rest[k];
        }
      }
    }
  }

  /** Sorting keeps the entries and puts them in order. */
  lemma {:induction false} SortedIsSorted(rows: seq<Entry>, sort: SortBy, descending: bool)
    ensures multiset(Sorted(rows, sort, descending)) == multiset(rows)
    ensures InOrder(Sorted(rows, sort, descending), sort, descending)
  {
    if rows != [] {
      SortedIsSorted(rows[1..], sort, descending);
      assert rows == [rows[0]] + rows[1..];
      InsertMembers(rows[0], Sorted(rows[1..], sort, descending), sort, descending);
      InsertInOrder(rows[0], Sorted(rows[1..], sort, descending), sort, descending);
    }
  }

  /** The first n pages, one after the other. */
  function Pages(rows: seq<Entry>, limit: nat, n: nat): seq<Entry> {
    if n == 0 then [] else Pages(rows, limit, n - 1) + Page(rows, (n - 1) * limit, limit)
  }

  lemma {:induction false} NextPage(rows: seq<Entry>, start: nat, limit: nat)
    ensures (if start <= |rows| then rows[..start] else rows) + Page(rows, start, limit)
         == if start + limit <= |rows| then rows[..start + limit] else rows
  {
    if start + limit <= |rows| {
      assert rows[..start + limit] == rows[..start] + rows[start..start + limit];
      assert rows[start..] == rows[start..|rows|];
    } else if start <= |rows| {
      assert rows == rows[..start] + rows[start..];
    }
  }

  /** Consecutive pages run through the list without gap or repetition, up to its end. */
  lemma {:induction false} PagesAreAPrefix(rows: seq<Entry>, limit: nat, n: nat)
    ensures Pages(rows, limit, n) == if n * limit <= |rows| then rows[..n * limit] else rows
  {
    if n > 0 {
      PagesAreAPrefix(rows, limit, n - 1);
      var start := (n - 1) * limit;
      assert n * limit == start + limit;
      NextPage(rows, start, limit);
    }
  }

  /** All pages of the registry together are its funded accounts, each once and in order. */
  lemma {:induction false} PagesAreTheRegistry(rows: seq<Entry>, threshold: Option<real>, sort: SortBy,
                                               descending: bool, limit: nat, n: nat)
    requires n * limit >= |Funded(rows, threshold)|
    ensures var pages := Pages(Sorted(Funded(rows, threshold), sort, descending), limit, n);
            multiset(pages) == multiset(Funded(rows, threshold)) && InOrder(pages, sort, descending)
  {
    var funded := Funded(rows, threshold);
    var sorted := Sorted(funded, sort, descending);
    SortedIsSorted(funded, sort, descending);
    PagesAreAPrefix(sorted, limit, n);
    assert |sorted| == |multiset(sorted)| == |multiset(funded)| == |funded|;
    if n * limit == |sorted| {
      assert sorted[..n * limit] == sorted;
    }
  }
}
