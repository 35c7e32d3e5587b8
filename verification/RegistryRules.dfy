/** What the entries of the unit registry hold and are worth, fund by fund, and what its pages list. */
module RegistryRules {
  import opened Text
  import opened UnitRegistry
  import opened RegistryTotals

  // ---- Units, fund by fund ----

  /** The units in the fund of the transactions that keep holds of. */
  function UnitsIn(txns: seq<Txn>, keep: Txn -> bool, fund: Fund): real {
    if txns == [] then 0.0
    else (if keep(txns[0]) && txns[0].fund == fund then txns[0].units else 0.0) + UnitsIn(txns[1..], keep, fund)
  }

  function BookedOn(account: string): Txn -> bool {
    (t: Txn) => t.account == account
  }

  /** Up to a day and for a goal of the account. */
  function JoinedTo(goals: seq<Goal>, account: string, asOf: int): Txn -> bool {
    (t: Txn) => t.day <= asOf && Goal(t.goal, account) in goals
  }

  function ForGoal(goal: string, asOf: Option<int>): Txn -> bool {
    (t: Txn) => t.goal == goal && (asOf == None || t.day <= asOf.value)
  }

  /** u holds in each fund what the transactions add up to in that fund. */
  ghost predicate HoldsBy(u: Units, txns: seq<Txn>, keep: Txn -> bool) {
    && u.xummf == UnitsIn(txns, keep, Xummf) && u.xubf == UnitsIn(txns, keep, Xubf)
    && u.xudef == UnitsIn(txns, keep, Xudef) && u.xuref == UnitsIn(txns, keep, Xuref)
  }

  lemma {:induction false} HoldsByFirst(t: Txn, u: Units, rest: seq<Txn>, txns: seq<Txn>, keep: Txn -> bool)
    requires txns != [] && txns[0] == t && txns[1..] == rest && HoldsBy(u, rest, keep)
    ensures HoldsBy(Plus(if keep(t) then UnitsOf(t) else ZERO, u), txns, keep)
  {
  }

  lemma {:induction false} HeldByFund(txns: seq<Txn>, account: string)
    ensures HoldsBy(Held(txns, account), txns, BookedOn(account))
  {
    if txns != [] {
      HeldByFund(txns[1..], account);
      HeldFirst(txns, account);
      HoldsByFirst(txns[0], Held(txns[1..], account), txns[1..], txns, BookedOn(account));
    }
  }

  lemma {:induction false} JoinedWhere(t: Txn, goals: seq<Goal>, account: string, asOf: int)
    requires DistinctGoals(goals)
    ensures JoinedUnits(t, goals, account, asOf) == if JoinedTo(goals, account, asOf)(t) then UnitsOf(t) else ZERO
  {
    if goals != [] {
      var g := Goal(t.goal, account);
      var first, rest := JoinedWith(t, goals[0], account, asOf), JoinedUnits(t, goals[1..], account, asOf);
      JoinedWhere(t, goals[1..], account, asOf);
      if g in goals[1..] {
        OnlyFirst(goals, g);
        assert first == ZERO;
      } else {
        assert rest == ZERO;
        assert g in goals <==> g == goals[0];
      }
      PlusZero(rest);
      PlusZero(first);
    }
  }

  lemma {:induction false} JoinedByFund(txns: seq<Txn>, goals: seq<Goal>, account: string, asOf: int)
    requires DistinctGoals(goals)
    ensures HoldsBy(AccountUnits(txns, goals, account, asOf), txns, JoinedTo(goals, account, asOf))
  {
    if txns != [] {
      JoinedByFund(txns[1..], goals, account, asOf);
      JoinedWhere(txns[0], goals, account, asOf);
      HoldsByFirst(txns[0], AccountUnits(txns[1..], goals, account, asOf), txns[1..], txns,
                   JoinedTo(goals, account, asOf));
    }
  }

  lemma {:induction false} OfGoalIs(t: Txn, goal: string, asOf: Option<int>)
    ensures OfGoal(t, goal, asOf) == if ForGoal(goal, asOf)(t) then UnitsOf(t) else ZERO
  {
  }

  lemma {:induction false} GoalUnitsFirst(txns: seq<Txn>, goal: string, asOf: Option<int>)
    requires txns != []
    ensures GoalUnits(txns, goal, asOf) ==
            Plus(if ForGoal(goal, asOf)(txns[0]) then UnitsOf(txns[0]) else ZERO, GoalUnits(txns[1..], goal, asOf))
  {
    OfGoalIs(txns[0], goal, asOf);
  }

  lemma {:induction false} GoalByFund(txns: seq<Txn>, goal: string, asOf: Option<int>)
    ensures HoldsBy(GoalUnits(txns, goal, asOf), txns, ForGoal(goal, asOf))
  {
    if txns != [] {
      GoalByFund(txns[1..], goal, asOf);
      GoalUnitsFirst(txns, goal, asOf);
      HoldsByFirst(txns[0], GoalUnits(txns[1..], goal, asOf), txns[1..], txns, ForGoal(goal, asOf));
    }
  }

  /** The units of each fund times the price of the same fund, added up. */
  function Worth(txns: seq<Txn>, keep: Txn -> bool, prices: Units): real {
    UnitsIn(txns, keep, Xummf) * prices.xummf + UnitsIn(txns, keep, Xubf) * prices.xubf
    + UnitsIn(txns, keep, Xudef) * prices.xudef + UnitsIn(txns, keep, Xuref) * prices.xuref
  }

  lemma {:induction false} ValueIsWorth(u: Units, txns: seq<Txn>, keep: Txn -> bool, prices: Units)
    requires HoldsBy(u, txns, keep)
    ensures ValueOf(u, prices) == Worth(txns, keep, prices)
  {
  }

  /** The entry of an account in the simple registry: its own transactions, each fund at its own price. */
  lemma {:induction false} SlowEntryIs(a: Account, txns: seq<Txn>, prices: Units)
    ensures var e := SlowEntry(a, txns, prices);
            && e.account == a && HoldsBy(e.units, txns, BookedOn(a.id))
            && e.value == Worth(txns, BookedOn(a.id), prices)
            && e.values == Units(e.units.xummf * prices.xummf, e.units.xubf * prices.xubf,
                                 e.units.xudef * prices.xudef, e.units.xuref * prices.xuref)
  {
    HeldByFund(txns, a.id);
    ValueIsWorth(Held(txns, a.id), txns, BookedOn(a.id), prices);
  }

  /** The row of an account in the fast registry: the transactions up to the day for its goals. */
  lemma {:induction false} AccountRowIs(a: Account, txns: seq<Txn>, goals: seq<Goal>, asOf: int, prices: Units)
    requires DistinctGoals(goals)
    ensures var e := AccountRow(a, txns, goals, asOf, prices);
            && e.account == a && HoldsBy(e.units, txns, JoinedTo(goals, a.id, asOf))
            && e.value == Worth(txns, JoinedTo(goals, a.id, asOf), prices)
            && e.values == Units(e.units.xummf * prices.xummf, e.units.xubf * prices.xubf,
                                 e.units.xudef * prices.xudef, e.units.xuref * prices.xuref)
  {
    JoinedByFund(txns, goals, a.id, asOf);
    ValueIsWorth(AccountUnits(txns, goals, a.id, asOf), txns, JoinedTo(goals, a.id, asOf), prices);
  }

  /** The balance of a goal: its transactions up to the day. */
  lemma {:induction false} BalanceIs(g: Goal, txns: seq<Txn>, asOf: Option<int>, prices: Units)
    ensures var b := BalanceFor(g, GoalUnits(txns, g.id, asOf), prices);
            && b.goal == g && HoldsBy(b.units, txns, ForGoal(g.id, asOf))
            && b.value == Worth(txns, ForGoal(g.id, asOf), prices)
  {
    GoalByFund(txns, g.id, asOf);
    ValueIsWorth(GoalUnits(txns, g.id, asOf), txns, ForGoal(g.id, asOf), prices);
  }

  /** Each fund's part of a balance is its units at its own price. */
  lemma {:induction false} BalanceValues(g: Goal, u: Units, prices: Units)
    ensures BalanceFor(g, u, prices).values == Units(u.xummf * prices.xummf, u.xubf * prices.xubf,
                                                     u.xudef * prices.xudef, u.xuref * prices.xuref)
  {
  }

  // ---- Which entries there are ----

  /** The simple registry lists an account unless zero balances are unwanted and its units add up to zero. */
  lemma {:induction false} SlowEntriesAre(accounts: seq<Account>, txns: seq<Txn>, prices: Units, includeZero: bool,
                                          e: Entry)
    ensures e in SlowEntries(accounts, txns, prices, includeZero) <==>
            exists a :: a in accounts && e == SlowEntry(a, txns, prices)
              && (includeZero || e.units.xummf + e.units.xubf + e.units.xudef + e.units.xuref != 0.0)
  {
    if accounts != [] {
      SlowEntriesAre(accounts[1..], txns, prices, includeZero, e);
      assert forall a :: a in accounts <==> a == accounts[0] || a in accounts[1..];
    }
  }

  /** The fast registry has a row for an account that some transaction up to the day joins. */
  lemma {:induction false} AccountRowsAre(accounts: seq<Account>, txns: seq<Txn>, goals: seq<Goal>, asOf: int,
                                          prices: Units, e: Entry)
    ensures e in AccountRows(accounts, txns, goals, asOf, prices) <==>
            exists a :: a in accounts && e == AccountRow(a, txns, goals, asOf, prices)
                        && SomeJoined(txns, goals, a.id, asOf)
  {
    if accounts != [] {
      AccountRowsAre(accounts[1..], txns, goals, asOf, prices, e);
      SomeJoinedIs(txns, goals, accounts[0].id, asOf);
      assert forall a :: a in accounts <==> a == accounts[0] || a in accounts[1..];
    }
  }

  /** The breakdown has a balance for each goal of the account that has a transaction up to the day. */
  lemma {:induction false} BreakdownIs(txns: seq<Txn>, goals: seq<Goal>, account: string, asOf: Option<int>,
                                       prices: Units, b: GoalBalance)
    ensures b in GoalBreakdown(txns, goals, account, asOf, prices) <==>
            exists g :: g in goals && g.account == account && SomeForGoal(txns, g.id, asOf)
                        && b == BalanceFor(g, GoalUnits(txns, g.id, asOf), prices)
  {
    if goals != [] {
      BreakdownIs(txns, goals[1..], account, asOf, prices, b);
      SomeForGoalIs(txns, goals[0].id, asOf);
      assert forall g :: g in goals <==> g == goals[0] || g in goals[1..];
    }
  }

  ghost predicate SomeForGoal(txns: seq<Txn>, goal: string, asOf: Option<int>) {
    exists t :: t in txns && ForGoal(goal, asOf)(t)
  }

  lemma {:induction false} SomeForGoalIs(txns: seq<Txn>, goal: string, asOf: Option<int>)
    ensures HasTxns(txns, goal, asOf) <==> SomeForGoal(txns, goal, asOf)
  {
    forall t
      ensures IsOf(t, goal, asOf) <==> ForGoal(goal, asOf)(t)
    {
    }
  }

  /** Goals follow one another in the breakdown as they do in the list, once each. */
  lemma {:induction false} BreakdownParts(txns: seq<Txn>, c: seq<Goal>, d: seq<Goal>, account: string,
                                          asOf: Option<int>, prices: Units)
    ensures GoalBreakdown(txns, c + d, account, asOf, prices) ==
            GoalBreakdown(txns, c, account, asOf, prices) + GoalBreakdown(txns, d, account, asOf, prices)
    ensures |GoalBreakdown(txns, c, account, asOf, prices)| <= |c|
  {
    if c == [] {
      assert c + d == d;
    } else {
      assert (c + d)[1..] == c[1..] + d;
      BreakdownParts(txns, c[1..], d, account, asOf, prices);
      var first := if c[0].account == account && HasTxns(txns, c[0].id, asOf)
                   then [BalanceFor(c[0], GoalUnits(txns, c[0].id, asOf), prices)] else [];
      Associative(first, GoalBreakdown(txns, c[1..], account, asOf, prices),
                  GoalBreakdown(txns, d, account, asOf, prices));
    }
  }

  ghost predicate SomeJoined(txns: seq<Txn>, goals: seq<Goal>, account: string, asOf: int) {
    exists t :: t in txns && t.day <= asOf && Goal(t.goal, account) in goals
  }

  lemma {:induction false} SomeJoinedIs(txns: seq<Txn>, goals: seq<Goal>, account: string, asOf: int)
    ensures HasRows(txns, goals, account, asOf) <==> SomeJoined(txns, goals, account, asOf)
  {
    forall t | t in txns
      ensures Joins(t, goals, account, asOf) <==> t.day <= asOf && Goal(t.goal, account) in goals
    {
    }
  }

  // ---- Last dates ----

  /** The latest day of the transactions that keep holds of, counting from last. */
  ghost predicate IsLatestDay(last: Option<int>, from: Option<int>, txns: seq<Txn>, keep: Txn -> bool) {
    && (from.Some? ==> last.Some? && from.value <= last.value)
    && (forall t :: t in txns && keep(t) ==> last.Some? && t.day <= last.value)
    && (last.Some? ==> last == from || exists t :: t in txns && keep(t) && t.day == last.value)
  }

  function InFourFunds(account: string): Txn -> bool {
    (t: Txn) => t.account == account && (t.fund == Xummf || t.fund == Xubf || t.fund == Xudef || t.fund == Xuref)
  }

  /** The last date of an account is the latest day of its transactions in the four funds. */
  lemma {:induction false} LastBookedIs(txns: seq<Txn>, account: string, from: Option<int>)
    ensures IsLatestDay(LastBooked(txns, account, from), from, txns, InFourFunds(account))
  {
    if txns != [] {
      var t := txns[0];
      var next := if t.account == account && InFund(t) then Later(from, t.day) else from;
      LastBookedIs(txns[1..], account, next);
      assert forall x :: x in txns <==> x == t || x in txns[1..];
    }
  }

  /** In the fast registry it is the latest day of all its joined transactions. */
  lemma {:induction false} LastJoinedIs(txns: seq<Txn>, goals: seq<Goal>, account: string, asOf: int, from: Option<int>)
    ensures IsLatestDay(LastJoined(txns, goals, account, asOf, from), from, txns, JoinedTo(goals, account, asOf))
  {
    if txns != [] {
      var t := txns[0];
      assert Joins(t, goals, account, asOf) <==> JoinedTo(goals, account, asOf)(t);
      var next := if Joins(t, goals, account, asOf) then Later(from, t.day) else from;
      LastJoinedIs(txns[1..], goals, account, asOf, next);
      assert forall x :: x in txns <==> x == t || x in txns[1..];
    }
  }

  // ---- Order ----

  lemma {:induction false} LexAntisymmetric(a: string, b: string)
    requires LexLe(a, b) && LexLe(b, a)
    ensures a == b
  {
    if a != "" {
      LexAntisymmetric(a[1..], b[1..]);
    }
  }

  /** Text is compared at its first difference, and a beginning comes before its continuations. */
  lemma {:induction false} LexAtDifference(head: string, a: string, b: string)
    requires a == "" || (b != "" && a[0] < b[0])
    ensures LexLe(head + a, head + b)
  {
    if head == "" {
      assert head + a == a && head + b == b;
    } else {
      assert (head + a)[1..] == head[1..] + a && (head + b)[1..] == head[1..] + b;
      LexAtDifference(head[1..], a, b);
    }
  }

  /** What InOrder means for each way of sorting. */
  lemma {:induction false} OrderIs(rows: seq<Entry>, i: nat, j: nat)
    requires i < j < |rows|
    ensures InOrder(rows, TotalValue, false) ==> rows[i].value <= rows[j].value
    ensures InOrder(rows, TotalValue, true) ==> rows[i].value >= rows[j].value
    ensures InOrder(rows, ClientName, false) ==> LexLe(rows[i].account.name, rows[j].account.name)
    ensures InOrder(rows, ClientName, true) ==> LexLe(rows[j].account.name, rows[i].account.name)
    ensures InOrder(rows, AccountNumber, false) ==> LexLe(rows[i].account.number, rows[j].account.number)
    ensures InOrder(rows, AccountNumber, true) ==> LexLe(rows[j].account.number, rows[i].account.number)
  {
    if InOrder(rows, TotalValue, false) { assert Before(TotalValue, false, rows[i], rows[j]); }
    if InOrder(rows, TotalValue, true) { assert Before(TotalValue, true, rows[i], rows[j]); }
    if InOrder(rows, ClientName, false) { assert Before(ClientName, false, rows[i], rows[j]); }
    if InOrder(rows, ClientName, true) { assert Before(ClientName, true, rows[i], rows[j]); }
    if InOrder(rows, AccountNumber, false) { assert Before(AccountNumber, false, rows[i], rows[j]); }
    if InOrder(rows, AccountNumber, true) { assert Before(AccountNumber, true, rows[i], rows[j]); }
  }

  /** The two entries are sorted by the same value. */
  predicate SameRank(sort: SortBy, e: Entry, f: Entry) {
    match sort
    case ClientName => e.account.name == f.account.name
    case AccountNumber => e.account.number == f.account.number
    case TotalValue => e.value == f.value
    case Unsorted => true
  }

  function OfRank(rows: seq<Entry>, sort: SortBy, e: Entry): seq<Entry> {
    if rows == [] then [] else (if SameRank(sort, rows[0], e) then [rows[0]] else []) + OfRank(rows[1..], sort, e)
  }

  lemma {:induction false} LexReflexive(s: string)
    ensures LexLe(s, s)
  {
    if s != "" {
      LexReflexive(s[1..]);
    }
  }

  lemma {:induction false} OfRankFirst(x: Entry, s: seq<Entry>, sort: SortBy, e: Entry)
    ensures OfRank([x] + s, sort, e) == (if SameRank(sort, x, e) then [x] else []) + OfRank(s, sort, e)
  {
    assert ([x] + s)[1..] == s;
  }

  lemma {:induction false} TiesComeFirst(sort: SortBy, descending: bool, x: Entry, y: Entry)
    requires SameRank(sort, x, y)
    ensures Before(sort, descending, x, y)
  {
    LexReflexive(x.account.name);
    LexReflexive(x.account.number);
  }

  lemma {:induction false} InsertKeepsTies(x: Entry, s: seq<Entry>, sort: SortBy, descending: bool, e: Entry)
    ensures OfRank(Insert(x, s, sort, descending), sort, e) == OfRank([x] + s, sort, e)
  {
    if s != [] && !Before(sort, descending, x, s[0]) {
      InsertKeepsTies(x, s[1..], sort, descending, e);
      OfRankFirst(s[0], Insert(x, s[1..], sort, descending), sort, e);
      OfRankFirst(x, s[1..], sort, e);
      OfRankFirst(x, s, sort, e);
      if SameRank(sort, x, s[0]) {
        TiesComeFirst(sort, descending, x, s[0]);
        assert false;
      }
    }
  }

  /** Entries that are sorted by the same value stand in the order they came in. */
  lemma {:induction false} SortIsStable(rows: seq<Entry>, sort: SortBy, descending: bool, e: Entry)
    ensures OfRank(Sorted(rows, sort, descending), sort, e) == OfRank(rows, sort, e)
  {
    if rows != [] {
      SortIsStable(rows[1..], sort, descending, e);
      InsertKeepsTies(rows[0], Sorted(rows[1..], sort, descending), sort, descending, e);
      OfRankFirst(rows[0], Sorted(rows[1..], sort, descending), sort, e);
    }
  }

  // ---- The registry itself ----

  /** The entries of the registry's first n pages. */
  function EntriesOfPages(rows: seq<Entry>, prices: Units, threshold: Option<real>, sort: SortBy, descending: bool,
                          limit: nat, n: nat): seq<Entry> {
    if n == 0 then []
    else
      EntriesOfPages(rows, prices, threshold, sort, descending, limit, n - 1)
      + FastRegistry(rows, prices, threshold, sort, descending, (n - 1) * limit, limit).entries
  }

  lemma {:induction false} EntriesArePages(rows: seq<Entry>, prices: Units, threshold: Option<real>, sort: SortBy,
                                           descending: bool, limit: nat, n: nat)
    ensures EntriesOfPages(rows, prices, threshold, sort, descending, limit, n)
         == Pages(Sorted(Funded(rows, threshold), sort, descending), limit, n)
  {
    if n > 0 {
      EntriesArePages(rows, prices, threshold, sort, descending, limit, n - 1);
    }
  }

  /** How many rows are worth at least the threshold. */
  function WorthAtLeast(rows: seq<Entry>, threshold: Option<real>): nat {
    if rows == [] then 0
    else
      (if threshold == None || threshold.value <= rows[0].value then 1 else 0) + WorthAtLeast(rows[1..], threshold)
  }

  lemma {:induction false} FundedCount(rows: seq<Entry>, threshold: Option<real>)
    ensures |Funded(rows, threshold)| == WorthAtLeast(rows, threshold)
  {
    if rows != [] {
      FundedCount(rows[1..], threshold);
    }
  }

  /** The pages of the registry together list each row worth at least the threshold once and in order. */
  lemma {:induction false} RegistryLists(rows: seq<Entry>, prices: Units, threshold: Option<real>, sort: SortBy,
                                         descending: bool, limit: nat, n: nat)
    requires n * limit >= WorthAtLeast(rows, threshold)
    ensures var all := EntriesOfPages(rows, prices, threshold, sort, descending, limit, n);
            && (forall e :: e in all <==> e in rows && (threshold.Some? ==> e.value >= threshold.value))
            && |all| == WorthAtLeast(rows, threshold) && InOrder(all, sort, descending)
  {
    var all := EntriesOfPages(rows, prices, threshold, sort, descending, limit, n);
    FundedCount(rows, threshold);
    EntriesArePages(rows, prices, threshold, sort, descending, limit, n);
    PagesAreTheRegistry(rows, threshold, sort, descending, limit, n);
    SameElements(all, Funded(rows, threshold));
    FundedAre(rows, threshold);
  }

  lemma {:induction false} FundedAre(rows: seq<Entry>, threshold: Option<real>)
    ensures forall e :: e in Funded(rows, threshold) <==>
                        e in rows && (threshold.Some? ==> e.value >= threshold.value)
  {
    forall e
      ensures e in Funded(rows, threshold) <==> e in rows && (threshold.Some? ==> e.value >= threshold.value)
    {
      FundedMembers(rows, threshold, e);
    }
  }

  /** Each page is at most limit long, and total and clients are the number of the rows worth the threshold. */
  lemma {:induction false} RegistryCounts(rows: seq<Entry>, prices: Units, threshold: Option<real>, sort: SortBy,
                                          descending: bool, limit: nat, offset: nat)
    ensures var r := FastRegistry(rows, prices, threshold, sort, descending, offset, limit);
            && r.total == r.summary.clients == WorthAtLeast(rows, threshold) && |r.entries| <= limit
  {
    FundedCount(rows, threshold);
  }

  lemma {:induction false} SameElements<T>(a: seq<T>, b: seq<T>)
    requires multiset(a) == multiset(b)
    ensures |a| == |b| && forall x :: x in a <==> x in b
  {
    assert |a| == |multiset(a)| == |multiset(b)| == |b|;
    forall x
      ensures x in a <==> x in b
    {
      assert x in a <==> x in multiset(a);
      assert x in b <==> x in multiset(b);
    }
  }
}
