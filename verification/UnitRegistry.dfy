/** The unit registry: what each account holds in the four funds and what it is worth. The simple form loops
    over the accounts and their transactions, the fast form groups and sums joined rows. */
module UnitRegistry {
  import opened Text

  datatype Fund = Xummf | Xubf | Xudef | Xuref | OtherFund

  datatype Units = Units(xummf: real, xubf: real, xudef: real, xuref: real)

  datatype Txn = Txn(account: string, goal: string, fund: Fund, day: int, units: real)

  datatype Account = Account(id: string, name: string, number: string)

  datatype Goal = Goal(id: string, account: string)

  const ZERO := Units(0.0, 0.0, 0.0, 0.0)

  function Plus(a: Units, b: Units): Units {
    Units(a.xummf + b.xummf, a.xubf + b.xubf, a.xudef + b.xudef, a.xuref + b.xuref)
  }

  /** The units of a transaction under its fund. A fund that is not one of the four counts nowhere. */
  function UnitsOf(t: Txn): Units {
    match t.fund
    case Xummf => Units(t.units, 0.0, 0.0, 0.0)
    case Xubf => Units(0.0, t.units, 0.0, 0.0)
    case Xudef => Units(0.0, 0.0, t.units, 0.0)
    case Xuref => Units(0.0, 0.0, 0.0, t.units)
    case OtherFund => ZERO
  }

  // ---- Values ----

  /** The units of each fund at its price. A fund without a price has the price zero. */
  function Priced(u: Units, prices: Units): Units {
    Units(u.xummf * prices.xummf, u.xubf * prices.xubf, u.xudef * prices.xudef, u.xuref * prices.xuref)
  }

  function Across(u: Units): real {
    u.xummf + u.xubf + u.xudef + u.xuref
  }

  function ValueOf(u: Units, prices: Units): real {
    Across(Priced(u, prices))
  }

  datatype Entry = Entry(account: Account, units: Units, values: Units, value: real, last: Option<int>)

  datatype Summary = Summary(clients: nat, units: Units, value: real)

  function UnitTotal(entries: seq<Entry>): Units {
    if entries == [] then ZERO else Plus(entries[0].units, UnitTotal(entries[1..]))
  }

  function ValueTotal(entries: seq<Entry>): real {
    if entries == [] then 0.0 else entries[0].value + ValueTotal(entries[1..])
  }

  function EntryFor(a: Account, u: Units, last: Option<int>, prices: Units): Entry {
    Entry(a, u, Priced(u, prices), ValueOf(u, prices), last)
  }

  function Later(last: Option<int>, day: int): Option<int> {
    if last.None? || day > last.value then Some(day) else last
  }

  // ---- The simple form ----

  /** All that the transactions booked on an account add up to. */
  function Held(txns: seq<Txn>, account: string): Units {
    if txns == [] then ZERO else Plus(Booked(txns[0], account), Held(txns[1..], account))
  }

  function Booked(t: Txn, account: string): Units {
    if t.account == account then UnitsOf(t) else ZERO
  }

  predicate InFund(t: Txn) {
    t.fund != OtherFund
  }

  function LastBooked(txns: seq<Txn>, account: string, last: Option<int>): Option<int>
    decreases txns
  {
    if txns == [] then last
    else LastBooked(txns[1..], account, if txns[0].account == account &&
        InFund(txns[0]) then Later(last, txns[0].day) else last)
  }

  /** The entries of the accounts, without those whose units add up to zero unless these are wanted. */
  function SlowEntries(accounts: seq<Account>, txns: seq<Txn>, prices: Units, includeZero: bool): seq<Entry> {
    if accounts == [] then []
    else
      (if Listed(accounts[0], txns, includeZero) then [SlowEntry(accounts[0], txns, prices)] else [])
      + SlowEntries(accounts[1..], txns, prices, includeZero)
  }

  predicate Listed(a: Account, txns: seq<Txn>, includeZero: bool) {
    includeZero || Across(Held(txns, a.id)) != 0.0
  }

  function SlowEntry(a: Account, txns: seq<Txn>, prices: Units): Entry {
    EntryFor(a, Held(txns, a.id), LastBooked(txns, a.id, None), prices)
  }

  method BuildEntry(a: Account, txns: seq<Txn>, prices: Units, includeZero: bool) returns (listed: bool, e: Entry)
    ensures listed == Listed(a, txns, includeZero) && e == SlowEntry(a, txns, prices)
  {
    var u := UnitsHeld(txns, a.id);
    var last := LastDate(txns, a.id);
    listed := includeZero || Across(u) != 0.0;
    e := EntryFor(a, u, last, prices);
  }

  lemma {:induction false} HeldStep(u: Units, txns: seq<Txn>, i: nat, account: string)
    requires i < |txns|
    ensures Plus(u, Held(txns[i..], account)) == Plus(Plus(u, Booked(txns[i], account)), Held(txns[i + 1..], account))
  {
    assert txns[i..][1..] == txns[i + 1..];
    HeldFirst(txns[i..], account);
    PlusAssociative(u, Booked(txns[i], account), Held(txns[i + 1..], account));
  }

  lemma {:induction false} HeldFirst(txns: seq<Txn>, account: string)
    requires txns != []
    ensures Held(txns, account) == Plus(Booked(txns[0], account), Held(txns[1..], account))
  {
  }

  lemma {:induction false} PlusAssociative(a: Units, b: Units, c: Units)
    ensures Plus(a, Plus(b, c)) == Plus(Plus(a, b), c)
  {
  }

  method Add(u: Units, t: Txn) returns (sum: Units)
    ensures sum == Plus(u, UnitsOf(t))
  {
    sum := u;
    match t.fund {
      case Xummf => sum := u.(xummf := u.xummf + t.units);
      case Xubf => sum := u.(xubf := u.xubf + t.units);
      case Xudef => sum := u.(xudef := u.xudef + t.units);
      case Xuref => sum := u.(xuref := u.xuref + t.units);
      case OtherFund =>
    }
  }

  method UnitsHeld(txns: seq<Txn>, account: string) returns (u: Units)
    ensures u == Held(txns, account)
  {
    u := ZERO;
    assert txns[0..] == txns;
    for i := 0 to |txns|
      invariant Plus(u, Held(txns[i..], account)) == Held(txns, account)
    {
      HeldStep(u, txns, i, account);
      if txns[i].account == account {
        u := Add(u, txns[i]);
      }
    }
    assert txns[|txns|..] == [];
  }

  method LastDate(txns: seq<Txn>, account: string) returns (last: Option<int>)
    ensures last == LastBooked(txns, account, None)
  {
    last := None;
    assert txns[0..] == txns;
    for i := 0 to |txns|
      invariant LastBooked(txns[i..], account, last) == LastBooked(txns, account, None)
    {
      assert txns[i..][1..] == txns[i + 1..];
      var t := txns[i];
      if t.account == account && InFund(t) && (last.None? || t.day > last.value) {
        last := Some(t.day);
      }
    }
    assert txns[|txns|..] == [];
  }

  lemma {:induction false} SlowEntriesStep(done: seq<Entry>, accounts: seq<Account>, i: nat, txns: seq<Txn>,
                                           prices: Units, includeZero: bool)
    requires i < |accounts|
    ensures done + SlowEntries(accounts[i..], txns, prices, includeZero)
         == (if Listed(accounts[i], txns, includeZero) then done + [SlowEntry(accounts[i], txns, prices)] else done)
            + SlowEntries(accounts[i + 1..], txns, prices, includeZero)
  {
    assert accounts[i..][1..] == accounts[i + 1..];
  }

  method CollectEntries(accounts: seq<Account>, txns: seq<Txn>, prices: Units, includeZero: bool)
    returns (entries: seq<Entry>)
    ensures entries == SlowEntries(accounts, txns, prices, includeZero)
  {
    entries := [];
    assert accounts[0..] == accounts;
    for i := 0 to |accounts|
      invariant entries + SlowEntries(accounts[i..], txns, prices, includeZero) ==
          SlowEntries(accounts, txns, prices, includeZero)
    {
      SlowEntriesStep(entries, accounts, i, txns, prices, includeZero);
      var listed, e := BuildEntry(accounts[i], txns, prices, includeZero);
      if !listed {
        continue;
      }
      entries := entries + [e];
    }
    assert accounts[|accounts|..] == [] && entries + [] == entries;
  }

  method SlowRegistry(accounts: seq<Account>, txns: seq<Txn>, prices: Units, includeZero: bool)
    returns (entries: seq<Entry>, summary: Summary)
    ensures entries == SlowEntries(accounts, txns, prices, includeZero)
    ensures summary == Summary(|entries|, UnitTotal(entries), ValueTotal(entries))
  {
    entries := CollectEntries(accounts, txns, prices, includeZero);
    summary := Summary(|entries|, UnitTotal(entries), ValueTotal(entries));
  }

  // ---- The fast form, as of a day ----

  /** The rows of the join for one transaction: one for each of the account's goals it belongs to. */
  function JoinedUnits(t: Txn, goals: seq<Goal>, account: string, asOf: int): Units {
    if goals == [] then ZERO
    else Plus(JoinedWith(t, goals[0], account, asOf), JoinedUnits(t, goals[1..], account, asOf))
  }

  function JoinedWith(t: Txn, g: Goal, account: string, asOf: int): Units {
    if g.id == t.goal && g.account == account && t.day <= asOf then UnitsOf(t) else ZERO
  }

  predicate Joins(t: Txn, goals: seq<Goal>, account: string, asOf: int) {
    t.day <= asOf && exists g :: g in goals && g.id == t.goal && g.account == account
  }

  function AccountUnits(txns: seq<Txn>, goals: seq<Goal>, account: string, asOf: int): Units {
    if txns == [] then ZERO
    else Plus(JoinedUnits(txns[0], goals, account, asOf), AccountUnits(txns[1..], goals, account, asOf))
  }

  function LastJoined(txns: seq<Txn>, goals: seq<Goal>, account: string, asOf: int, last: Option<int>): Option<int>
    decreases txns
  {
    if txns == [] then last
    else LastJoined(txns[1..], goals, account, asOf,
                    if Joins(txns[0], goals, account, asOf) then Later(last, txns[0].day) else last)
  }

  predicate HasRows(txns: seq<Txn>, goals: seq<Goal>, account: string, asOf: int) {
    exists t :: t in txns && Joins(t, goals, account, asOf)
  }

  function AccountRow(a: Account, txns: seq<Txn>, goals: seq<Goal>, asOf: int, prices: Units): Entry {
    EntryFor(a, AccountUnits(txns, goals, a.id, asOf), LastJoined(txns, goals, a.id, asOf, None), prices)
  }

  /** One row for each account that the join reaches. */
  function AccountRows(accounts: seq<Account>, txns: seq<Txn>, goals: seq<Goal>, asOf: int, prices: Units): seq<Entry> {
    if accounts == [] then []
    else
      (if HasRows(txns, goals, accounts[0].id, asOf) then [AccountRow(accounts[0], txns, goals, asOf, prices)] else [])
      + AccountRows(accounts[1..], txns, goals, asOf, prices)
  }

  /** The entries worth at least the threshold, where one is given. */
  function Funded(rows: seq<Entry>, threshold: Option<real>): seq<Entry> {
    if rows == [] then []
    else (if threshold.None? || rows[0].value >= threshold.value then [rows[0]] else []) + Funded(rows[1..], threshold)
  }

  // ---- Sorting and pages ----

  datatype SortBy = ClientName | AccountNumber | TotalValue | Unsorted

  function LexLe(a: string, b: string): bool {
    a == "" || (b != "" && (a[0] < b[0] || (a[0] == b[0] && LexLe(a[1..], b[1..]))))
  }

  predicate Ascending(sort: SortBy, a: Entry, b: Entry) {
    match sort
    case ClientName => LexLe(a.account.name, b.account.name)
    case AccountNumber => LexLe(a.account.number, b.account.number)
    case TotalValue => a.value <= b.value
    case Unsorted => true
  }

  predicate Before(sort: SortBy, descending: bool, a: Entry, b: Entry) {
    if descending then Ascending(sort, b, a) else Ascending(sort, a, b)
  }

  function Insert(e: Entry, sorted: seq<Entry>, sort: SortBy, descending: bool): seq<Entry> {
    if sorted == [] || Before(sort, descending, e, sorted[0]) then [e] + sorted
    else [sorted[0]] + Insert(e, sorted[1..], sort, descending)
  }

  function Sorted(rows: seq<Entry>, sort: SortBy, descending: bool): seq<Entry> {
    if rows == [] then [] else Insert(rows[0], Sorted(rows[1..], sort, descending), sort, descending)
  }

  /** A slice stops at the end of the list. */
  function Page(rows: seq<Entry>, offset: nat, limit: nat): seq<Entry> {
    if offset >= |rows| then []
    else if offset + limit >= |rows| then rows[offset..]
    else rows[offset..offset + limit]
  }

  datatype Registry = Registry(entries: seq<Entry>, total: nat, summary: Summary)

  /** The summary prices the summed units. */
  function FastRegistry(rows: seq<Entry>, prices: Units, threshold: Option<real>, sort: SortBy, descending: bool,
                        offset: nat, limit: nat): Registry {
    var funded := Funded(rows, threshold);
    Registry(Page(Sorted(funded, sort, descending), offset, limit), |funded|,
             Summary(|funded|, UnitTotal(funded), ValueOf(UnitTotal(funded), prices)))
  }

  // ---- The goals of an account ----

  function GoalUnits(txns: seq<Txn>, goal: string, asOf: Option<int>): Units {
    if txns == [] then ZERO else Plus(OfGoal(txns[0], goal, asOf), GoalUnits(txns[1..], goal, asOf))
  }

  predicate IsOf(t: Txn, goal: string, asOf: Option<int>) {
    t.goal == goal && (asOf.Some? ==> t.day <= asOf.value)
  }

  function OfGoal(t: Txn, goal: string, asOf: Option<int>): Units {
    if IsOf(t, goal, asOf) then UnitsOf(t) else ZERO
  }

  datatype GoalBalance = GoalBalance(goal: Goal, units: Units, values: Units, value: real)

  function BalanceFor(g: Goal, u: Units, prices: Units): GoalBalance {
    GoalBalance(g, u, Priced(u, prices), ValueOf(u, prices))
  }

  predicate HasTxns(txns: seq<Txn>, goal: string, asOf: Option<int>) {
    exists t :: t in txns && IsOf(t, goal, asOf)
  }

  /** One row for each of the account's goals that has transactions. */
  function GoalBreakdown(txns: seq<Txn>, goals: seq<Goal>, account: string, asOf: Option<int>, prices: Units)
    : seq<GoalBalance>
  {
    if goals == [] then []
    else
      (if goals[0].account == account && HasTxns(txns, goals[0].id, asOf)
       then [BalanceFor(goals[0], GoalUnits(txns, goals[0].id, asOf), prices)]
       else [])
      + GoalBreakdown(txns, goals[1..], account, asOf, prices)
  }
}
