/** The fund price table, the uploads and deletions that change it, and the cached latest prices. */
module PriceStore {
  import opened Text
  import opened PriceSheets

  datatype Quote = Quote(bid: real, mid: real, offer: real, nav: Option<real>)

  /** One row for each date and fund. */
  type Table = map<PriceKey, Quote>

  datatype NewPrice = NewPrice(key: PriceKey, bid: real, mid: real, offer: real, nav: Option<real>)

  datatype Problem = UnknownFund | WrongOrder

  datatype UploadResult = UploadResult(success: bool, total: nat, inserted: nat, updated: nat, failed: nat,
                                       errors: seq<(nat, Problem)>)

  // ---- Uploading ----

  function ProblemOf(funds: set<string>, p: NewPrice): Option<Problem> {
    if p.key.fund !in funds then Some(UnknownFund)
    else if p.bid > p.mid || p.mid > p.offer then Some(WrongOrder)
    else None
  }

  /** An update without a net asset value keeps the stored one. */
  function Stored(table: Table, p: NewPrice): Quote {
    Quote(p.bid, p.mid, p.offer, if p.nav.None? && p.key in table then table[p.key].nav else p.nav)
  }

  function Saved(table: Table, funds: set<string>, p: NewPrice): Table {
    if ProblemOf(funds, p).None? then table[p.key := Stored(table, p)] else table
  }

  function SavedAll(table: Table, funds: set<string>, prices: seq<NewPrice>): Table
    decreases prices
  {
    if prices == [] then table else SavedAll(Saved(table, funds, prices[0]), funds, prices[1..])
  }

  function Accepted(funds: set<string>, prices: seq<NewPrice>): seq<NewPrice>
  {
    if prices == [] then []
    else (if ProblemOf(funds, prices[0]).None? then [prices[0]] else []) + Accepted(funds, prices[1..])
  }

  /** The problems, each with the number of its row in the file: the first row after the header is 2. */
  function Problems(funds: set<string>, prices: seq<NewPrice>, row: nat): seq<(nat, Problem)> {
    if prices == [] then []
    else
      var rest := Problems(funds, prices[1..], row + 1);
      match ProblemOf(funds, prices[0])
      case Some(x) => [(row, x)] + rest
      case None => rest
  }

  function Keys(prices: seq<NewPrice>): set<PriceKey> {
    if prices == [] then {} else {prices[0].key} + Keys(prices[1..])
  }

  lemma {:induction false} KeysMembers(prices: seq<NewPrice>, key: PriceKey)
    ensures key in Keys(prices) <==> exists p :: p in prices && p.key == key
  {
    if prices != [] {
      KeysMembers(prices[1..], key);
      assert forall p :: p in prices <==> p == prices[0] || p in prices[1..];
    }
  }

  function NewKeys(table: Table, funds: set<string>, prices: seq<NewPrice>): set<PriceKey> {
    Keys(Accepted(funds, prices)) - table.Keys
  }

  /** An upload under way: the table, the counts and the problems so far. */
  datatype Progress = Progress(table: Table, inserted: nat, updated: nat, errors: seq<(nat, Problem)>)

  /** The entry p of the given row of the file: refused, or saved. */
  function UploadOne(u: Progress, funds: set<string>, p: NewPrice, row: nat): Progress {
    match ProblemOf(funds, p)
    case Some(x) => u.(errors := u.errors + [(row, x)])
    case None =>
      var next := u.(table := u.table[p.key := Stored(u.table, p)]);
      if p.key in u.table then next.(updated := u.updated + 1) else next.(inserted := u.inserted + 1)
  }

  function UploadFrom(u: Progress, funds: set<string>, prices: seq<NewPrice>, row: nat): Progress
    decreases prices
  {
    if prices == [] then u else UploadFrom(UploadOne(u, funds, prices[0], row), funds, prices[1..], row + 1)
  }

  // ---- The latest prices ----

  function DatesOf(table: Table, fund: string): set<int> {
    set k | k in table && k.fund == fund :: k.date
  }

  lemma {:induction false} SomeMember(s: set<int>)
    ensures s == {} || exists x :: x in s
  {
    var none := (forall x :: x !in s) ==> s == {};
    assert none;
  }

  predicate IsLargest(m: int, s: set<int>) {
    m in s && forall x :: x in s ==> x <= m
  }

  lemma {:induction false} LargestWith(x: int, m: int, rest: set<int>, s: set<int>)
    requires IsLargest(m, rest) && x in s && rest <= s && forall y :: y in s ==> y == x || y in rest
    ensures IsLargest(if x < m then m else x, s)
  {
    assert m in s;
  }

  lemma {:induction false} LargestExists(s: set<int>)
    requires s != {}
    ensures exists m :: IsLargest(m, s)
    decreases s
  {
    SomeMember(s);
    var x :| x in s;
    var rest := s - {x};
    forall y | y in s
      ensures y == x || y in rest
    {
    }
    if rest == {} {
      assert IsLargest(x, s);
    } else {
      LargestExists(rest);
      var m :| IsLargest(m, rest);
      LargestWith(x, m, rest, s);
    }
  }

  function Largest(s: set<int>): (m: int)
    requires s != {}
    ensures m in s && forall x :: x in s ==> x <= m
  {
    LargestExists(s);
    var m :| m in s && IsLargest(m, s);
    m
  }

  /** The mid price of each fund that has one, and the newest date among them. */
  datatype LatestPrices = LatestPrices(mids: map<string, real>, asOf: Option<int>)

  /** The row of a fund with the newest date. */
  function Newest(table: Table, fund: string): (k: Option<PriceKey>)
    ensures k.Some? ==> k.value in table && k.value.fund == fund
    ensures k.None? <==> DatesOf(table, fund) == {}
  {
    var dates := DatesOf(table, fund);
    if dates == {} then None else Some(PriceKey(Largest(dates), fund))
  }

  ghost predicate IsNewest(table: Table, k: PriceKey) {
    k in table && forall j :: j in table && j.fund == k.fund ==> j.date <= k.date
  }

  /** p holds exactly the mid price at the newest date of each of the funds, and the newest of these dates. */
  ghost predicate IsLatestOf(table: Table, funds: seq<string>, p: LatestPrices) {
    && (forall fund :: fund in p.mids ==> fund in funds)
    && (forall k :: IsNewest(table, k) && k.fund in funds ==>
          k.fund in p.mids && p.mids[k.fund] == table[k].mid && p.asOf.Some? && k.date <= p.asOf.value)
    && (forall fund :: fund in p.mids ==> exists k :: IsNewest(table, k) && k.fund == fund)
    && (p.asOf.Some? ==> exists k :: IsNewest(table, k) && k.fund in funds && k.date == p.asOf.value)
  }

  ghost predicate IsLatest(table: Table, p: LatestPrices) {
    IsLatestOf(table, FUNDS, p)
  }

  lemma {:induction false} SameMids(table: Table, funds: seq<string>, p: LatestPrices, q: LatestPrices, fund: string)
    requires IsLatestOf(table, funds, p) && IsLatestOf(table, funds, q) && fund in p.mids
    ensures fund in q.mids && q.mids[fund] == p.mids[fund]
  {
    var k :| IsNewest(table, k) && k.fund == fund;
  }

  lemma {:induction false} SameDate(table: Table, funds: seq<string>, p: LatestPrices, q: LatestPrices)
    requires IsLatestOf(table, funds, p) && IsLatestOf(table, funds, q) && p.asOf.Some?
    ensures q.asOf.Some? && p.asOf.value <= q.asOf.value
  {
    var k :| IsNewest(table, k) && k.fund in funds && k.date == p.asOf.value;
  }

  lemma {:induction false} LatestIsUnique(table: Table, funds: seq<string>, p: LatestPrices, q: LatestPrices)
    requires IsLatestOf(table, funds, p) && IsLatestOf(table, funds, q)
    ensures p == q
  {
    forall fund
      ensures fund in p.mids ==> fund in q.mids && q.mids[fund] == p.mids[fund]
      ensures fund in q.mids ==> fund in p.mids
    {
      if fund in p.mids { SameMids(table, funds, p, q, fund); }
      if fund in q.mids { SameMids(table, funds, q, p, fund); }
    }
    assert p.mids == q.mids;
    if p.asOf.Some? { SameDate(table, funds, p, q); }
    if q.asOf.Some? { SameDate(table, funds, q, p); }
  }

  /** One fund more has been looked up. */
  function WithFund(table: Table, p: LatestPrices, fund: string): LatestPrices {
    match Newest(table, fund)
    case None => p
    case Some(k) =>
      LatestPrices(p.mids[fund := table[k].mid],
                   if p.asOf.None? || k.date > p.asOf.value then Some(k.date) else p.asOf)
  }

  function WithFunds(table: Table, p: LatestPrices, funds: seq<string>): LatestPrices
    decreases funds
  {
    if funds == [] then p else WithFunds(table, WithFund(table, p, funds[0]), funds[1..])
  }

  const NO_PRICES := LatestPrices(map[], None)

  function Latest(table: Table): LatestPrices {
    WithFunds(table, NO_PRICES, FUNDS)
  }

  lemma {:induction false} NewestIsNewest(table: Table, fund: string)
    ensures Newest(table, fund).Some? ==> IsNewest(table, Newest(table, fund).value)
    ensures forall k :: IsNewest(table, k) && k.fund == fund ==> Newest(table, fund) == Some(k)
  {
    var n := Newest(table, fund);
    if n.Some? {
      forall j | j in table && j.fund == fund
        ensures j.date <= n.value.date
      {
        assert j.date in DatesOf(table, fund);
      }
    }
    forall k | IsNewest(table, k) && k.fund == fund
      ensures n == Some(k)
    {
      assert k.date in DatesOf(table, fund);
    }
  }

  lemma {:induction false} WithFundIsLatest(table: Table, done: seq<string>, p: LatestPrices, fund: string)
    requires IsLatestOf(table, done, p)
    ensures IsLatestOf(table, done + [fund], WithFund(table, p, fund))
  {
    NewestIsNewest(table, fund);
    var q := WithFund(table, p, fund);
    forall k | IsNewest(table, k) && k.fund in done + [fund]
      ensures k.fund in q.mids && q.mids[k.fund] == table[k].mid && q.asOf.Some? && k.date <= q.asOf.value
    {
      assert k.fund in done || k.fund == fund;
    }
    if q.asOf.Some? && q.asOf == p.asOf {
      var k :| IsNewest(table, k) && k.fund in done && k.date == p.asOf.value;
      assert k.fund in done + [fund];
    }
  }

  lemma {:induction false} WithFundsIsLatest(table: Table, done: seq<string>, p: LatestPrices, funds: seq<string>)
    requires IsLatestOf(table, done, p)
    ensures IsLatestOf(table, done + funds, WithFunds(table, p, funds))
    decreases funds
  {
    if funds == [] {
      assert done + funds == done;
    } else {
      WithFundIsLatest(table, done, p, funds[0]);
      WithFundsIsLatest(table, done + [funds[0]], WithFund(table, p, funds[0]), funds[1..]);
      assert done + [funds[0]] + funds[1..] == done + funds;
    }
  }

  /** Looking the funds up one by one, in any order, gives the latest prices. */
  lemma {:induction false} AnyOrderIsLatest(table: Table, funds: seq<string>)
    requires forall f :: f in funds <==> f in FUNDS
    ensures IsLatest(table, WithFunds(table, NO_PRICES, funds))
    ensures WithFunds(table, NO_PRICES, funds) == Latest(table)
  {
    WithFundsIsLatest(table, [], NO_PRICES, funds);
    WithFundsIsLatest(table, [], NO_PRICES, FUNDS);
    assert [] + funds == funds && [] + FUNDS == FUNDS;
    var p := WithFunds(table, NO_PRICES, funds);
    assert IsLatestOf(table, FUNDS, p);
    LatestIsUnique(table, FUNDS, p, Latest(table));
  }

  // ---- Counting ----

  lemma {:induction false} SavedKeys(table: Table, funds: set<string>, prices: seq<NewPrice>)
    ensures SavedAll(table, funds, prices).Keys == table.Keys + Keys(Accepted(funds, prices))
    decreases prices
  {
    if prices != [] {
      SavedKeys(Saved(table, funds, prices[0]), funds, prices[1..]);
      var rest := Accepted(funds, prices[1..]);
      assert ([prices[0]] + rest)[1..] == rest && [] + rest == rest;
      assert Keys(Accepted(funds, prices)) ==
          Keys(rest) + if ProblemOf(funds, prices[0]).None? then {prices[0].key} else {};
    }
  }

  lemma {:induction false} OneKeyMore(known: set<PriceKey>, keys: set<PriceKey>, key: PriceKey)
    ensures |({key} + keys) - known| == |keys - (known + {key})| + if key in known then 0 else 1
  {
    if key in known {
      assert ({key} + keys) - known == keys - (known + {key});
    } else {
      assert ({key} + keys) - known == (keys - (known + {key})) + {key};
    }
  }

  lemma {:induction false} NewKeysFirst(table: Table, funds: set<string>, prices: seq<NewPrice>)
    requires prices != [] && ProblemOf(funds, prices[0]).None?
    ensures |NewKeys(table, funds, prices)| ==
            |NewKeys(Saved(table, funds, prices[0]), funds, prices[1..])| + if prices[0].key in table then 0 else 1
  {
    var key, rest := prices[0].key, Accepted(funds, prices[1..]);
    assert ([prices[0]] + rest)[1..] == rest;
    assert Keys(Accepted(funds, prices)) == {key} + Keys(rest);
    assert Saved(table, funds, prices[0]).Keys == table.Keys + {key};
    OneKeyMore(table.Keys, Keys(rest), key);
  }

  lemma {:induction false} UploadSaves(u: Progress, funds: set<string>, prices: seq<NewPrice>, row: nat)
    ensures UploadFrom(u, funds, prices, row).table == SavedAll(u.table, funds, prices)
    ensures UploadFrom(u, funds, prices, row).errors == u.errors + Problems(funds, prices, row)
    decreases prices
  {
    if prices != [] {
      var next := UploadOne(u, funds, prices[0], row);
      UploadSaves(next, funds, prices[1..], row + 1);
      var rest := Problems(funds, prices[1..], row + 1);
      match ProblemOf(funds, prices[0])
      case Some(x) => assert u.errors + ([(row, x)] + rest) == (u.errors + [(row, x)]) + rest;
      case None =>
    }
  }

  lemma {:induction false} UploadCounts(u: Progress, funds: set<string>, prices: seq<NewPrice>, row: nat)
    ensures var end := UploadFrom(u, funds, prices, row);
            && end.inserted == u.inserted + |NewKeys(u.table, funds, prices)|
            && end.inserted + end.updated == u.inserted + u.updated + |Accepted(funds, prices)|
    decreases prices
  {
    if prices != [] {
      UploadCounts(UploadOne(u, funds, prices[0], row), funds, prices[1..], row + 1);
      var rest := Accepted(funds, prices[1..]);
      if ProblemOf(funds, prices[0]).None? {
        NewKeysFirst(u.table, funds, prices);
        assert Accepted(funds, prices) == [prices[0]] + rest;
      } else {
        assert Accepted(funds, prices) == [] + rest == rest;
      }
    }
  }

  /** What an upload does: its counts are those of the new keys and of the other accepted entries, and its
      problems are reported in order. */
  lemma {:induction false} UploadDoes(u: Progress, funds: set<string>, prices: seq<NewPrice>, row: nat)
    ensures var end := UploadFrom(u, funds, prices, row);
            && end.table == SavedAll(u.table, funds, prices)
            && end.inserted == u.inserted + |NewKeys(u.table, funds, prices)|
            && end.inserted + end.updated == u.inserted + u.updated + |Accepted(funds, prices)|
            && end.errors == u.errors + Problems(funds, prices, row)
  {
    UploadSaves(u, funds, prices, row);
    UploadCounts(u, funds, prices, row);
  }
}
