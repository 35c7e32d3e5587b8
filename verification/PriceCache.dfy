/** The price service over its table and its cache, and when the cached prices are the latest ones. */
module PriceCache {
  import opened Text
  import opened PriceSheets
  import opened PriceStore

  // ---- Uploads change the table as their counts say ----

  function LastOf(prices: seq<NewPrice>, key: PriceKey): Option<NewPrice> {
    if prices == [] then None
    else
      var later := LastOf(prices[1..], key);
      if later.Some? then later else if prices[0].key == key then Some(prices[0]) else None
  }

  /** After an upload a row carries the prices of the last accepted entry of its key, and is otherwise
      as it was. */
  lemma {:induction false} SavedIsLast(table: Table, funds: set<string>, prices: seq<NewPrice>, key: PriceKey)
    ensures var (next, last) := (SavedAll(table, funds, prices), LastOf(Accepted(funds, prices), key));
            && (key in next <==> key in table || last.Some?)
            && (last.Some? ==>
                  && next[key].bid == last.value.bid && next[key].mid == last.value.mid &&
                      next[key].offer == last.value.offer
                  && (last.value.nav.Some? ==> next[key].nav == last.value.nav))
            && (last.None? && key in table ==> next[key] == table[key])
    decreases prices
  {
    if prices != [] {
      SavedIsLast(Saved(table, funds, prices[0]), funds, prices[1..], key);
      var rest := Accepted(funds, prices[1..]);
      if ProblemOf(funds, prices[0]).None? {
        assert ([prices[0]] + rest)[1..] == rest;
      } else {
        assert [] + rest == rest;
      }
    }
  }

  lemma {:induction false} NothingAccepted(table: Table, funds: set<string>, prices: seq<NewPrice>)
    requires Accepted(funds, prices) == []
    ensures SavedAll(table, funds, prices) == table
    decreases prices
  {
    if prices != [] {
      assert ProblemOf(funds, prices[0]).Some?;
      NothingAccepted(table, funds, prices[1..]);
    }
  }

  /** Every entry of an upload is accepted or reported. */
  lemma {:induction false} CountsAddUp(funds: set<string>, prices: seq<NewPrice>, row: nat)
    ensures |Accepted(funds, prices)| + |Problems(funds, prices, row)| == |prices|
  {
    if prices != [] {
      CountsAddUp(funds, prices[1..], row + 1);
    }
  }

  // ---- Uploading a file of three sheets ----

  function FromFile(prices: seq<Price>): (r: seq<NewPrice>)
    ensures |r| == |prices|
    ensures forall i :: 0 <= i < |r| ==>
              r[i] == NewPrice(prices[i].key, prices[i].bid, prices[i].mid, prices[i].offer, None)
  {
    if prices == [] then []
    else [NewPrice(prices[0].key, prices[0].bid, prices[0].mid, prices[0].offer, None)] + FromFile(prices[1..])
  }

  lemma {:induction false} LastHasFund(rows: seq<SheetRow>, key: PriceKey)
    requires Last(Cells(rows), key).Some?
    ensures key.fund in FUNDS
  {
    LastAppend(RowCells(rows[0], FUNDS), Cells(rows[1..]), key);
    LastInRow(rows[0], FUNDS, key);
    if Last(Cells(rows[1..]), key).Some? {
      LastHasFund(rows[1..], key);
    }
  }

  lemma {:induction false} AllAccepted(funds: set<string>, prices: seq<NewPrice>, row: nat)
    requires forall p :: p in prices ==> ProblemOf(funds, p).None?
    ensures Accepted(funds, prices) == prices && Problems(funds, prices, row) == []
  {
    if prices != [] {
      AllAccepted(funds, prices[1..], row + 1);
    }
  }

  ghost predicate DistinctNew(prices: seq<NewPrice>) {
    forall i, j :: 0 <= i < j < |prices| ==> prices[i].key != prices[j].key
  }

  lemma {:induction false} KeyCount(prices: seq<NewPrice>)
    requires DistinctNew(prices)
    ensures |Keys(prices)| == |prices|
  {
    if prices != [] {
      KeyCount(prices[1..]);
      KeysMembers(prices[1..], prices[0].key);
      forall p | p in prices[1..]
        ensures p.key != prices[0].key
      {
        var j :| 0 <= j < |prices[1..]| && prices[1..][j] == p;
        assert prices[j + 1] == p;
      }
    }
  }

  lemma {:induction false} NewAndOld(table: Table, prices: seq<NewPrice>)
    requires DistinctNew(prices)
    ensures |Keys(prices) - table.Keys| + |Keys(prices) * table.Keys| == |prices|
  {
    KeyCount(prices);
    var added, present := Keys(prices) - table.Keys, Keys(prices) * table.Keys;
    assert Keys(prices) == added + present;
  }

  lemma {:induction false} FileIsAccepted(funds: set<string>, bids: seq<SheetRow>, mids: seq<SheetRow>,
                                          offers: seq<SheetRow>)
    requires forall f :: f in FUNDS ==> f in funds
    requires Parsed(bids, mids, offers).Prices?
    ensures forall p :: p in FromFile(Parsed(bids, mids, offers).prices) ==> ProblemOf(funds, p).None?
    ensures DistinctNew(FromFile(Parsed(bids, mids, offers).prices))
  {
    var parsed := Parsed(bids, mids, offers).prices;
    MergeIsLastWinsJoin(bids, mids, offers);
    forall i | 0 <= i < |parsed|
      ensures ProblemOf(funds, FromFile(parsed)[i]).None?
    {
      assert parsed[i] in parsed;
      LastHasFund(bids, parsed[i].key);
    }
  }

  /** Where the four funds are known, a file of three sheets is accepted as a whole, inserts exactly the
      keys that are new to the table and updates exactly those that are there. */
  lemma {:induction false} ThreeTabUpload(table: Table, funds: set<string>, bids: seq<SheetRow>, mids: seq<SheetRow>,
                                          offers: seq<SheetRow>)
    requires forall f :: f in FUNDS ==> f in funds
    requires Parsed(bids, mids, offers).Prices?
    ensures var prices := FromFile(Parsed(bids, mids, offers).prices);
            && Accepted(funds, prices) == prices
            && |NewKeys(table, funds, prices)| == |Keys(prices) - table.Keys|
            && |prices| - |NewKeys(table, funds, prices)| == |Keys(prices) * table.Keys|
  {
    var prices := FromFile(Parsed(bids, mids, offers).prices);
    FileIsAccepted(funds, bids, mids, offers);
    AllAccepted(funds, prices, 2);
    NewAndOld(table, prices);
  }

  /** The keys that such a file uploads. */
  lemma {:induction false} ThreeTabKeys(bids: seq<SheetRow>, mids: seq<SheetRow>, offers: seq<SheetRow>, key: PriceKey)
    requires Parsed(bids, mids, offers).Prices?
    ensures key in Keys(FromFile(Parsed(bids, mids, offers).prices)) <==>
            exists p: Price :: p.key == key && IsLast(bids, mids, offers, p) && Complete(p)
  {
    MergeIsLastWinsJoin(bids, mids, offers);
    KeysOfFile(Parsed(bids, mids, offers).prices, key);
  }

  lemma {:induction false} KeysOfFile(parsed: seq<Price>, key: PriceKey)
    ensures key in Keys(FromFile(parsed)) <==> exists p :: p in parsed && p.key == key
  {
    var prices := FromFile(parsed);
    KeysMembers(prices, key);
    if key in Keys(prices) {
      var q :| q in prices && q.key == key;
      var i :| 0 <= i < |prices| && prices[i] == q;
      assert parsed[i] in parsed && parsed[i].key == key;
    }
    if p :| p in parsed && p.key == key {
      var i :| 0 <= i < |parsed| && parsed[i] == p;
      assert prices[i] in prices;
    }
  }

  // ---- The service ----

  /** The rows of the query for the latest prices: one for each fund, ordered by code, without a price where
      the fund has none. */
  datatype LatestRow = LatestRow(fund: string, price: Option<(real, int)>)

  const BY_CODE: seq<string> := ["XUBF", "XUDEF", "XUMMF", "XUREF"]

  function LatestRows(table: Table, funds: seq<string>): (rows: seq<LatestRow>)
    ensures |rows| == |funds|
    ensures forall i :: 0 <= i < |rows| ==>
              rows[i] == LatestRow(funds[i], match Newest(table, funds[i])
                                             case None => None
                                             case Some(k) => Some((table[k].mid, k.date)))
  {
    if funds == [] then []
    else
      [LatestRow(funds[0], match Newest(table, funds[0])
                           case None => None
                           case Some(k) => Some((table[k].mid, k.date)))] + LatestRows(table, funds[1..])
  }

  function UpTo(table: Table, date: int): Table {
    map k | k in table && k.date <= date :: table[k]
  }

  method CollectRows(ghost table: Table, ghost codes: seq<string>, rows: seq<LatestRow>) returns (p: LatestPrices)
    requires rows == LatestRows(table, codes)
    ensures p == WithFunds(table, NO_PRICES, codes)
  {
    p := NO_PRICES;
    assert codes[0..] == codes;
    for i := 0 to |rows|
      invariant WithFunds(table, p, codes[i..]) == WithFunds(table, NO_PRICES, codes)
    {
      assert codes[i..][1..] == codes[i + 1..];
      if rows[i].price.Some? {
        var (mid, date) := rows[i].price.value;
        p := p.(mids := p.mids[rows[i].fund := mid]);
        if p.asOf.None? || date > p.asOf.value {
          p := p.(asOf := Some(date));
        }
      }
    }
    assert codes[|rows|..] == [];
  }

  method CollectLatest(ghost table: Table, rows: seq<LatestRow>) returns (p: LatestPrices)
    requires rows == LatestRows(table, BY_CODE)
    ensures p == Latest(table) && IsLatest(table, p)
  {
    p := CollectRows(table, BY_CODE, rows);
    AnyOrderIsLatest(table, BY_CODE);
  }

  class PriceService {
    const funds: set<string>
    var table: Table
    var cache: Option<LatestPrices>

    constructor (funds: set<string>)
      ensures this.funds == funds && table == map[] && cache == None
    {
      this.funds := funds;
      table := map[];
      cache := None;
    }

    method UploadEach(prices: seq<NewPrice>) returns (inserted: nat, updated: nat, errors: seq<(nat, Problem)>)
      modifies this`table
      ensures Progress(table, inserted, updated, errors) == UploadFrom(Progress(old(table), 0, 0, []), funds, prices, 2)
    {
      inserted, updated, errors := 0, 0, [];
      assert prices[0..] == prices;
      for i := 0 to |prices|
        invariant UploadFrom(Progress(table, inserted, updated, errors), funds, prices[i..], i + 2)
               == UploadFrom(Progress(old(table), 0, 0, []), funds, prices, 2)
      {
        var p := prices[i];
        assert prices[i..][1..] == prices[i + 1..];
        if p.key.fund !in funds {
          errors := errors + [(i + 2, UnknownFund)];
          continue;
        }
        if p.bid > p.mid || p.mid > p.offer {
          errors := errors + [(i + 2, WrongOrder)];
          continue;
        }
        if p.key in table {
          var nav := if p.nav.Some? then p.nav else table[p.key].nav;
          table := table[p.key := Quote(p.bid, p.mid, p.offer, nav)];
          updated := updated + 1;
        } else {
          table := table[p.key := Quote(p.bid, p.mid, p.offer, p.nav)];
          inserted := inserted + 1;
        }
      }
      assert prices[|prices|..] == [];
    }

    method UploadPrices(prices: seq<NewPrice>) returns (r: UploadResult)
      modifies this
      ensures table == SavedAll(old(table), funds, prices)
      ensures cache == if Accepted(funds, prices) == [] then old(cache) else None
      ensures r.errors == Problems(funds, prices, 2) && r.failed == |r.errors| && r.total == |prices|
      ensures r.inserted == |NewKeys(old(table), funds, prices)|
      ensures r.inserted + r.updated == |Accepted(funds, prices)|
      ensures r.success <==> Accepted(funds, prices) == prices
      ensures State(table, cache, []) == Step(State(old(table), old(cache), []), funds, Upload(prices))
    {
      UploadDoes(Progress(table, 0, 0, []), funds, prices, 2);
      var inserted, updated, errors := UploadEach(prices);
      FullyAccepted(funds, prices, 2);
      if inserted > 0 || updated > 0 {
        cache := None;
      }
      r := UploadResult(|errors| == 0, |prices|, inserted, updated, |errors|, errors);
    }

    /** A missing row is an error, and then nothing changes. */
    method DeletePrice(key: PriceKey) returns (found: bool)
      modifies this
      ensures found == (key in old(table))
      ensures table == old(table) - {key}
      ensures cache == if found then None else old(cache)
      ensures State(table, cache, []) == Step(State(old(table), old(cache), []), funds, Delete(key))
    {
      if key !in table {
        assert table == table - {key};
        return false;
      }
      table := table - {key};
      cache := None;
      found := true;
    }

    method GetLatestPrices() returns (p: LatestPrices)
      modifies this`cache
      ensures p == (if old(cache).Some? then old(cache).value else Latest(table))
      ensures cache == Some(p)
      ensures Coherent(State(table, old(cache), [])) ==> IsLatest(table, p) && Coherent(State(table, cache, []))
    {
      AnyOrderIsLatest(table, FUNDS);
      if cache.Some? {
        return cache.value;
      }
      p := CollectLatest(table, LatestRows(table, BY_CODE));
      cache := Some(p);
    }

    /** Prices as of a date never use the cache. */
    method GetPricesAsOf(date: int) returns (p: LatestPrices)
      ensures p == Latest(UpTo(table, date)) && IsLatest(UpTo(table, date), p)
    {
      p := CollectLatest(UpTo(table, date), LatestRows(UpTo(table, date), BY_CODE));
    }

    /** The simple form: one lookup for each fund. */
    method GetLatestPricesSlowly() returns (p: LatestPrices)
      ensures p == Latest(table) && IsLatest(table, p)
    {
      p := NO_PRICES;
      assert FUNDS[0..] == FUNDS;
      for i := 0 to |FUNDS|
        invariant WithFunds(table, p, FUNDS[i..]) == Latest(table)
      {
        assert FUNDS[i..][1..] == FUNDS[i + 1..];
        var newest := Newest(table, FUNDS[i]);
        if newest.Some? {
          var date := newest.value.date;
          p := p.(mids := p.mids[FUNDS[i] := table[newest.value].mid]);
          if p.asOf.None? || date > p.asOf.value {
            p := p.(asOf := Some(date));
          }
        }
      }
      assert FUNDS[|FUNDS|..] == [];
      AnyOrderIsLatest(table, FUNDS);
    }
  }

  lemma {:induction false} FullyAccepted(funds: set<string>, prices: seq<NewPrice>, row: nat)
    ensures Problems(funds, prices, row) == [] <==> Accepted(funds, prices) == prices
  {
    CountsAddUp(funds, prices, row);
    if Problems(funds, prices, row) == [] && prices != [] {
      FullyAccepted(funds, prices[1..], row + 1);
    }
  }

  // ---- Coherence over runs ----

  /** A read that misses the cache queries the table first and stores the answer later. */
  datatype State = State(table: Table, cache: Option<LatestPrices>, reading: seq<LatestPrices>)

  datatype Event =
    | Upload(prices: seq<NewPrice>)
    | Delete(key: PriceKey)
    | BeginRead
    | EndRead(reader: nat)
    | Expire

  function Step(s: State, funds: set<string>, e: Event): State {
    match e
    case Upload(prices) =>
      State(SavedAll(s.table, funds, prices), if Accepted(funds, prices) == [] then s.cache else None, s.reading)
    case Delete(key) => State(s.table - {key}, if key in s.table then None else s.cache, s.reading)
    case BeginRead => if s.cache.Some? then s else s.(reading := s.reading + [Latest(s.table)])
    case EndRead(i) =>
      if i < |s.reading| then State(s.table, Some(s.reading[i]), s.reading[..i] + s.reading[i + 1..]) else s
    case Expire => s.(cache := None)
  }

  /** What an event returns to a reader, if it returns prices. */
  function Answer(s: State, e: Event): Option<LatestPrices> {
    match e
    case BeginRead => s.cache
    case EndRead(i) => if i < |s.reading| then Some(s.reading[i]) else None
    case _ => None
  }

  ghost predicate Coherent(s: State) {
    && (s.cache.Some? ==> s.cache.value == Latest(s.table))
    && (forall i :: 0 <= i < |s.reading| ==> s.reading[i] == Latest(s.table))
  }

  predicate IsWrite(e: Event) {
    e.Upload? || e.Delete?
  }

  /** A write is harmless when no reader is between query and store, or the latest prices stay the same. */
  predicate Harmless(s: State, funds: set<string>, e: Event) {
    !IsWrite(e) || s.reading == [] || Latest(Step(s, funds, e).table) == Latest(s.table)
  }

  ghost predicate WritesHarmless(s: State, funds: set<string>, events: seq<Event>)
    decreases events
  {
    events == [] || (Harmless(s, funds, events[0]) && WritesHarmless(Step(s, funds, events[0]), funds, events[1..]))
  }

  ghost predicate AlwaysCoherent(s: State, funds: set<string>, events: seq<Event>)
    decreases events
  {
    Coherent(s) && (events != [] ==> AlwaysCoherent(Step(s, funds, events[0]), funds, events[1..]))
  }

  function RunAll(s: State, funds: set<string>, events: seq<Event>): State
    decreases events
  {
    if events == [] then s else RunAll(Step(s, funds, events[0]), funds, events[1..])
  }

  /** A run takes its events one after the other. */
  lemma {:induction false} LastEvent(s: State, funds: set<string>, events: seq<Event>, e: Event)
    ensures RunAll(s, funds, []) == s && RunAll(s, funds, events + [e]) == Step(RunAll(s, funds, events), funds, e)
    decreases events
  {
    if events == [] {
      assert ([] + [e])[1..] == [];
    } else {
      assert (events + [e])[1..] == events[1..] + [e];
      LastEvent(Step(s, funds, events[0]), funds, events[1..], e);
    }
  }

  /** Every answer of the run is the latest prices of the table at that time. */
  ghost predicate AnswersLatest(s: State, funds: set<string>, events: seq<Event>)
    decreases events
  {
    events == [] ||
    ((Answer(s, events[0]).Some? ==> IsLatest(s.table, Answer(s, events[0]).value)) &&
     AnswersLatest(Step(s, funds, events[0]), funds, events[1..]))
  }

  /** Exactly when a step keeps the cache coherent. Among the writes only those that changed nothing leave
      the cached prices in place. */
  lemma {:induction false} StepKeepsCoherent(s: State, funds: set<string>, e: Event)
    requires Coherent(s)
    ensures Coherent(Step(s, funds, e)) <==> Harmless(s, funds, e)
    ensures Answer(s, e).Some? ==> Answer(s, e) == Some(Latest(s.table))
  {
    var next := Step(s, funds, e);
    match e
    case Upload(prices) =>
      if Accepted(funds, prices) == [] {
        NothingAccepted(s.table, funds, prices);
      }
      assert s.reading != [] ==> s.reading[0] == Latest(s.table) && next.reading[0] == s.reading[0];
    case Delete(key) =>
      if key !in s.table {
        assert s.table - {key} == s.table;
      }
      assert s.reading != [] ==> s.reading[0] == Latest(s.table) && next.reading[0] == s.reading[0];
    case _ =>
  }

  /** A run stays coherent throughout if and only if all its writes are harmless. */
  lemma {:induction false} CoherentIff(s: State, funds: set<string>, events: seq<Event>)
    requires Coherent(s)
    ensures AlwaysCoherent(s, funds, events) <==> WritesHarmless(s, funds, events)
    decreases events
  {
    if events != [] {
      StepKeepsCoherent(s, funds, events[0]);
      if Harmless(s, funds, events[0]) {
        CoherentIff(Step(s, funds, events[0]), funds, events[1..]);
      }
    }
  }

  /** In every run whose writes are harmless every reader gets the latest prices. */
  lemma {:induction false} RunAnswersLatest(s: State, funds: set<string>, events: seq<Event>)
    requires Coherent(s) && WritesHarmless(s, funds, events)
    ensures Coherent(RunAll(s, funds, events)) && AnswersLatest(s, funds, events)
    decreases events
  {
    if events != [] {
      StepKeepsCoherent(s, funds, events[0]);
      AnyOrderIsLatest(s.table, FUNDS);
      RunAnswersLatest(Step(s, funds, events[0]), funds, events[1..]);
    }
  }

  /** Any other write is seen: the first reader under way gets old prices, and leaves them in the cache for
      the next one, although the write has cleared it. */
  lemma {:induction false} HarmfulWriteIsSeen(s: State, funds: set<string>, e: Event)
    requires Coherent(s) && !Harmless(s, funds, e)
    ensures var next := Step(s, funds, e);
            var end := Step(next, funds, EndRead(0));
            && Answer(next, EndRead(0)) == Answer(end, BeginRead) == Some(Latest(s.table))
            && !IsLatest(end.table, Latest(s.table))
  {
    var next := Step(s, funds, e);
    AnyOrderIsLatest(next.table, FUNDS);
    assert s.reading[0] == Latest(s.table) && next.reading == s.reading;
    if IsLatest(next.table, Latest(s.table)) {
      LatestIsUnique(next.table, FUNDS, Latest(next.table), Latest(s.table));
      assert false;
    }
  }

  // ---- Uploads that are harmless at any time ----

  /** Every accepted entry is older than the newest row of its fund. */
  ghost predicate OnlyOlder(table: Table, funds: set<string>, prices: seq<NewPrice>) {
    forall p :: p in Accepted(funds, prices) ==>
      exists k :: IsNewest(table, k) && k.fund == p.key.fund && p.key.date < k.date
  }

  lemma {:induction false} NotAmongOlder(table: Table, funds: set<string>, prices: seq<NewPrice>, key: PriceKey)
    requires OnlyOlder(table, funds, prices) && key in Keys(Accepted(funds, prices))
    ensures exists k :: IsNewest(table, k) && k.fund == key.fund && key.date < k.date
  {
    KeysMembers(Accepted(funds, prices), key);
  }

  lemma {:induction false} LastOfMember(prices: seq<NewPrice>, key: PriceKey)
    ensures LastOf(prices, key).Some? ==> key in Keys(prices)
  {
    if prices != [] {
      LastOfMember(prices[1..], key);
    }
  }

  lemma {:induction false} NewestStays(table: Table, funds: set<string>, prices: seq<NewPrice>, k: PriceKey)
    requires OnlyOlder(table, funds, prices)
    ensures var next := SavedAll(table, funds, prices);
            (IsNewest(next, k) <==> IsNewest(table, k)) && (IsNewest(table, k) ==> k in next && next[k] == table[k])
  {
    var next := SavedAll(table, funds, prices);
    var added := Keys(Accepted(funds, prices));
    SavedKeys(table, funds, prices);
    forall key | key in added
      ensures exists j :: IsNewest(table, j) && j.fund == key.fund && key.date < j.date
    {
      NotAmongOlder(table, funds, prices, key);
    }
    if IsNewest(table, k) {
      SavedIsLast(table, funds, prices, k);
      LastOfMember(Accepted(funds, prices), k);
      assert k !in added;
    }
  }

  /** An upload of older prices leaves the latest prices as they are. */
  lemma {:induction false} OlderPricesAreHarmless(table: Table, funds: set<string>, prices: seq<NewPrice>)
    requires OnlyOlder(table, funds, prices)
    ensures Latest(SavedAll(table, funds, prices)) == Latest(table)
  {
    var next, p := SavedAll(table, funds, prices), Latest(table);
    AnyOrderIsLatest(table, FUNDS);
    AnyOrderIsLatest(next, FUNDS);
    forall k
      ensures IsNewest(next, k) <==> IsNewest(table, k)
      ensures IsNewest(table, k) ==> k in next && next[k] == table[k]
    {
      NewestStays(table, funds, prices, k);
    }
    assert IsLatestOf(next, FUNDS, p);
    LatestIsUnique(next, FUNDS, p, Latest(next));
  }

  const START := State(map[], None, [])

  function Rise(): NewPrice {
    NewPrice(PriceKey(1, "XUBF"), 1.0, 1.0, 1.0, None)
  }

  lemma {:induction false} RiseChangesLatest(funds: set<string>)
    requires "XUBF" in funds
    ensures Latest(SavedAll(map[], funds, [Rise()])) != NO_PRICES
  {
    var k := Rise().key;
    assert [Rise()][1..] == [];
    var table := SavedAll(map[], funds, [Rise()]);
    assert table == Saved(map[], funds, Rise()) == map[k := Quote(1.0, 1.0, 1.0, None)];
    AnyOrderIsLatest(table, FUNDS);
    assert IsNewest(table, k) && k.fund in FUNDS;
    assert !IsLatest(table, NO_PRICES);
  }

  /** For instance the first price of a fund, uploaded while a reader is between query and store. */
  lemma {:induction false} WriteDuringReadLeavesStale(funds: set<string>)
    requires "XUBF" in funds
    ensures var reading := Step(START, funds, BeginRead);
            var end := Step(Step(reading, funds, Upload([Rise()])), funds, EndRead(0));
            && Coherent(reading) && !Harmless(reading, funds, Upload([Rise()]))
            && Answer(end, BeginRead) == Some(NO_PRICES) && !IsLatest(end.table, NO_PRICES)
  {
    var reading := Step(START, funds, BeginRead);
    EmptyTable();
    RiseChangesLatest(funds);
    assert reading == State(map[], None, [NO_PRICES]);
    HarmfulWriteIsSeen(reading, funds, Upload([Rise()]));
  }

  lemma {:induction false} EmptyTable()
    ensures Latest(map[]) == NO_PRICES
  {
    AnyOrderIsLatest(map[], FUNDS);
    assert IsLatest(map[], NO_PRICES);
    LatestIsUnique(map[], FUNDS, Latest(map[]), NO_PRICES);
  }
}
