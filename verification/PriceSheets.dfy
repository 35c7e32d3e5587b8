/** The three sheets of a fund price file (bid, mid, offer) and the list of prices they are merged into. */
module PriceSheets {
  import opened Text

  const FUNDS: seq<string> := ["XUMMF", "XUBF", "XUDEF", "XUREF"]

  /** A row of a sheet: its date, if it has a valid one, and the prices that could be read from it. */
  datatype SheetRow = SheetRow(date: Option<int>, prices: map<string, real>)

  datatype PriceKey = PriceKey(date: int, fund: string)

  datatype Price = Price(key: PriceKey, bid: real, mid: real, offer: real)

  datatype Cell = Cell(key: PriceKey, value: real)

  datatype Sheet = Bid | Mid | Offer

  datatype ParseResult = Prices(prices: seq<Price>) | NoValidPrices

  // ---- The cells of a sheet, in the order they are read ----

  function RowCells(row: SheetRow, funds: seq<string>): seq<Cell> {
    if funds == [] || row.date.None? then []
    else
      (if funds[0] in row.prices then [Cell(PriceKey(row.date.value, funds[0]), row.prices[funds[0]])] else [])
      + RowCells(row, funds[1..])
  }

  function Cells(rows: seq<SheetRow>): seq<Cell> {
    if rows == [] then [] else RowCells(rows[0], FUNDS) + Cells(rows[1..])
  }

  /** The value of the last cell of a key. */
  function Last(cells: seq<Cell>, key: PriceKey): Option<real> {
    if cells == [] then None
    else
      var later := Last(cells[1..], key);
      if later.Some? then later else if cells[0].key == key then Some(cells[0].value) else None
  }

  // ---- Merging: the price map keeps the order in which its keys came ----

  function Lookup(entries: seq<Price>, key: PriceKey): Option<Price> {
    if entries == [] then None
    else if entries[0].key == key then Some(entries[0])
    else Lookup(entries[1..], key)
  }

  function Entered(p: Price, sheet: Sheet, value: real): Price {
    match sheet
    case Bid => p.(bid := value)
    case Mid => p.(mid := value)
    case Offer => p.(offer := value)
  }

  /** A bid opens an entry when there is none, a mid or offer does not. */
  function Put(entries: seq<Price>, sheet: Sheet, c: Cell): seq<Price> {
    if entries == [] then (if sheet == Bid then [Price(c.key, c.value, 0.0, 0.0)] else [])
    else if entries[0].key == c.key then [Entered(entries[0], sheet, c.value)] + entries[1..]
    else [entries[0]] + Put(entries[1..], sheet, c)
  }

  function PutAll(entries: seq<Price>, sheet: Sheet, cells: seq<Cell>): seq<Price>
    decreases cells
  {
    if cells == [] then entries else PutAll(Put(entries, sheet, cells[0]), sheet, cells[1..])
  }

  predicate Complete(p: Price) {
    p.bid > 0.0 && p.mid > 0.0 && p.offer > 0.0 && p.bid <= p.mid <= p.offer
  }

  function CompleteOnes(entries: seq<Price>): seq<Price> {
    if entries == [] then []
    else (if Complete(entries[0]) then [entries[0]] else []) + CompleteOnes(entries[1..])
  }

  function Merged(bids: seq<SheetRow>, mids: seq<SheetRow>, offers: seq<SheetRow>): seq<Price> {
    PutAll(PutAll(PutAll([], Bid, Cells(bids)), Mid, Cells(mids)), Offer, Cells(offers))
  }

  function Parsed(bids: seq<SheetRow>, mids: seq<SheetRow>, offers: seq<SheetRow>): ParseResult {
    var prices := CompleteOnes(Merged(bids, mids, offers));
    if prices == [] then NoValidPrices else Prices(prices)
  }

  // ---- The parser ----

  lemma {:induction false} PutAllAppend(entries: seq<Price>, sheet: Sheet, a: seq<Cell>, b: seq<Cell>)
    ensures PutAll(entries, sheet, a + b) == PutAll(PutAll(entries, sheet, a), sheet, b)
    decreases a
  {
    if a == [] {
      assert a + b == b;
    } else {
      assert (a + b)[1..] == a[1..] + b;
      PutAllAppend(Put(entries, sheet, a[0]), sheet, a[1..], b);
    }
  }

  method PutRow(entries: seq<Price>, sheet: Sheet, row: SheetRow) returns (next: seq<Price>)
    ensures next == PutAll(entries, sheet, RowCells(row, FUNDS))
  {
    next := entries;
    if row.date.None? {
      return;
    }
    assert FUNDS[0..] == FUNDS;
    for i := 0 to |FUNDS|
      invariant PutAll(next, sheet, RowCells(row, FUNDS[i..])) == PutAll(entries, sheet, RowCells(row, FUNDS))
    {
      var fund := FUNDS[i];
      assert FUNDS[i..][1..] == FUNDS[i + 1..];
      if fund in row.prices {
        var cell := Cell(PriceKey(row.date.value, fund), row.prices[fund]);
        assert RowCells(row, FUNDS[i..]) == [cell] + RowCells(row, FUNDS[i + 1..]);
        next := Put(next, sheet, cell);
      } else {
        assert RowCells(row, FUNDS[i..]) == [] + RowCells(row, FUNDS[i + 1..]) == RowCells(row, FUNDS[i + 1..]);
      }
    }
    assert FUNDS[|FUNDS|..] == [];
  }

  method PutSheet(entries: seq<Price>, sheet: Sheet, rows: seq<SheetRow>) returns (next: seq<Price>)
    ensures next == PutAll(entries, sheet, Cells(rows))
  {
    next := entries;
    assert rows[0..] == rows;
    for i := 0 to |rows|
      invariant PutAll(next, sheet, Cells(rows[i..])) == PutAll(entries, sheet, Cells(rows))
    {
      assert rows[i..][1..] == rows[i + 1..];
      PutAllAppend(next, sheet, RowCells(rows[i], FUNDS), Cells(rows[i + 1..]));
      next := PutRow(next, sheet, rows[i]);
    }
    assert rows[|rows|..] == [];
  }

  method ParseThreeTabs(bids: seq<SheetRow>, mids: seq<SheetRow>, offers: seq<SheetRow>) returns (r: ParseResult)
    ensures r == Parsed(bids, mids, offers)
  {
    var entries := PutSheet([], Bid, bids);
    entries := PutSheet(entries, Mid, mids);
    entries := PutSheet(entries, Offer, offers);
    var prices := [];
    assert entries[0..] == entries;
    for i := 0 to |entries|
      invariant prices + CompleteOnes(entries[i..]) == CompleteOnes(entries)
    {
      assert entries[i..][1..] == entries[i + 1..];
      if Complete(entries[i]) {
        prices := prices + [entries[i]];
      }
    }
    assert entries[|entries|..] == [] && prices + [] == prices;
    r := if |prices| == 0 then NoValidPrices else Prices(prices);
  }

  // ---- The merge is a join of the last values ----

  ghost predicate KeysDistinct(prices: seq<Price>) {
    forall i, j :: 0 <= i < j < |prices| ==> prices[i].key != prices[j].key
  }

  lemma {:induction false} LookupPut(entries: seq<Price>, sheet: Sheet, c: Cell, key: PriceKey)
    ensures Lookup(Put(entries, sheet, c), key) ==
            if key != c.key then Lookup(entries, key)
            else match Lookup(entries, key)
                 case Some(p) => Some(Entered(p, sheet, c.value))
                 case None => if sheet == Bid then Some(Price(key, c.value, 0.0, 0.0)) else None
  {
    if entries != [] && entries[0].key != c.key {
      LookupPut(entries[1..], sheet, c, key);
    }
  }

  /** What a whole sheet does to a key: only the last value counts. */
  lemma {:induction false} LookupPutAll(entries: seq<Price>, sheet: Sheet, cells: seq<Cell>, key: PriceKey)
    ensures Lookup(PutAll(entries, sheet, cells), key) ==
            match Last(cells, key)
            case None => Lookup(entries, key)
            case Some(v) =>
              match Lookup(entries, key)
              case Some(p) => Some(Entered(p, sheet, v))
              case None => if sheet == Bid then Some(Price(key, v, 0.0, 0.0)) else None
    decreases cells
  {
    if cells != [] {
      LookupPut(entries, sheet, cells[0], key);
      LookupPutAll(Put(entries, sheet, cells[0]), sheet, cells[1..], key);
    }
  }

  lemma {:induction false} PutKeepsDistinct(entries: seq<Price>, sheet: Sheet, c: Cell)
    requires KeysDistinct(entries)
    ensures KeysDistinct(Put(entries, sheet, c))
    ensures forall p :: p in Put(entries, sheet, c) ==> p.key == c.key || p in entries
  {
    if entries != [] && entries[0].key != c.key {
      PutKeepsDistinct(entries[1..], sheet, c);
      var rest := Put(entries[1..], sheet, c);
      forall p | p in rest
        ensures p.key != entries[0].key
      {
        if p.key != c.key {
          var j :| 0 <= j < |entries[1..]| && entries[1..][j] == p;
          assert entries[j + 1] == p;
        }
      }
    }
  }

  lemma {:induction false} PutAllKeepsDistinct(entries: seq<Price>, sheet: Sheet, cells: seq<Cell>)
    requires KeysDistinct(entries)
    ensures KeysDistinct(PutAll(entries, sheet, cells))
    decreases cells
  {
    if cells != [] {
      PutKeepsDistinct(entries, sheet, cells[0]);
      PutAllKeepsDistinct(Put(entries, sheet, cells[0]), sheet, cells[1..]);
    }
  }

  lemma {:induction false} LookupMember(entries: seq<Price>, p: Price)
    requires KeysDistinct(entries)
    ensures p in entries <==> Lookup(entries, p.key) == Some(p)
  {
    if entries != [] {
      assert entries == [entries[0]] + entries[1..];
      LookupMember(entries[1..], p);
    }
  }

  lemma {:induction false} CompleteOnesMembers(entries: seq<Price>)
    ensures forall p :: p in CompleteOnes(entries) <==> p in entries && Complete(p)
    ensures KeysDistinct(entries) ==> KeysDistinct(CompleteOnes(entries))
  {
    if entries != [] {
      var rest := CompleteOnes(entries[1..]);
      CompleteOnesMembers(entries[1..]);
      assert entries == [entries[0]] + entries[1..];
      if KeysDistinct(entries) {
        forall i | 0 <= i < |rest|
          ensures rest[i].key != entries[0].key
        {
          assert rest[i] in entries[1..];
          var j :| 0 <= j < |entries[1..]| && entries[1..][j] == rest[i];
          assert entries[j + 1] == rest[i];
        }
      }
    }
  }

  /** The last bid, mid and offer of p's key are those of p. */
  ghost predicate IsLast(bids: seq<SheetRow>, mids: seq<SheetRow>, offers: seq<SheetRow>, p: Price) {
    && Last(Cells(bids), p.key) == Some(p.bid)
    && Last(Cells(mids), p.key) == Some(p.mid)
    && Last(Cells(offers), p.key) == Some(p.offer)
  }

  /** One price for a key, exactly where the last bid, mid and offer of the key all exist, are positive and
      in order; and the file is refused exactly when there is no such key. */
  lemma {:induction false} MergeIsLastWinsJoin(bids: seq<SheetRow>, mids: seq<SheetRow>, offers: seq<SheetRow>)
    ensures var r := Parsed(bids, mids, offers);
            && (r.Prices? ==> r.prices != [] && KeysDistinct(r.prices))
            && (forall p :: (r.Prices? && p in r.prices) <==> (IsLast(bids, mids, offers, p) && Complete(p)))
  {
    var b := PutAll([], Bid, Cells(bids));
    var m := PutAll(b, Mid, Cells(mids));
    var o := PutAll(m, Offer, Cells(offers));
    PutAllKeepsDistinct([], Bid, Cells(bids));
    PutAllKeepsDistinct(b, Mid, Cells(mids));
    PutAllKeepsDistinct(m, Offer, Cells(offers));
    CompleteOnesMembers(o);
    forall p
      ensures p in CompleteOnes(o) <==> IsLast(bids, mids, offers, p) && Complete(p)
    {
      LookupMember(o, p);
      LookupPutAll([], Bid, Cells(bids), p.key);
      LookupPutAll(b, Mid, Cells(mids), p.key);
      LookupPutAll(m, Offer, Cells(offers), p.key);
      LookupKey(o, p.key);
    }
  }

  lemma {:induction false} LookupKey(entries: seq<Price>, key: PriceKey)
    ensures Lookup(entries, key).Some? ==> Lookup(entries, key).value.key == key
  {
    if entries != [] {
      LookupKey(entries[1..], key);
    }
  }

  /** The last value of a key stands in the last row that has its date and a price for its fund. */
  lemma {:induction false} LastIsFromLastRow(rows: seq<SheetRow>, i: nat, key: PriceKey)
    requires i < |rows| && key.fund in FUNDS && rows[i].date == Some(key.date) && key.fund in rows[i].prices
    requires forall j :: i < j < |rows| ==> rows[j].date != Some(key.date) || key.fund !in rows[j].prices
    ensures Last(Cells(rows), key) == Some(rows[i].prices[key.fund])
  {
    LastAppend(RowCells(rows[0], FUNDS), Cells(rows[1..]), key);
    if i > 0 {
      LastIsFromLastRow(rows[1..], i - 1, key);
    } else {
      NoneLater(rows[1..], key);
      LastInRow(rows[0], FUNDS, key);
    }
  }

  lemma {:induction false} LastAppend(a: seq<Cell>, b: seq<Cell>, key: PriceKey)
    ensures Last(a + b, key) == if Last(b, key).Some? then Last(b, key) else Last(a, key)
  {
    if a == [] {
      assert a + b == b;
    } else {
      assert (a + b)[1..] == a[1..] + b;
      LastAppend(a[1..], b, key);
    }
  }

  lemma {:induction false} LastInRow(row: SheetRow, funds: seq<string>, key: PriceKey)
    ensures Last(RowCells(row, funds), key) ==
            if row.date == Some(key.date) && key.fund in funds &&
                key.fund in row.prices then Some(row.prices[key.fund]) else None
  {
    if funds != [] && row.date.Some? {
      LastInRow(row, funds[1..], key);
      var rest := RowCells(row, funds[1..]);
      if funds[0] in row.prices {
        var c := Cell(PriceKey(row.date.value, funds[0]), row.prices[funds[0]]);
        assert ([c] + rest)[1..] == rest;
      } else {
        assert [] + rest == rest;
      }
    }
  }

  lemma {:induction false} NoneLater(rows: seq<SheetRow>, key: PriceKey)
    requires forall j :: 0 <= j < |rows| ==> rows[j].date != Some(key.date) || key.fund !in rows[j].prices
    ensures Last(Cells(rows), key) == None
  {
    if rows != [] {
      LastAppend(RowCells(rows[0], FUNDS), Cells(rows[1..]), key);
      LastInRow(rows[0], FUNDS, key);
      NoneLater(rows[1..], key);
    }
  }
}
