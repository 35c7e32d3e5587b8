/** What a price file, an upload and a lookup do, stated row by row and fund by fund. */
module PriceRules {
  import opened Text
  import opened PriceSheets
  import opened PriceStore
  import opened PriceCache

  predicate FourFunds(fund: string) {
    fund == "XUMMF" || fund == "XUBF" || fund == "XUDEF" || fund == "XUREF"
  }

  lemma {:induction false} FundsAreFour(fund: string)
    ensures fund in FUNDS <==> FourFunds(fund)
    ensures fund in BY_CODE <==> FourFunds(fund)
  {
    assert FUNDS[0] == "XUMMF" && FUNDS[1] == "XUBF" && FUNDS[2] == "XUDEF" && FUNDS[3] == "XUREF";
    assert BY_CODE[2] == "XUMMF" && BY_CODE[0] == "XUBF" && BY_CODE[1] == "XUDEF" && BY_CODE[3] == "XUREF";
  }

  // ---- Three sheets ----

  ghost predicate HasCell(row: SheetRow, key: PriceKey) {
    FourFunds(key.fund) && row.date == Some(key.date) && key.fund in row.prices
  }

  /** The last row with the date and a price for the fund is at i. */
  ghost predicate LastRow(rows: seq<SheetRow>, key: PriceKey, i: nat) {
    i < |rows| && HasCell(rows[i], key) && forall j :: i < j < |rows| ==> !HasCell(rows[j], key)
  }

  ghost predicate LastValue(rows: seq<SheetRow>, key: PriceKey, value: real) {
    exists i: nat :: LastRow(rows, key, i) && rows[i].prices[key.fund] == value
  }

  lemma {:induction false} LastRowShifts(rows: seq<SheetRow>, key: PriceKey, i: nat)
    requires rows != [] && i > 0
    ensures LastRow(rows, key, i) <==> LastRow(rows[1..], key, i - 1)
  {
    var rest := rows[1..];
    if LastRow(rest, key, i - 1) {
      forall j | i < j < |rows|
        ensures !HasCell(rows[j], key)
      {
        assert rest[j - 1] == rows[j];
      }
    }
    if LastRow(rows, key, i) {
      forall j | i - 1 < j < |rest|
        ensures !HasCell(rest[j], key)
      {
        assert rest[j] == rows[j + 1];
      }
    }
  }

  lemma {:induction false} LastIsAtRow(rows: seq<SheetRow>, key: PriceKey, i: nat)
    requires LastRow(rows, key, i)
    ensures Last(Cells(rows), key) == Some(rows[i].prices[key.fund])
  {
    FundsAreFour(key.fund);
    LastIsFromLastRow(rows, i, key);
  }

  lemma {:induction false} LastHasRow(rows: seq<SheetRow>, key: PriceKey)
    requires Last(Cells(rows), key).Some?
    ensures exists i: nat :: LastRow(rows, key, i)
  {
    LastAppend(RowCells(rows[0], FUNDS), Cells(rows[1..]), key);
    LastInRow(rows[0], FUNDS, key);
    FundsAreFour(key.fund);
    if i: nat :| LastRow(rows[1..], key, i) {
      LastRowShifts(rows, key, i + 1);
    } else {
      if Last(Cells(rows[1..]), key).Some? {
        LastHasRow(rows[1..], key);
        assert false;
      }
      if j :| 0 < j < |rows| && HasCell(rows[j], key) {
        SomeLastRow(rows[1..], key, j - 1);
        assert false;
      }
      assert LastRow(rows, key, 0);
    }
  }

  lemma {:induction false} SomeLastRow(rows: seq<SheetRow>, key: PriceKey, i: nat)
    requires i < |rows| && HasCell(rows[i], key)
    ensures exists k: nat :: LastRow(rows, key, k)
    decreases |rows| - i
  {
    if j :| i < j < |rows| && HasCell(rows[j], key) {
      SomeLastRow(rows, key, j);
    } else {
      assert LastRow(rows, key, i);
    }
  }

  lemma {:induction false} LastIs(rows: seq<SheetRow>, key: PriceKey, value: real)
    ensures Last(Cells(rows), key) == Some(value) <==> LastValue(rows, key, value)
  {
    if Last(Cells(rows), key).Some? {
      LastHasRow(rows, key);
      var i: nat :| LastRow(rows, key, i);
      LastIsAtRow(rows, key, i);
    }
    if i: nat :| LastRow(rows, key, i) && rows[i].prices[key.fund] == value {
      LastIsAtRow(rows, key, i);
    }
  }

  /** A price comes out of the three sheets if and only if its bid, mid and offer stand in the last rows of their
      sheets with its date and a price for its fund, one of the four, and 0 < bid <= mid <= offer. */
  lemma {:induction false} FilePriceIff(bids: seq<SheetRow>, mids: seq<SheetRow>, offers: seq<SheetRow>, p: Price)
    ensures var r := Parsed(bids, mids, offers);
            (r.Prices? && p in r.prices) <==>
            (&& LastValue(bids, p.key, p.bid) && LastValue(mids, p.key, p.mid) && LastValue(offers, p.key, p.offer)
             && 0.0 < p.bid <= p.mid <= p.offer)
  {
    MergeIsLastWinsJoin(bids, mids, offers);
    assert Complete(p) <==> 0.0 < p.bid <= p.mid <= p.offer;
    assert IsLast(bids, mids, offers, p) <==>
           Last(Cells(bids), p.key) == Some(p.bid) && Last(Cells(mids), p.key) == Some(p.mid)
           && Last(Cells(offers), p.key) == Some(p.offer);
    LastIs(bids, p.key, p.bid);
    LastIs(mids, p.key, p.mid);
    LastIs(offers, p.key, p.offer);
  }

  // ---- Uploads ----

  /** The fund is known and the three prices are in order. */
  predicate Acceptable(funds: set<string>, p: NewPrice) {
    p.key.fund in funds && p.bid <= p.mid <= p.offer
  }

  /** Entry i is the last acceptable one of its key. */
  ghost predicate LastAcceptable(funds: set<string>, prices: seq<NewPrice>, i: nat) {
    && i < |prices| && Acceptable(funds, prices[i])
    && forall j :: i < j < |prices| && prices[j].key == prices[i].key ==> !Acceptable(funds, prices[j])
  }

  lemma {:induction false} NoneStored(table: Table, funds: set<string>, prices: seq<NewPrice>, key: PriceKey)
    requires forall p :: p in prices && p.key == key ==> !Acceptable(funds, p)
    ensures var next := SavedAll(table, funds, prices);
            (key in next <==> key in table) && (key in table ==> next[key] == table[key])
    decreases prices
  {
    if prices != [] {
      NoneStored(Saved(table, funds, prices[0]), funds, prices[1..], key);
    }
  }

  /** The last acceptable entry of a key is the one stored. */
  lemma {:induction false} LastIsStored(table: Table, funds: set<string>, prices: seq<NewPrice>, i: nat)
    requires LastAcceptable(funds, prices, i)
    ensures var (key, next) := (prices[i].key, SavedAll(table, funds, prices));
            && key in next && next[key].bid == prices[i].bid && next[key].mid == prices[i].mid
            && next[key].offer == prices[i].offer
    decreases prices
  {
    var next := Saved(table, funds, prices[0]);
    var rest := prices[1..];
    if i > 0 {
      assert rest[i - 1] == prices[i];
      forall j | i - 1 < j < |rest| && rest[j].key == rest[i - 1].key
        ensures !Acceptable(funds, rest[j])
      {
        assert rest[j] == prices[j + 1];
      }
      LastIsStored(next, funds, rest, i - 1);
    } else {
      forall p | p in rest && p.key == prices[0].key
        ensures !Acceptable(funds, p)
      {
        var j :| 0 <= j < |rest| && rest[j] == p;
        assert prices[j + 1] == p;
      }
      NoneStored(next, funds, rest, prices[0].key);
    }
  }

  /** The net asset value given last by an acceptable entry of the key; without one, the stored value. */
  function LastNav(nav: Option<real>, funds: set<string>, prices: seq<NewPrice>, key: PriceKey): Option<real>
    decreases prices
  {
    if prices == [] then nav
    else
      LastNav(if prices[0].key == key && Acceptable(funds, prices[0]) && prices[0].nav.Some? then prices[0].nav
              else nav, funds, prices[1..], key)
  }

  lemma {:induction false} NavStored(table: Table, funds: set<string>, prices: seq<NewPrice>, key: PriceKey)
    ensures var next := SavedAll(table, funds, prices);
            key in next ==> next[key].nav == LastNav(if key in table then table[key].nav else None, funds, prices, key)
    decreases prices
  {
    if prices != [] {
      NavStored(Saved(table, funds, prices[0]), funds, prices[1..], key);
    }
  }

  /** Which entries an upload refuses: those of unknown funds, and those whose bid is above the mid price or whose mid
      price is above the offer; each is reported with its row and reason, and no other entry is. */
  lemma {:induction false} RefusedEntries(funds: set<string>, prices: seq<NewPrice>, row: nat, n: nat, x: Problem)
    ensures (n, x) in Problems(funds, prices, row) <==>
            exists i :: 0 <= i < |prices| && row + i == n && !Acceptable(funds, prices[i]) &&
                        (x == UnknownFund <==> prices[i].key.fund !in funds)
    decreases prices
  {
    if prices != [] {
      var rest := prices[1..];
      var later := Problems(funds, rest, row + 1);
      RefusedEntries(funds, rest, row + 1, n, x);
      if i :| 0 <= i < |rest| && row + 1 + i == n && !Acceptable(funds, rest[i]) &&
              (x == UnknownFund <==> rest[i].key.fund !in funds)
      {
        assert rest[i] == prices[i + 1] && row + (i + 1) == n;
      }
      if i :| 0 <= i < |prices| && row + i == n && !Acceptable(funds, prices[i]) &&
              (x == UnknownFund <==> prices[i].key.fund !in funds)
      {
        assert i > 0 ==> rest[i - 1] == prices[i] && row + 1 + (i - 1) == n;
      }
    }
  }

  // ---- The latest prices ----

  /** The stored quote of a fund with the newest date. */
  ghost predicate NewestQuote(table: Table, fund: string, date: int) {
    && PriceKey(date, fund) in table
    && forall d :: PriceKey(d, fund) in table ==> d <= date
  }

  lemma {:induction false} NewestQuoteIs(table: Table, fund: string, date: int)
    ensures NewestQuote(table, fund, date) <==> IsNewest(table, PriceKey(date, fund))
  {
    if NewestQuote(table, fund, date) {
      forall j | j in table && j.fund == fund
        ensures j.date <= date
      {
        assert j == PriceKey(j.date, fund);
      }
    }
  }

  /** The latest prices give each of the four funds the mid price of its newest quote, and nothing else. */
  lemma {:induction false} LatestMid(table: Table, fund: string, mid: real)
    ensures (fund in Latest(table).mids && Latest(table).mids[fund] == mid) <==>
            FourFunds(fund) && exists d :: NewestQuote(table, fund, d) && table[PriceKey(d, fund)].mid == mid
  {
    AnyOrderIsLatest(table, FUNDS);
    FundsAreFour(fund);
    if fund in Latest(table).mids {
      var k :| IsNewest(table, k) && k.fund == fund;
      NewestQuoteIs(table, fund, k.date);
    }
    if d :| NewestQuote(table, fund, d) && table[PriceKey(d, fund)].mid == mid {
      NewestQuoteIs(table, fund, d);
    }
  }

  /** The stored quote of a fund with the newest date up to the given one. */
  ghost predicate NewestUpTo(table: Table, fund: string, date: int, d: int) {
    && PriceKey(d, fund) in table && d <= date
    && forall e :: PriceKey(e, fund) in table && e <= date ==> e <= d
  }

  /** The prices as of a date are those of the newest quotes up to it. */
  lemma {:induction false} AsOfMid(table: Table, date: int, fund: string, mid: real)
    ensures var p := Latest(UpTo(table, date));
            (fund in p.mids && p.mids[fund] == mid) <==>
            FourFunds(fund) && exists d :: NewestUpTo(table, fund, date, d) && table[PriceKey(d, fund)].mid == mid
  {
    LatestMid(UpTo(table, date), fund, mid);
    forall d
      ensures NewestQuote(UpTo(table, date), fund, d) <==> NewestUpTo(table, fund, date, d)
    {
    }
  }

  /** And they carry the newest date of the four funds. */
  lemma {:induction false} LatestDate(table: Table)
    ensures Latest(table).asOf == None <==> forall k :: k in table ==> !FourFunds(k.fund)
    ensures Latest(table).asOf.Some? ==>
              && (forall k :: k in table && FourFunds(k.fund) ==> k.date <= Latest(table).asOf.value)
              && (exists k :: k in table && FourFunds(k.fund) && k.date == Latest(table).asOf.value)
  {
    var p := Latest(table);
    AnyOrderIsLatest(table, FUNDS);
    if p.asOf.Some? {
      var k :| IsNewest(table, k) && k.fund in FUNDS && k.date == p.asOf.value;
      FundsAreFour(k.fund);
    }
    forall k | k in table && FourFunds(k.fund)
      ensures p.asOf.Some? && k.date <= p.asOf.value
    {
      FundsAreFour(k.fund);
      assert k.date in DatesOf(table, k.fund);
      NewestIsNewest(table, k.fund);
      assert IsNewest(table, Newest(table, k.fund).value);
    }
  }
}
