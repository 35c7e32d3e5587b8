/** Bank rows, fund rows, and the goal transactions that fund rows are grouped into. */
module Transactions {
  import opened Text
  import opened Combination

  datatype TxnType = Deposit | Withdrawal | Redemption | Switch | Dividend | Transfer

  datatype ReviewTag =
    | DuplicateTransaction | NoActionNeeded | MissingInBank | MissingInGoal | TimingDifference
    | AmountDiscrepancy | DataEntryError | UnderInvestigation | ReversalNetted

  /** Times are milliseconds since the epoch. The match code of a bank row is kept apart from it, in
      a table from row id to code. */
  datatype BankRow = BankRow(id: string, date: int, txnType: TxnType, txnId: string, amount: int)

  datatype FundRow = FundRow(id: string, goalCode: string, date: int, txnType: TxnType,
                             txnId: Option<string>, amount: int)

  /** The fund rows of one goal transaction code and type, summed. */
  datatype GoalTxn = GoalTxn(code: string, txnType: TxnType, date: int, txnId: Option<string>,
                             total: int, ids: seq<string>)

  // ---- Keys ----

  function TypeName(t: TxnType): (name: string)
    ensures '|' !in name && '-' !in name
  {
    match t
    case Deposit => "DEPOSIT"
    case Withdrawal => "WITHDRAWAL"
    case Redemption => "REDEMPTION"
    case Switch => "SWITCH"
    case Dividend => "DIVIDEND"
    case Transfer => "TRANSFER"
  }

  /** The composite map key that the grouping uses. */
  function KeyText(code: string, t: TxnType): string {
    code + ['|'] + TypeName(t)
  }

  lemma {:induction false} TypeNameInjective(a: TxnType, b: TxnType)
    requires TypeName(a) == TypeName(b)
    ensures a == b
  {
    assert TypeName(a)[0] == TypeName(b)[0];
    assert |TypeName(a)| == |TypeName(b)|;
    assert TypeName(Deposit)[2] == 'P' && TypeName(Dividend)[2] == 'V';
  }

  /** The textual key tells apart exactly the pairs of code and type, whatever the code contains. */
  lemma {:induction false} KeyTextInjective(c1: string, t1: TxnType, c2: string, t2: TxnType)
    ensures KeyText(c1, t1) == KeyText(c2, t2) <==> c1 == c2 && t1 == t2
  {
    if KeyText(c1, t1) == KeyText(c2, t2) {
      var n1, n2 := TypeName(t1), TypeName(t2);
      assert c1 + ['|'] + n1 == c2 + ['|'] + n2;
      LastSeparator(c1, n1, c2, n2, '|');
      TypeNameInjective(t1, t2);
    }
  }

  datatype Key = Key(code: string, txnType: TxnType)

  function FundKey(r: FundRow): Key {
    Key(r.goalCode, r.txnType)
  }

  function GroupKey(g: GoalTxn): Key {
    Key(g.code, g.txnType)
  }

  // ---- Amounts ----

  function BankItems(rows: seq<BankRow>): (items: seq<Item<BankRow>>)
    ensures |items| == |rows| && forall i :: 0 <= i < |rows| ==> items[i] == Item(rows[i], rows[i].amount)
  {
    if rows == [] then [] else [Item(rows[0], rows[0].amount)] + BankItems(rows[1..])
  }

  function GoalItems(groups: seq<GoalTxn>): (items: seq<Item<GoalTxn>>)
    ensures |items| == |groups| && forall i :: 0 <= i < |groups| ==> items[i] == Item(groups[i], groups[i].total)
  {
    if groups == [] then [] else [Item(groups[0], groups[0].total)] + GoalItems(groups[1..])
  }

  function BankTotal(rows: seq<BankRow>): int {
    Sum(BankItems(rows))
  }

  function GoalTotal(groups: seq<GoalTxn>): int {
    Sum(GoalItems(groups))
  }

  function FundItems(rows: seq<FundRow>): seq<Item<FundRow>> {
    if rows == [] then [] else [Item(rows[0], rows[0].amount)] + FundItems(rows[1..])
  }

  function FundTotal(rows: seq<FundRow>): int {
    Sum(FundItems(rows))
  }

  function FundIds(rows: seq<FundRow>): (ids: seq<string>)
    ensures |ids| == |rows| && forall i :: 0 <= i < |rows| ==> ids[i] == rows[i].id
  {
    if rows == [] then [] else [rows[0].id] + FundIds(rows[1..])
  }

  // ---- Grouping ----

  function NewGroup(r: FundRow): GoalTxn {
    GoalTxn(r.goalCode, r.txnType, r.date, r.txnId, r.amount, [r.id])
  }

  function Extend(g: GoalTxn, r: FundRow): GoalTxn {
    g.(total := g.total + r.amount, ids := g.ids + [r.id])
  }

  /** Add a fund row to the group of its key, or open a new group at the end. */
  function AddRow(groups: seq<GoalTxn>, r: FundRow): seq<GoalTxn> {
    if groups == [] then [NewGroup(r)]
    else if GroupKey(groups[0]) == FundKey(r) then [Extend(groups[0], r)] + groups[1..]
    else [groups[0]] + AddRow(groups[1..], r)
  }

  function GroupFrom(groups: seq<GoalTxn>, rows: seq<FundRow>): seq<GoalTxn>
    decreases rows
  {
    if rows == [] then groups else GroupFrom(AddRow(groups, rows[0]), rows[1..])
  }

  function Group(rows: seq<FundRow>): seq<GoalTxn> {
    GroupFrom([], rows)
  }

  // ---- What the groups are ----

  function RowsOf(rows: seq<FundRow>, key: Key): seq<FundRow> {
    if rows == [] then []
    else (if FundKey(rows[0]) == key then [rows[0]] else []) + RowsOf(rows[1..], key)
  }

  function Summary(rows: seq<FundRow>): GoalTxn
    requires rows != []
  {
    GoalTxn(rows[0].goalCode, rows[0].txnType, rows[0].date, rows[0].txnId, FundTotal(rows), FundIds(rows))
  }

  ghost predicate DistinctFundIds(rows: seq<FundRow>) {
    forall i, j :: 0 <= i < j < |rows| ==> rows[i].id != rows[j].id
  }

  ghost predicate DistinctKeys(groups: seq<GoalTxn>) {
    forall i, j :: 0 <= i < j < |groups| ==> GroupKey(groups[i]) != GroupKey(groups[j])
  }

  ghost predicate HasKey(groups: seq<GoalTxn>, key: Key) {
    exists g :: g in groups && GroupKey(g) == key
  }

  /** groups is the partition of rows by key, each group the summary of its rows in their order. */
  ghost predicate Partitions(rows: seq<FundRow>, groups: seq<GoalTxn>) {
    && DistinctKeys(groups)
    && (forall g :: g in groups ==> RowsOf(rows, GroupKey(g)) != [] && g == Summary(RowsOf(rows, GroupKey(g))))
    && (forall r :: r in rows ==> HasKey(groups, FundKey(r)))
  }

  lemma {:induction false} RowsOfSnoc(rows: seq<FundRow>, r: FundRow, key: Key)
    ensures RowsOf(rows + [r], key) == RowsOf(rows, key) + (if FundKey(r) == key then [r] else [])
  {
    if rows != [] {
      assert (rows + [r])[1..] == rows[1..] + [r];
      RowsOfSnoc(rows[1..], r, key);
    }
  }

  lemma {:induction false} FundTotalSnoc(rows: seq<FundRow>, r: FundRow)
    ensures FundTotal(rows + [r]) == FundTotal(rows) + r.amount
    ensures FundIds(rows + [r]) == FundIds(rows) + [r.id]
  {
    if rows == [] {
      assert rows + [r] == [r] && [r][1..] == [];
      assert FundItems([r]) == [Item(r, r.amount)] && [Item(r, r.amount)][1..] == [];
    } else {
      assert (rows + [r])[1..] == rows[1..] + [r];
      FundTotalSnoc(rows[1..], r);
    }
  }

  lemma {:induction false} AddRowKeys(groups: seq<GoalTxn>, r: FundRow)
    requires DistinctKeys(groups)
    ensures DistinctKeys(AddRow(groups, r))
    ensures forall k :: HasKey(AddRow(groups, r), k) <==> HasKey(groups, k) || k == FundKey(r)
  {
    var next := AddRow(groups, r);
    if groups == [] {
      assert next[0] in next;
    } else {
      var tail := AddRow(groups[1..], r);
      AddRowKeys(groups[1..], r);
      forall j | 0 <= j < |tail| && GroupKey(groups[0]) != FundKey(r)
        ensures GroupKey(tail[j]) != GroupKey(groups[0])
      {
        assert HasKey(tail, GroupKey(tail[j]));
        if GroupKey(tail[j]) != FundKey(r) {
          assert HasKey(groups[1..], GroupKey(tail[j]));
        }
      }
      HasKeyCons(groups);
      HasKeyCons(next);
    }
  }

  lemma {:induction false} HasKeyCons(groups: seq<GoalTxn>)
    requires groups != []
    ensures forall k :: HasKey(groups, k) <==> k == GroupKey(groups[0]) || HasKey(groups[1..], k)
  {
    assert groups[0] in groups;
    assert forall g :: g in groups <==> g == groups[0] || g in groups[1..];
  }

  /** Where a group comes from: it is untouched, or extends the one with its key, or is new. */
  lemma {:induction false} AddRowOrigin(groups: seq<GoalTxn>, r: FundRow, g: GoalTxn) returns (h: GoalTxn)
    requires DistinctKeys(groups) && g in AddRow(groups, r)
    ensures GroupKey(g) != FundKey(r) ==> g in groups
    ensures GroupKey(g) == FundKey(r) && HasKey(groups, FundKey(r)) ==>
              h in groups && GroupKey(h) == FundKey(r) && g == Extend(h, r)
    ensures GroupKey(g) == FundKey(r) && !HasKey(groups, FundKey(r)) ==> g == NewGroup(r)
  {
    if groups == [] {
      h := g;
    } else if g == AddRow(groups, r)[0] {
      h := groups[0];
    } else {
      HasKeyCons(groups);
      if GroupKey(groups[0]) == FundKey(r) {
        h := g;
        assert g in groups[1..];
      } else {
        assert g in AddRow(groups[1..], r);
        h := AddRowOrigin(groups[1..], r, g);
      }
    }
  }

  lemma {:induction false} SummaryExtend(own: seq<FundRow>, r: FundRow)
    requires own != [] && FundKey(own[0]) == FundKey(r)
    ensures Summary(own + [r]) == Extend(Summary(own), r)
  {
    FundTotalSnoc(own, r);
  }

  lemma {:induction false} NoRowsOfNewKey(rows: seq<FundRow>, groups: seq<GoalTxn>, key: Key)
    requires Partitions(rows, groups) && !HasKey(groups, key)
    ensures RowsOf(rows, key) == []
  {
    var own := RowsOf(rows, key);
    assert own != [] ==> own[0] in own;
    RowsOfMembers(rows, key);
  }

  lemma {:induction false} SummaryStep(rows: seq<FundRow>, groups: seq<GoalTxn>, r: FundRow, g: GoalTxn)
    requires Partitions(rows, groups) && g in AddRow(groups, r)
    ensures var own := RowsOf(rows + [r], GroupKey(g)); own != [] && g == Summary(own)
  {
    var key := GroupKey(g);
    var own := RowsOf(rows, key);
    var h := AddRowOrigin(groups, r, g);
    RowsOfSnoc(rows, r, key);
    if key != FundKey(r) {
      assert own + [] == own;
    } else if HasKey(groups, key) {
      RowsOfMembers(rows, key);
      assert own != [] && h == Summary(own);
      assert own[0] in own;
      SummaryExtend(own, r);
    } else {
      NoRowsOfNewKey(rows, groups, key);
      assert own + [r] == [r];
      SummaryOfOne(r);
    }
  }

  lemma {:induction false} SummaryOfOne(r: FundRow)
    ensures Summary([r]) == NewGroup(r)
  {
    assert FundTotal([r][1..]) == 0;
  }

  lemma {:induction false} PartitionsStep(rows: seq<FundRow>, groups: seq<GoalTxn>, r: FundRow)
    requires Partitions(rows, groups)
    ensures Partitions(rows + [r], AddRow(groups, r))
  {
    AddRowKeys(groups, r);
    forall g | g in AddRow(groups, r)
      ensures RowsOf(rows + [r], GroupKey(g)) != [] && g == Summary(RowsOf(rows + [r], GroupKey(g)))
    {
      SummaryStep(rows, groups, r, g);
    }
  }

  lemma {:induction false} RowsOfMembers(rows: seq<FundRow>, key: Key)
    ensures forall r :: r in RowsOf(rows, key) <==> r in rows && FundKey(r) == key
  {
    if rows != [] {
      RowsOfMembers(rows[1..], key);
      assert forall r :: r in rows <==> r == rows[0] || r in rows[1..];
    }
  }

  lemma {:induction false} GroupFromPartitions(done: seq<FundRow>, groups: seq<GoalTxn>, rows: seq<FundRow>)
    requires Partitions(done, groups)
    ensures Partitions(done + rows, GroupFrom(groups, rows))
    decreases rows
  {
    if rows == [] {
      assert done + rows == done;
    } else {
      var (more, next, rest) := (done + [rows[0]], AddRow(groups, rows[0]), rows[1..]);
      assert done + rows == more + rest && GroupFrom(groups, rows) == GroupFrom(next, rest);
      PartitionsStep(done, groups, rows[0]);
      GroupFromPartitions(more, next, rest);
    }
  }

  /** Grouping splits the fund rows by code and type: no row is lost or counted twice. */
  lemma {:induction false} GroupPartitions(rows: seq<FundRow>)
    ensures Partitions(rows, Group(rows))
  {
    GroupFromPartitions([], [], rows);
    assert [] + rows == rows;
  }

  lemma {:induction false} AddRowTotal(groups: seq<GoalTxn>, r: FundRow)
    ensures GoalTotal(AddRow(groups, r)) == GoalTotal(groups) + r.amount
  {
    if groups != [] && GroupKey(groups[0]) != FundKey(r) {
      AddRowTotal(groups[1..], r);
      assert AddRow(groups, r)[1..] == AddRow(groups[1..], r);
    } else if groups != [] {
      assert AddRow(groups, r)[1..] == groups[1..];
    }
  }

  lemma {:induction false} GroupFromTotal(groups: seq<GoalTxn>, rows: seq<FundRow>)
    ensures GoalTotal(GroupFrom(groups, rows)) == GoalTotal(groups) + FundTotal(rows)
    decreases rows
  {
    if rows != [] {
      AddRowTotal(groups, rows[0]);
      GroupFromTotal(AddRow(groups, rows[0]), rows[1..]);
    }
  }

  // ---- What the engine asks of its input ----

  ghost predicate DistinctBankIds(rows: seq<BankRow>) {
    forall i, j :: 0 <= i < j < |rows| ==> rows[i].id != rows[j].id
  }

  ghost predicate SharesNoId(g: GoalTxn, h: GoalTxn) {
    forall id :: id in g.ids ==> id !in h.ids
  }

  ghost predicate WellGrouped(groups: seq<GoalTxn>) {
    && DistinctKeys(groups)
    && (forall g :: g in groups ==> g.ids != [] && forall i, j :: 0 <= i < j < |g.ids| ==> g.ids[i] != g.ids[j])
    && (forall i, j :: 0 <= i < |groups| && 0 <= j < |groups| && i != j ==> SharesNoId(groups[i], groups[j]))
  }

  lemma {:induction false} RowsOfDistinct(rows: seq<FundRow>, key: Key)
    requires DistinctFundIds(rows)
    ensures DistinctFundIds(RowsOf(rows, key))
  {
    if rows != [] {
      RowsOfDistinct(rows[1..], key);
      RowsOfMembers(rows[1..], key);
      var tail := RowsOf(rows[1..], key);
      forall j | 0 <= j < |tail|
        ensures tail[j].id != rows[0].id
      {
        assert tail[j] in rows[1..];
      }
    }
  }

  /** Fund rows with distinct ids always give groups the engine can work on. */
  lemma {:induction false} GroupWellGrouped(rows: seq<FundRow>)
    requires DistinctFundIds(rows)
    ensures WellGrouped(Group(rows))
  {
    GroupPartitions(rows);
    var groups := Group(rows);
    forall g | g in groups
      ensures g.ids != [] && forall i, j :: 0 <= i < j < |g.ids| ==> g.ids[i] != g.ids[j]
    {
      RowsOfDistinct(rows, GroupKey(g));
    }
    forall i, j | 0 <= i < |groups| && 0 <= j < |groups| && i != j
      ensures SharesNoId(groups[i], groups[j])
    {
      assert GroupKey(groups[i]) != GroupKey(groups[j]);
      forall id | id in groups[i].ids
        ensures id !in groups[j].ids
      {
        var r := RowWithId(rows, groups[i], id);
        if id in groups[j].ids {
          var s := RowWithId(rows, groups[j], id);
          assert false;
        }
      }
    }
  }

  lemma {:induction false} RowWithId(rows: seq<FundRow>, g: GoalTxn, id: string) returns (r: FundRow)
    requires RowsOf(rows, GroupKey(g)) != [] && g == Summary(RowsOf(rows, GroupKey(g))) && id in g.ids
    ensures r in rows && r.id == id && FundKey(r) == GroupKey(g)
  {
    var own := RowsOf(rows, GroupKey(g));
    RowsOfMembers(rows, GroupKey(g));
    var k :| 0 <= k < |g.ids| && g.ids[k] == id;
    r := own[k];
  }

  // ---- The grouping loop ----

  /** The entries of an insertion-ordered map. */
  function Entries(order: seq<Key>, byKey: map<Key, GoalTxn>): (entries: seq<GoalTxn>)
    requires forall k :: k in order ==> k in byKey
    ensures |entries| == |order| && forall i :: 0 <= i < |order| ==> entries[i] == byKey[order[i]]
  {
    seq(|order|, i requires 0 <= i < |order| => byKey[order[i]])
  }

  lemma {:induction false} AddRowAt(groups: seq<GoalTxn>, r: FundRow, k: nat)
    requires k < |groups| && GroupKey(groups[k]) == FundKey(r) && DistinctKeys(groups)
    ensures AddRow(groups, r) == groups[k := Extend(groups[k], r)]
  {
    if k > 0 {
      assert GroupKey(groups[0]) != GroupKey(groups[k]);
      AddRowAt(groups[1..], r, k - 1);
    }
  }

  lemma {:induction false} AddRowNew(groups: seq<GoalTxn>, r: FundRow)
    requires forall g :: g in groups ==> GroupKey(g) != FundKey(r)
    ensures AddRow(groups, r) == groups + [NewGroup(r)]
  {
    if groups != [] {
      AddRowNew(groups[1..], r);
    }
  }

  ghost predicate MapInOrder(order: seq<Key>, byKey: map<Key, GoalTxn>) {
    && (forall k :: k in order <==> k in byKey)
    && (forall a, b :: 0 <= a < b < |order| ==> order[a] != order[b])
    && (forall k :: k in byKey ==> GroupKey(byKey[k]) == k)
  }

  lemma {:induction false} EntriesOpen(order: seq<Key>, byKey: map<Key, GoalTxn>, r: FundRow)
    requires MapInOrder(order, byKey) && FundKey(r) !in byKey
    ensures MapInOrder(order + [FundKey(r)], byKey[FundKey(r) := NewGroup(r)])
    ensures Entries(order + [FundKey(r)], byKey[FundKey(r) := NewGroup(r)]) == AddRow(Entries(order, byKey), r)
  {
    var after := order + [FundKey(r)];
    assert forall k :: k in after <==> k in order || k == FundKey(r);
    AddRowNew(Entries(order, byKey), r);
  }

  lemma {:induction false} EntriesExtend(order: seq<Key>, byKey: map<Key, GoalTxn>, r: FundRow)
    requires MapInOrder(order, byKey) && FundKey(r) in byKey
    ensures var next := byKey[FundKey(r) := Extend(byKey[FundKey(r)], r)];
            MapInOrder(order, next) && Entries(order, next) == AddRow(Entries(order, byKey), r)
  {
    var k :| 0 <= k < |order| && order[k] == FundKey(r);
    var groups := Entries(order, byKey);
    EntriesDistinct(order, byKey);
    AddRowAt(groups, r, k);
    assert Entries(order, byKey[FundKey(r) := Extend(byKey[FundKey(r)], r)]) == groups[k := Extend(groups[k], r)];
  }

  lemma {:induction false} EntriesDistinct(order: seq<Key>, byKey: map<Key, GoalTxn>)
    requires MapInOrder(order, byKey)
    ensures DistinctKeys(Entries(order, byKey))
  {
  }

  method GroupFundRows(rows: seq<FundRow>) returns (groups: seq<GoalTxn>)
    ensures groups == Group(rows)
    ensures Partitions(rows, groups)
    ensures GoalTotal(groups) == FundTotal(rows)
  {
    var order: seq<Key> := [];
    var byKey: map<Key, GoalTxn> := map[];
    for i := 0 to |rows|
      invariant MapInOrder(order, byKey)
      invariant GroupFrom(Entries(order, byKey), rows[i..]) == Group(rows)
    {
      assert rows[i..][1..] == rows[i + 1..];
      order, byKey := PushRow(order, byKey, rows[i]);
    }
    groups := Entries(order, byKey);
    GroupPartitions(rows);
    GroupFromTotal([], rows);
  }

  method PushRow(order0: seq<Key>, byKey0: map<Key, GoalTxn>, r: FundRow)
    returns (order: seq<Key>, byKey: map<Key, GoalTxn>)
    requires MapInOrder(order0, byKey0)
    ensures MapInOrder(order, byKey)
    ensures Entries(order, byKey) == AddRow(Entries(order0, byKey0), r)
  {
    order, byKey := order0, byKey0;
    var key := FundKey(r);
    if key !in byKey {
      EntriesOpen(order, byKey, r);
      EmptyExtended(r);
      order := order + [key];
      byKey := byKey[key := EmptyGroup(r)];
      assert byKey[key := NewGroup(r)] == byKey0[key := NewGroup(r)];
    } else {
      EntriesExtend(order, byKey, r);
    }
    byKey := byKey[key := Extend(byKey[key], r)];
  }

  /** What the map holds for a new key before the row is added. */
  function EmptyGroup(r: FundRow): GoalTxn {
    GoalTxn(r.goalCode, r.txnType, r.date, r.txnId, 0, [])
  }

  lemma {:induction false} EmptyExtended(r: FundRow)
    ensures Extend(EmptyGroup(r), r) == NewGroup(r)
  {
    assert [] + [r.id] == [r.id];
  }

  // ---- The groups, field by field ----

  /** The amounts of the rows of a key. */
  function KeyAmount(rows: seq<FundRow>, code: string, t: TxnType): int {
    if rows == [] then 0
    else
      (if rows[0].goalCode == code && rows[0].txnType == t then rows[0].amount else 0) + KeyAmount(rows[1..], code, t)
  }

  /** Row i is the first of its code and type. */
  ghost predicate IsFirstOfKey(rows: seq<FundRow>, i: int) {
    && 0 <= i < |rows|
    && forall j :: 0 <= j < i ==> rows[j].goalCode != rows[i].goalCode || rows[j].txnType != rows[i].txnType
  }

  lemma {:induction false} RowsOfFirst(rows: seq<FundRow>, i: nat)
    requires IsFirstOfKey(rows, i)
    ensures RowsOf(rows, FundKey(rows[i])) != [] && RowsOf(rows, FundKey(rows[i]))[0] == rows[i]
  {
    if i > 0 {
      RowsOfFirst(rows[1..], i - 1);
    }
  }

  lemma {:induction false} RowsOfAmount(rows: seq<FundRow>, key: Key)
    ensures FundTotal(RowsOf(rows, key)) == KeyAmount(rows, key.code, key.txnType)
  {
    if rows != [] {
      RowsOfAmount(rows[1..], key);
      var rest := RowsOf(rows[1..], key);
      assert FundItems([rows[0]] + rest) == [Item(rows[0], rows[0].amount)] + FundItems(rest);
      assert [] + rest == rest;
    }
  }

  /** The group of a row has its code and type, the date and id of the first such row, and the sum of all. */
  lemma {:induction false} GroupIs(rows: seq<FundRow>, i: nat, g: GoalTxn)
    requires IsFirstOfKey(rows, i) && g in Group(rows) && g.code == rows[i].goalCode && g.txnType == rows[i].txnType
    ensures g.date == rows[i].date && g.txnId == rows[i].txnId && g.total == KeyAmount(rows, g.code, g.txnType)
    ensures forall id :: id in g.ids <==>
                         exists r :: r in rows && r.id == id && r.goalCode == g.code && r.txnType == g.txnType
  {
    GroupPartitions(rows);
    RowsOfFirst(rows, i);
    RowsOfAmount(rows, GroupKey(g));
    RowsOfMembers(rows, GroupKey(g));
    var own := RowsOf(rows, GroupKey(g));
    forall id
      ensures id in FundIds(own) <==> exists r :: r in own && r.id == id
    {
      if r :| r in own && r.id == id {
        var k :| 0 <= k < |own| && own[k] == r;
        assert FundIds(own)[k] == id;
      }
    }
  }

  lemma {:induction false} GroupFromSnoc(groups: seq<GoalTxn>, rows: seq<FundRow>, r: FundRow)
    ensures GroupFrom(groups, rows + [r]) == AddRow(GroupFrom(groups, rows), r)
    decreases rows
  {
    if rows == [] {
      assert rows + [r] == [r] && [r][1..] == [];
    } else {
      assert (rows + [r])[1..] == rows[1..] + [r];
      GroupFromSnoc(AddRow(groups, rows[0]), rows[1..], r);
    }
  }

  /** Groups stand in the order of their first rows: a row of a new key opens one at the end. */
  lemma {:induction false} NewKeyGoesLast(rows: seq<FundRow>, r: FundRow)
    requires forall x :: x in rows ==> x.goalCode != r.goalCode || x.txnType != r.txnType
    ensures Group(rows + [r]) ==
            Group(rows) + [GoalTxn(r.goalCode, r.txnType, r.date, r.txnId, r.amount, [r.id])]
  {
    GroupFromSnoc([], rows, r);
    GroupPartitions(rows);
    forall g | g in Group(rows)
      ensures GroupKey(g) != FundKey(r)
    {
      RowsOfMembers(rows, GroupKey(g));
      assert RowsOf(rows, GroupKey(g))[0] in RowsOf(rows, GroupKey(g));
    }
    AddRowNew(Group(rows), r);
  }
}
