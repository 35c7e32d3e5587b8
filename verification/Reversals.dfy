/** Reversal pairs: two bank rows of one goal that cancel each other. A row remembers its partner only
    in the text of its notes. */
module Reversals {
  import opened Money
  import opened Text
  import opened Transactions

  datatype Row = Row(goal: string, date: int, txnType: TxnType, txnId: string, amount: int, code: Option<string>,
                     tag: Option<ReviewTag>, notes: Option<string>)

  type Table = map<string, Row>

  const PAIR_NOTE := "Reversal pair with: "

  // 0.01 is one cent
  const MAX_NET := 1

  // ---- The partner in the notes ----

  /** The characters of a row id. */
  predicate IsIdChar(c: char) {
    'a' <= c <= 'f' || '0' <= c <= '9' || c == '-'
  }

  /** The longest beginning of s made of id characters. */
  function IdRun(s: string): string {
    if s != "" && IsIdChar(s[0]) then [s[0]] + IdRun(s[1..]) else ""
  }

  /** The first place at or after i where the note's words are followed by an id. */
  function PairedFrom(notes: string, i: nat): Option<string>
    decreases |notes| - i
  {
    if i > |notes| then None
    else if PAIR_NOTE <= notes[i..] && IdRun(notes[i + |PAIR_NOTE|..]) != "" then Some(IdRun(notes[i + |PAIR_NOTE|..]))
    else if i == |notes| then None
    else PairedFrom(notes, i + 1)
  }

  function PairedId(notes: Option<string>): Option<string> {
    match notes
    case None => None
    case Some(text) => PairedFrom(text, 0)
  }

  predicate IsId(id: string) {
    id != "" && forall c :: c in id ==> IsIdChar(c)
  }

  lemma {:induction false} IdRunOfId(id: string)
    requires forall c :: c in id ==> IsIdChar(c)
    ensures IdRun(id) == id
  {
    if id != "" {
      IdRunOfId(id[1..]);
    }
  }

  /** The partner that linking writes is the partner that is read back. */
  lemma {:induction false} NoteReadsBack(id: string)
    requires IsId(id)
    ensures PairedId(Some(PAIR_NOTE + id)) == Some(id)
  {
    var text := PAIR_NOTE + id;
    IdRunOfId(id);
    assert text[0..] == text && text[|PAIR_NOTE|..] == id;
  }

  /** The letters a to f, a digit or a dash. */
  predicate HexOrDash(c: char) {
    c == '-' || c == 'a' || c == 'b' || c == 'c' || c == 'd' || c == 'e' || c == 'f' || '0' <= c <= '9'
  }

  ghost predicate WordsAt(text: string, k: int) {
    0 <= k <= |text| && "Reversal pair with: " <= text[k..]
  }

  lemma {:induction false} IdRunStops(id: string, after: string)
    requires forall c :: c in id ==> HexOrDash(c)
    requires after == "" || !HexOrDash(after[0])
    ensures IdRun(id + after) == id
  {
    if id != "" {
      assert id[0] in id && (id + after)[1..] == id[1..] + after;
      IdRunStops(id[1..], after);
      assert [id[0]] + id[1..] == id;
    } else {
      assert id + after == after;
    }
  }

  lemma {:induction false} PairedFromSkips(text: string, i: nat, k: nat)
    requires i <= k <= |text| && forall j :: i <= j < k ==> !WordsAt(text, j)
    ensures PairedFrom(text, i) == PairedFrom(text, k)
    decreases k - i
  {
    if i < k {
      assert !WordsAt(text, i);
      PairedFromSkips(text, i + 1, k);
    }
  }

  /** The partner is the whole run of such characters after the first place with the words, whatever stands around. */
  lemma {:induction false} PartnerInNote(before: string, id: string, after: string)
    requires id != "" && forall c :: c in id ==> HexOrDash(c)
    requires after == "" || !HexOrDash(after[0])
    requires forall k :: 0 <= k < |before| ==> !WordsAt(before + "Reversal pair with: " + id + after, k)
    ensures PairedId(Some(before + "Reversal pair with: " + id + after)) == Some(id)
  {
    var text := before + "Reversal pair with: " + id + after;
    var k := |before|;
    PairedFromSkips(text, 0, k);
    IdRunStops(id, after);
    assert text[k..] == PAIR_NOTE + (id + after);
    assert text[k + |PAIR_NOTE|..] == id + after;
  }

  /** A note without the words names no partner. */
  lemma {:induction false} NoPartner(text: string)
    requires forall k :: 0 <= k <= |text| ==> !WordsAt(text, k)
    ensures PairedId(Some(text)) == None && PairedId(None) == None
  {
    PairedFromSkips(text, 0, |text|);
    assert !WordsAt(text, |text|);
  }

  // ---- Linking ----

  datatype LinkResult = Linked | NotFound | DifferentGoals | SameType | NotZero

  function LinkCheck(rows: Table, a: string, b: string): LinkResult {
    if a !in rows || b !in rows then NotFound
    else if rows[a].goal != rows[b].goal then DifferentGoals
    else if rows[a].txnType == rows[b].txnType then SameType
    else if Abs(rows[a].amount + rows[b].amount) > MAX_NET then NotZero
    else Linked
  }

  function PairedWith(row: Row, id: string): Row {
    row.(tag := Some(ReversalNetted), notes := Some(PAIR_NOTE + id))
  }

  function Link(rows: Table, a: string, b: string): Table {
    if LinkCheck(rows, a, b) == Linked then rows[a := PairedWith(rows[a], b)][b := PairedWith(rows[b], a)] else rows
  }

  // ---- Unlinking ----

  datatype UnlinkResult = Unlinked(count: nat) | RowNotFound | NotPaired

  predicate IsNetted(rows: Table, id: string) {
    id in rows && rows[id].tag == Some(ReversalNetted)
  }

  function Untagged(row: Row): Row {
    row.(tag := None, notes := None)
  }

  function UnlinkCount(rows: Table, id: string): UnlinkResult {
    if id !in rows then RowNotFound
    else if !IsNetted(rows, id) then NotPaired
    else
      match PairedId(rows[id].notes)
      case Some(p) => if p != id && IsNetted(rows, p) then Unlinked(2) else Unlinked(1)
      case None => Unlinked(1)
  }

  function Unlink(rows: Table, id: string): Table {
    if !IsNetted(rows, id) then rows
    else
      var first := rows[id := Untagged(rows[id])];
      match PairedId(rows[id].notes)
      case Some(p) => if IsNetted(first, p) then first[p := Untagged(first[p])] else first
      case None => first
  }

  // ---- The pairing ----

  function Partner(rows: Table, id: string): Option<string> {
    if IsNetted(rows, id) then PairedId(rows[id].notes) else None
  }

  /** id is netted with p, and p with id. */
  ghost predicate PairOk(rows: Table, id: string, p: string) {
    && p != id && IsNetted(rows, id) && IsNetted(rows, p)
    && Partner(rows, id) == Some(p) && Partner(rows, p) == Some(id)
    && rows[id].goal == rows[p].goal && rows[id].txnType != rows[p].txnType
    && Abs(rows[id].amount + rows[p].amount) <= MAX_NET
  }

  /** The partner relation is a symmetric involution without fixed points, within one goal and across
      different types. */
  ghost predicate Paired(rows: Table) {
    forall id :: IsNetted(rows, id) ==> Partner(rows, id).Some? && PairOk(rows, id, Partner(rows, id).value)
  }

  ghost predicate IdsOk(rows: Table) {
    forall id :: id in rows ==> IsId(id)
  }

  lemma {:induction false} LinkedPair(rows: Table, a: string, b: string)
    requires IdsOk(rows) && LinkCheck(rows, a, b) == Linked
    ensures PairOk(Link(rows, a, b), a, b)
    ensures forall id :: id != a && id != b ==>
              (id in rows <==> id in Link(rows, a, b)) && (id in rows ==> Link(rows, a, b)[id] == rows[id])
  {
    NoteReadsBack(a);
    NoteReadsBack(b);
  }

  ghost predicate Unpaired(rows: Table, a: string, b: string) {
    !IsNetted(rows, a) && !IsNetted(rows, b)
  }

  lemma {:induction false} OthersStayPaired(rows: Table, a: string, b: string, id: string)
    requires IdsOk(rows) && Paired(rows) && LinkCheck(rows, a, b) == Linked
    requires Unpaired(rows, a, b) || Partner(rows, a) == Some(b)
    requires IsNetted(Link(rows, a, b), id)
    ensures Partner(Link(rows, a, b), id).Some? && PairOk(Link(rows, a, b), id, Partner(Link(rows, a, b), id).value)
  {
    LinkedPair(rows, a, b);
    if id != a && id != b {
      assert IsNetted(rows, id);
      var p := Partner(rows, id).value;
      assert PairOk(rows, id, p);
      assert PairOk(rows, p, id);
    }
  }

  lemma {:induction false} BrokenByRelink(rows: Table, a: string, b: string, side: string, p: string)
    requires IdsOk(rows) && LinkCheck(rows, a, b) == Linked
    requires (side == a || side == b) && PairOk(rows, side, p) && p != a && p != b
    ensures !Paired(Link(rows, a, b))
  {
    var next := Link(rows, a, b);
    LinkedPair(rows, a, b);
    assert IsNetted(next, p) && Partner(next, p) == Some(side);
    assert !PairOk(next, p, side);
  }

  /** Linking does not ask whether the rows are already linked. Exactly when it keeps the pairing: both
      rows are unlinked, or they are already linked with each other. */
  lemma {:induction false} LinkKeepsPairing(rows: Table, a: string, b: string)
    requires IdsOk(rows) && Paired(rows) && LinkCheck(rows, a, b) == Linked
    ensures Paired(Link(rows, a, b)) <==> Unpaired(rows, a, b) || Partner(rows, a) == Some(b)
  {
    if Unpaired(rows, a, b) || Partner(rows, a) == Some(b) {
      forall id | IsNetted(Link(rows, a, b), id)
        ensures Partner(Link(rows, a, b), id).Some? && PairOk(Link(rows, a, b), id, Partner(Link(rows, a, b), id).value)
      {
        OthersStayPaired(rows, a, b, id);
      }
    } else if IsNetted(rows, a) {
      var p := Partner(rows, a).value;
      assert PairOk(rows, a, p);
      BrokenByRelink(rows, a, b, a, p);
    } else {
      var p := Partner(rows, b).value;
      assert PairOk(rows, b, p);
      BrokenByRelink(rows, a, b, b, p);
    }
  }

  /** Unlinking clears exactly the two rows of the pair, whichever side it is asked for. */
  lemma {:induction false} UnlinkClearsPair(rows: Table, id: string)
    requires Paired(rows) && IsNetted(rows, id)
    ensures var p := Partner(rows, id).value;
            && UnlinkCount(rows, id) == Unlinked(2)
            && Unlink(rows, id) == rows[id := Untagged(rows[id])][p := Untagged(rows[p])]
            && Unlink(rows, id) == Unlink(rows, p)
  {
    var p := Partner(rows, id).value;
    assert PairOk(rows, id, p);
    assert rows[id := Untagged(rows[id])][p := Untagged(rows[p])] ==
        rows[p := Untagged(rows[p])][id := Untagged(rows[id])];
  }

  lemma {:induction false} UnlinkKeepsPairing(rows: Table, id: string)
    requires Paired(rows)
    ensures Paired(Unlink(rows, id))
  {
    if IsNetted(rows, id) {
      UnlinkClearsPair(rows, id);
      var p := Partner(rows, id).value;
      var next := Unlink(rows, id);
      assert PairOk(rows, id, p);
      forall x | IsNetted(next, x)
        ensures Partner(next, x).Some? && PairOk(next, x, Partner(next, x).value)
      {
        assert x != id && x != p && IsNetted(rows, x);
        var q := Partner(rows, x).value;
        assert PairOk(rows, x, q);
        assert q != id && q != p;
      }
    }
  }

  /** Linking two rows without tag and notes and unlinking either of them restores the table. */
  lemma {:induction false} LinkThenUnlink(rows: Table, a: string, b: string)
    requires IdsOk(rows) && LinkCheck(rows, a, b) == Linked
    requires rows[a].tag.None? && rows[a].notes.None? && rows[b].tag.None? && rows[b].notes.None?
    ensures Unlink(Link(rows, a, b), a) == rows && Unlink(Link(rows, a, b), b) == rows
  {
    NoteReadsBack(a);
    NoteReadsBack(b);
    var next := Link(rows, a, b);
    assert Untagged(next[a]) == rows[a] && Untagged(next[b]) == rows[b];
    assert PairedId(next[a].notes) == Some(b) && PairedId(next[b].notes) == Some(a);
    assert Unlink(next, a) == rows;
    assert Unlink(next, b) == rows;
  }

  // ---- Runs ----

  datatype Op = LinkOp(a: string, b: string) | UnlinkOp(id: string)

  function Apply(rows: Table, op: Op): Table {
    match op
    case LinkOp(a, b) => Link(rows, a, b)
    case UnlinkOp(id) => Unlink(rows, id)
  }

  function ApplyAll(rows: Table, ops: seq<Op>): Table
    decreases ops
  {
    if ops == [] then rows else ApplyAll(Apply(rows, ops[0]), ops[1..])
  }

  /** A run does its operations one after the other. */
  lemma {:induction false} LastOperation(rows: Table, ops: seq<Op>, op: Op)
    ensures ApplyAll(rows, []) == rows && ApplyAll(rows, ops + [op]) == Apply(ApplyAll(rows, ops), op)
    decreases ops
  {
    if ops == [] {
      assert ([] + [op])[1..] == [];
    } else {
      assert (ops + [op])[1..] == ops[1..] + [op];
      LastOperation(Apply(rows, ops[0]), ops[1..], op);
    }
  }

  /** A link that succeeds joins two unlinked rows, or two that are already linked with each other. */
  ghost predicate KeepsPairs(rows: Table, op: Op) {
    op.LinkOp? && LinkCheck(rows, op.a, op.b) == Linked ==>
      Unpaired(rows, op.a, op.b) || Partner(rows, op.a) == Some(op.b)
  }

  ghost predicate AllKeepPairs(rows: Table, ops: seq<Op>)
    decreases ops
  {
    ops == [] || (KeepsPairs(rows, ops[0]) && AllKeepPairs(Apply(rows, ops[0]), ops[1..]))
  }

  ghost predicate AlwaysPaired(rows: Table, ops: seq<Op>)
    decreases ops
  {
    Paired(rows) && (ops != [] ==> AlwaysPaired(Apply(rows, ops[0]), ops[1..]))
  }

  lemma {:induction false} StepKeepsPairing(rows: Table, op: Op)
    requires IdsOk(rows) && Paired(rows)
    ensures Paired(Apply(rows, op)) <==> KeepsPairs(rows, op)
    ensures Apply(rows, op).Keys == rows.Keys
  {
    match op
    case LinkOp(a, b) =>
      if LinkCheck(rows, a, b) == Linked {
        LinkKeepsPairing(rows, a, b);
      }
    case UnlinkOp(id) => UnlinkKeepsPairing(rows, id);
  }

  /** Exactly the runs through which the pairing stays intact. */
  lemma {:induction false} RunsKeepPairing(rows: Table, ops: seq<Op>)
    requires IdsOk(rows) && Paired(rows)
    ensures AlwaysPaired(rows, ops) <==> AllKeepPairs(rows, ops)
    ensures AllKeepPairs(rows, ops) ==> Paired(ApplyAll(rows, ops))
    decreases ops
  {
    if ops != [] {
      StepKeepsPairing(rows, ops[0]);
      if KeepsPairs(rows, ops[0]) {
        RunsKeepPairing(Apply(rows, ops[0]), ops[1..]);
      }
    }
  }

  // ---- The netted amounts ----

  ghost function SumOf(rows: Table, ids: set<string>): int
    requires ids <= rows.Keys
    decreases |ids|
  {
    if ids == {} then 0 else var id :| id in ids; rows[id].amount + SumOf(rows, ids - {id})
  }

  lemma {:induction false} SumOfWithout(rows: Table, ids: set<string>, x: string)
    requires ids <= rows.Keys && x in ids
    ensures SumOf(rows, ids) == rows[x].amount + SumOf(rows, ids - {x})
    decreases |ids|
  {
    var id :| id in ids && SumOf(rows, ids) == rows[id].amount + SumOf(rows, ids - {id});
    if id != x {
      SumOfWithout(rows, ids - {id}, x);
      SumOfWithout(rows, ids - {x}, id);
      assert ids - {id} - {x} == ids - {x} - {id};
    }
  }

  ghost function NettedRows(rows: Table, goal: string): set<string> {
    set id | id in rows && IsNetted(rows, id) && rows[id].goal == goal
  }

  /** ids are netted rows, and with each row its partner is among them. */
  ghost predicate Closed(rows: Table, ids: set<string>) {
    forall id :: id in ids ==> IsNetted(rows, id) && Partner(rows, id).Some? && Partner(rows, id).value in ids
  }

  lemma {:induction false} WithoutPair(rows: Table, ids: set<string>, x: string)
    requires Paired(rows) && Closed(rows, ids) && x in ids
    ensures var p := Partner(rows, x).value;
            && p in ids && p != x && Closed(rows, ids - {x} - {p})
            && Abs(rows[x].amount + rows[p].amount) <= MAX_NET
  {
    var p := Partner(rows, x).value;
    assert PairOk(rows, x, p);
    var rest := ids - {x} - {p};
    forall id | id in rest
      ensures IsNetted(rows, id) && Partner(rows, id).Some? && Partner(rows, id).value in rest
    {
      assert PairOk(rows, id, Partner(rows, id).value);
    }
  }

  lemma {:induction false} ClosedSum(rows: Table, ids: set<string>)
    requires Paired(rows) && Closed(rows, ids)
    ensures ids <= rows.Keys && 2 * Abs(SumOf(rows, ids)) <= MAX_NET * |ids|
    decreases |ids|
  {
    assert ids <= rows.Keys;
    if ids != {} {
      var x :| x in ids;
      WithoutPair(rows, ids, x);
      var p := Partner(rows, x).value;
      SumOfWithout(rows, ids, x);
      SumOfWithout(rows, ids - {x}, p);
      ClosedSum(rows, ids - {x} - {p});
    }
  }

  /** The netted amounts of a goal sum to at most one cent for each pair. */
  lemma {:induction false} NettedAmountsCancel(rows: Table, goal: string)
    requires Paired(rows)
    ensures 2 * Abs(SumOf(rows, NettedRows(rows, goal))) <= MAX_NET * |NettedRows(rows, goal)|
  {
    forall id | id in NettedRows(rows, goal)
      ensures Partner(rows, id).Some? && Partner(rows, id).value in NettedRows(rows, goal)
    {
      assert PairOk(rows, id, Partner(rows, id).value);
    }
    ClosedSum(rows, NettedRows(rows, goal));
  }

  // ---- Candidates ----

  function Opposite(t: TxnType): TxnType {
    if t == Deposit then Withdrawal else Deposit
  }

  /** The rows offered as a reversal of id, optionally within a range of dates. */
  function Candidates(rows: Table, id: string, range: Option<(int, int)>): set<string>
    requires id in rows
  {
    set c | c in rows && c != id
            && rows[c].goal == rows[id].goal && rows[c].txnType == Opposite(rows[id].txnType)
            && rows[c].amount == -rows[id].amount
            && rows[c].code == None && rows[c].tag != Some(ReversalNetted)
            && !Contains(rows[c].txnId, "Transfer_Reversal") && rows[c].txnId != "RT Change"
            && (range.Some? ==> range.value.0 <= rows[c].date <= range.value.1)
  }

  /** Every candidate can be linked, and for an unlinked row doing so keeps the pairing and nets to zero. */
  lemma {:induction false} CandidatesCanBeLinked(rows: Table, id: string, range: Option<(int, int)>, c: string)
    requires IdsOk(rows) && Paired(rows) && id in rows && c in Candidates(rows, id, range)
    ensures LinkCheck(rows, id, c) == Linked && rows[id].amount + rows[c].amount == 0
    ensures !IsNetted(rows, id) ==> Paired(Link(rows, id, c)) && Partner(Link(rows, id, c), id) == Some(c)
    ensures c !in Candidates(Link(rows, id, c), id, range)
  {
    LinkKeepsPairing(rows, id, c);
    LinkedPair(rows, id, c);
  }

  // ---- The service ----

  class Desk {
    var rows: Table

    /** Both updates happen in one transaction. */
    method LinkReversal(a: string, b: string) returns (r: LinkResult)
      modifies this
      ensures r == LinkCheck(old(rows), a, b) && rows == Link(old(rows), a, b)
    {
      if a !in rows || b !in rows {
        return NotFound;
      }
      var first, second := rows[a], rows[b];
      if first.goal != second.goal {
        return DifferentGoals;
      }
      if first.txnType == second.txnType {
        return SameType;
      }
      var sum := first.amount + second.amount;
      if Abs(sum) > MAX_NET {
        return NotZero;
      }
      rows := rows[a := first.(tag := Some(ReversalNetted), notes := Some(PAIR_NOTE + b))];
      rows := rows[b := second.(tag := Some(ReversalNetted), notes := Some(PAIR_NOTE + a))];
      r := Linked;
    }

    method UnlinkReversal(id: string) returns (r: UnlinkResult)
      modifies this
      ensures r == UnlinkCount(old(rows), id) && rows == Unlink(old(rows), id)
    {
      if id !in rows {
        return RowNotFound;
      }
      var row := rows[id];
      if row.tag != Some(ReversalNetted) {
        return NotPaired;
      }
      var paired := PairedId(row.notes);
      var count := 0;
      rows := rows[id := row.(tag := None, notes := None)];
      count := count + 1;
      if paired.Some? && paired.value in rows {
        var other := rows[paired.value];
        if other.tag == Some(ReversalNetted) {
          rows := rows[paired.value := other.(tag := None, notes := None)];
          count := count + 1;
        }
      }
      r := Unlinked(count);
    }
  }

  /** Offered are exactly the other rows of the goal with the negated amount and the opposite type that are neither
      matched nor netted nor one of the excluded kinds, and lie within the dates. */
  lemma {:induction false} OfferedExactly(rows: Table, id: string, range: Option<(int, int)>, c: string)
    requires id in rows
    ensures c in Candidates(rows, id, range) <==>
            && c in rows && c != id && rows[c].goal == rows[id].goal && rows[c].amount + rows[id].amount == 0
            && (if rows[id].txnType == Deposit then rows[c].txnType == Withdrawal else rows[c].txnType == Deposit)
            && Offerable(rows[c]) && (range.Some? ==> range.value.0 <= rows[c].date <= range.value.1)
  {
  }

  /** What can be offered in general: unmatched, not netted, and of an ordinary transaction. */
  predicate Offerable(row: Row) {
    && row.code == None && row.tag != Some(ReversalNetted)
    && !Contains(row.txnId, "Transfer_Reversal") && row.txnId != "RT Change"
  }

  /** Between a deposit and a withdrawal that can both be offered, each is a candidate of the other or neither. */
  lemma {:induction false} CandidatesAreMutual(rows: Table, a: string, b: string)
    requires a in rows && b in rows && Offerable(rows[a]) && Offerable(rows[b])
    requires rows[a].txnType == Deposit || rows[a].txnType == Withdrawal
    requires rows[b].txnType == Deposit || rows[b].txnType == Withdrawal
    ensures b in Candidates(rows, a, None) <==> a in Candidates(rows, b, None)
    ensures b in Candidates(rows, a, None) ==>
              rows[a].goal == rows[b].goal && rows[a].amount + rows[b].amount == 0 && rows[a].txnType != rows[b].txnType
  {
  }

  /** Which check decides: existence, then the goal, then the types, then the amounts to a cent. */
  lemma {:induction false} LinkOutcome(rows: Table, a: string, b: string)
    ensures LinkCheck(rows, a, b) == NotFound <==> a !in rows || b !in rows
    ensures LinkCheck(rows, a, b) == DifferentGoals <==> a in rows && b in rows && rows[a].goal != rows[b].goal
    ensures LinkCheck(rows, a, b) == SameType <==>
              a in rows && b in rows && rows[a].goal == rows[b].goal && rows[a].txnType == rows[b].txnType
    ensures LinkCheck(rows, a, b) == Linked <==>
              && a in rows && b in rows && rows[a].goal == rows[b].goal && rows[a].txnType != rows[b].txnType
              && -1 <= rows[a].amount + rows[b].amount <= 1
  {
  }

  /** A successful link tags both rows, writes each other's id into the notes and changes nothing else. */
  lemma {:induction false} LinkWrites(rows: Table, a: string, b: string)
    requires LinkCheck(rows, a, b) == Linked
    ensures var next := Link(rows, a, b);
            && next[a] == rows[a].(tag := Some(ReversalNetted), notes := Some("Reversal pair with: " + b))
            && next[b] == rows[b].(tag := Some(ReversalNetted), notes := Some("Reversal pair with: " + a))
            && next.Keys == rows.Keys && forall c :: c in rows && c != a && c != b ==> next[c] == rows[c]
  {
  }

  /** Unlinking clears a netted row, and the row its notes name if that is netted too; it refuses other rows. */
  lemma {:induction false} UnlinkClears(rows: Table, id: string, c: string)
    requires c in rows
    ensures id !in rows || rows[id].tag != Some(ReversalNetted) ==> Unlink(rows, id) == rows
    ensures id !in rows <==> UnlinkCount(rows, id) == RowNotFound
    ensures id in rows && rows[id].tag != Some(ReversalNetted) <==> UnlinkCount(rows, id) == NotPaired
    ensures id in rows && rows[id].tag == Some(ReversalNetted) ==>
              && Unlink(rows, id).Keys == rows.Keys
              && Unlink(rows, id)[c] ==
                 (if c == id || (PairedId(rows[id].notes) == Some(c) && rows[c].tag == Some(ReversalNetted))
                  then rows[c].(tag := None, notes := None) else rows[c])
              && UnlinkCount(rows, id) ==
                 (match PairedId(rows[id].notes)
                  case Some(p) =>
                    if p != id && p in rows && rows[p].tag == Some(ReversalNetted) then Unlinked(2) else Unlinked(1)
                  case None => Unlinked(1))
  {
  }
}
