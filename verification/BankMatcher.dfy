/** The comparison of one bank row with the fund rows of its goal and transaction id: which variances it
    shows, how it is scored, and when it is approved without review. */
module BankMatcher {
  import opened Money
  import opened Text

  const DATE_DAYS := 4

  // In cents: 1,000, 10,000 and 50,000 UGX
  const LOW_BELOW := 100_000
  const MEDIUM_BELOW := 1_000_000
  const HIGH_BELOW := 5_000_000

  datatype Severity = Low | Medium | High | Critical

  datatype Kind =
    | DateDifference(days: nat)
    | FundAmount(fund: string, expected: int, actual: int)
    | TotalAmount(expected: int, actual: int)
    | MissingInFund

  datatype Variance = Variance(kind: Kind, severity: Severity, autoApproved: bool)

  datatype Status = Matched | AutoApproved | ManualReview | VarianceDetected | NoFundRow

  datatype MatchResult = MatchResult(matched: bool, score: nat, code: Option<string>, variances: seq<Variance>,
                                     status: Status, autoApproved: bool)

  /** Times are milliseconds. */
  datatype BankTxn = BankTxn(goal: string, txnId: string, time: int, total: int,
                             xummf: int, xubf: int, xudef: int, xuref: int)

  datatype FundTxn = FundTxn(goal: string, txnId: string, code: string, fund: string, time: int, amount: int)

  const FUNDS: seq<string> := ["XUMMF", "XUBF", "XUDEF", "XUREF"]

  function BankAmount(b: BankTxn, fund: string): int {
    if fund == "XUMMF" then b.xummf
    else if fund == "XUBF" then b.xubf
    else if fund == "XUDEF" then b.xudef
    else if fund == "XUREF" then b.xuref
    else 0
  }

  // ---- Tolerances ----

  predicate AmountsMatch(amount: int, expected: int) {
    Within(amount, expected, Tolerance(Abs(expected)))
  }

  function SeverityOf(difference: int): Severity {
    var d := Abs(difference);
    if d < LOW_BELOW then Low else if d < MEDIUM_BELOW then Medium else if d < HIGH_BELOW then High else Critical
  }

  /** The whole days from the fund row to the bank row, rounded down before the sign is dropped. */
  function DayGap(bank: int, fund: int): nat {
    Abs((bank - fund) / DAY_MS)
  }

  // ---- Variances ----

  function DateVariances(days: nat): seq<Variance> {
    if 0 < days <= DATE_DAYS then [Variance(DateDifference(days), Low, true)]
    else if days > DATE_DAYS then [Variance(DateDifference(days), Medium, false)]
    else []
  }

  /** More than one per cent away from a recorded amount that is not zero. */
  predicate FundDiffers(actual: int, expected: int) {
    expected != 0 && 100 * Abs(actual - expected) > Abs(expected)
  }

  function FundVariance(fund: string, actual: int, expected: int): Variance {
    var d := Abs(actual - expected);
    Variance(FundAmount(fund, expected, actual), SeverityOf(d), SeverityOf(d) == Low && 100 * d <= 2 * Abs(expected))
  }

  /** The recorded amount of a fund: that of its last row. */
  function Recorded(rows: seq<FundTxn>, fund: string): int {
    if rows == [] then 0
    else if rows[|rows| - 1].fund == fund then rows[|rows| - 1].amount
    else Recorded(rows[..|rows| - 1], fund)
  }

  function FundVariances(b: BankTxn, rows: seq<FundTxn>, funds: seq<string>): seq<Variance> {
    if funds == [] then []
    else
      var (actual, expected) := (BankAmount(b, funds[0]), Recorded(rows, funds[0]));
      (if FundDiffers(actual, expected) then [FundVariance(funds[0], actual, expected)] else [])
      + FundVariances(b, rows, funds[1..])
  }

  function Variances(b: BankTxn, rows: seq<FundTxn>): seq<Variance>
    requires rows != []
  {
    DateVariances(DayGap(b.time, rows[0].time)) + FundVariances(b, rows, FUNDS)
  }

  // ---- Status and score ----

  predicate IsSevere(v: Variance) {
    v.severity == High || v.severity == Critical
  }

  predicate AllAutoApprovable(vs: seq<Variance>) {
    forall v :: v in vs ==> v.autoApproved
  }

  function Decide(vs: seq<Variance>): (Status, bool) {
    if vs == [] then (Matched, true)
    else if exists v :: v in vs && IsSevere(v) then (ManualReview, false)
    else (if AllAutoApprovable(vs) then AutoApproved else ManualReview, AllAutoApprovable(vs))
  }

  function Penalty(s: Severity): nat {
    match s
    case Low => 5
    case Medium => 15
    case High => 30
    case Critical => 50
  }

  function Penalties(vs: seq<Variance>): nat {
    if vs == [] then 0 else Penalty(vs[0].severity) + Penalties(vs[1..])
  }

  function ScoreOf(vs: seq<Variance>): nat {
    if Penalties(vs) < 100 then 100 - Penalties(vs) else 0
  }

  // ---- Matching ----

  function RowsFor(funds: seq<FundTxn>, b: BankTxn): (rows: seq<FundTxn>)
    ensures forall f :: f in rows <==> f in funds && f.goal == b.goal && f.txnId == b.txnId
  {
    if funds == [] then []
    else (if funds[0].goal == b.goal && funds[0].txnId == b.txnId then [funds[0]] else []) + RowsFor(funds[1..], b)
  }

  function AmountOf(rows: seq<FundTxn>): int {
    if rows == [] then 0 else rows[0].amount + AmountOf(rows[1..])
  }

  function Compare(b: BankTxn, rows: seq<FundTxn>): MatchResult {
    if rows == [] then
      MatchResult(false, 0, None, [Variance(MissingInFund, Critical, false)], NoFundRow, false)
    else if !AmountsMatch(b.total, AmountOf(rows)) then
      MatchResult(false, 50, Some(rows[0].code),
                  [Variance(TotalAmount(AmountOf(rows), b.total), SeverityOf(b.total - AmountOf(rows)), false)],
                  VarianceDetected, false)
    else
      var vs := Variances(b, rows);
      MatchResult(true, ScoreOf(vs), Some(rows[0].code), vs, Decide(vs).0, Decide(vs).1)
  }

  // ---- The matcher ----

  lemma {:induction false} AmountOfPrefix(rows: seq<FundTxn>, i: nat)
    requires i < |rows|
    ensures AmountOf(rows[..i + 1]) == AmountOf(rows[..i]) + rows[i].amount
  {
    if i == 0 {
      assert rows[..1][1..] == [] && rows[..0] == [];
    } else {
      assert rows[..i + 1][1..] == rows[1..][..i] && rows[..i][1..] == rows[1..][..i - 1];
      AmountOfPrefix(rows[1..], i - 1);
    }
  }

  method TotalOf(rows: seq<FundTxn>) returns (sum: int)
    ensures sum == AmountOf(rows)
  {
    sum := 0;
    for i := 0 to |rows|
      invariant sum == AmountOf(rows[..i])
    {
      AmountOfPrefix(rows, i);
      sum := sum + rows[i].amount;
    }
    assert rows[..|rows|] == rows;
  }

  method FundAmounts(rows: seq<FundTxn>) returns (amounts: map<string, int>)
    ensures forall fund :: (if fund in amounts then amounts[fund] else 0) == Recorded(rows, fund)
  {
    amounts := map[];
    for i := 0 to |rows|
      invariant forall fund :: (if fund in amounts then amounts[fund] else 0) == Recorded(rows[..i], fund)
    {
      assert rows[..i + 1][..i] == rows[..i];
      amounts := amounts[rows[i].fund := rows[i].amount];
    }
    assert rows[..|rows|] == rows;
  }

  method CompareDates(days: nat) returns (variances: seq<Variance>)
    ensures variances == DateVariances(days)
  {
    variances := [];
    if 0 < days <= DATE_DAYS {
      variances := variances + [Variance(DateDifference(days), Low, true)];
    } else if days > DATE_DAYS {
      variances := variances + [Variance(DateDifference(days), Medium, false)];
    }
  }

  lemma {:induction false} FundVariancesStep(done: seq<Variance>, b: BankTxn, rows: seq<FundTxn>, funds: seq<string>,
                                             i: nat)
    requires i < |funds|
    ensures var (actual, expected) := (BankAmount(b, funds[i]), Recorded(rows, funds[i]));
            done + FundVariances(b, rows, funds[i..]) ==
            (if FundDiffers(actual, expected) then done + [FundVariance(funds[i], actual, expected)] else done)
            + FundVariances(b, rows, funds[i + 1..])
  {
    assert funds[i..][1..] == funds[i + 1..];
  }

  method CompareFunds(b: BankTxn, ghost rows: seq<FundTxn>, amounts: map<string, int>, funds: seq<string>)
    returns (variances: seq<Variance>)
    requires forall fund :: (if fund in amounts then amounts[fund] else 0) == Recorded(rows, fund)
    ensures variances == FundVariances(b, rows, funds)
  {
    variances := [];
    assert funds[0..] == funds;
    for i := 0 to |funds|
      invariant variances + FundVariances(b, rows, funds[i..]) == FundVariances(b, rows, funds)
    {
      FundVariancesStep(variances, b, rows, funds, i);
      var actual := BankAmount(b, funds[i]);
      var expected := if funds[i] in amounts then amounts[funds[i]] else 0;
      if FundDiffers(actual, expected) {
        variances := variances + [FundVariance(funds[i], actual, expected)];
      }
    }
    assert funds[|funds|..] == [] && variances + [] == variances;
  }

  method DetectVariances(b: BankTxn, rows: seq<FundTxn>) returns (variances: seq<Variance>)
    requires rows != []
    ensures variances == Variances(b, rows)
  {
    variances := CompareDates(DayGap(b.time, rows[0].time));
    var amounts := FundAmounts(rows);
    var more := CompareFunds(b, rows, amounts, FUNDS);
    variances := variances + more;
  }

  method MatchScore(variances: seq<Variance>) returns (score: nat)
    ensures score == ScoreOf(variances)
  {
    var left := 100;
    for i := 0 to |variances|
      invariant left - Penalties(variances[i..]) == 100 - Penalties(variances)
    {
      assert variances[i..][1..] == variances[i + 1..];
      match variances[i].severity {
        case Low => left := left - 5;
        case Medium => left := left - 15;
        case High => left := left - 30;
        case Critical => left := left - 50;
      }
    }
    score := if left > 0 then left else 0;
  }

  method MatchTransaction(funds: seq<FundTxn>, b: BankTxn) returns (r: MatchResult)
    ensures r == Compare(b, RowsFor(funds, b))
  {
    var rows := RowsFor(funds, b);
    if |rows| == 0 {
      return MatchResult(false, 0, None, [Variance(MissingInFund, Critical, false)], NoFundRow, false);
    }
    var code := rows[0].code;
    var total := TotalOf(rows);
    if !AmountsMatch(b.total, total) {
      var variance := Variance(TotalAmount(total, b.total), SeverityOf(Abs(b.total - total)), false);
      return MatchResult(false, 50, Some(code), [variance], VarianceDetected, false);
    }
    var variances := DetectVariances(b, rows);
    var (status, autoApproved) := Decide(variances);
    var score := MatchScore(variances);
    r := MatchResult(true, score, Some(code), variances, status, autoApproved);
  }

  // ---- What the variances say ----

  /** What detection puts into a variance: approved by itself only when it is small, and then LOW. */
  ghost predicate Sane(v: Variance) {
    && (v.autoApproved ==> v.severity == Low)
    && (v.kind.FundAmount? ==>
          v.autoApproved ==> 100 * Abs(v.kind.actual - v.kind.expected) <= 2 * Abs(v.kind.expected))
    && (v.kind.DateDifference? ==> v.autoApproved ==> v.kind.days <= DATE_DAYS)
  }

  lemma {:induction false} FundVariancesSane(b: BankTxn, rows: seq<FundTxn>, funds: seq<string>)
    ensures |FundVariances(b, rows, funds)| <= |funds|
    ensures forall v :: v in FundVariances(b, rows, funds) ==> Sane(v)
  {
    if funds != [] {
      FundVariancesSane(b, rows, funds[1..]);
    }
  }

  lemma {:induction false} FundVariancesMembers(b: BankTxn, rows: seq<FundTxn>, funds: seq<string>, v: Variance)
    ensures v in FundVariances(b, rows, funds) <==>
            exists f :: f in funds && FundDiffers(BankAmount(b, f), Recorded(rows, f))
                        && v == FundVariance(f, BankAmount(b, f), Recorded(rows, f))
  {
    if funds != [] {
      FundVariancesMembers(b, rows, funds[1..], v);
      assert forall f :: f in funds <==> f == funds[0] || f in funds[1..];
    }
  }

  lemma {:induction false} VariancesSane(b: BankTxn, rows: seq<FundTxn>)
    requires rows != []
    ensures |Variances(b, rows)| <= 5
    ensures forall v :: v in Variances(b, rows) ==> Sane(v)
  {
    FundVariancesSane(b, rows, FUNDS);
  }

  lemma {:induction false} PenaltiesOfLow(vs: seq<Variance>)
    requires forall v :: v in vs ==> v.severity == Low
    ensures Penalties(vs) == 5 * |vs|
  {
    if vs != [] {
      PenaltiesOfLow(vs[1..]);
    }
  }

  // ---- Approval ----

  /** A fund that does not stand in the way of approval: nothing recorded, or within one per cent, or
      less than 1,000 UGX and at most two per cent away. */
  ghost predicate FundFits(actual: int, expected: int) {
    var d := Abs(actual - expected);
    expected == 0 || 100 * d <= Abs(expected) || (d < LOW_BELOW && 50 * d <= Abs(expected))
  }

  lemma {:induction false} ApprovableIff(b: BankTxn, rows: seq<FundTxn>)
    requires rows != []
    ensures AllAutoApprovable(Variances(b, rows)) <==>
            && DayGap(b.time, rows[0].time) <= DATE_DAYS
            && forall f :: f in FUNDS ==> FundFits(BankAmount(b, f), Recorded(rows, f))
  {
    var days := DayGap(b.time, rows[0].time);
    var dated, funded := DateVariances(days), FundVariances(b, rows, FUNDS);
    assert AllAutoApprovable(dated + funded) <==> AllAutoApprovable(dated) && AllAutoApprovable(funded);
    assert AllAutoApprovable(dated) <==> days <= DATE_DAYS by {
      if days > DATE_DAYS {
        assert Variance(DateDifference(days), Medium, false) in dated;
      }
    }
    if AllAutoApprovable(funded) {
      forall f | f in FUNDS
        ensures FundFits(BankAmount(b, f), Recorded(rows, f))
      {
        FundVariancesMembers(b, rows, FUNDS, FundVariance(f, BankAmount(b, f), Recorded(rows, f)));
      }
    }
    if forall f :: f in FUNDS ==> FundFits(BankAmount(b, f), Recorded(rows, f)) {
      forall v | v in funded
        ensures v.autoApproved
      {
        FundVariancesMembers(b, rows, FUNDS, v);
      }
    }
  }

  /** Exactly when a bank row is approved without review. */
  lemma {:induction false} ApprovedIff(b: BankTxn, rows: seq<FundTxn>)
    ensures Compare(b, rows).autoApproved <==>
            && rows != []
            && AmountsMatch(b.total, AmountOf(rows))
            && DayGap(b.time, rows[0].time) <= DATE_DAYS
            && forall f :: f in FUNDS ==> FundFits(BankAmount(b, f), Recorded(rows, f))
    ensures Compare(b, rows).autoApproved <==> Compare(b, rows).status in {Matched, AutoApproved}
  {
    if rows != [] {
      VariancesSane(b, rows);
      ApprovableIff(b, rows);
    }
  }

  /** What approval without review guarantees. */
  lemma {:induction false} ApprovalBound(b: BankTxn, rows: seq<FundTxn>)
    requires Compare(b, rows).autoApproved
    ensures rows != [] && Compare(b, rows).matched
    ensures Compare(b, rows).score == 100 - 5 * |Compare(b, rows).variances| && Compare(b, rows).score >= 75
    ensures 100 * Abs(b.total - AmountOf(rows)) <= Max(Abs(AmountOf(rows)), MIN_TOLERANCE)
    ensures -4 * DAY_MS <= b.time - rows[0].time < 5 * DAY_MS
    ensures forall f :: f in FUNDS && Recorded(rows, f) != 0 ==>
              50 * Abs(BankAmount(b, f) - Recorded(rows, f)) <= Abs(Recorded(rows, f))
  {
    ApprovedIff(b, rows);
    VariancesSane(b, rows);
    var vs := Variances(b, rows);
    assert forall v :: v in vs ==> v.severity == Low;
    PenaltiesOfLow(vs);
    forall f | f in FUNDS && Recorded(rows, f) != 0
      ensures 50 * Abs(BankAmount(b, f) - Recorded(rows, f)) <= Abs(Recorded(rows, f))
    {
      assert FundFits(BankAmount(b, f), Recorded(rows, f));
    }
  }

  /** A full score means no variance, and that means approval as an exact match. */
  lemma {:induction false} FullScoreIff(b: BankTxn, rows: seq<FundTxn>)
    ensures Compare(b, rows).score == 100 <==> Compare(b, rows).status == Matched
    ensures Compare(b, rows).score == 100 <==> Compare(b, rows).variances == []
  {
    if rows != [] && AmountsMatch(b.total, AmountOf(rows)) {
      var vs := Variances(b, rows);
      VariancesSane(b, rows);
      if vs != [] {
        assert vs[0] in vs;
      }
    }
  }

  // ---- What is compared, and what a fund received ----

  function FundSum(rows: seq<FundTxn>, fund: string): int {
    if rows == [] then 0
    else FundSum(rows[..|rows| - 1], fund) + if rows[|rows| - 1].fund == fund then rows[|rows| - 1].amount else 0
  }

  lemma {:induction false} NoRowOfFund(rows: seq<FundTxn>, fund: string)
    requires forall r :: r in rows ==> r.fund != fund
    ensures FundSum(rows, fund) == 0 && Recorded(rows, fund) == 0
  {
    if rows != [] {
      NoRowOfFund(rows[..|rows| - 1], fund);
    }
  }

  /** rows[k] is the last row of the fund. */
  ghost predicate IsLastOf(rows: seq<FundTxn>, k: int, fund: string) {
    0 <= k < |rows| && rows[k].fund == fund && forall j :: k < j < |rows| ==> rows[j].fund != fund
  }

  lemma {:induction false} LastRowSplits(rows: seq<FundTxn>, k: nat, fund: string)
    requires IsLastOf(rows, k, fund)
    ensures Recorded(rows, fund) == rows[k].amount && FundSum(rows, fund) == FundSum(rows[..k], fund) + rows[k].amount
  {
    var front := rows[..|rows| - 1];
    if k < |rows| - 1 {
      assert front[..k] == rows[..k];
      LastRowSplits(front, k, fund);
    }
  }

  /** The compared amount of a fund is all that it received if and only if its rows before the last sum to
      nothing; a fund without a row received nothing and is compared with nothing. */
  lemma {:induction false} RecordedIsSum(rows: seq<FundTxn>, fund: string)
    ensures forall k :: IsLastOf(rows, k, fund) ==>
              (Recorded(rows, fund) == FundSum(rows, fund) <==> FundSum(rows[..k], fund) == 0)
    ensures (forall r :: r in rows ==> r.fund != fund) ==> Recorded(rows, fund) == 0 == FundSum(rows, fund)
  {
    forall k | IsLastOf(rows, k, fund)
      ensures Recorded(rows, fund) == FundSum(rows, fund) <==> FundSum(rows[..k], fund) == 0
    {
      LastRowSplits(rows, k, fund);
    }
    if forall r :: r in rows ==> r.fund != fund {
      NoRowOfFund(rows, fund);
    }
  }

  /** So a bank row that gives a fund all it received passes the test for that fund exactly when the rows
      before the last are small enough against the last. */
  lemma {:induction false} FullAmountFits(rows: seq<FundTxn>, k: nat, fund: string)
    requires IsLastOf(rows, k, fund)
    ensures var (before, last) := (Abs(FundSum(rows[..k], fund)), Abs(rows[k].amount));
            FundFits(FundSum(rows, fund), Recorded(rows, fund)) <==>
            last == 0 || 100 * before <= last || (before < LOW_BELOW && 50 * before <= last)
  {
    LastRowSplits(rows, k, fund);
  }

  /** A LOW variance of more than two per cent keeps its score of 95 and still needs review. */
  lemma {:induction false} ScoreDoesNotDecide()
    ensures var b := BankTxn("g", "x", 0, 2_100, 1_100, 1_000, 0, 0);
            var rows := [FundTxn("g", "x", "c", "XUMMF", 0, 1_000), FundTxn("g", "x", "c", "XUBF", 0, 1_000)];
            Compare(b, rows).score == 95 && Compare(b, rows).status == ManualReview
  {
    var b := BankTxn("g", "x", 0, 2_100, 1_100, 1_000, 0, 0);
    var first, second := FundTxn("g", "x", "c", "XUMMF", 0, 1_000), FundTxn("g", "x", "c", "XUBF", 0, 1_000);
    TwoRows(first, second);
    var v := FundVariance("XUMMF", 1_100, 1_000);
    FourFunds(b, [first, second]);
    assert Variances(b, [first, second]) == [v];
    assert Penalties([v]) == 5;
    assert v in [v];
  }

  lemma {:induction false} TwoRows(first: FundTxn, second: FundTxn)
    ensures AmountOf([first, second]) == first.amount + second.amount
    ensures forall f :: Recorded([first, second], f) ==
                        if second.fund == f then second.amount else if first.fund == f then first.amount else 0
    ensures forall f :: FundSum([first, second], f) ==
                        (if first.fund == f then first.amount else 0) + (if second.fund == f then second.amount else 0)
  {
    var rows := [first, second];
    assert rows[1..] == [second] && rows[..1] == [first] && [first][..0] == [] && [second][1..] == [];
    assert AmountOf([second]) == second.amount;
    forall f
      ensures Recorded([first], f) == if first.fund == f then first.amount else 0
      ensures FundSum([first], f) == if first.fund == f then first.amount else 0
    {
      assert Recorded([], f) == 0 && FundSum([], f) == 0;
    }
  }

  function OneFund(b: BankTxn, rows: seq<FundTxn>, fund: string): seq<Variance> {
    var (actual, expected) := (BankAmount(b, fund), Recorded(rows, fund));
    if FundDiffers(actual, expected) then [FundVariance(fund, actual, expected)] else []
  }

  lemma {:induction false} FourFunds(b: BankTxn, rows: seq<FundTxn>)
    ensures FundVariances(b, rows, FUNDS)
         == OneFund(b, rows, "XUMMF") +
            (OneFund(b, rows, "XUBF") + (OneFund(b, rows, "XUDEF") + OneFund(b, rows, "XUREF")))
  {
    var three, two, one := ["XUBF", "XUDEF", "XUREF"], ["XUDEF", "XUREF"], ["XUREF"];
    assert FUNDS[1..] == three && three[1..] == two && two[1..] == one && one[1..] == [];
    assert FundVariances(b, rows, one) == OneFund(b, rows, "XUREF") + [] == OneFund(b, rows, "XUREF");
    assert FundVariances(b, rows, two) == OneFund(b, rows, "XUDEF") + FundVariances(b, rows, one);
    assert FundVariances(b, rows, three) == OneFund(b, rows, "XUBF") + FundVariances(b, rows, two);
    assert FundVariances(b, rows, FUNDS) == OneFund(b, rows, "XUMMF") + FundVariances(b, rows, three);
  }

  /** For instance with two rows of one fund: a bank row that gives the fund half of what it received is
      an exact match, and the rest may stand anywhere else in the bank row. */
  lemma {:induction false} OnlyTheLastRowCounts()
    ensures var half := FundTxn("g", "x", "c", "XUMMF", 0, 50_000_000);
            var b := BankTxn("g", "x", 0, 100_000_000, 50_000_000, 50_000_000, 0, 0);
            && FundSum([half, half], "XUMMF") == 100_000_000 && Recorded([half, half], "XUMMF") == 50_000_000
            && Compare(b, [half, half]).status == Matched
  {
    var half := FundTxn("g", "x", "c", "XUMMF", 0, 50_000_000);
    var b := BankTxn("g", "x", 0, 100_000_000, 50_000_000, 50_000_000, 0, 0);
    TwoRows(half, half);
    FourFunds(b, [half, half]);
    assert Variances(b, [half, half]) == [];
  }
}
