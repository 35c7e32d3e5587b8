/** When a bank row is approved without review, written out fund by fund. Amounts are cents, times milliseconds. */
module ApprovalRules {
  import opened Money
  import opened Text
  import opened BankMatcher

  // ---- The numbers ----

  /** At most one per cent of the total, or 1,000 UGX, apart. */
  predicate CloseTo(amount: int, total: int) {
    var d, size := 100 * (amount - total), if total < 0 then -total else total;
    (d <= size || d <= 10_000_000) && (-d <= size || -d <= 10_000_000)
  }

  /** The whole days from the fund row to the bank row, rounded down, are at most four in either direction. */
  predicate FourDays(bank: int, fund: int) {
    -4 <= (bank - fund) / 86_400_000 <= 4
  }

  /** The distance of two amounts, without its sign. */
  function Apart(x: int, y: int): int {
    if x < y then y - x else x - y
  }

  function Size(x: int): int {
    if x < 0 then -x else x
  }

  /** Nothing recorded, or at most one per cent apart, or less than 1,000 UGX and at most two per cent apart. */
  predicate Agrees(actual: int, recorded: int) {
    || recorded == 0
    || 100 * Apart(actual, recorded) <= Size(recorded)
    || (Apart(actual, recorded) < 100_000 && 50 * Apart(actual, recorded) <= Size(recorded))
  }

  lemma {:induction false} AgreesIsFits(actual: int, recorded: int)
    ensures Agrees(actual, recorded) <==> FundFits(actual, recorded)
  {
  }

  // ---- Approval ----

  /** Exactly when a bank row is approved without review: its rows' total, the day of their first and each fund. */
  lemma {:induction false} ApprovedExactly(b: BankTxn, rows: seq<FundTxn>)
    ensures Compare(b, rows).autoApproved <==>
            && rows != [] && CloseTo(b.total, AmountOf(rows)) && FourDays(b.time, rows[0].time)
            && Agrees(b.xummf, Recorded(rows, "XUMMF")) && Agrees(b.xubf, Recorded(rows, "XUBF"))
            && Agrees(b.xudef, Recorded(rows, "XUDEF")) && Agrees(b.xuref, Recorded(rows, "XUREF"))
  {
    ApprovedIff(b, rows);
    FourNames(b);
    AgreesIsFits(b.xummf, Recorded(rows, "XUMMF"));
    AgreesIsFits(b.xubf, Recorded(rows, "XUBF"));
    AgreesIsFits(b.xudef, Recorded(rows, "XUDEF"));
    AgreesIsFits(b.xuref, Recorded(rows, "XUREF"));
  }

  lemma {:induction false} FourNames(b: BankTxn)
    ensures BankAmount(b, "XUMMF") == b.xummf && BankAmount(b, "XUBF") == b.xubf
    ensures BankAmount(b, "XUDEF") == b.xudef && BankAmount(b, "XUREF") == b.xuref
    ensures forall f :: f in FUNDS <==> f == "XUMMF" || f == "XUBF" || f == "XUDEF" || f == "XUREF"
  {
    assert "XUBF"[2] != "XUDEF"[2] && "XUBF"[2] != "XUREF"[2] && "XUDEF"[2] != "XUREF"[2];
    assert |"XUMMF"| != |"XUBF"| && "XUMMF"[2] != "XUDEF"[2] && "XUMMF"[2] != "XUREF"[2];
  }

  predicate TwoPerCent(actual: int, recorded: int) {
    recorded != 0 ==> 50 * Apart(actual, recorded) <= Size(recorded)
  }

  /** What approval guarantees, fund by fund. */
  lemma {:induction false} ApprovedBound(b: BankTxn, rows: seq<FundTxn>)
    requires Compare(b, rows).autoApproved
    ensures Compare(b, rows).score >= 75 && rows != [] && CloseTo(b.total, AmountOf(rows))
    ensures -345_600_000 <= b.time - rows[0].time < 432_000_000
    ensures TwoPerCent(b.xummf, Recorded(rows, "XUMMF")) && TwoPerCent(b.xubf, Recorded(rows, "XUBF"))
    ensures TwoPerCent(b.xudef, Recorded(rows, "XUDEF")) && TwoPerCent(b.xuref, Recorded(rows, "XUREF"))
  {
    ApprovedExactly(b, rows);
    ApprovalBound(b, rows);
  }

  // ---- Variances ----

  /** More than one per cent from a recorded amount. */
  predicate Differs(actual: int, recorded: int) {
    recorded != 0 && 100 * Apart(actual, recorded) > Size(recorded)
  }

  /** LOW below 1,000 UGX, MEDIUM below 10,000, HIGH below 50,000. */
  function Grade(apart: int): Severity {
    if apart < 100_000 then Low else if apart < 1_000_000 then Medium else if apart < 5_000_000 then High else Critical
  }

  ghost predicate IsFundVariance(v: Variance, fund: string, actual: int, recorded: int) {
    && Differs(actual, recorded) && v.kind == FundAmount(fund, recorded, actual)
    && v.severity == Grade(Apart(actual, recorded))
    && (v.autoApproved <==> v.severity == Low && 50 * Apart(actual, recorded) <= Size(recorded))
  }

  ghost predicate IsDateVariance(v: Variance, days: int) {
    && days != 0 && v.kind == DateDifference(if days < 0 then -days else days)
    && v.severity == (if -4 <= days <= 4 then Low else Medium) && (v.autoApproved <==> -4 <= days <= 4)
  }

  lemma {:induction false} FundVarianceIs(v: Variance, fund: string, actual: int, recorded: int)
    ensures FundDiffers(actual, recorded) && v == FundVariance(fund, actual, recorded) <==>
            IsFundVariance(v, fund, actual, recorded)
  {
  }

  /** The variances of a bank row whose total agrees: one for the date and one for each of the four funds, as
      far as these differ. */
  lemma {:induction false} VariancesExactly(b: BankTxn, rows: seq<FundTxn>, v: Variance)
    requires rows != []
    ensures v in Variances(b, rows) <==>
            || IsDateVariance(v, (b.time - rows[0].time) / 86_400_000)
            || IsFundVariance(v, "XUMMF", b.xummf, Recorded(rows, "XUMMF"))
            || IsFundVariance(v, "XUBF", b.xubf, Recorded(rows, "XUBF"))
            || IsFundVariance(v, "XUDEF", b.xudef, Recorded(rows, "XUDEF"))
            || IsFundVariance(v, "XUREF", b.xuref, Recorded(rows, "XUREF"))
  {
    FourNames(b);
    FundVariancesMembers(b, rows, FUNDS, v);
    FundVarianceIs(v, "XUMMF", b.xummf, Recorded(rows, "XUMMF"));
    FundVarianceIs(v, "XUBF", b.xubf, Recorded(rows, "XUBF"));
    FundVarianceIs(v, "XUDEF", b.xudef, Recorded(rows, "XUDEF"));
    FundVarianceIs(v, "XUREF", b.xuref, Recorded(rows, "XUREF"));
    DateVarianceIs(v, b.time, rows[0].time);
  }

  lemma {:induction false} DateVarianceIs(v: Variance, bank: int, fund: int)
    ensures v in DateVariances(DayGap(bank, fund)) <==> IsDateVariance(v, (bank - fund) / 86_400_000)
  {
  }

  /** A bank row that equals its rows in total, day and every fund is an exact match. */
  lemma {:induction false} EqualIsMatched(b: BankTxn, rows: seq<FundTxn>)
    requires rows != [] && b.total == AmountOf(rows) && 0 <= b.time - rows[0].time < 86_400_000
    requires b.xummf == Recorded(rows, "XUMMF") && b.xubf == Recorded(rows, "XUBF")
    requires b.xudef == Recorded(rows, "XUDEF") && b.xuref == Recorded(rows, "XUREF")
    ensures Compare(b, rows) == MatchResult(true, 100, Some(rows[0].code), [], Matched, true)
  {
    var vs := Variances(b, rows);
    assert vs == [] || vs[0] in vs;
    if vs != [] {
      VariancesExactly(b, rows, vs[0]);
      assert false;
    }
  }

  // ---- Status and score ----

  function Count(vs: seq<Variance>, s: Severity): nat {
    if vs == [] then 0 else (if vs[0].severity == s then 1 else 0) + Count(vs[1..], s)
  }

  lemma {:induction false} PenaltiesCount(vs: seq<Variance>)
    ensures Penalties(vs) ==
            5 * Count(vs, Low) + 15 * Count(vs, Medium) + 30 * Count(vs, High) + 50 * Count(vs, Critical)
  {
    if vs != [] {
      PenaltiesCount(vs[1..]);
    }
  }

  lemma {:induction false} CountIs(vs: seq<Variance>, s: Severity)
    ensures Count(vs, s) > 0 <==> exists v :: v in vs && v.severity == s
  {
    if vs != [] {
      CountIs(vs[1..], s);
      assert forall v :: v in vs <==> v == vs[0] || v in vs[1..];
    }
  }

  /** Status, approval and score of a bank row whose total agrees, from the counts of its variances. */
  lemma {:induction false} StatusAndScore(b: BankTxn, rows: seq<FundTxn>)
    requires rows != [] && CloseTo(b.total, AmountOf(rows))
    ensures var (r, vs) := (Compare(b, rows), Variances(b, rows));
            var left := 100 - 5 * Count(vs, Low) - 15 * Count(vs, Medium) - 30 * Count(vs, High)
                        - 50 * Count(vs, Critical);
            && r.matched && r.code == Some(rows[0].code) && r.variances == vs
            && r.score == (if left > 0 then left else 0)
            && r.status == (if vs == [] then Matched else if r.autoApproved then AutoApproved else ManualReview)
            && (Count(vs, High) > 0 || Count(vs, Critical) > 0 ==> !r.autoApproved)
  {
    var vs := Variances(b, rows);
    PenaltiesCount(vs);
    CountIs(vs, High);
    CountIs(vs, Critical);
  }

  /** A bank row without fund rows, and one whose total is too far from theirs. */
  lemma {:induction false} NotMatched(b: BankTxn, rows: seq<FundTxn>)
    requires rows == [] || !CloseTo(b.total, AmountOf(rows))
    ensures var r := Compare(b, rows);
            && !r.matched && !r.autoApproved && |r.variances| == 1 && !r.variances[0].autoApproved
            && (rows == [] ==> r.score == 0 && r.code == None && r.status == NoFundRow
                               && r.variances[0].kind == MissingInFund && r.variances[0].severity == Critical)
            && (rows != [] ==> r.score == 50 && r.code == Some(rows[0].code) && r.status == VarianceDetected
                               && r.variances[0].kind == TotalAmount(AmountOf(rows), b.total)
                               && r.variances[0].severity == Grade(Apart(b.total, AmountOf(rows))))
  {
  }

  // ---- The rows and their total ----

  /** The rows of a goal and id are picked one by one, in order. */
  lemma {:induction false} RowsOfParts(c: seq<FundTxn>, d: seq<FundTxn>, b: BankTxn)
    ensures RowsFor(c + d, b) == RowsFor(c, b) + RowsFor(d, b)
    ensures AmountOf(c + d) == AmountOf(c) + AmountOf(d)
  {
    if c == [] {
      assert c + d == d;
    } else {
      assert (c + d)[1..] == c[1..] + d;
      RowsOfParts(c[1..], d, b);
    }
  }

  lemma {:induction false} RowsOfOne(f: FundTxn, b: BankTxn)
    ensures RowsFor([f], b) == if f.goal == b.goal && f.txnId == b.txnId then [f] else []
    ensures AmountOf([f]) == f.amount
  {
    assert [f][1..] == [];
  }
}
