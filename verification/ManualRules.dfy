/** What creating and removing a manual match do, in numbers and texts. Amounts are cents. */
module ManualRules {
  import opened Money
  import opened Text
  import opened Combination
  import opened Transactions
  import opened MatchCode
  import opened Ledger
  import opened ManualMatches

  // ---- Creating ----

  /** At most one per cent of the bank total, or 1 UGX, apart. */
  predicate CloseToBank(bankTotal: int, goalTotal: int) {
    var d := 100 * (bankTotal - goalTotal);
    (d <= bankTotal || d <= 10_000) && (-d <= bankTotal || -d <= 10_000)
  }

  lemma {:induction false} ManualToleranceIs(bankTotal: int, goalTotal: int)
    ensures Within(bankTotal, goalTotal, ManualTolerance(bankTotal)) <==> CloseToBank(bankTotal, goalTotal)
  {
  }

  /** The amounts of the rows of the ids. */
  function AmountsOf(rows: map<string, BankRow>, ids: seq<string>): int {
    if ids == [] then 0 else (if ids[0] in rows then rows[ids[0]].amount else 0) + AmountsOf(rows, ids[1..])
  }

  /** The amounts of the fund rows whose goal code is listed and not empty. */
  function AmountsListed(funds: seq<FundRow>, goalCodes: seq<string>): int {
    if funds == [] then 0
    else
      (if funds[0].goalCode != "" && funds[0].goalCode in goalCodes then funds[0].amount else 0)
      + AmountsListed(funds[1..], goalCodes)
  }

  lemma {:induction false} BankTotalIs(rows: map<string, BankRow>, ids: seq<string>, seen: set<string>)
    requires NoRepeat(ids) && forall id :: id in ids ==> id in rows && id !in seen
    ensures BankTotal(Fetch(rows, ids, seen)) == AmountsOf(rows, ids)
    decreases ids
  {
    if ids != [] {
      NoRepeatCons(ids);
      BankTotalIs(rows, ids[1..], seen + {ids[0]});
      var rest := Fetch(rows, ids[1..], seen + {ids[0]});
      assert BankItems([rows[ids[0]]] + rest)[1..] == BankItems(rest);
    }
  }

  lemma {:induction false} GoalTotalIs(funds: seq<FundRow>, goalCodes: seq<string>)
    ensures FundTotal(NamedRows(funds, goalCodes)) == AmountsListed(funds, goalCodes)
  {
    if funds != [] {
      GoalTotalIs(funds[1..], goalCodes);
      var rest := NamedRows(funds[1..], goalCodes);
      assert [] + rest == rest;
    }
  }

  // ---- Removing ----

  predicate ReadsManual(code: string) {
    |code| >= 7 && code[..7] == "MANUAL:"
  }

  ghost predicate HasInside(code: string, part: string) {
    exists before, after :: code == before + part + after
  }

  lemma {:induction false} ContainsIs(code: string, part: string)
    ensures Contains(code, part) <==> HasInside(code, part)
  {
    if Contains(code, part) {
      var i :| 0 <= i <= |code| && OccursAt(code, part, i);
      assert code == code[..i] + part + code[i + |part|..];
    }
    if before, after :| code == before + part + after {
      assert code[|before|..|before| + |part|] == part;
      assert OccursAt(code, part, |before|);
    }
  }

  /** A row is cleared if and only if it is given by its id, or its stored code is one of the goal codes, or begins
      with MANUAL: and has one of the goal codes anywhere inside. */
  lemma {:induction false} ClearedIff(rows: map<string, BankRow>, codes: map<string, string>, bankIds: seq<string>,
                                      goalCodes: seq<string>, id: string)
    ensures id in ClearedBy(rows, codes, bankIds, goalCodes) <==>
            || (id in bankIds && id in rows)
            || (id in codes && codes[id] in goalCodes)
            || (id in codes && ReadsManual(codes[id]) && exists g :: g in goalCodes && HasInside(codes[id], g))
  {
    if id in codes {
      ManualByPrefix(codes[id]);
      forall g | g in goalCodes
        ensures Contains(codes[id], g) <==> HasInside(codes[id], g)
      {
        ContainsIs(codes[id], g);
      }
    }
  }
}
