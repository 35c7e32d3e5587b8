/** Running the drill-down again on the same lists, after its own results have been written back,
    finds the same matches and stores the same codes. */
module Rerun {
  import opened Transactions
  import opened MatchCode
  import opened Matching
  import opened Ledger
  import opened Completeness

  // ---- What is written back ----

  /** The code that a match leaves on its bank rows, if it leaves one. */
  ghost predicate Stored(codes: map<string, string>, m: Match, groups: seq<GoalTxn>) {
    var goalCodes := MatchedCodes(groups, FundIdsOf(m.groups));
    m.kind == Manual || goalCodes == [] ||
    forall id :: id in BankIds(m.banks) ==> id in codes && codes[id] == AlgorithmicCode(m.kind, goalCodes)
  }

  ghost predicate SameAt(a: map<string, string>, b: map<string, string>, id: string) {
    (id in a <==> id in b) && (id in a ==> a[id] == b[id])
  }

  lemma {:induction false} PersistElsewhere(codes: map<string, string>, matches: seq<Match>, groups: seq<GoalTxn>,
                                            id: string)
    requires id !in BankIds(AllBanks(matches))
    ensures SameAt(Persist(codes, matches, groups), codes, id)
    decreases matches
  {
    if matches != [] {
      assert forall r :: r in matches[0].banks ==> r in AllBanks(matches);
      assert forall r :: r in AllBanks(matches[1..]) ==> r in AllBanks(matches);
      PersistElsewhere(PersistOne(codes, matches[0], groups), matches[1..], groups, id);
    }
  }

  lemma {:induction false} PersistStores(codes: map<string, string>, matches: seq<Match>, groups: seq<GoalTxn>)
    requires DistinctBankIds(AllBanks(matches))
    ensures forall m :: m in matches ==> Stored(Persist(codes, matches, groups), m, groups)
    decreases matches
  {
    if matches != [] {
      var m := matches[0];
      var next := PersistOne(codes, m, groups);
      var end := Persist(next, matches[1..], groups);
      DistinctParts(m.banks, AllBanks(matches[1..]));
      PersistStores(next, matches[1..], groups);
      assert Stored(next, m, groups);
      forall id | id in BankIds(m.banks)
        ensures SameAt(end, next, id)
      {
        PersistElsewhere(next, matches[1..], groups, id);
      }
      assert Stored(end, m, groups);
    }
  }

  lemma {:induction false} PersistStable(codes: map<string, string>, matches: seq<Match>, groups: seq<GoalTxn>)
    requires forall m :: m in matches ==> Stored(codes, m, groups)
    ensures Persist(codes, matches, groups) == codes
    decreases matches
  {
    if matches != [] {
      assert Stored(codes, matches[0], groups);
      assert PersistOne(codes, matches[0], groups) == codes;
      PersistStable(codes, matches[1..], groups);
    }
  }

  /** Writing the same results back twice is writing them back once. */
  lemma {:induction false} PersistIdempotent(codes: map<string, string>, matches: seq<Match>, groups: seq<GoalTxn>)
    requires DistinctBankIds(AllBanks(matches))
    ensures Persist(Persist(codes, matches, groups), matches, groups) == Persist(codes, matches, groups)
  {
    PersistStores(codes, matches, groups);
    PersistStable(Persist(codes, matches, groups), matches, groups);
  }

  // ---- Nothing written back looks manual ----

  lemma {:induction false} MatchedCodesMembers(groups: seq<GoalTxn>, funds: set<string>)
    ensures forall c :: c in MatchedCodes(groups, funds) ==> exists g :: g in groups && g.code == c
  {
    if groups != [] {
      MatchedCodesMembers(groups[1..], funds);
      assert groups[0] in groups;
    }
  }

  /** No goal code begins like a manual match code; so it is when none contains a colon. */
  ghost predicate NoneLooksManual(groups: seq<GoalTxn>) {
    forall g :: g in groups ==> !IsManual(g.code)
  }

  lemma {:induction false} AlgorithmicIsNotManual(kind: MatchKind, goalCodes: seq<string>)
    requires goalCodes != [] && kind != Manual && forall c :: c in goalCodes ==> !IsManual(c)
    ensures !IsManual(AlgorithmicCode(kind, goalCodes))
  {
    var code := AlgorithmicCode(kind, goalCodes);
    if |goalCodes| == 1 {
      assert goalCodes[0] in goalCodes;
    } else {
      assert code[0] == KindName(kind)[0];
      assert MANUAL_PREFIX[0] == 'M';
    }
  }

  lemma {:induction false} PersistAddsNoManual(codes: map<string, string>, matches: seq<Match>, groups: seq<GoalTxn>,
                                               id: string)
    requires NoneLooksManual(groups)
    ensures HasManualCode(Persist(codes, matches, groups), id) ==> SameAt(Persist(codes, matches, groups), codes, id)
    decreases matches
  {
    if matches != [] {
      var m := matches[0];
      var goalCodes := MatchedCodes(groups, FundIdsOf(m.groups));
      MatchedCodesMembers(groups, FundIdsOf(m.groups));
      if m.kind != Manual && goalCodes != [] {
        AlgorithmicIsNotManual(m.kind, goalCodes);
      }
      PersistAddsNoManual(PersistOne(codes, m, groups), matches[1..], groups, id);
    }
  }

  // ---- Rows that a manual match holds keep their code ----

  lemma {:induction false} ManualPassAllManual(st: State, rows: seq<BankRow>, inp: Input)
    requires forall m :: m in st.matches ==> m.kind == Manual
    ensures forall m :: m in ManualPass(st, rows, inp).matches ==> m.kind == Manual
    decreases rows
  {
    if rows != [] {
      var next := if HasManualCode(inp.codes, rows[0].id) then Attempt(st, inp.codes[rows[0].id], inp) else st;
      ManualPassAllManual(next, rows[1..], inp);
    }
  }

  lemma {:induction false} PersistSkipsManual(codes: map<string, string>, manual: seq<Match>, rest: seq<Match>,
                                              groups: seq<GoalTxn>)
    requires forall m :: m in manual ==> m.kind == Manual
    ensures Persist(codes, manual + rest, groups) == Persist(codes, rest, groups)
    decreases manual
  {
    if manual == [] {
      assert manual + rest == rest;
    } else {
      assert manual[0].kind == Manual;
      assert (manual + rest)[0] == manual[0] && (manual + rest)[1..] == manual[1..] + rest;
      PersistSkipsManual(codes, manual[1..], rest, groups);
    }
  }

  lemma {:induction false} ManualRowsKeepTheirCode(inp: Input, id: string)
    requires WellFormedInput(inp) && id in AfterManual(inp).claims.banks
    ensures SameAt(Persist(inp.codes, Run(inp).matches, inp.groups), inp.codes, id)
  {
    ManualComesFirst(inp);
    ManualClaims(inp);
    var manual, rest := AfterManual(inp).matches, Run(inp).matches[|AfterManual(inp).matches|..];
    ManualPassAllManual(START, inp.banks, inp);
    NotInTheRest(manual, rest, id);
    PersistSkipsManual(inp.codes, manual, rest, inp.groups);
    PersistElsewhere(inp.codes, rest, inp.groups, id);
  }

  lemma {:induction false} ManualComesFirst(inp: Input)
    ensures var manual, all := AfterManual(inp).matches, Run(inp).matches;
            |manual| <= |all| && all == manual + all[|manual|..]
  {
    RunExtends(inp);
    assert AfterManual(inp).matches <= AfterAmount(inp).matches;
    assert AfterManual(inp).matches <= Run(inp).matches;
  }

  lemma {:induction false} ManualClaims(inp: Input)
    requires WellFormedInput(inp)
    ensures AfterManual(inp).claims.banks == BankIds(AllBanks(AfterManual(inp).matches))
    ensures DistinctBankIds(AllBanks(Run(inp).matches))
  {
    RunSound(inp);
  }

  lemma {:induction false} NotInTheRest(first: seq<Match>, rest: seq<Match>, id: string)
    requires DistinctBankIds(AllBanks(first + rest)) && id in BankIds(AllBanks(first))
    ensures id !in BankIds(AllBanks(rest))
  {
    AllBanksAppend(first, rest);
    DistinctParts(AllBanks(first), AllBanks(rest));
  }

  // ---- Pass 0 the second time ----

  /** again differs from inp at most in codes that were replaced by ones that are not manual. */
  ghost predicate OnlyReplaced(inp: Input, again: Input) {
    && again.banks == inp.banks && again.groups == inp.groups
    && forall id :: HasManualCode(again.codes, id) ==> SameAt(again.codes, inp.codes, id)
  }

  lemma {:induction false} RowsWithCodeAgree(rows: seq<BankRow>, a: map<string, string>, b: map<string, string>,
                                             code: string)
    requires forall r :: r in rows ==> (r.id in a && a[r.id] == code <==> r.id in b && b[r.id] == code)
    ensures RowsWithCode(rows, a, code) == RowsWithCode(rows, b, code)
  {
    if rows != [] {
      assert rows[0] in rows;
      RowsWithCodeAgree(rows[1..], a, b, code);
    }
  }

  /** A code whose match was made is tried with the same rows and leads to the same match. */
  lemma {:induction false} SuccessRepeats(st: State, code: string, inp: Input, again: Input)
    requires OnlyReplaced(inp, again) && IsManual(code) && ManualMatch(st.claims, code, inp).Some?
    requires forall id :: id in Attempt(st, code, inp).claims.banks ==> SameAt(again.codes, inp.codes, id)
    ensures Attempt(st, code, again) == Attempt(st, code, inp)
  {
    var rows := RowsWithCode(inp.banks, inp.codes, code);
    RowsWithCodeMembers(inp.banks, inp.codes, code);
    FreeBanksMembers(rows, st.claims.banks);
    forall r | r in inp.banks
      ensures r.id in inp.codes && inp.codes[r.id] == code <==> r.id in again.codes && again.codes[r.id] == code
    {
      if r.id in inp.codes && inp.codes[r.id] == code {
        assert r in rows;
        if r.id !in st.claims.banks {
          assert r in FreeBanks(rows, st.claims.banks);
        }
        assert r.id in Attempt(st, code, inp).claims.banks;
        assert SameAt(again.codes, inp.codes, r.id);
      } else if r.id in again.codes && again.codes[r.id] == code {
        assert HasManualCode(again.codes, r.id);
      }
    }
    RowsWithCodeAgree(inp.banks, inp.codes, again.codes, code);
  }

  /** A code that failed fails again, now that it may have fewer rows. */
  lemma {:induction false} FailureRepeats(claims: Claims, code: string, inp: Input, again: Input)
    requires OnlyReplaced(inp, again) && IsManual(code) && ManualMatch(claims, code, inp).None?
    ensures ManualMatch(claims, code, again).None?
  {
    var rows, fewer := RowsWithCode(inp.banks, inp.codes, code), RowsWithCode(inp.banks, again.codes, code);
    RowsWithCodeMembers(inp.banks, inp.codes, code);
    RowsWithCodeMembers(inp.banks, again.codes, code);
    forall r | r in fewer
      ensures r in rows
    {
      assert HasManualCode(again.codes, r.id);
    }
    assert BankIds(fewer) <= BankIds(rows);
  }

  lemma {:induction false} ManualPassRepeats(st: State, rows: seq<BankRow>, inp: Input, again: Input)
    requires OnlyReplaced(inp, again) && forall r :: r in rows ==> r in inp.banks
    requires forall id :: id in ManualPass(st, rows, inp).claims.banks ==> SameAt(again.codes, inp.codes, id)
    ensures ManualPass(st, rows, again) == ManualPass(st, rows, inp)
    decreases rows
  {
    if rows != [] {
      var id := rows[0].id;
      if HasManualCode(inp.codes, id) {
        var code := inp.codes[id];
        var next := Attempt(st, code, inp);
        ManualPassExtends(next, rows[1..], inp);
        if ManualMatch(st.claims, code, inp).Some? {
          SuccessRepeats(st, code, inp, again);
          SuccessClaimsRow(st, rows[0], inp);
          assert SameAt(again.codes, inp.codes, id);
        } else {
          FailureRepeats(st.claims, code, inp, again);
        }
        ManualPassRepeats(next, rows[1..], inp, again);
      } else {
        ManualPassRepeats(st, rows[1..], inp, again);
      }
    }
  }

  lemma {:induction false} SuccessClaimsRow(st: State, r: BankRow, inp: Input)
    requires r in inp.banks && HasManualCode(inp.codes, r.id)
    requires ManualMatch(st.claims, inp.codes[r.id], inp).Some?
    ensures r.id in Attempt(st, inp.codes[r.id], inp).claims.banks
  {
    var rows := RowsWithCode(inp.banks, inp.codes, inp.codes[r.id]);
    RowsWithCodeMembers(inp.banks, inp.codes, inp.codes[r.id]);
    FreeBanksMembers(rows, st.claims.banks);
    assert r in rows;
    if r.id !in st.claims.banks {
      assert r in FreeBanks(rows, st.claims.banks);
    }
  }

  /** Rerun idempotence: on the same ordered lists, after the first run has stored its codes, a second
      run makes the same matches and stores the same codes, also when the first run overwrote manual
      codes whose goal transactions were not found. */
  lemma {:induction false} RerunIsIdempotent(inp: Input)
    requires WellFormedInput(inp) && NoneLooksManual(inp.groups)
    ensures var codes := Persist(inp.codes, Run(inp).matches, inp.groups);
            var again := inp.(codes := codes);
            Run(again) == Run(inp) && Persist(codes, Run(again).matches, again.groups) == codes
  {
    var codes := Persist(inp.codes, Run(inp).matches, inp.groups);
    var again := inp.(codes := codes);
    forall id | HasManualCode(codes, id)
      ensures SameAt(codes, inp.codes, id)
    {
      PersistAddsNoManual(inp.codes, Run(inp).matches, inp.groups, id);
    }
    forall id | id in AfterManual(inp).claims.banks
      ensures SameAt(codes, inp.codes, id)
    {
      ManualRowsKeepTheirCode(inp, id);
    }
    ManualPassRepeats(START, inp.banks, inp, again);
    assert AfterManual(again) == AfterManual(inp);
    assert Run(again) == Run(inp);
    RunSound(inp);
    PersistIdempotent(inp.codes, Run(inp).matches, inp.groups);
  }
}
