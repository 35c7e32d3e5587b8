/** The match code stored on a bank row: how it is written, and the two ways it is read back.
    Matching reads it with string searches, the summary query with split_part and string_to_array. */
module MatchCode {
  import opened Text

  datatype MatchKind = Exact | Amount | SplitBankToFund | SplitFundToBank | Manual

  function KindName(kind: MatchKind): (name: string)
    ensures ':' !in name && ',' !in name && name != ""
  {
    match kind
    case Exact => "EXACT"
    case Amount => "AMOUNT"
    case SplitBankToFund => "SPLIT_BANK_TO_FUND"
    case SplitFundToBank => "SPLIT_FUND_TO_BANK"
    case Manual => "MANUAL"
  }

  const MANUAL_PREFIX := "MANUAL:"

  predicate IsManual(code: string) {
    StartsWith(code, MANUAL_PREFIX)
  }

  // ---- Writing ----

  function ManualCode(stamp: string, goalCodes: seq<string>): (code: string)
    ensures IsManual(code)
  {
    MANUAL_PREFIX + stamp + ":" + Join(goalCodes, ',')
  }

  /** What an algorithmic match stores: one goal code as it is, several behind the kind of match. */
  function AlgorithmicCode(kind: MatchKind, goalCodes: seq<string>): string
    requires goalCodes != []
  {
    if |goalCodes| == 1 then goalCodes[0] else KindName(kind) + ":" + Join(goalCodes, ',')
  }

  // ---- Reading, in the matcher ----

  /** The goal codes of a MANUAL code; None when there is no colon after the time stamp. */
  function ManualGoalCodes(code: string): Option<seq<string>>
    requires IsManual(code)
  {
    match IndexOf(code, ':', |MANUAL_PREFIX|)
    case None => None
    case Some(i) => Some(Split(code[i + 1..], ','))
  }

  // ---- Reading, in SQL ----

  /** split_part counts from one and is empty past the last part. */
  function SplitPart(s: string, sep: char, n: nat): string
    requires n > 0
  {
    var parts := Split(s, sep);
    if n <= |parts| then parts[n - 1] else ""
  }

  /** string_to_array of an empty string is an empty array. */
  function StringToArray(s: string, sep: char): seq<string> {
    if s == "" then [] else Split(s, sep)
  }

  function SqlGoalCodes(code: string): seq<string> {
    StringToArray(
      if IsManual(code) then SplitPart(code, ':', 3)
      else if ':' in code then SplitPart(code, ':', 2)
      else code, ',')
  }

  // ---- Forms ----

  /** The three shapes of a stored code. */
  datatype Form =
    | PlainForm(goalCode: string)
    | GroupedForm(kind: MatchKind, goalCodes: seq<string>)
    | ManualForm(stamp: string, goalCodes: seq<string>)

  predicate PlainGoalCode(code: string) {
    code != "" && ':' !in code && ',' !in code
  }

  predicate WellFormed(form: Form) {
    match form
    case PlainForm(c) => PlainGoalCode(c)
    case GroupedForm(kind, cs) => kind != Manual && |cs| > 1 && forall c :: c in cs ==> PlainGoalCode(c)
    case ManualForm(stamp, cs) => ':' !in stamp && cs != [] && forall c :: c in cs ==> PlainGoalCode(c)
  }

  function Encode(form: Form): string
    requires WellFormed(form)
  {
    match form
    case PlainForm(c) => AlgorithmicCode(Exact, [c])
    case GroupedForm(kind, cs) => AlgorithmicCode(kind, cs)
    case ManualForm(stamp, cs) => ManualCode(stamp, cs)
  }

  function NamedBy(form: Form): seq<string> {
    match form
    case PlainForm(c) => [c]
    case GroupedForm(_, cs) => cs
    case ManualForm(_, cs) => cs
  }

  lemma {:induction false} JoinPlain(goalCodes: seq<string>)
    requires goalCodes != [] && forall c :: c in goalCodes ==> PlainGoalCode(c)
    ensures ':' !in Join(goalCodes, ',') && Join(goalCodes, ',') != ""
  {
    assert PlainGoalCode(goalCodes[0]);
    if |goalCodes| > 1 {
      JoinPlain(goalCodes[1..]);
      assert Join(goalCodes, ',') == goalCodes[0] + [','] + Join(goalCodes[1..], ',');
    }
  }

  lemma {:induction false} ManualHasColon(code: string)
    ensures IsManual(code) ==> ':' in code
  {
    if IsManual(code) {
      assert code[6] == ':';
    }
  }

  lemma {:induction false} SplitOnce(head: string, sep: char, tail: string)
    requires sep !in head
    ensures Split(head + [sep] + tail, sep) == [head] + Split(tail, sep)
  {
    assert head[0..] == head;
    IndexOfAfter(head, sep, tail, 0);
    var s := head + [sep] + tail;
    assert s[..|head|] == head && s[|head| + 1..] == tail;
  }

  /** The parts of a manual code around its first two colons. */
  lemma {:induction false} ManualParts(stamp: string, tail: string)
    requires ':' !in stamp
    ensures var code := MANUAL_PREFIX + stamp + ":" + tail;
            && IsManual(code)
            && ManualGoalCodes(code) == Some(Split(tail, ','))
            && Split(code, ':') == ["MANUAL", stamp] + Split(tail, ':')
  {
    var code := MANUAL_PREFIX + stamp + ":" + tail;
    var head := MANUAL_PREFIX + stamp;
    assert head[|MANUAL_PREFIX|..] == stamp;
    IndexOfAfter(head, ':', tail, |MANUAL_PREFIX|);
    assert code == head + [':'] + tail;
    assert code[|head| + 1..] == tail;
    ManualSplit(stamp, tail);
  }

  lemma {:induction false} SplitTwice(a: string, b: string, sep: char, tail: string)
    requires sep !in a && sep !in b
    ensures Split(a + [sep] + (b + [sep] + tail), sep) == [a, b] + Split(tail, sep)
  {
    SplitOnce(a, sep, b + [sep] + tail);
    SplitOnce(b, sep, tail);
    assert [a] + ([b] + Split(tail, sep)) == [a, b] + Split(tail, sep);
  }

  lemma {:induction false} ManualSplit(stamp: string, tail: string)
    requires ':' !in stamp
    ensures Split(MANUAL_PREFIX + stamp + ":" + tail, ':') == ["MANUAL", stamp] + Split(tail, ':')
  {
    SplitTwice("MANUAL", stamp, ':', tail);
    assert MANUAL_PREFIX + stamp + ":" + tail == "MANUAL" + [':'] + (stamp + [':'] + tail);
  }

  lemma {:induction false} PlainReads(c: string)
    requires PlainGoalCode(c)
    ensures SqlGoalCodes(c) == [c] && !IsManual(c)
  {
    IndexOfNone(c, ',');
    ManualHasColon(c);
  }

  lemma {:induction false} GroupedReads(kind: MatchKind, cs: seq<string>)
    requires kind != Manual && cs != [] && forall c :: c in cs ==> PlainGoalCode(c)
    ensures var code := KindName(kind) + ":" + Join(cs, ',');
            SqlGoalCodes(code) == cs && !IsManual(code)
  {
    var body := Join(cs, ',');
    var code := KindName(kind) + ":" + body;
    JoinPlain(cs);
    SplitJoin(cs, ',');
    SplitOnce(KindName(kind), ':', body);
    IndexOfNone(body, ':');
    assert code == KindName(kind) + [':'] + body;
    assert code[0] == KindName(kind)[0] != 'M';
    assert MANUAL_PREFIX[0] == 'M';
  }

  lemma {:induction false} ManualReads(stamp: string, cs: seq<string>)
    requires ':' !in stamp && cs != [] && forall c :: c in cs ==> PlainGoalCode(c)
    ensures var code := ManualCode(stamp, cs);
            SqlGoalCodes(code) == cs && ManualGoalCodes(code) == Some(cs)
  {
    var body := Join(cs, ',');
    JoinPlain(cs);
    SplitJoin(cs, ',');
    ManualParts(stamp, body);
    IndexOfNone(body, ':');
    assert ManualCode(stamp, cs) == MANUAL_PREFIX + stamp + ":" + body;
  }

  /** Reading a stored code gives back the goal codes that were written, in SQL for all three
      forms and in the matcher for the manual one; and only the manual form looks manual. */
  lemma {:induction false} RoundTrip(form: Form)
    requires WellFormed(form)
    ensures SqlGoalCodes(Encode(form)) == NamedBy(form)
    ensures IsManual(Encode(form)) <==> form.ManualForm?
    ensures form.ManualForm? ==> ManualGoalCodes(Encode(form)) == Some(form.goalCodes)
  {
    match form
    case PlainForm(c) => PlainReads(c);
    case GroupedForm(kind, cs) => GroupedReads(kind, cs);
    case ManualForm(stamp, cs) => ManualReads(stamp, cs);
  }

  /** The forms never collide: equal stored codes come from equal forms. */
  lemma {:induction false} EncodeInjective(f: Form, g: Form)
    requires WellFormed(f) && WellFormed(g) && Encode(f) == Encode(g)
    ensures f == g
  {
    RoundTrip(f);
    RoundTrip(g);
    assert NamedBy(f) == NamedBy(g);
    if f.ManualForm? {
      ManualParts(f.stamp, Join(f.goalCodes, ','));
      ManualParts(g.stamp, Join(g.goalCodes, ','));
      assert Split(Encode(f), ':')[1] == f.stamp;
      assert Split(Encode(g), ':')[1] == g.stamp;
    } else if f.GroupedForm? {
      SplitOnce(KindName(f.kind), ':', Join(f.goalCodes, ','));
      assert Encode(f) == KindName(f.kind) + [':'] + Join(f.goalCodes, ',');
      assert |NamedBy(g)| > 1;
      SplitOnce(KindName(g.kind), ':', Join(g.goalCodes, ','));
      assert Encode(g) == KindName(g.kind) + [':'] + Join(g.goalCodes, ',');
      assert Split(Encode(f), ':')[0] == KindName(f.kind) == KindName(g.kind);
      KindNameInjective(f.kind, g.kind);
    }
  }

  lemma {:induction false} KindNameInjective(a: MatchKind, b: MatchKind)
    requires KindName(a) == KindName(b)
    ensures a == b
  {
    assert |KindName(a)| == |KindName(b)|;
    assert KindName(SplitBankToFund)[6] == 'B' && KindName(SplitFundToBank)[6] == 'F';
    assert KindName(a)[0] == KindName(b)[0];
  }

  /** Exactly when the two readers agree on a manual code: it has no second colon, so neither sees a
      goal code, or what follows that colon is not empty and has no colon of its own. */
  lemma {:induction false} ReadersAgree(code: string)
    requires IsManual(code)
    ensures var second := IndexOf(code, ':', |MANUAL_PREFIX|);
            SqlGoalCodes(code) == (match ManualGoalCodes(code) case None => [] case Some(cs) => cs) <==>
            second.None? || (code[second.value + 1..] != "" && ':' !in code[second.value + 1..])
  {
    match IndexOf(code, ':', |MANUAL_PREFIX|)
    case None =>
      var stamp := code[|MANUAL_PREFIX|..];
      assert code == "MANUAL" + [':'] + stamp;
      SplitOnce("MANUAL", ':', stamp);
      IndexOfNone(stamp, ':');
    case Some(i) =>
      var stamp := code[|MANUAL_PREFIX|..i];
      var tail := code[i + 1..];
      assert code == MANUAL_PREFIX + stamp + ":" + tail;
      ManualParts(stamp, tail);
      var part := SplitPart(code, ':', 3);
      assert part == Split(tail, ':')[0];
      if ':' in tail {
        var j := IndexOf(tail, ':', 0).value;
        assert part == tail[..j];
        JoinSplit(part, ',');
        JoinSplit(tail, ',');
      } else {
        IndexOfNone(tail, ':');
      }
  }

  lemma {:induction false} JoinOfTwo(a: string, b: string)
    ensures Join([a], ',') == a && Join([a, b], ',') == a + "," + b
  {
    assert [a, b][1..] == [b];
    assert [a, b][0] == a;
  }

  lemma {:induction false} TwoCodes(kind: MatchKind, a: string, b: string)
    ensures AlgorithmicCode(kind, [a, b]) == KindName(kind) + ":" + a + "," + b
  {
    JoinOfTwo(a, b);
    var head := KindName(kind) + ":";
    assert AlgorithmicCode(kind, [a, b]) == head + (a + "," + b);
    assert head + (a + "," + b) == head + a + "," + b;
  }

  /** The text an algorithmic match stores. */
  lemma {:induction false} AlgorithmicTexts(a: string, b: string)
    ensures AlgorithmicCode(Exact, [a]) == AlgorithmicCode(Amount, [a]) == a
    ensures AlgorithmicCode(SplitFundToBank, [a, b]) == "SPLIT_FUND_TO_BANK:" + a + "," + b
    ensures AlgorithmicCode(SplitBankToFund, [a, b]) == "SPLIT_BANK_TO_FUND:" + a + "," + b
  {
    TwoCodes(SplitFundToBank, a, b);
    TwoCodes(SplitBankToFund, a, b);
    assert KindName(SplitFundToBank) + ":" == "SPLIT_FUND_TO_BANK:";
    assert KindName(SplitBankToFund) + ":" == "SPLIT_BANK_TO_FUND:";
  }

  /** The text a manual match stores. */
  lemma {:induction false} ManualTexts(stamp: string, a: string, b: string)
    ensures ManualCode(stamp, [a]) == "MANUAL:" + stamp + ":" + a
    ensures ManualCode(stamp, [a, b]) == "MANUAL:" + stamp + ":" + a + "," + b
  {
    JoinOfTwo(a, b);
    var head := "MANUAL:" + stamp + ":";
    assert ManualCode(stamp, [a, b]) == head + Join([a, b], ',');
    assert head + (a + "," + b) == "MANUAL:" + stamp + ":" + a + "," + b;
  }

  /** A code is a manual one by its first seven characters. */
  lemma {:induction false} ManualByPrefix(code: string)
    ensures IsManual(code) <==> |code| >= 7 && code[..7] == "MANUAL:"
  {
  }
}
