/** Removal by goal code looks for the code as a substring of the stored text. When that is the same
    as asking whether the manual match lists the code, and when it is not. */
module Removal {
  import opened Text
  import opened MatchCode
  import opened ManualMatches

  // ---- A substring of a manual code ----

  lemma {:induction false} ContainsChars(hay: string, needle: string, c: char)
    requires Contains(hay, needle) && c in needle
    ensures c in hay
  {
    var i :| 0 <= i <= |hay| && OccursAt(hay, needle, i);
    var k :| 0 <= k < |needle| && needle[k] == c;
    assert hay[i + k] == hay[i..i + |needle|][k] == c;
  }

  /** A goal code with a dash occurs in a manual code exactly when it occurs in a listed goal code:
      neither the prefix nor the time stamp can contain it, and it cannot reach across separators. */
  lemma {:induction false} MentionIsPartOfListed(now: nat, goalCodes: seq<string>, needle: string)
    requires goalCodes != [] && PlainGoalCode(needle) && '-' in needle
    ensures Contains(ManualCode(Decimal(now), goalCodes), needle) <==>
            exists c :: c in goalCodes && Contains(c, needle)
  {
    var stamp, body := Decimal(now), Join(goalCodes, ',');
    var tail := stamp + [':'] + body;
    assert ManualCode(stamp, goalCodes) == "MANUAL" + [':'] + tail;
    ContainsAcross("MANUAL", ':', tail, needle);
    ContainsAcross(stamp, ':', body, needle);
    ContainsInJoin(goalCodes, ',', needle);
    assert '-' !in "MANUAL" && '-' !in stamp;
    if Contains("MANUAL", needle) {
      ContainsChars("MANUAL", needle, '-');
      assert false;
    }
    if Contains(stamp, needle) {
      ContainsChars(stamp, needle, '-');
      assert false;
    }
  }

  // ---- The table ----

  /** A code that creation or a drill-down can have written: one of the three forms, with the digits of a
      time as the stamp of a manual one. */
  ghost predicate IsStored(code: string) {
    exists form :: WellFormed(form) && code == Encode(form)
      && (form.ManualForm? ==> exists now :: form.stamp == Decimal(now))
  }

  ghost predicate AllStored(codes: map<string, string>) {
    forall id :: id in codes ==> IsStored(codes[id])
  }

  ghost predicate Lists(code: string, g: string) {
    IsManual(code) && ManualGoalCodes(code).Some? && g in ManualGoalCodes(code).value
  }

  /** The code names one of the goal codes: as it is, in a grouped code or in a manual list. */
  predicate Names(code: string, goalCodes: seq<string>) {
    exists g :: g in goalCodes && g in SqlGoalCodes(code)
  }

  function Naming(codes: map<string, string>, goalCodes: seq<string>): set<string> {
    set id | id in codes && Names(codes[id], goalCodes)
  }

  /** A manual list that names none of the goal codes has one of them inside a longer code. */
  ghost predicate Hides(code: string, goalCodes: seq<string>) {
    IsManual(code) && !Names(code, goalCodes) && Inside(code, goalCodes)
  }

  ghost predicate Inside(code: string, goalCodes: seq<string>) {
    exists c, g :: Lists(code, c) && g in goalCodes && Contains(c, g)
  }

  ghost function Hiding(codes: map<string, string>, goalCodes: seq<string>): set<string> {
    set id | id in codes && Hides(codes[id], goalCodes)
  }

  /** A grouped code, as an algorithmic match of several goal transactions stores it, names a goal code. */
  predicate GroupedNames(code: string, goalCodes: seq<string>) {
    !IsManual(code) && code !in goalCodes && Names(code, goalCodes)
  }

  function GroupedNaming(codes: map<string, string>, goalCodes: seq<string>): set<string> {
    set id | id in codes && GroupedNames(codes[id], goalCodes)
  }

  /** Goal codes that can be told from a prefix and a stamp. */
  ghost predicate Removable(goalCodes: seq<string>) {
    forall g :: g in goalCodes ==> PlainGoalCode(g) && '-' in g
  }

  lemma {:induction false} DecimalHasNoColon(now: nat)
    ensures ':' !in Decimal(now)
  {
  }

  lemma {:induction false} ContainsItself(s: string)
    ensures Contains(s, s)
  {
    assert s[0..0 + |s|] == s;
    assert OccursAt(s, s, 0);
  }

  // ---- What removal by goal codes clears ----

  /** Both readers see the same list in a stored manual code, and a goal code occurs in its text exactly
      when it occurs in a listed code. */
  lemma {:induction false} StoredManual(code: string, g: string)
    requires IsStored(code) && IsManual(code) && PlainGoalCode(g) && '-' in g
    ensures g in SqlGoalCodes(code) <==> Lists(code, g)
    ensures Contains(code, g) <==> exists c :: Lists(code, c) && Contains(c, g)
  {
    var form :| WellFormed(form) && code == Encode(form)
      && (form.ManualForm? ==> exists now :: form.stamp == Decimal(now));
    RoundTrip(form);
    var now :| form.stamp == Decimal(now);
    MentionIsPartOfListed(now, form.goalCodes, g);
    assert forall c :: Lists(code, c) <==> c in form.goalCodes;
  }

  lemma {:induction false} ManualCleared(code: string, goalCodes: seq<string>)
    requires IsStored(code) && IsManual(code) && Removable(goalCodes)
    ensures code !in goalCodes
    ensures Mentions(code, goalCodes) <==> Names(code, goalCodes) || Hides(code, goalCodes)
  {
    ManualHasColon(code);
    forall g | g in goalCodes
      ensures g in SqlGoalCodes(code) <==> Lists(code, g)
      ensures Contains(code, g) <==> exists c :: Lists(code, c) && Contains(c, g)
    {
      StoredManual(code, g);
    }
    if Names(code, goalCodes) {
      var g :| g in goalCodes && g in SqlGoalCodes(code);
      ContainsItself(g);
      assert Contains(code, g);
    }
  }

  lemma {:induction false} OtherCleared(code: string, goalCodes: seq<string>)
    requires IsStored(code) && !IsManual(code) && Removable(goalCodes)
    ensures code in goalCodes <==> Names(code, goalCodes) && !GroupedNames(code, goalCodes)
  {
    var form :| WellFormed(form) && code == Encode(form)
      && (form.ManualForm? ==> exists now :: form.stamp == Decimal(now));
    RoundTrip(form);
    if code in goalCodes {
      match form
      case PlainForm(c) => assert code in SqlGoalCodes(code);
      case _ =>
    }
  }

  /** Removal by goal codes clears exactly the rows whose code names one of them, less those with a grouped
      code, and with them the rows of manual lists that only hide one. */
  lemma {:induction false} RemovalExactly(codes: map<string, string>, goalCodes: seq<string>)
    requires AllStored(codes) && Removable(goalCodes)
    ensures ByGoal(codes, goalCodes) ==
            (Naming(codes, goalCodes) - GroupedNaming(codes, goalCodes)) + Hiding(codes, goalCodes)
    ensures GroupedNaming(codes, goalCodes) <= Naming(codes, goalCodes)
    ensures Naming(codes, goalCodes) !! Hiding(codes, goalCodes)
  {
    forall id | id in codes
      ensures id in ByGoal(codes, goalCodes) <==>
              (Names(codes[id], goalCodes) && !GroupedNames(codes[id], goalCodes)) || Hides(codes[id], goalCodes)
    {
      if IsManual(codes[id]) {
        ManualCleared(codes[id], goalCodes);
      } else {
        OtherCleared(codes[id], goalCodes);
      }
    }
  }

  /** So it is membership if and only if no goal code hides in a longer listed one and no grouped code
      names one. */
  lemma {:induction false} RemovalIsMembership(codes: map<string, string>, goalCodes: seq<string>)
    requires AllStored(codes) && Removable(goalCodes)
    ensures ByGoal(codes, goalCodes) == Naming(codes, goalCodes) <==>
            Hiding(codes, goalCodes) == {} && GroupedNaming(codes, goalCodes) == {}
  {
    RemovalExactly(codes, goalCodes);
  }

  /** For instance an algorithmic match of two goal transactions: its grouped code names both and removal
      by either reaches neither. */
  lemma {:induction false} GroupedMatchStays(id: string, kind: MatchKind, g: string, h: string)
    requires kind != Manual && PlainGoalCode(g) && PlainGoalCode(h) && '-' in g
    ensures var codes := map[id := AlgorithmicCode(kind, [g, h])];
            && AllStored(codes) && SqlGoalCodes(codes[id]) == [g, h]
            && Naming(codes, [g]) == {id} && ByGoal(codes, [g]) == {}
  {
    var form := GroupedForm(kind, [g, h]);
    var code := AlgorithmicCode(kind, [g, h]);
    RoundTrip(form);
    assert code == Encode(form) && IsStored(code);
    assert g in [g] && g in SqlGoalCodes(code);
    assert code != g by {
      assert code == KindName(kind) + ":" + Join([g, h], ',');
      assert code[|KindName(kind)|] == ':';
    }
  }

  // ---- Codes of the documented form ----

  function Dashes(s: string): nat {
    if s == "" then 0 else (if s[0] == '-' then 1 else 0) + Dashes(s[1..])
  }

  /** A code that begins with the four digits of a year and a dash. */
  predicate Dated(code: string) {
    PlainGoalCode(code) && IndexOf(code, '-', 0) == Some(4)
  }

  lemma {:induction false} DashesAppend(a: string, b: string)
    ensures Dashes(a + b) == Dashes(a) + Dashes(b)
  {
    if a == "" {
      assert a + b == b;
    } else {
      assert (a + b)[1..] == a[1..] + b;
      DashesAppend(a[1..], b);
    }
  }

  lemma {:induction false} NoDashes(s: string)
    requires Dashes(s) == 0
    ensures '-' !in s
  {
    if s != "" {
      NoDashes(s[1..]);
    }
  }

  lemma {:induction false} FirstDash(code: string, i: nat)
    requires Dated(code) && i <= |code|
    ensures i > 4 ==> '-' in code[..i]
  {
    if i > 4 {
      assert code[..i][4] == code[4];
    }
  }

  /** An occurrence in a code with as many dashes is at its beginning: no dash is left before it, and the
      first dash stands at the same place in both. */
  lemma {:induction false} OccursAtBeginning(c: string, g: string, i: nat)
    requires Dated(c) && Dated(g) && Dashes(c) == Dashes(g) && OccursAt(c, g, i)
    ensures i == 0
  {
    var before, after := c[..i], c[i + |g|..];
    assert c == before + (g + after);
    DashesAppend(before, g + after);
    DashesAppend(g, after);
    NoDashes(before);
    assert c[4] == '-' && forall k :: 0 <= k < 4 ==> g[0..4][k] == g[k];
    assert i <= 4 ==> g[4 - i] == c[i..i + |g|][4 - i] == c[4];
    FirstDash(c, i);
  }

  /** Among codes with equally many dashes one contains another if and only if it begins with it. */
  lemma {:induction false} ContainsIsPrefix(c: string, g: string)
    requires Dated(c) && Dated(g) && Dashes(c) == Dashes(g)
    ensures Contains(c, g) <==> g <= c
  {
    if Contains(c, g) {
      var i :| 0 <= i <= |c| && OccursAt(c, g, i);
      OccursAtBeginning(c, g, i);
    }
    if g <= c {
      assert c[0..0 + |g|] == g;
      assert OccursAt(c, g, 0);
    }
  }

  /** A manual list that names none of the goal codes has a code that continues one of them. */
  ghost predicate Continues(code: string, goalCodes: seq<string>) {
    IsManual(code) && !Names(code, goalCodes) && Continued(code, goalCodes)
  }

  ghost predicate Continued(code: string, goalCodes: seq<string>) {
    exists c, g :: Lists(code, c) && g in goalCodes && g < c
  }

  ghost function Continuing(codes: map<string, string>, goalCodes: seq<string>): set<string> {
    set id | id in codes && Continues(codes[id], goalCodes)
  }

  predicate Alike(c: string, g: string) {
    Dated(c) && Dated(g) && Dashes(c) == Dashes(g)
  }

  ghost predicate ListsAlike(code: string, goalCodes: seq<string>) {
    forall c, g :: Lists(code, c) && g in goalCodes ==> Alike(c, g)
  }

  /** Every goal code and every listed code is dated, and they have equally many dashes. */
  ghost predicate SameShape(codes: map<string, string>, goalCodes: seq<string>) {
    (forall g :: g in goalCodes ==> Dated(g)) && (forall id :: id in codes ==> ListsAlike(codes[id], goalCodes))
  }

  lemma {:induction false} ContinuesOrIs(c: string, g: string)
    requires Alike(c, g)
    ensures Contains(c, g) <==> c == g || g < c
  {
    ContainsIsPrefix(c, g);
    if g <= c && |g| == |c| {
      assert g == c[..|g|] == c;
    }
  }

  lemma {:induction false} NotListed(code: string, goalCodes: seq<string>, g: string)
    requires IsStored(code) && IsManual(code) && Removable(goalCodes) && g in goalCodes && !Names(code, goalCodes)
    ensures !Lists(code, g)
  {
    StoredManual(code, g);
  }

  lemma {:induction false} InsideIff(code: string, goalCodes: seq<string>)
    requires IsStored(code) && IsManual(code) && Removable(goalCodes) && !Names(code, goalCodes)
    requires ListsAlike(code, goalCodes)
    ensures Inside(code, goalCodes) <==> Continued(code, goalCodes)
  {
    if Inside(code, goalCodes) {
      var c, g :| Lists(code, c) && g in goalCodes && Contains(c, g);
      ContinuesOrIs(c, g);
      NotListed(code, goalCodes, g);
    }
    if Continued(code, goalCodes) {
      var c, g :| Lists(code, c) && g in goalCodes && g < c;
      ContinuesOrIs(c, g);
    }
  }

  lemma {:induction false} DatedRemovable(goalCodes: seq<string>)
    requires forall g :: g in goalCodes ==> Dated(g)
    ensures Removable(goalCodes)
  {
    forall g | g in goalCodes
      ensures PlainGoalCode(g) && '-' in g
    {
      assert g[4] == '-';
    }
  }

  lemma {:induction false} HidingIsContinuing(codes: map<string, string>, goalCodes: seq<string>)
    requires AllStored(codes) && SameShape(codes, goalCodes) && Removable(goalCodes)
    ensures Hiding(codes, goalCodes) == Continuing(codes, goalCodes)
  {
    forall id | id in codes && IsManual(codes[id]) && !Names(codes[id], goalCodes)
      ensures Inside(codes[id], goalCodes) <==> Continued(codes[id], goalCodes)
    {
      InsideIff(codes[id], goalCodes);
    }
  }

  /** Where goal codes and listed codes are date, account and goal joined by equally many dashes, removal is
      membership if and only if no other match lists a code that continues one of them, that is the same
      day and account and a longer goal number, and no grouped code names one. */
  lemma {:induction false} SameShapeRemoval(codes: map<string, string>, goalCodes: seq<string>)
    requires AllStored(codes) && SameShape(codes, goalCodes)
    ensures ByGoal(codes, goalCodes) == Naming(codes, goalCodes) <==>
            Continuing(codes, goalCodes) == {} && GroupedNaming(codes, goalCodes) == {}
  {
    DatedRemovable(goalCodes);
    RemovalIsMembership(codes, goalCodes);
    HidingIsContinuing(codes, goalCodes);
  }

  predicate IsLetter(c: char) {
    'a' <= c <= 'z' || 'A' <= c <= 'Z'
  }

  /** A code whose goal number ends in its only letter, as in 2018-07-24-701-555863519-701-5558635193a. */
  predicate Lettered(code: string) {
    code != "" && IsLetter(code[|code| - 1]) && forall i :: 0 <= i < |code| - 1 ==> !IsLetter(code[i])
  }

  /** No such code continues another. */
  lemma {:induction false} LetteredContinuesNone(c: string, g: string)
    requires Lettered(c) && Lettered(g)
    ensures !(g < c)
  {
    assert g <= c ==> c[|g| - 1] == g[|g| - 1];
  }

  ghost predicate AllLettered(codes: map<string, string>, goalCodes: seq<string>) {
    && (forall g :: g in goalCodes ==> Lettered(g))
    && (forall id, c :: id in codes && Lists(codes[id], c) ==> Lettered(c))
  }

  /** So with codes of the documented form removal is membership if and only if no grouped code names one of
      the goal codes. */
  lemma {:induction false} LetteredRemovalIsMembership(codes: map<string, string>, goalCodes: seq<string>)
    requires AllStored(codes) && SameShape(codes, goalCodes) && AllLettered(codes, goalCodes)
    ensures ByGoal(codes, goalCodes) == Naming(codes, goalCodes) <==> GroupedNaming(codes, goalCodes) == {}
  {
    SameShapeRemoval(codes, goalCodes);
    forall id, c, g | id in codes && Lists(codes[id], c) && g in goalCodes
      ensures !(g < c)
    {
      LetteredContinuesNone(c, g);
    }
  }

  lemma {:induction false} StoredAlone(newer: string, now: nat)
    requires PlainGoalCode(newer)
    ensures var code := ManualCode(Decimal(now), [newer]);
            IsStored(code) && IsManual(code) && SqlGoalCodes(code) == [newer] && Lists(code, newer)
  {
    var form := ManualForm(Decimal(now), [newer]);
    DecimalHasNoColon(now);
    assert newer in [newer] && WellFormed(form) && ManualCode(Decimal(now), [newer]) == Encode(form);
    RoundTrip(form);
  }

  lemma {:induction false} ContainsPrefix(g: string, c: string)
    requires g <= c
    ensures Contains(c, g)
  {
    assert c[0..0 + |g|] == g;
    assert OccursAt(c, g, 0);
  }

  lemma {:induction false} AloneHides(code: string, g: string, newer: string)
    requires IsManual(code) && SqlGoalCodes(code) == [newer] && Lists(code, newer) && g < newer
    ensures Hides(code, [g]) && !Names(code, [g])
  {
    ContainsPrefix(g, newer);
    assert g in [g] && Contains(newer, g) && g != newer;
  }

  /** The newer form appends the transaction id and the source, so the older code of the same day,
      account and goal is a prefix of it: removal by the older code clears a match that lists only the
      newer one. */
  lemma {:induction false} OlderCodeClearsNewer(id: string, g: string, newer: string, now: nat)
    requires Dated(g) && PlainGoalCode(newer) && g < newer
    ensures var codes := map[id := ManualCode(Decimal(now), [newer])];
            AllStored(codes) && ByGoal(codes, [g]) == {id} && Naming(codes, [g]) == {}
  {
    var code := ManualCode(Decimal(now), [newer]);
    var codes := map[id := code];
    StoredAlone(newer, now);
    AloneHides(code, g, newer);
    AloneCleared(id, code, g, newer);
  }

  lemma {:induction false} AloneCleared(id: string, code: string, g: string, newer: string)
    requires IsStored(code) && Dated(g) && Hides(code, [g]) && !Names(code, [g])
    ensures ByGoal(map[id := code], [g]) == {id} && Naming(map[id := code], [g]) == {}
  {
    DatedRemovable([g]);
    ManualCleared(code, [g]);
  }
}
