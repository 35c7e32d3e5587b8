/** The search for items that sum to a target: greedy over the items in descending order, then
    all subsets of the ten largest. An item carries the row it stands for. */
module Combination {
  import opened Money

  datatype Item<T> = Item(ref: T, amount: int)

  const SUBSET_LIMIT := 10

  // ---- Sums ----

  function Sum<T>(items: seq<Item<T>>): int {
    if items == [] then 0 else items[0].amount + Sum(items[1..])
  }

  lemma {:induction false} SumAppend<T>(a: seq<Item<T>>, b: seq<Item<T>>)
    ensures Sum(a + b) == Sum(a) + Sum(b)
  {
    if a == [] {
      assert a + b == b;
    } else {
      assert (a + b)[1..] == a[1..] + b;
      SumAppend(a[1..], b);
    }
  }

  lemma {:induction false} SumWithout<T>(b: seq<Item<T>>, k: nat)
    requires k < |b|
    ensures Sum(b) == b[k].amount + Sum(b[..k] + b[k + 1..])
    ensures multiset(b) == multiset{b[k]} + multiset(b[..k] + b[k + 1..])
  {
    var front, back := b[..k], b[k + 1..];
    assert b == front + ([b[k]] + back);
    SumAppend(front, [b[k]] + back);
    SumAppend(front, back);
    assert ([b[k]] + back)[1..] == back;
  }

  /** A sum depends on the items and not on their order. */
  lemma {:induction false} SumOfPermutation<T>(a: seq<Item<T>>, b: seq<Item<T>>)
    requires multiset(a) == multiset(b)
    ensures Sum(a) == Sum(b)
  {
    if a == [] {
      assert |multiset(b)| == 0;
    } else {
      assert a == [a[0]] + a[1..];
      assert a[0] in multiset(b);
      var k :| 0 <= k < |b| && b[k] == a[0];
      var rest := b[..k] + b[k + 1..];
      SumWithout(b, k);
      assert multiset(a) == multiset{a[0]} + multiset(a[1..]);
      assert multiset(a[1..]) == multiset(b) - multiset{a[0]} == multiset(rest);
      SumOfPermutation(a[1..], rest);
    }
  }

  lemma {:induction false} MemberOrEmpty<T>(s: seq<T>)
    ensures s == [] || exists x :: x in s
  {
    if s != [] {
      assert s[0] in s;
    }
  }

  // ---- Descending order ----

  function InsertDescending<T>(x: Item<T>, s: seq<Item<T>>): (r: seq<Item<T>>)
    ensures multiset(r) == multiset(s) + multiset{x}
  {
    if s == [] || s[0].amount <= x.amount then [x] + s
    else
      assert s == [s[0]] + s[1..];
      [s[0]] + InsertDescending(x, s[1..])
  }

  /** A stable sort: among equal amounts the earlier item stays first. */
  function SortDescending<T>(items: seq<Item<T>>): (r: seq<Item<T>>)
    ensures multiset(r) == multiset(items)
  {
    if items == [] then []
    else
      assert items == [items[0]] + items[1..];
      InsertDescending(items[0], SortDescending(items[1..]))
  }

  ghost predicate Descending<T>(items: seq<Item<T>>) {
    forall i, j :: 0 <= i < j < |items| ==> items[i].amount >= items[j].amount
  }

  lemma {:induction false} InsertInOrder<T>(x: Item<T>, s: seq<Item<T>>)
    requires Descending(s)
    ensures Descending(InsertDescending(x, s))
  {
    if s != [] && s[0].amount > x.amount {
      var rest := InsertDescending(x, s[1..]);
      InsertInOrder(x, s[1..]);
      assert multiset(rest) == multiset(s[1..]) + multiset{x};
      forall k | 0 <= k < |rest|
        ensures s[0].amount >= rest[k].amount
      {
        assert rest[k] in multiset(rest);
        if rest[k] != x {
          assert rest[k] in s[1..];
        }
      }
    }
  }

  /** The sorted items stand in descending order. */
  lemma {:induction false} SortIsDescending<T>(items: seq<Item<T>>)
    ensures Descending(SortDescending(items))
  {
    if items != [] {
      SortIsDescending(items[1..]);
      InsertInOrder(items[0], SortDescending(items[1..]));
    }
  }

  function OfAmount<T>(items: seq<Item<T>>, amount: int): seq<Item<T>> {
    if items == [] then []
    else (if items[0].amount == amount then [items[0]] else []) + OfAmount(items[1..], amount)
  }

  lemma {:induction false} OfAmountFirst<T>(x: Item<T>, s: seq<Item<T>>, amount: int)
    ensures OfAmount([x] + s, amount) == if x.amount == amount then [x] + OfAmount(s, amount) else OfAmount(s, amount)
  {
    assert ([x] + s)[1..] == s;
  }

  lemma {:induction false} InsertKeepsTies<T>(x: Item<T>, s: seq<Item<T>>, amount: int)
    ensures OfAmount(InsertDescending(x, s), amount) == OfAmount([x] + s, amount)
  {
    OfAmountFirst(x, s, amount);
    if s != [] && s[0].amount > x.amount {
      InsertKeepsTies(x, s[1..], amount);
      OfAmountFirst(x, s[1..], amount);
      OfAmountFirst(s[0], InsertDescending(x, s[1..]), amount);
    }
  }

  /** And items of one amount stand in the order they came in. */
  lemma {:induction false} SortIsStable<T>(items: seq<Item<T>>, amount: int)
    ensures OfAmount(SortDescending(items), amount) == OfAmount(items, amount)
  {
    if items != [] {
      SortIsStable(items[1..], amount);
      InsertKeepsTies(items[0], SortDescending(items[1..]), amount);
      OfAmountFirst(items[0], SortDescending(items[1..]), amount);
    }
  }

  /** How many items have at least the amount. */
  function AtLeast<T>(items: seq<Item<T>>, amount: int): nat {
    if items == [] then 0 else (if items[0].amount >= amount then 1 else 0) + AtLeast(items[1..], amount)
  }

  lemma {:induction false} AtLeastInserted<T>(x: Item<T>, s: seq<Item<T>>, amount: int)
    ensures AtLeast(InsertDescending(x, s), amount) == AtLeast(s, amount) + if x.amount >= amount then 1 else 0
  {
    if s != [] && s[0].amount > x.amount {
      AtLeastInserted(x, s[1..], amount);
    }
  }

  lemma {:induction false} AtLeastSorted<T>(items: seq<Item<T>>, amount: int)
    ensures AtLeast(SortDescending(items), amount) == AtLeast(items, amount)
  {
    if items != [] {
      AtLeastSorted(items[1..], amount);
      AtLeastInserted(items[0], SortDescending(items[1..]), amount);
    }
  }

  lemma {:induction false} AtLeastBefore<T>(sorted: seq<Item<T>>, p: nat)
    requires Descending(sorted) && p < |sorted|
    ensures AtLeast(sorted, sorted[p].amount) > p
  {
    if p > 0 {
      AtLeastBefore(sorted[1..], p - 1);
    }
  }

  // ---- The greedy phase ----

  function Greedy<T>(rest: seq<Item<T>>, picked: seq<Item<T>>, target: int, tolerance: int): seq<Item<T>> {
    if rest == [] then []
    else if 100 * (Sum(picked) + rest[0].amount - target) <= tolerance then
      var more := picked + [rest[0]];
      if Within(Sum(more), target, tolerance) then more else Greedy(rest[1..], more, target, tolerance)
    else
      Greedy(rest[1..], picked, target, tolerance)
  }

  // ---- The subset phase ----

  function Pow2(n: nat): (p: nat)
    ensures p >= 1
  {
    if n == 0 then 1 else 2 * Pow2(n - 1)
  }

  /** mask shifted right by i places. */
  function Shift(mask: nat, i: nat): nat {
    if i == 0 then mask else Shift(mask / 2, i - 1)
  }

  lemma {:induction false} ShiftOnce(mask: nat, i: nat)
    ensures Shift(mask, i + 1) == Shift(mask, i) / 2
  {
    if i > 0 {
      ShiftOnce(mask / 2, i - 1);
    }
  }

  predicate Bit(mask: nat, i: nat) {
    Shift(mask, i) % 2 == 1
  }

  /** The items whose bit is set in mask. */
  function Selected<T>(items: seq<Item<T>>, mask: nat): seq<Item<T>> {
    if items == [] then []
    else (if mask % 2 == 1 then [items[0]] else []) + Selected(items[1..], mask / 2)
  }

  predicate Good<T>(subset: seq<Item<T>>, target: int, tolerance: int) {
    |subset| > 1 && Within(Sum(subset), target, tolerance)
  }

  function FirstSubset<T>(items: seq<Item<T>>, mask: nat, target: int, tolerance: int): seq<Item<T>>
    decreases Pow2(|items|) - mask
  {
    if mask >= Pow2(|items|) then []
    else if Good(Selected(items, mask), target, tolerance) then Selected(items, mask)
    else FirstSubset(items, mask + 1, target, tolerance)
  }

  function Limited<T>(sorted: seq<Item<T>>): seq<Item<T>> {
    if |sorted| <= SUBSET_LIMIT then sorted else sorted[..SUBSET_LIMIT]
  }

  function Find<T>(items: seq<Item<T>>, target: int, tolerance: int): seq<Item<T>> {
    var sorted := SortDescending(items);
    var greedy := Greedy(sorted, [], target, tolerance);
    if greedy != [] then greedy else FirstSubset(Limited(sorted), 1, target, tolerance)
  }

  // ---- Soundness ----

  lemma {:induction false} GreedySound<T>(rest: seq<Item<T>>, picked: seq<Item<T>>, target: int, tolerance: int)
    ensures var r := Greedy(rest, picked, target, tolerance);
            r != [] ==> multiset(r) <= multiset(picked) + multiset(rest) && Within(Sum(r), target, tolerance)
  {
    if rest != [] {
      assert rest == [rest[0]] + rest[1..];
      GreedySound(rest[1..], picked + [rest[0]], target, tolerance);
      GreedySound(rest[1..], picked, target, tolerance);
    }
  }

  lemma {:induction false} SelectedSound<T>(items: seq<Item<T>>, mask: nat)
    ensures multiset(Selected(items, mask)) <= multiset(items)
  {
    if items != [] {
      assert items == [items[0]] + items[1..];
      SelectedSound(items[1..], mask / 2);
    }
  }

  lemma {:induction false} FirstSubsetSound<T>(items: seq<Item<T>>, mask: nat, target: int, tolerance: int)
    ensures var r := FirstSubset(items, mask, target, tolerance);
            r != [] ==> multiset(r) <= multiset(items) && Good(r, target, tolerance)
    ensures FirstSubset(items, mask, target, tolerance) == [] ==>
              forall m {:trigger Selected(items, m)} :: mask <= m < Pow2(|items|) ==>
                  !Good(Selected(items, m), target, tolerance)
    decreases Pow2(|items|) - mask
  {
    if mask < Pow2(|items|) {
      SelectedSound(items, mask);
      if !Good(Selected(items, mask), target, tolerance) {
        FirstSubsetSound(items, mask + 1, target, tolerance);
      }
    }
  }

  /** A non-empty result picks items of the input, each at most as often as it occurs there, and
      their sum is within tolerance of the target. Only the greedy phase returns a single item. */
  lemma {:induction false} FindSound<T>(items: seq<Item<T>>, target: int, tolerance: int)
    ensures var r := Find(items, target, tolerance);
            r != [] ==> multiset(r) <= multiset(items) && Within(Sum(r), target, tolerance)
    ensures Greedy(SortDescending(items), [], target, tolerance) == [] ==> |Find(items, target, tolerance)| != 1
  {
    var sorted := SortDescending(items);
    GreedySound(sorted, [], target, tolerance);
    FirstSubsetSound(Limited(sorted), 1, target, tolerance);
    LimitedIsPart(sorted);
  }

  lemma {:induction false} LimitedIsPart<T>(sorted: seq<Item<T>>)
    ensures multiset(Limited(sorted)) <= multiset(sorted)
  {
    if |sorted| > SUBSET_LIMIT {
      assert sorted == sorted[..SUBSET_LIMIT] + sorted[SUBSET_LIMIT..];
    }
  }

  // ---- Completeness ----

  lemma {:induction false} SelectedCons<T>(items: seq<Item<T>>, rest: nat, first: bool)
    requires items != []
    ensures var mask := if first then 2 * rest + 1 else 2 * rest;
            Selected(items, mask) == (if first then [items[0]] else []) + Selected(items[1..], rest)
  {
    assert (2 * rest + 1) / 2 == rest && (2 * rest) / 2 == rest;
  }

  /** Every sub-multiset of the items is the selection of some mask. */
  lemma {:induction false} MaskFor<T>(items: seq<Item<T>>, sub: multiset<Item<T>>) returns (mask: nat)
    requires sub <= multiset(items)
    ensures mask < Pow2(|items|)
    ensures multiset(Selected(items, mask)) == sub
  {
    if items == [] {
      mask := 0;
    } else {
      assert items == [items[0]] + items[1..];
      var first := items[0] in sub;
      var less := if first then sub - multiset{items[0]} else sub;
      assert less <= multiset(items[1..]);
      var rest := MaskFor(items[1..], less);
      SelectedCons(items, rest, first);
      mask := if first then 2 * rest + 1 else 2 * rest;
    }
  }

  /** Every item of sub has at most ten items, itself included, of at least its amount. */
  ghost predicate AmongTenLargest<T>(sub: seq<Item<T>>, items: seq<Item<T>>) {
    forall x :: x in sub ==> AtLeast(items, x.amount) <= 10
  }

  lemma {:induction false} NotFurtherDown<T>(sorted: seq<Item<T>>, x: Item<T>)
    requires Descending(sorted) && AtLeast(sorted, x.amount) <= 10
    ensures multiset(sorted)[x] == multiset(Limited(sorted))[x]
  {
    if |sorted| > SUBSET_LIMIT {
      var head, tail := sorted[..SUBSET_LIMIT], sorted[SUBSET_LIMIT..];
      assert sorted == head + tail;
      forall k | 0 <= k < |tail|
        ensures tail[k] != x
      {
        AtLeastBefore(sorted, SUBSET_LIMIT + k);
      }
      assert x !in tail;
    }
  }

  lemma {:induction false} NoneLarger<T>(items: seq<Item<T>>, amount: int)
    requires forall k :: 0 <= k < |items| ==> items[k].amount < amount
    ensures AtLeast(items, amount) == 0
  {
    if items != [] {
      NoneLarger(items[1..], amount);
    }
  }

  lemma {:induction false} LargerBefore<T>(sorted: seq<Item<T>>, p: nat)
    requires Descending(sorted) && p < |sorted|
    ensures AtLeast(sorted, sorted[p].amount + 1) <= p
  {
    if p == 0 {
      NoneLarger(sorted, sorted[0].amount + 1);
    } else {
      LargerBefore(sorted[1..], p - 1);
    }
  }

  lemma {:induction false} FewLarger<T>(sorted: seq<Item<T>>, x: Item<T>)
    requires Descending(sorted) && x in Limited(sorted)
    ensures AtLeast(sorted, x.amount + 1) < 10
  {
    var p :| 0 <= p < |Limited(sorted)| && Limited(sorted)[p] == x;
    LargerBefore(sorted, p);
  }

  lemma {:induction false} SubsetPhaseIsPart<T>(items: seq<Item<T>>, target: int, tolerance: int)
    requires Greedy(SortDescending(items), [], target, tolerance) == []
    ensures multiset(Find(items, target, tolerance)) <= multiset(Limited(SortDescending(items)))
  {
    FirstSubsetSound(Limited(SortDescending(items)), 1, target, tolerance);
  }

  /** What the subset phase finds are at most ten items, and fewer than ten items are larger than any of them. */
  lemma {:induction false} SubsetPhaseUsesTen<T>(items: seq<Item<T>>, target: int, tolerance: int)
    requires Greedy(SortDescending(items), [], target, tolerance) == []
    ensures var r := Find(items, target, tolerance);
            |r| <= 10 && forall x :: x in r ==> AtLeast(items, x.amount + 1) < 10
  {
    var r := Find(items, target, tolerance);
    SubsetPhaseIsPart(items, target, tolerance);
    SortIsDescending(items);
    PartIsShorter(r, Limited(SortDescending(items)));
    forall x | x in r
      ensures AtLeast(items, x.amount + 1) < 10
    {
      SubMember(r, Limited(SortDescending(items)), x);
      FewLarger(SortDescending(items), x);
      AtLeastSorted(items, x.amount + 1);
    }
  }

  lemma {:induction false} SubMember<T>(part: seq<T>, whole: seq<T>, x: T)
    requires x in part && multiset(part) <= multiset(whole)
    ensures x in whole
  {
    assert x in multiset(part);
    assert x in multiset(whole);
  }

  lemma {:induction false} PartIsShorter<T>(part: seq<T>, whole: seq<T>)
    requires multiset(part) <= multiset(whole)
    ensures |part| <= |whole|
  {
    assert |multiset(part)| == |part| && |multiset(whole)| == |whole|;
    assert multiset(whole) == multiset(part) + (multiset(whole) - multiset(part));
  }

  /** For any number of items: an empty result means that no two or more items sum within tolerance that
      are all among the ten largest. */
  lemma {:induction false} TenLargestComplete<T>(items: seq<Item<T>>, target: int, tolerance: int, sub: seq<Item<T>>)
    requires Find(items, target, tolerance) == []
    requires |sub| > 1 && multiset(sub) <= multiset(items) && AmongTenLargest(sub, items)
    ensures !Within(Sum(sub), target, tolerance)
  {
    var sorted := SortDescending(items);
    var limited := Limited(sorted);
    SortIsDescending(items);
    forall x | x in multiset(sub)
      ensures multiset(sub)[x] <= multiset(limited)[x]
    {
      assert x in sub;
      AtLeastSorted(items, x.amount);
      NotFurtherDown(sorted, x);
    }
    assert multiset(sub) <= multiset(limited);
    FirstSubsetSound(limited, 1, target, tolerance);
    var mask := MaskFor(limited, multiset(sub));
    var chosen := Selected(limited, mask);
    SumOfPermutation(chosen, sub);
    assert |chosen| == |multiset(chosen)| == |sub|;
    if mask == 0 {
      SelectedNone(limited);
    }
  }

  lemma {:induction false} AtLeastSize<T>(items: seq<Item<T>>, amount: int)
    ensures AtLeast(items, amount) <= |items|
  {
    if items != [] {
      AtLeastSize(items[1..], amount);
    }
  }

  /** For at most ten items an empty result means that no two or more of them sum within tolerance. */
  lemma {:induction false} FindComplete<T>(items: seq<Item<T>>, target: int, tolerance: int, sub: seq<Item<T>>)
    requires |items| <= 10
    requires Find(items, target, tolerance) == []
    requires |sub| > 1 && multiset(sub) <= multiset(items)
    ensures !Within(Sum(sub), target, tolerance)
  {
    forall x | x in sub
      ensures AtLeast(items, x.amount) <= 10
    {
      AtLeastSize(items, x.amount);
    }
    TenLargestComplete(items, target, tolerance, sub);
  }

  /** A result of the subset phase is the choice of the first mask that is good. */
  lemma {:induction false} FirstSubsetIsFirst<T>(items: seq<Item<T>>, start: nat, mask: nat, target: int,
                                                 tolerance: int)
    requires start <= mask < Pow2(|items|) && Good(Selected(items, mask), target, tolerance)
    requires forall m {:trigger Selected(items, m)} ::
               start <= m < mask ==> !Good(Selected(items, m), target, tolerance)
    ensures FirstSubset(items, start, target, tolerance) == Selected(items, mask)
    decreases mask - start
  {
    if start < mask {
      FirstSubsetIsFirst(items, start + 1, mask, target, tolerance);
    }
  }

  lemma {:induction false} SelectedNone<T>(items: seq<Item<T>>)
    ensures Selected(items, 0) == []
  {
    if items != [] {
      SelectedNone(items[1..]);
    }
  }

  lemma {:induction false} SumNonNegative<T>(items: seq<Item<T>>)
    requires forall x :: x in items ==> x.amount >= 0
    ensures Sum(items) >= 0
  {
    if items != [] {
      SumNonNegative(items[1..]);
    }
  }

  lemma {:induction false} GreedyTakesAll<T>(rest: seq<Item<T>>, picked: seq<Item<T>>, target: int, tolerance: int)
    requires rest != [] && forall x :: x in rest ==> x.amount >= 0
    requires Within(Sum(picked) + Sum(rest), target, tolerance)
    ensures Greedy(rest, picked, target, tolerance) != []
  {
    SumNonNegative(rest[1..]);
    SumAppend(picked, [rest[0]]);
    var more := picked + [rest[0]];
    if !Within(Sum(more), target, tolerance) {
      assert rest[1..] != [];
      GreedyTakesAll(rest[1..], more, target, tolerance);
    }
  }

  /** For any number of items: amounts that are not negative and together sum within tolerance are
      always found, because no prefix overshoots and so the greedy phase never skips. */
  lemma {:induction false} GreedyComplete<T>(items: seq<Item<T>>, target: int, tolerance: int)
    requires items != [] && forall x :: x in items ==> x.amount >= 0
    requires Within(Sum(items), target, tolerance)
    ensures Find(items, target, tolerance) != []
  {
    var sorted := SortDescending(items);
    SumOfPermutation(sorted, items);
    forall x | x in sorted
      ensures x.amount >= 0
    {
      assert x in multiset(sorted);
      assert x in multiset(items);
    }
    assert |sorted| == |multiset(sorted)| == |items|;
    GreedyTakesAll(sorted, [], target, tolerance);
  }

  /** The items that do not overshoot the target alone. */
  function NotTooLarge<T>(items: seq<Item<T>>, target: int, tolerance: int): seq<Item<T>> {
    if items == [] then []
    else
      (if 100 * (items[0].amount - target) <= tolerance then [items[0]] else [])
      + NotTooLarge(items[1..], target, tolerance)
  }

  lemma {:induction false} NotTooLargeCount<T>(items: seq<Item<T>>, target: int, tolerance: int, x: Item<T>)
    ensures multiset(NotTooLarge(items, target, tolerance))[x] ==
            if 100 * (x.amount - target) <= tolerance then multiset(items)[x] else 0
  {
    if items != [] {
      assert items == [items[0]] + items[1..];
      NotTooLargeCount(items[1..], target, tolerance, x);
    }
  }

  lemma {:induction false} NotTooLargeSame<T>(s: seq<Item<T>>, t: seq<Item<T>>, target: int, tolerance: int)
    requires multiset(s) == multiset(t)
    ensures var (a, b) := (NotTooLarge(s, target, tolerance), NotTooLarge(t, target, tolerance));
            Sum(a) == Sum(b) && |a| == |b|
  {
    var a, b := NotTooLarge(s, target, tolerance), NotTooLarge(t, target, tolerance);
    forall x: Item<T>
      ensures multiset(a)[x] == multiset(b)[x]
    {
      NotTooLargeCount(s, target, tolerance, x);
      NotTooLargeCount(t, target, tolerance, x);
    }
    SameCounts(multiset(a), multiset(b));
    SumOfPermutation(a, b);
    assert |multiset(a)| == |a| && |multiset(b)| == |b|;
  }

  lemma {:induction false} SameCounts<T>(a: multiset<T>, b: multiset<T>)
    requires forall x :: a[x] == b[x]
    ensures a == b
  {
  }

  lemma {:induction false} GreedySkips<T>(rest: seq<Item<T>>, picked: seq<Item<T>>, target: int, tolerance: int)
    requires forall x :: x in rest ==> x.amount >= 0
    requires Sum(picked) >= 0 && NotTooLarge(rest, target, tolerance) != []
    requires Within(Sum(picked) + Sum(NotTooLarge(rest, target, tolerance)), target, tolerance)
    ensures Greedy(rest, picked, target, tolerance) != []
  {
    assert forall x :: x in rest[1..] ==> x in rest;
    var small := NotTooLarge(rest[1..], target, tolerance);
    if 100 * (rest[0].amount - target) <= tolerance {
      forall x | x in small
        ensures x.amount >= 0
      {
        NotTooLargeCount(rest[1..], target, tolerance, x);
        assert x in multiset(small);
        assert x in multiset(rest[1..]);
      }
      SumNonNegative(small);
      SumAppend(picked, [rest[0]]);
      assert ([rest[0]] + small)[1..] == small;
      if !Within(Sum(picked + [rest[0]]), target, tolerance) {
        GreedySkips(rest[1..], picked + [rest[0]], target, tolerance);
      }
    } else {
      assert NotTooLarge(rest, target, tolerance) == [] + small == small;
      GreedySkips(rest[1..], picked, target, tolerance);
    }
  }

  /** For any number of items that are not negative: when those that are not too large alone together sum
      within tolerance, the search succeeds, because the greedy phase skips the others and no more. */
  lemma {:induction false} GreedySkipsTooLarge<T>(items: seq<Item<T>>, target: int, tolerance: int)
    requires forall x :: x in items ==> x.amount >= 0
    requires NotTooLarge(items, target, tolerance) != []
    requires Within(Sum(NotTooLarge(items, target, tolerance)), target, tolerance)
    ensures Find(items, target, tolerance) != []
  {
    var sorted := SortDescending(items);
    NotTooLargeSame(sorted, items, target, tolerance);
    forall x | x in sorted
      ensures x.amount >= 0
    {
      assert x in multiset(sorted);
      assert x in multiset(items);
    }
    GreedySkips(sorted, [], target, tolerance);
  }

  lemma {:induction false} GreedyStaysBelow<T>(rest: seq<Item<T>>, picked: seq<Item<T>>, target: int, tolerance: int)
    requires tolerance >= 0 && forall x :: x in rest ==> x.amount <= 0
    requires 100 * (target - Sum(picked)) > tolerance
    ensures Greedy(rest, picked, target, tolerance) == []
  {
    if rest != [] {
      assert forall x :: x in rest[1..] ==> x in rest;
      SumAppend(picked, [rest[0]]);
      assert Sum([rest[0]]) == rest[0].amount by {
        assert [rest[0]][1..] == [];
      }
      GreedyStaysBelow(rest[1..], picked + [rest[0]], target, tolerance);
      GreedyStaysBelow(rest[1..], picked, target, tolerance);
    }
  }

  lemma {:induction false} GreedyPicksOne<T>(rest: seq<Item<T>>, target: int, tolerance: int)
    requires tolerance >= 0 && forall x :: x in rest ==> x.amount <= 0
    ensures |Greedy(rest, [], target, tolerance)| <= 1
  {
    if rest != [] {
      assert forall x :: x in rest[1..] ==> x in rest;
      assert [] + [rest[0]] == [rest[0]] && Sum([rest[0]]) == rest[0].amount by {
        assert [rest[0]][1..] == [];
      }
      if 100 * (rest[0].amount - target) <= tolerance && !Within(rest[0].amount, target, tolerance) {
        GreedyStaysBelow(rest[1..], [rest[0]], target, tolerance);
      } else {
        GreedyPicksOne(rest[1..], target, tolerance);
      }
    }
  }

  /** Amounts that are not positive, as those of withdrawals: the first one picked either fits alone or is
      already too far below, so the greedy phase finds one item at most and a split comes from the subset
      phase over ten items alone. */
  lemma {:induction false} NegativeAmountsNeedSubsets<T>(items: seq<Item<T>>, target: int, tolerance: int)
    requires tolerance >= 0 && forall x :: x in items ==> x.amount <= 0
    ensures |Greedy(SortDescending(items), [], target, tolerance)| <= 1
    ensures |Find(items, target, tolerance)| > 1 ==>
              Find(items, target, tolerance) == FirstSubset(Limited(SortDescending(items)), 1, target, tolerance)
  {
    var sorted := SortDescending(items);
    forall x | x in sorted
      ensures x.amount <= 0
    {
      assert x in multiset(sorted);
      assert x in multiset(items);
    }
    GreedyPicksOne(sorted, target, tolerance);
  }

  // ---- The search as the code runs it ----

  method FindGreedy<T(==)>(sorted: seq<Item<T>>, target: int, tolerance: int) returns (r: seq<Item<T>>)
    ensures r == Greedy(sorted, [], target, tolerance)
  {
    var sum := 0;
    r := [];
    for k := 0 to |sorted|
      invariant sum == Sum(r)
      invariant Greedy(sorted[k..], r, target, tolerance) == Greedy(sorted, [], target, tolerance)
    {
      var item := sorted[k];
      assert sorted[k..][1..] == sorted[k + 1..];
      if 100 * (sum + item.amount - target) <= tolerance {
        SumAppend(r, [item]);
        r := r + [item];
        sum := sum + item.amount;
        if Within(sum, target, tolerance) {
          return;
        }
      }
    }
    r := [];
  }

  lemma {:induction false} SelectedStep<T>(items: seq<Item<T>>, mask: nat, i: nat, subset: seq<Item<T>>)
    requires i < |items|
    ensures subset + Selected(items[i..], Shift(mask, i)) ==
            (if Bit(mask, i) then subset + [items[i]] else subset) + Selected(items[i + 1..], Shift(mask, i + 1))
  {
    ShiftOnce(mask, i);
    assert items[i..][1..] == items[i + 1..];
  }

  method SelectByMask<T>(items: seq<Item<T>>, mask: nat) returns (subset: seq<Item<T>>, subsetSum: int)
    ensures subset == Selected(items, mask) && subsetSum == Sum(subset)
  {
    subset, subsetSum := [], 0;
    for i := 0 to |items|
      invariant subsetSum == Sum(subset)
      invariant subset + Selected(items[i..], Shift(mask, i)) == Selected(items, mask)
    {
      SelectedStep(items, mask, i, subset);
      if Bit(mask, i) {
        SumAppend(subset, [items[i]]);
        subset := subset + [items[i]];
        subsetSum := subsetSum + items[i].amount;
      }
    }
  }

  method FindCombinationSum<T(==)>(items: seq<Item<T>>, target: int, tolerance: int) returns (r: seq<Item<T>>)
    ensures r == Find(items, target, tolerance)
    ensures r != [] ==> multiset(r) <= multiset(items) && Within(Sum(r), target, tolerance)
  {
    FindSound(items, target, tolerance);
    var sorted := SortDescending(items);
    r := FindGreedy(sorted, target, tolerance);
    if r != [] {
      return;
    }
    var limited := Limited(sorted);
    var mask := 1;
    while mask < Pow2(|limited|)
      invariant FirstSubset(limited, mask, target, tolerance) == FirstSubset(limited, 1, target, tolerance)
      decreases Pow2(|limited|) - mask
    {
      var subset, subsetSum := SelectByMask(limited, mask);
      if |subset| > 1 && Within(subsetSum, target, tolerance) {
        return subset;
      }
      mask := mask + 1;
    }
    r := [];
  }
}
