/** The string operations that the stored codes are built and read with. */
module Text {

  datatype Option<+T> = None | Some(value: T)

  /** The first position of c at or after from, if there is one. */
  function IndexOf(s: string, c: char, from: nat): (r: Option<nat>)
    ensures r.Some? ==> from <= r.value < |s| && s[r.value] == c && c !in s[from..r.value]
    ensures r.None? && from <= |s| ==> c !in s[from..]
    decreases |s| - from
  {
    if from >= |s| then None
    else if s[from] == c then Some(from)
    else
      var r := IndexOf(s, c, from + 1);
      assert s[from..] == [s[from]] + s[from + 1..];
      assert r.Some? ==> s[from..r.value] == [s[from]] + s[from + 1..r.value];
      r
  }

  function Join(parts: seq<string>, sep: char): string {
    if parts == [] then "" else if |parts| == 1 then parts[0] else parts[0] + [sep] + Join(parts[1..], sep)
  }

  function Split(s: string, sep: char): (parts: seq<string>)
    ensures parts != []
    decreases |s|
  {
    match IndexOf(s, sep, 0)
    case None => [s]
    case Some(i) => [s[..i]] + Split(s[i + 1..], sep)
  }

  /** The digits of a number. */
  function Decimal(n: nat): (s: string)
    ensures s != "" && forall c :: c in s ==> '0' <= c <= '9'
  {
    if n < 10 then [('0' as int + n) as char] else Decimal(n / 10) + [('0' as int + n % 10) as char]
  }

  lemma {:induction false} JoinSplit(s: string, sep: char)
    ensures Join(Split(s, sep), sep) == s
    decreases |s|
  {
    match IndexOf(s, sep, 0)
    case None =>
    case Some(i) =>
      JoinSplit(s[i + 1..], sep);
      var rest := Split(s[i + 1..], sep);
      assert ([s[..i]] + rest)[1..] == rest;
      assert s == s[..i] + [s[i]] + s[i + 1..];
  }

  lemma {:induction false} IndexOfAfter(head: string, sep: char, tail: string, from: nat)
    requires from <= |head| && sep !in head[from..]
    ensures IndexOf(head + [sep] + tail, sep, from) == Some(|head|)
    decreases |head| - from
  {
    var s := head + [sep] + tail;
    if from < |head| {
      assert head[from..] == [head[from]] + head[from + 1..];
      IndexOfAfter(head, sep, tail, from + 1);
    }
  }

  lemma {:induction false} IndexOfNone(s: string, sep: char)
    requires sep !in s
    ensures IndexOf(s, sep, 0) == None
  {
  }

  lemma {:induction false} SplitJoin(parts: seq<string>, sep: char)
    requires parts != [] && forall p :: p in parts ==> sep !in p
    ensures Split(Join(parts, sep), sep) == parts
  {
    if |parts| == 1 {
      IndexOfNone(parts[0], sep);
    } else {
      var rest := Join(parts[1..], sep);
      assert parts[0][0..] == parts[0];
      IndexOfAfter(parts[0], sep, rest, 0);
      var s := Join(parts, sep);
      assert s[..|parts[0]|] == parts[0] && s[|parts[0]| + 1..] == rest;
      SplitJoin(parts[1..], sep);
    }
  }

  predicate Contains(hay: string, needle: string) {
    exists i :: 0 <= i <= |hay| && OccursAt(hay, needle, i)
  }

  predicate OccursAt(hay: string, needle: string, i: int) {
    0 <= i <= |hay| - |needle| && hay[i..i + |needle|] == needle
  }

  predicate StartsWith(s: string, prefix: string) {
    prefix <= s
  }

  /** An occurrence that covers the separator shows it to be in the needle. */
  lemma {:induction false} CoversSeparator(head: string, sep: char, tail: string, needle: string, i: nat)
    requires OccursAt(head + [sep] + tail, needle, i)
    ensures i <= |head| < i + |needle| ==> sep in needle
  {
    var s := head + [sep] + tail;
    if i <= |head| < i + |needle| {
      assert needle[|head| - i] == s[i..i + |needle|][|head| - i] == s[|head|];
    }
  }

  lemma {:induction false} OccursInHead(head: string, rest: string, needle: string, i: nat)
    requires i + |needle| <= |head|
    ensures OccursAt(head + rest, needle, i) <==> OccursAt(head, needle, i)
  {
    assert (head + rest)[i..i + |needle|] == head[i..i + |needle|];
  }

  lemma {:induction false} OccursInTail(front: string, tail: string, needle: string, i: nat)
    ensures OccursAt(front + tail, needle, |front| + i) <==> OccursAt(tail, needle, i)
  {
    var s := front + tail;
    if i + |needle| <= |tail| {
      assert s[|front| + i..|front| + i + |needle|] == tail[i..i + |needle|];
    }
  }

  /** A needle without the separator that occurs in head + sep + tail occurs in head or in tail. */
  lemma {:induction false} ContainsAcross(head: string, sep: char, tail: string, needle: string)
    requires sep !in needle
    ensures Contains(head + [sep] + tail, needle) <==> Contains(head, needle) || Contains(tail, needle)
  {
    var front := head + [sep];
    var s := front + tail;
    var n := |head|;
    assert s == head + ([sep] + tail);
    forall i | 0 <= i <= |s| && OccursAt(s, needle, i)
      ensures Contains(head, needle) || Contains(tail, needle)
    {
      CoversSeparator(head, sep, tail, needle, i);
      if i + |needle| <= n {
        OccursInHead(head, [sep] + tail, needle, i);
      } else {
        OccursInTail(front, tail, needle, i - n - 1);
      }
    }
    forall i | 0 <= i <= |head| && OccursAt(head, needle, i)
      ensures Contains(s, needle)
    {
      OccursInHead(head, [sep] + tail, needle, i);
    }
    forall i | 0 <= i <= |tail| && OccursAt(tail, needle, i)
      ensures Contains(s, needle)
    {
      OccursInTail(front, tail, needle, i);
    }
  }

  /** A needle without the separator occurs in a joined list exactly when it occurs in a part. */
  lemma {:induction false} ContainsInJoin(parts: seq<string>, sep: char, needle: string)
    requires parts != [] && sep !in needle
    ensures Contains(Join(parts, sep), needle) <==> exists p :: p in parts && Contains(p, needle)
  {
    if |parts| == 1 {
      assert forall p :: p in parts <==> p == parts[0];
    } else {
      ContainsAcross(parts[0], sep, Join(parts[1..], sep), needle);
      ContainsInJoin(parts[1..], sep, needle);
      assert forall p :: p in parts <==> p == parts[0] || p in parts[1..];
    }
  }

  /** What stands before and after the last separator is determined by the whole. */
  lemma {:induction false} LastSeparator(a: string, x: string, b: string, y: string, sep: char)
    requires sep !in x && sep !in y && a + [sep] + x == b + [sep] + y
    ensures a == b && x == y
  {
    var s := a + [sep] + x;
    assert s == b + [sep] + y;
    assert s[|a|] == sep && s[|b|] == sep;
    assert forall i :: |a| < i < |s| ==> s[i] == x[i - |a| - 1];
    assert forall i :: |b| < i < |s| ==> s[i] == y[i - |b| - 1];
    assert |a| == |b|;
    assert s[..|a|] == a && s[..|b|] == b && s[|a| + 1..] == x && s[|b| + 1..] == y;
  }

  /** The number that digits stand for. */
  function Number(digits: string): int {
    if digits == "" then 0
    else 10 * Number(digits[..|digits| - 1]) + (digits[|digits| - 1] as int - '0' as int)
  }

  /** The digits of a number are its own. */
  lemma {:induction false} DecimalReadsBack(n: nat)
    ensures Number(Decimal(n)) == n
  {
    var s := Decimal(n);
    if n < 10 {
      assert s[..0] == "";
    } else {
      DecimalReadsBack(n / 10);
      assert s[..|s| - 1] == Decimal(n / 10);
    }
  }

  lemma {:induction false} Associative<T>(a: seq<T>, b: seq<T>, c: seq<T>)
    ensures a + (b + c) == a + b + c
  {
  }
}
