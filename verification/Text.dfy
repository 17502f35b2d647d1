/** String order and sorting, as Go's `slices.Sort` and `<` on strings use them:
    code point by code point, a proper prefix first. Also what lists and sets of
    strings have in common: their elements, whether they repeat, and splitting. */
module Text {

  predicate StartsWith(s: string, prefix: string) {
    |prefix| <= |s| && s[..|prefix|] == prefix
  }

  /** Where a character first occurs; the length if it does not. */
  function IndexOf(s: string, c: char): (i: nat)
    ensures i <= |s| && (i < |s| ==> s[i] == c) && c !in s[..i]
  {
    if s == "" || s[0] == c then 0
    else
      var rest := IndexOf(s[1..], c);
      assert s[..rest + 1] == [s[0]] + s[1..][..rest];
      rest + 1
  }

  lemma {:induction false} FoundAt(a: string, c: char, rest: string)
    requires c !in a
    ensures IndexOf(a + [c] + rest, c) == |a| && IndexOf(a, c) == |a|
  {
    if a != "" {
      assert (a + [c] + rest)[1..] == a[1..] + [c] + rest;
      FoundAt(a[1..], c, rest);
    }
  }

  function SplitAt(s: string, c: char): seq<string>
    decreases |s|
  {
    var i := IndexOf(s, c);
    if i == |s| then [s] else [s[..i]] + SplitAt(s[i + 1..], c)
  }

  predicate Less(a: string, b: string) {
    if b == "" then false
    else if a == "" then true
    else a[0] < b[0] || (a[0] == b[0] && Less(a[1..], b[1..]))
  }

  lemma {:induction false} LessIsTotal(a: string, b: string)
    ensures Less(a, b) || a == b || Less(b, a)
    ensures !(Less(a, b) && Less(b, a))
    ensures !Less(a, a)
  {
    if a != "" && b != "" {
      LessIsTotal(a[1..], b[1..]);
      if a[0] == b[0] && a[1..] == b[1..] {
        assert a == [a[0]] + a[1..] && b == [b[0]] + b[1..];
      }
      if a != b {
        LessIsTotal(a[1..], a[1..]);
      }
    } else if a != "" {
      LessIsTotal(a[1..], a[1..]);
    }
  }

  lemma {:induction false} LessIsTransitive(a: string, b: string, c: string)
    requires Less(a, b) && Less(b, c)
    ensures Less(a, c)
  {
    if a != "" && a[0] == b[0] == c[0] {
      LessIsTransitive(a[1..], b[1..], c[1..]);
    }
  }

  /** The first n characters are the same, and there a ends and b does not, or has the lesser one. */
  predicate LesserAt(a: string, b: string, n: nat) {
    n <= |a| && n < |b| && a[..n] == b[..n] && (n == |a| || a[n] < b[n])
  }

  /** That is the order: where the strings first differ, the shorter or the lesser comes first. */
  lemma {:induction false} LessExactly(a: string, b: string)
    ensures Less(a, b) <==> exists n: nat :: LesserAt(a, b, n)
  {
    if b == "" || a == "" {
      assert b != "" ==> LesserAt(a, b, 0);
    } else {
      LessExactly(a[1..], b[1..]);
      if a[0] < b[0] {
        assert LesserAt(a, b, 0);
      }
      if a[0] == b[0] && Less(a[1..], b[1..]) {
        var n: nat :| LesserAt(a[1..], b[1..], n);
        assert a[..n + 1] == [a[0]] + a[1..][..n] && b[..n + 1] == [b[0]] + b[1..][..n];
        assert LesserAt(a, b, n + 1);
      }
      if n: nat :| LesserAt(a, b, n) {
        LesserInTail(a, b, n);
      }
    }
  }

  lemma LesserInTail(a: string, b: string, n: nat)
    requires a != "" && LesserAt(a, b, n)
    ensures if n == 0 then a[0] < b[0] else a[0] == b[0] && LesserAt(a[1..], b[1..], n - 1)
  {
    if n > 0 {
      assert a[0] == a[..n][0] == b[..n][0] == b[0];
      assert a[1..][..n - 1] == a[..n][1..] && b[1..][..n - 1] == b[..n][1..];
    }
  }

  predicate AtMost(a: string, b: string) {
    a == b || Less(a, b)
  }

  ghost predicate StrictTotalOrder(less: (string, string) -> bool) {
    && (forall a :: !less(a, a))
    && (forall a, b :: less(a, b) || a == b || less(b, a))
    && (forall a, b, c :: less(a, b) && less(b, c) ==> less(a, c))
  }

  lemma LessIsStrictTotalOrder()
    ensures StrictTotalOrder(Less)
  {
    forall a ensures !Less(a, a) {
      LessIsTotal(a, a);
    }
    forall a, b ensures Less(a, b) || a == b || Less(b, a) {
      LessIsTotal(a, b);
    }
    forall a, b, c | Less(a, b) && Less(b, c) ensures Less(a, c) {
      LessIsTransitive(a, b, c);
    }
  }

  ghost predicate SortedBy(less: (string, string) -> bool, s: seq<string>) {
    forall i, j :: 0 <= i < j < |s| ==> s[i] == s[j] || less(s[i], s[j])
  }

  ghost predicate Sorted(s: seq<string>) {
    SortedBy(Less, s)
  }

  ghost predicate Distinct<T>(s: seq<T>) {
    forall i, j :: 0 <= i < j < |s| ==> s[i] != s[j]
  }

  ghost function Elements<T(!new)>(s: seq<T>): (r: set<T>)
    ensures forall x :: x in r <==> x in s
  {
    set x | x in s
  }

  lemma ElementsOneMore<T(!new)>(s: seq<T>, i: nat)
    requires i < |s|
    ensures Elements(s[..i + 1]) == Elements(s[..i]) + {s[i]}
  {
    assert s[..i + 1] == s[..i] + [s[i]];
  }

  /** A sequence without repeats is no longer than a set that holds it. */
  lemma {:induction false} PigeonHole<T>(s: seq<T>, bound: set<T>)
    requires Distinct(s) && forall x :: x in s ==> x in bound
    ensures |s| <= |bound|
  {
    if s != [] {
      var last := s[|s| - 1];
      PigeonHole(s[..|s| - 1], bound - {last});
    }
  }

  /** x is the first of the names in s. */
  ghost predicate IsLeast(x: string, s: set<string>) {
    x in s && forall y :: y in s ==> AtMost(x, y)
  }

  lemma LeastIsUnique(x: string, y: string, s: set<string>)
    requires IsLeast(x, s) && IsLeast(y, s)
    ensures x == y
  {
    LessIsTotal(x, y);
  }

  lemma {:induction false} LeastExists(s: set<string>)
    requires s != {}
    ensures exists x :: IsLeast(x, s)
  {
    var y :| y in s;
    if s == {y} {
      assert IsLeast(y, s);
    } else {
      LeastExists(s - {y});
      var z :| IsLeast(z, s - {y});
      LessIsTotal(y, z);
      var x := if Less(y, z) then y else z;
      forall w | w in s ensures AtMost(x, w) {
        if w != y {
          assert AtMost(z, w);
          if Less(y, z) && z != w {
            LessIsTransitive(y, z, w);
          }
        }
      }
      assert IsLeast(x, s);
    }
  }

  /** What the library sorts promise: the order, and a permutation. Done by insertion. */
  method SortBy(less: (string, string) -> bool, keys: seq<string>) returns (out: seq<string>)
    requires StrictTotalOrder(less)
    ensures SortedBy(less, out) && multiset(out) == multiset(keys)
  {
    out := [];
    for n := 0 to |keys|
      invariant SortedBy(less, out) && multiset(out) == multiset(keys[..n])
    {
      out := Insert(less, out, keys[n]);
      assert keys[..n + 1] == keys[..n] + [keys[n]];
    }
    assert keys[..|keys|] == keys;
  }

  method Insert(less: (string, string) -> bool, sorted: seq<string>, key: string) returns (out: seq<string>)
    requires StrictTotalOrder(less) && SortedBy(less, sorted)
    ensures SortedBy(less, out) && multiset(out) == multiset(sorted) + multiset{key}
  {
    var i := |sorted|;
    while i > 0 && less(key, sorted[i - 1])
      invariant 0 <= i <= |sorted|
      invariant forall j :: i <= j < |sorted| ==> less(key, sorted[j])
    {
      i := i - 1;
    }
    out := sorted[..i] + [key] + sorted[i..];
    InsertedIsSorted(less, sorted, key, i);
  }

  lemma InsertedIsSorted(less: (string, string) -> bool, sorted: seq<string>, key: string, i: nat)
    requires StrictTotalOrder(less) && SortedBy(less, sorted) && i <= |sorted|
    requires forall j :: i <= j < |sorted| ==> less(key, sorted[j])
    requires i > 0 ==> !less(key, sorted[i - 1])
    ensures var out := sorted[..i] + [key] + sorted[i..];
      SortedBy(less, out) && multiset(out) == multiset(sorted) + multiset{key}
  {
    assert sorted == sorted[..i] + sorted[i..];
    if i > 0 {
      LastIsGreatest(less, sorted[..i], key);
    }
    SortedAround(less, sorted[..i], key, sorted[i..]);
  }

  lemma LastIsGreatest(less: (string, string) -> bool, s: seq<string>, key: string)
    requires StrictTotalOrder(less) && SortedBy(less, s) && s != [] && !less(key, s[|s| - 1])
    ensures forall j :: 0 <= j < |s| ==> s[j] == key || less(s[j], key)
  {
    var last := s[|s| - 1];
    assert less(last, key) || last == key;
    forall j | 0 <= j < |s| ensures s[j] == key || less(s[j], key) {
      assert j == |s| - 1 || s[j] == last || less(s[j], last);
    }
  }

  lemma SortedAround(less: (string, string) -> bool, a: seq<string>, key: string, b: seq<string>)
    requires forall x, y, z :: less(x, y) && less(y, z) ==> less(x, z)
    requires SortedBy(less, a) && SortedBy(less, b)
    requires forall j :: 0 <= j < |a| ==> a[j] == key || less(a[j], key)
    requires forall j :: 0 <= j < |b| ==> less(key, b[j])
    ensures SortedBy(less, a + [key] + b)
  {
    var out := a + [key] + b;
    forall i, j | 0 <= i < j < |out| ensures out[i] == out[j] || less(out[i], out[j]) {
      if i < |a| < j {
        assert a[i] == key || less(a[i], key);
        assert less(key, b[j - |a| - 1]);
      }
    }
  }

  method Sort(keys: seq<string>) returns (out: seq<string>)
    ensures Sorted(out) && multiset(out) == multiset(keys)
  {
    LessIsStrictTotalOrder();
    out := SortBy(Less, keys);
  }

  /** Two sorted listings of the same names are the same listing. */
  lemma {:induction false} SortedIsUnique(less: (string, string) -> bool, a: seq<string>, b: seq<string>)
    requires forall x, y :: !(less(x, y) && less(y, x))
    requires SortedBy(less, a) && SortedBy(less, b) && multiset(a) == multiset(b)
    ensures a == b
  {
    assert |a| == |multiset(a)| == |multiset(b)| == |b|;
    if a != [] {
      SortedHeads(less, a, b);
      Uncons(less, a);
      Uncons(less, b);
      SortedIsUnique(less, a[1..], b[1..]);
    }
  }

  lemma Uncons(less: (string, string) -> bool, s: seq<string>)
    requires s != [] && SortedBy(less, s)
    ensures s == [s[0]] + s[1..] && SortedBy(less, s[1..])
    ensures multiset(s[1..]) == multiset(s) - multiset{s[0]}
  {
    assert s == [s[0]] + s[1..];
  }

  lemma HeadComesFirst(less: (string, string) -> bool, s: seq<string>, i: nat)
    requires SortedBy(less, s) && i < |s|
    ensures s[0] == s[i] || less(s[0], s[i])
  {
  }

  lemma SortedHeads(less: (string, string) -> bool, a: seq<string>, b: seq<string>)
    requires forall x, y :: !(less(x, y) && less(y, x))
    requires a != [] && b != []
    requires SortedBy(less, a) && SortedBy(less, b) && multiset(a) == multiset(b)
    ensures a[0] == b[0]
  {
    assert a[0] in multiset(b) && b[0] in multiset(a);
    var i :| 0 <= i < |b| && b[i] == a[0];
    var j :| 0 <= j < |a| && a[j] == b[0];
    HeadComesFirst(less, a, j);
    HeadComesFirst(less, b, i);
  }

  /** A list without repeats stays without repeats, and keeps its elements, when permuted. */
  lemma PermutationKeepsElements<T(!new)>(a: seq<T>, b: seq<T>)
    requires multiset(a) == multiset(b)
    ensures |a| == |b| && Elements(a) == Elements(b)
    ensures Distinct(a) ==> Distinct(b)
  {
    assert |a| == |multiset(a)| == |multiset(b)| == |b|;
    forall x ensures x in a <==> x in b {
      assert x in a <==> x in multiset(a);
      assert x in b <==> x in multiset(b);
    }
    if Distinct(a) {
      forall x ensures multiset(a)[x] <= 1 {
        CountsOfDistinct(a, x);
      }
      forall i, j | 0 <= i < j < |b| ensures b[i] != b[j] {
        CountOfRepeated(b, i, j);
      }
    }
  }

  lemma CountOfRepeated<T>(s: seq<T>, i: nat, j: nat)
    requires i < j < |s|
    ensures s[i] == s[j] ==> multiset(s)[s[i]] >= 2
  {
    assert s == s[..i] + [s[i]] + s[i + 1..j] + [s[j]] + s[j + 1..];
  }

  lemma {:induction false} CountsOfDistinct<T>(a: seq<T>, x: T)
    requires Distinct(a)
    ensures multiset(a)[x] <= 1
  {
    if a != [] {
      var front, last := a[..|a| - 1], a[|a| - 1];
      assert a == front + [last];
      CountsOfDistinct(front, x);
      assert last !in front;
    }
  }

  /** The head of a sorted list is the first of its elements. */
  lemma HeadIsLeast(s: seq<string>)
    requires Sorted(s) && s != []
    ensures IsLeast(s[0], Elements(s))
  {
  }

  /** The keys of a map, in whatever order they are read. */
  method MapKeys<V>(m: map<string, V>) returns (keys: seq<string>)
    ensures Distinct(keys) && Elements(keys) == m.Keys && |keys| == |m|
  {
    keys := [];
    var rest := m.Keys;
    while rest != {}
      invariant Lists(keys, rest, m.Keys)
      decreases rest
    {
      var k :| k in rest;
      ListsOneMore(keys, rest, m.Keys, k);
      keys, rest := keys + [k], rest - {k};
    }
  }

  /** keys and rest make up all, without repeats. */
  ghost predicate Lists(keys: seq<string>, rest: set<string>, all: set<string>) {
    && Distinct(keys) && rest !! Elements(keys) && rest + Elements(keys) == all
    && |keys| + |rest| == |all|
  }

  lemma ListsOneMore(keys: seq<string>, rest: set<string>, all: set<string>, k: string)
    requires Lists(keys, rest, all) && k in rest
    ensures Lists(keys + [k], rest - {k}, all)
  {
    assert Elements(keys + [k]) == Elements(keys) + {k};
  }
}
