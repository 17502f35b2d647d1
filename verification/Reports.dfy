/** Coverage reports, the rules that exempt lines from them, and what is counted: the weight
    of the units no rule exempts, and of those among them that ran. */
module Reports {
  import opened Wrappers
  import opened Text

  /** A Go basic block, or one line of an LCOV report. */
  datatype Unit = Unit(path: string, startLine: int, endLine: int, weight: nat, covered: bool)

  type Report = map<string, seq<Unit>>

  datatype Name = Daemon | Cli | Flutter

  datatype Scope = Coverage | Universe

  /** An exemption; ranges is None if it takes in the whole file. */
  datatype Rule = Rule(owner: Name, path: string, reason: string, issue: string, scope: Scope,
                       ranges: Option<seq<(int, int)>>)
  {
    predicate IgnoresLine(line: int) {
      ranges.None? || InSome(ranges.value, line)
    }

    /** A block goes by its first line. */
    predicate IgnoresUnit(u: Unit) {
      IgnoresLine(u.startLine)
    }
  }

  predicate Within(r: (int, int), line: int) {
    r.0 <= line <= r.1
  }

  predicate InSome(ranges: seq<(int, int)>, line: int) {
    exists i :: 0 <= i < |ranges| && Within(ranges[i], line)
  }

  datatype Item = Line(line: int) | Range(first: int, last: int) | Other

  /** One line, or the lines from a first to a last, counted from one. */
  predicate IsSound(item: Item) {
    match item
    case Line(n) => 1 <= n
    case Range(a, b) => 1 <= a && a <= b
    case Other => false
  }

  predicate TakesIn(item: Item, line: int) {
    match item
    case Line(n) => line == n
    case Range(a, b) => a <= line && line <= b
    case Other => false
  }

  function AsRange(item: Item): (r: Option<(int, int)>)
    ensures r.Some? <==> IsSound(item)
    ensures r.Some? ==> r.value.0 <= r.value.1 && forall line :: Within(r.value, line) <==> TakesIn(item, line)
  {
    match item
    case Line(n) => if n < 1 then None else Some((n, n))
    case Range(a, b) => if a < 1 || b < a then None else Some((a, b))
    case Other => None
  }

  predicate Before(a: (int, int), b: (int, int)) {
    a.0 < b.0 || (a.0 == b.0 && a.1 <= b.1)
  }

  ghost predicate Ascending(ranges: seq<(int, int)>) {
    forall i, j :: 0 <= i < j < |ranges| ==> Before(ranges[i], ranges[j])
  }

  ghost predicate Apart(ranges: seq<(int, int)>) {
    forall i, j :: 0 <= i < j < |ranges| ==> ranges[i].1 < ranges[j].0 || ranges[j].1 < ranges[i].0
  }

  ghost predicate Proper(ranges: seq<(int, int)>) {
    forall i :: 0 <= i < |ranges| ==> ranges[i].0 <= ranges[i].1
  }

  method InsertRange(sorted: seq<(int, int)>, r: (int, int)) returns (out: seq<(int, int)>)
    requires Ascending(sorted)
    ensures Ascending(out) && multiset(out) == multiset(sorted) + multiset{r}
  {
    var i := |sorted|;
    while i > 0 && !Before(sorted[i - 1], r)
      invariant 0 <= i <= |sorted|
      invariant forall j :: i <= j < |sorted| ==> Before(r, sorted[j])
    {
      i := i - 1;
    }
    out := sorted[..i] + [r] + sorted[i..];
    InsertedAscends(sorted, r, i);
  }

  lemma InsertedAscends(sorted: seq<(int, int)>, r: (int, int), i: nat)
    requires Ascending(sorted) && i <= |sorted| && (i > 0 ==> Before(sorted[i - 1], r))
    requires forall j :: i <= j < |sorted| ==> Before(r, sorted[j])
    ensures Ascending(sorted[..i] + [r] + sorted[i..])
    ensures multiset(sorted[..i] + [r] + sorted[i..]) == multiset(sorted) + multiset{r}
  {
    assert sorted == sorted[..i] + sorted[i..];
    forall j | 0 <= j < i ensures Before(sorted[..i][j], r) {
      assert j == i - 1 || Before(sorted[j], sorted[i - 1]);
    }
    AscendsAround(sorted[..i], r, sorted[i..]);
  }

  lemma AscendsAround(a: seq<(int, int)>, r: (int, int), b: seq<(int, int)>)
    requires Ascending(a) && Ascending(b)
    requires forall j :: 0 <= j < |a| ==> Before(a[j], r)
    requires forall j :: 0 <= j < |b| ==> Before(r, b[j])
    ensures Ascending(a + [r] + b)
  {
    var out := a + [r] + b;
    forall i, j | 0 <= i < j < |out| ensures Before(out[i], out[j]) {
      if i < |a| < j {
        assert Before(a[i], r) && Before(r, b[j - |a| - 1]);
      }
    }
  }

  method SortRanges(ranges: seq<(int, int)>) returns (out: seq<(int, int)>)
    ensures Ascending(out) && multiset(out) == multiset(ranges)
  {
    out := [];
    for n := 0 to |ranges|
      invariant Ascending(out) && multiset(out) == multiset(ranges[..n])
    {
      out := InsertRange(out, ranges[n]);
      assert ranges[..n + 1] == ranges[..n] + [ranges[n]];
    }
    assert ranges[..|ranges|] == ranges;
  }

  /** Every item is a range, and these are the ranges. */
  ghost predicate Reads(items: seq<Item>, ranges: seq<(int, int)>) {
    |ranges| == |items| && forall i :: 0 <= i < |items| ==> AsRange(items[i]) == Some(ranges[i])
  }

  /** Items that are proper ranges, no two of which share a line. */
  ghost predicate Disjoint(items: seq<Item>) {
    && (forall i :: 0 <= i < |items| ==> IsSound(items[i]))
    && (forall i, j, line :: 0 <= i < j < |items| && TakesIn(items[i], line) ==> !TakesIn(items[j], line))
  }

  lemma ApartIsDisjoint(items: seq<Item>, ranges: seq<(int, int)>)
    requires Reads(items, ranges)
    ensures Disjoint(items) <==> Apart(ranges)
  {
    if Disjoint(items) {
      forall i, j | 0 <= i < j < |ranges| ensures ranges[i].1 < ranges[j].0 || ranges[j].1 < ranges[i].0 {
        assert AsRange(items[i]) == Some(ranges[i]) && AsRange(items[j]) == Some(ranges[j]);
        var line := if ranges[i].0 <= ranges[j].0 then ranges[j].0 else ranges[i].0;
        assert !(TakesIn(items[i], line) && TakesIn(items[j], line));
        assert !(Within(ranges[i], line) && Within(ranges[j], line));
      }
    }
  }

  ghost predicate Gapped(ranges: seq<(int, int)>, n: nat) {
    forall i :: 0 < i < n && i < |ranges| ==> ranges[i - 1].1 < ranges[i].0
  }

  /** Of sorted ranges, only neighbours need comparing. */
  lemma NeighboursSuffice(ranges: seq<(int, int)>)
    requires Ascending(ranges) && Proper(ranges)
    ensures Gapped(ranges, |ranges|) <==> Apart(ranges)
  {
    if Gapped(ranges, |ranges|) {
      forall i, j | 0 <= i < j < |ranges| ensures ranges[i].1 < ranges[j].0 {
        GapReaches(ranges, i, j);
      }
    }
  }

  lemma {:induction false} GapReaches(ranges: seq<(int, int)>, i: nat, j: nat)
    requires Gapped(ranges, |ranges|) && Proper(ranges) && i < j < |ranges|
    ensures ranges[i].1 < ranges[j].0
    decreases j
  {
    if i + 1 < j {
      GapReaches(ranges, i, j - 1);
    }
  }

  /** Sorting keeps the covered lines, and what overlaps. */
  lemma SortingKeeps(a: seq<(int, int)>, b: seq<(int, int)>)
    requires multiset(a) == multiset(b) && Proper(a)
    ensures Proper(b) && (Apart(a) <==> Apart(b)) && forall line :: InSome(a, line) <==> InSome(b, line)
  {
    SameMembers(a, b);
    forall line ensures InSome(a, line) <==> InSome(b, line) {
      if i :| 0 <= i < |a| && Within(a[i], line) {
        assert a[i] in b;
      }
      if i :| 0 <= i < |b| && Within(b[i], line) {
        assert b[i] in a;
      }
    }
    forall i | 0 <= i < |b| ensures b[i].0 <= b[i].1 {
      assert b[i] in a;
    }
    if Apart(a) {
      ApartSurvives(a, b);
    }
    if Apart(b) {
      ApartSurvives(b, a);
    }
  }

  lemma SameMembers<T>(a: seq<T>, b: seq<T>)
    requires multiset(a) == multiset(b)
    ensures forall x :: x in a <==> x in b
  {
    forall x ensures x in a <==> x in b {
      assert (x in a <==> x in multiset(a)) && (x in b <==> x in multiset(b));
    }
  }

  lemma ApartSurvives(a: seq<(int, int)>, b: seq<(int, int)>)
    requires multiset(a) == multiset(b) && Proper(a) && Apart(a)
    ensures Apart(b)
  {
    SameMembers(a, b);
    assert Distinct(a);
    PermutationKeepsElements(a, b);
    forall i, j | 0 <= i < j < |b| ensures b[i].1 < b[j].0 || b[j].1 < b[i].0 {
      assert b[i] in a && b[j] in a;
    }
  }

  /** The "lines" of a rule: accepted exactly when they are proper ranges that share no line,
      and then they stand for the same lines, in order. */
  method ParseLineRanges(items: seq<Item>) returns (r: Result<seq<(int, int)>>)
    ensures r.Ok? <==> items != [] && Disjoint(items)
    ensures r.Ok? ==> Gapped(r.value, |r.value|) && |r.value| == |items|
    ensures r.Ok? ==> forall line :: InSome(r.value, line) <==> exists i :: 0 <= i < |items| && TakesIn(items[i], line)
  {
    if items == [] {
      return Err("must be a non-empty array");
    }
    var ranges := [];
    for n := 0 to |items|
      invariant Reads(items[..n], ranges) && Proper(ranges)
    {
      var range := AsRange(items[n]);
      if range.None? {
        return Err("invalid entry");
      }
      ranges := ranges + [range.value];
    }
    assert items[..|items|] == items;
    ApartIsDisjoint(items, ranges);
    ReadsCover(items, ranges);
    var sorted := SortRanges(ranges);
    SortingKeeps(ranges, sorted);
    NeighboursSuffice(sorted);
    assert |sorted| == |multiset(sorted)| == |multiset(ranges)| == |ranges|;
    var ok := CheckGaps(sorted);
    r := if ok then Ok(sorted) else Err("overlapping ranges");
  }

  lemma ReadsCover(items: seq<Item>, ranges: seq<(int, int)>)
    requires Reads(items, ranges)
    ensures forall line :: InSome(ranges, line) <==> exists i :: 0 <= i < |items| && TakesIn(items[i], line)
  {
    forall line ensures InSome(ranges, line) <==> exists i :: 0 <= i < |items| && TakesIn(items[i], line) {
      if InSome(ranges, line) {
        var i :| 0 <= i < |ranges| && Within(ranges[i], line);
        assert AsRange(items[i]) == Some(ranges[i]) && TakesIn(items[i], line);
      }
      if i :| 0 <= i < |items| && TakesIn(items[i], line) {
        assert AsRange(items[i]) == Some(ranges[i]) && Within(ranges[i], line);
      }
    }
  }

  method CheckGaps(sorted: seq<(int, int)>) returns (ok: bool)
    ensures ok <==> Gapped(sorted, |sorted|)
  {
    for i := 0 to |sorted|
      invariant Gapped(sorted, i)
    {
      if i > 0 && sorted[i].0 <= sorted[i - 1].1 {
        return false;
      }
    }
    return true;
  }

  /** Covered weight and total weight of the units of a file that count. */
  function Weigh(units: seq<Unit>, counts: Unit -> bool): (int, int) {
    if units == [] then (0, 0)
    else
      var (covered, total) := Weigh(units[..|units| - 1], counts);
      var u := units[|units| - 1];
      if !counts(u) then (covered, total) else (covered + (if u.covered then u.weight else 0), total + u.weight)
  }

  function Plus(a: (int, int), b: (int, int)): (int, int) {
    (a.0 + b.0, a.1 + b.1)
  }

  /** A sum over a set, which no order of its members changes. */
  ghost function SumOf(names: set<string>, f: string -> (int, int)): (int, int) {
    if names == {} then (0, 0)
    else
      var p := Pick(names);
      Plus(SumOf(names - {p}, f), f(p))
  }

  ghost function Pick(names: set<string>): (p: string)
    requires names != {}
    ensures p in names
  {
    var p :| p in names;
    p
  }

  lemma {:induction false} SumOfAny(names: set<string>, f: string -> (int, int), p: string)
    requires p in names
    ensures SumOf(names, f) == Plus(SumOf(names - {p}, f), f(p))
    decreases |names|
  {
    var q := Pick(names);
    if q != p {
      assert names - {q} - {p} == names - {p} - {q};
      SumOfAny(names - {q}, f, p);
      SumOfAny(names - {p}, f, q);
    }
  }

  function WeighFile(report: Report, counts: (string, Unit) -> bool, p: string): (int, int) {
    if p in report then Weigh(report[p], u => counts(p, u)) else (0, 0)
  }

  ghost function WeighAll(report: Report, paths: set<string>, counts: (string, Unit) -> bool): (int, int) {
    SumOf(paths, p => WeighFile(report, counts, p))
  }

  predicate Ignored(rules: map<string, Rule>, path: string, u: Unit) {
    path in rules && rules[path].IgnoresUnit(u)
  }

  /** A changed line of the file that no rule exempts lies in the unit. */
  predicate Touched(rules: map<string, Rule>, changed: map<string, set<int>>, path: string, u: Unit) {
    && path in changed
    && exists line :: line in changed[path] && !(path in rules && rules[path].IgnoresLine(line)) &&
        Within((u.startLine, u.endLine), line)
  }

  ghost function FilteredWeight(report: Report, rules: map<string, Rule>): (int, int) {
    WeighAll(report, report.Keys, (p, u) => !Ignored(rules, p, u))
  }

  ghost function DiffWeight(report: Report, changed: map<string, set<int>>, rules: map<string, Rule>): (int, int) {
    WeighAll(report, report.Keys, (p, u) => !Ignored(rules, p, u) && Touched(rules, changed, p, u))
  }

  /** The counting loop over files, in whatever order they come. */
  method SumOverFiles(report: Report, counts: (string, Unit) -> bool) returns (covered: int, total: int)
    ensures (covered, total) == WeighAll(report, report.Keys, counts)
  {
    covered, total := 0, 0;
    ghost var done: set<string> := {};
    var rest := report.Keys;
    while rest != {}
      invariant done !! rest && done + rest == report.Keys
      invariant (covered, total) == WeighAll(report, done, counts)
      decreases rest
    {
      var p :| p in rest;
      var c, t := SumOverUnits(report[p], u => counts(p, u));
      covered, total := covered + c, total + t;
      SumOfAny(done + {p}, q => WeighFile(report, counts, q), p);
      assert done + {p} - {p} == done;
      done, rest := done + {p}, rest - {p};
    }
    assert done == report.Keys;
  }

  method SumOverUnits(units: seq<Unit>, counts: Unit -> bool) returns (covered: int, total: int)
    ensures (covered, total) == Weigh(units, counts)
  {
    covered, total := 0, 0;
    for i := 0 to |units|
      invariant (covered, total) == Weigh(units[..i], counts)
    {
      assert units[..i + 1][..i] == units[..i];
      if counts(units[i]) {
        total := total + units[i].weight;
        if units[i].covered {
          covered := covered + units[i].weight;
        }
      }
    }
    assert units[..|units|] == units;
  }

  method FilteredCounts(report: Report, rules: map<string, Rule>) returns (r: Result<(int, int)>)
    ensures r.Ok? <==> FilteredWeight(report, rules).1 > 0
    ensures r.Ok? ==> r.value == FilteredWeight(report, rules)
  {
    var covered, total := SumOverFiles(report, (p, u) => !Ignored(rules, p, u));
    r := if total <= 0 then Err("no non-ignored executable units") else Ok((covered, total));
  }

  method DiffCounts(report: Report, changed: map<string, set<int>>, rules: map<string, Rule>)
      returns (covered: int, total: int)
    ensures (covered, total) == DiffWeight(report, changed, rules)
  {
    covered, total := SumOverFiles(report, (p, u) => !Ignored(rules, p, u) && Touched(rules, changed, p, u));
  }

  /** Coverage is never more than all, and a diff counts no more than the report. */
  lemma {:induction false} WeighsInOrder(units: seq<Unit>, some: Unit -> bool, more: Unit -> bool)
    requires forall u :: some(u) ==> more(u)
    ensures 0 <= Weigh(units, some).0 <= Weigh(units, some).1 <= Weigh(units, more).1
    ensures Weigh(units, some).0 <= Weigh(units, more).0
  {
    if units != [] {
      WeighsInOrder(units[..|units| - 1], some, more);
    }
  }

  lemma {:induction false} WeighsAllInOrder(report: Report, paths: set<string>, some: (string, Unit) -> bool,
                                            more: (string, Unit) -> bool)
    requires paths <= report.Keys && forall p, u :: some(p, u) ==> more(p, u)
    ensures 0 <= WeighAll(report, paths, some).0 <= WeighAll(report, paths, some).1 <= WeighAll(report, paths, more).1
    decreases |paths|
  {
    if paths != {} {
      var p :| p in paths;
      SumOfAny(paths, q => WeighFile(report, some, q), p);
      SumOfAny(paths, q => WeighFile(report, more, q), p);
      WeighsInOrder(report[p], u => some(p, u), u => more(p, u));
      WeighsAllInOrder(report, paths - {p}, some, more);
    }
  }

  lemma DiffIsPartOfTotal(report: Report, changed: map<string, set<int>>, rules: map<string, Rule>)
    ensures var diff := DiffWeight(report, changed, rules);
      0 <= diff.0 <= diff.1 <= FilteredWeight(report, rules).1
  {
    WeighsAllInOrder(report, report.Keys,
                     (p, u) => !Ignored(rules, p, u) && Touched(rules, changed, p, u),
                     (p, u) => !Ignored(rules, p, u));
  }
}
