/** Which units are counted, and which of them as covered: each place of the report once. */
module CountedUnits {
  import opened Reports

  /** Unit number at of a file. */
  datatype Place = Place(path: string, at: nat)

  ghost function Places(report: Report): set<Place> {
    set p, i | p in report && 0 <= i < |report[p]| :: Place(p, i)
  }

  function UnitAt(report: Report, x: Place): Unit
    requires x.path in report && x.at < |report[x.path]|
  {
    report[x.path][x.at]
  }

  /** A rule exempts the line: it takes in the whole file, or a range with the line. */
  predicate Exempt(rules: map<string, Rule>, path: string, line: int) {
    && path in rules
    && match rules[path].ranges
       case None => true
       case Some(ranges) => exists i :: 0 <= i < |ranges| && ranges[i].0 <= line && line <= ranges[i].1
  }

  /** A unit counts unless its first line is exempt. */
  predicate Kept(rules: map<string, Rule>, path: string, u: Unit) {
    !Exempt(rules, path, u.startLine)
  }

  /** It counts for a diff if besides some changed line that is not exempt lies in it. */
  predicate Changed(rules: map<string, Rule>, changed: map<string, set<int>>, path: string, u: Unit) {
    && Kept(rules, path, u) && path in changed
    && exists line :: line in changed[path] && u.startLine <= line && line <= u.endLine && !Exempt(rules, path, line)
  }

  ghost function Counting(report: Report, counts: (string, Unit) -> bool): set<Place> {
    set x | x in Places(report) && counts(x.path, UnitAt(report, x))
  }

  ghost function Ran(report: Report, counts: (string, Unit) -> bool): set<Place> {
    set x | x in Counting(report, counts) && UnitAt(report, x).covered
  }

  function WeightAt(report: Report, x: Place): nat {
    if x.path in report && x.at < |report[x.path]| then UnitAt(report, x).weight else 0
  }

  /** The weight of these places, each counted once. */
  ghost function WeightOf(report: Report, at: set<Place>): nat {
    if at == {} then 0
    else
      var x :| x in at;
      WeightAt(report, x) + WeightOf(report, at - {x})
  }

  lemma {:induction false} WeightWithout(report: Report, at: set<Place>, x: Place)
    requires x in at
    ensures WeightOf(report, at) == WeightAt(report, x) + WeightOf(report, at - {x})
    decreases |at|
  {
    var y :| y in at && WeightOf(report, at) == WeightAt(report, y) + WeightOf(report, at - {y});
    if y != x {
      WeightWithout(report, at - {y}, x);
      WeightWithout(report, at - {x}, y);
      assert at - {x} - {y} == at - {y} - {x};
    }
  }

  lemma {:induction false} WeightOfBoth(report: Report, a: set<Place>, b: set<Place>)
    requires a !! b
    ensures WeightOf(report, a + b) == WeightOf(report, a) + WeightOf(report, b)
    decreases |a|
  {
    if a == {} {
      assert a + b == b;
    } else {
      var x :| x in a;
      WeightWithout(report, a, x);
      WeightWithout(report, a + b, x);
      assert a + b - {x} == (a - {x}) + b;
      WeightOfBoth(report, a - {x}, b);
    }
  }

  lemma {:induction false} WeightIsNone(report: Report, at: set<Place>)
    ensures WeightOf(report, at) == 0 <==> forall x :: x in at ==> WeightAt(report, x) == 0
    decreases |at|
  {
    if at != {} {
      var x :| x in at;
      WeightWithout(report, at, x);
      WeightIsNone(report, at - {x});
    }
  }

  /** The first n places of a file among these. */
  ghost function InFile(at: set<Place>, p: string, n: nat): set<Place> {
    set x | x in at && x.path == p && x.at < n
  }

  ghost function InFiles(at: set<Place>, paths: set<string>): set<Place> {
    set x | x in at && x.path in paths
  }

  /** Of some places, the weight of those that ran and of all that count. */
  ghost function Weights(report: Report, ran: set<Place>, counting: set<Place>): (int, int) {
    (WeightOf(report, ran), WeightOf(report, counting))
  }

  ghost function WeightsInFile(report: Report, counts: (string, Unit) -> bool, p: string, n: nat): (int, int) {
    Weights(report, InFile(Ran(report, counts), p, n), InFile(Counting(report, counts), p, n))
  }

  ghost function WeightsInFiles(report: Report, counts: (string, Unit) -> bool, paths: set<string>): (int, int) {
    Weights(report, InFiles(Ran(report, counts), paths), InFiles(Counting(report, counts), paths))
  }

  /** What one unit adds to the two weights. */
  function Share(counts: Unit -> bool, u: Unit): (int, int) {
    if !counts(u) then (0, 0) else (if u.covered then u.weight else 0, u.weight)
  }

  lemma WeighOneMore(units: seq<Unit>, counts: Unit -> bool, n: nat)
    requires 0 < n <= |units|
    ensures Weigh(units[..n], counts) == Plus(Weigh(units[..n - 1], counts), Share(counts, units[n - 1]))
  {
    assert units[..n][..n - 1] == units[..n - 1];
  }

  lemma PlaceCounts(report: Report, counts: (string, Unit) -> bool, p: string, n: nat)
    requires p in report && n < |report[p]|
    ensures Place(p, n) in Counting(report, counts) <==> counts(p, report[p][n])
    ensures Place(p, n) in Ran(report, counts) <==> counts(p, report[p][n]) && report[p][n].covered
    ensures WeightAt(report, Place(p, n)) == report[p][n].weight
  {
    assert Place(p, n) in Places(report);
  }

  lemma WeightsOneMore(report: Report, counts: (string, Unit) -> bool, p: string, n: nat, here: Unit -> bool)
    requires p in report && 0 < n <= |report[p]| && forall u :: here(u) <==> counts(p, u)
    ensures WeightsInFile(report, counts, p, n) ==
            Plus(WeightsInFile(report, counts, p, n - 1), Share(here, report[p][n - 1]))
  {
    OneMorePlace(report, Counting(report, counts), p, n - 1);
    OneMorePlace(report, Ran(report, counts), p, n - 1);
    PlaceCounts(report, counts, p, n - 1);
  }

  lemma {:induction false} FileIsWeighed(report: Report, counts: (string, Unit) -> bool, p: string, n: nat,
                                         here: Unit -> bool)
    requires p in report && n <= |report[p]| && forall u :: here(u) <==> counts(p, u)
    ensures Weigh(report[p][..n], here) == WeightsInFile(report, counts, p, n)
  {
    if n == 0 {
      assert InFile(Ran(report, counts), p, 0) == {} && InFile(Counting(report, counts), p, 0) == {};
    } else {
      FileIsWeighed(report, counts, p, n - 1, here);
      WeighOneMore(report[p], here, n);
      WeightsOneMore(report, counts, p, n, here);
    }
  }

  lemma WholeFileIsWeighed(report: Report, counts: (string, Unit) -> bool, p: string)
    requires p in report
    ensures WeighFile(report, counts, p) == WeightsInFile(report, counts, p, |report[p]|)
  {
    FileIsWeighed(report, counts, p, |report[p]|, u => counts(p, u));
    assert report[p][..|report[p]|] == report[p];
  }

  lemma OneMorePlace(report: Report, at: set<Place>, p: string, n: nat)
    ensures WeightOf(report, InFile(at, p, n + 1)) ==
            WeightOf(report, InFile(at, p, n)) + (if Place(p, n) in at then WeightAt(report, Place(p, n)) else 0)
  {
    var x := Place(p, n);
    if x in at {
      WeightWithout(report, InFile(at, p, n + 1), x);
      assert InFile(at, p, n + 1) - {x} == InFile(at, p, n);
    } else {
      assert InFile(at, p, n + 1) == InFile(at, p, n);
    }
  }

  lemma OneMoreFile(report: Report, at: set<Place>, paths: set<string>, p: string)
    requires at <= Places(report) && p in paths && p in report
    ensures WeightOf(report, InFiles(at, paths)) ==
            WeightOf(report, InFiles(at, paths - {p})) + WeightOf(report, InFile(at, p, |report[p]|))
  {
    assert InFiles(at, paths) == InFiles(at, paths - {p}) + InFile(at, p, |report[p]|);
    WeightOfBoth(report, InFiles(at, paths - {p}), InFile(at, p, |report[p]|));
  }

  lemma FilesOneMore(report: Report, counts: (string, Unit) -> bool, paths: set<string>, p: string)
    requires p in paths && p in report
    ensures WeightsInFiles(report, counts, paths) ==
            Plus(WeightsInFiles(report, counts, paths - {p}), WeightsInFile(report, counts, p, |report[p]|))
  {
    OneMoreFile(report, Counting(report, counts), paths, p);
    OneMoreFile(report, Ran(report, counts), paths, p);
  }

  lemma NoFileNoWeight(report: Report, counts: (string, Unit) -> bool)
    ensures WeightsInFiles(report, counts, {}) == (0, 0)
  {
    assert InFiles(Ran(report, counts), {}) == {} && InFiles(Counting(report, counts), {}) == {};
  }

  lemma {:induction false} FilesAreWeighed(report: Report, counts: (string, Unit) -> bool, paths: set<string>)
    requires paths <= report.Keys
    ensures WeighAll(report, paths, counts) == WeightsInFiles(report, counts, paths)
    decreases |paths|
  {
    if paths == {} {
      NoFileNoWeight(report, counts);
    } else {
      var p :| p in paths;
      SumOfAny(paths, q => WeighFile(report, counts, q), p);
      FilesAreWeighed(report, counts, paths - {p});
      FilesOneMore(report, counts, paths, p);
      WholeFileIsWeighed(report, counts, p);
    }
  }

  /** The counts are these weights; all is covered exactly if every counting unit with any
      weight ran, and nothing exactly if none did. */
  ghost predicate CountsAre(report: Report, counts: (string, Unit) -> bool, r: (int, int)) {
    && r == Weights(report, Ran(report, counts), Counting(report, counts))
    && (r.0 == r.1 <==> forall x :: x in Counting(report, counts) && WeightAt(report, x) > 0 ==>
          UnitAt(report, x).covered)
    && (r.0 == 0 <==> forall x :: x in Counting(report, counts) && WeightAt(report, x) > 0 ==>
          !UnitAt(report, x).covered)
  }

  lemma CountedExactly(report: Report, counts: (string, Unit) -> bool)
    ensures CountsAre(report, counts, WeighAll(report, report.Keys, counts))
  {
    var counting, ran := Counting(report, counts), Ran(report, counts);
    FilesAreWeighed(report, counts, report.Keys);
    assert InFiles(counting, report.Keys) == counting && InFiles(ran, report.Keys) == ran;
    assert counting == ran + (counting - ran);
    WeightOfBoth(report, ran, counting - ran);
    WeightIsNone(report, ran);
    WeightIsNone(report, counting - ran);
  }

  lemma SameUnitsSameCounts(report: Report, f: (string, Unit) -> bool, g: (string, Unit) -> bool, r: (int, int))
    requires CountsAre(report, f, r) && forall p, u :: f(p, u) <==> g(p, u)
    ensures CountsAre(report, g, r)
  {
    assert Counting(report, f) == Counting(report, g);
    assert Ran(report, f) == Ran(report, g);
  }

  lemma ExemptExactly(rules: map<string, Rule>, path: string, line: int)
    ensures Exempt(rules, path, line) <==> path in rules && rules[path].IgnoresLine(line)
  {
    if path in rules && rules[path].ranges.Some? {
      var ranges := rules[path].ranges.value;
      if Exempt(rules, path, line) {
        var i :| 0 <= i < |ranges| && ranges[i].0 <= line && line <= ranges[i].1;
        assert Within(ranges[i], line);
      }
    }
  }

  /** What is counted of a report is the weight of the units no rule exempts. */
  lemma FilteredExactly(report: Report, rules: map<string, Rule>)
    ensures CountsAre(report, (p, u) => Kept(rules, p, u), FilteredWeight(report, rules))
  {
    CountedExactly(report, (p, u) => !Ignored(rules, p, u));
    forall p, u: Unit ensures Kept(rules, p, u) <==> !Ignored(rules, p, u) {
      ExemptExactly(rules, p, u.startLine);
    }
    SameUnitsSameCounts(report, (p, u) => !Ignored(rules, p, u), (p, u) => Kept(rules, p, u),
                        FilteredWeight(report, rules));
  }

  lemma ChangedExactly(rules: map<string, Rule>, changed: map<string, set<int>>, p: string, u: Unit)
    ensures Changed(rules, changed, p, u) <==> !Ignored(rules, p, u) && Touched(rules, changed, p, u)
  {
    ExemptExactly(rules, p, u.startLine);
    if p in changed {
      forall line ensures Exempt(rules, p, line) <==> p in rules && rules[p].IgnoresLine(line) {
        ExemptExactly(rules, p, line);
      }
      if Touched(rules, changed, p, u) {
        var line :| line in changed[p] && !(p in rules && rules[p].IgnoresLine(line)) &&
                    Within((u.startLine, u.endLine), line);
        assert !Exempt(rules, p, line);
      }
    }
  }

  /** And of a diff that of those of them in which a changed line is not exempt. */
  lemma DiffExactly(report: Report, changed: map<string, set<int>>, rules: map<string, Rule>)
    ensures CountsAre(report, (p, u) => Changed(rules, changed, p, u), DiffWeight(report, changed, rules))
  {
    CountedExactly(report, (p, u) => !Ignored(rules, p, u) && Touched(rules, changed, p, u));
    forall p, u ensures Changed(rules, changed, p, u) <==> !Ignored(rules, p, u) && Touched(rules, changed, p, u) {
      ChangedExactly(rules, changed, p, u);
    }
    SameUnitsSameCounts(report, (p, u) => !Ignored(rules, p, u) && Touched(rules, changed, p, u),
                        (p, u) => Changed(rules, changed, p, u), DiffWeight(report, changed, rules));
  }
}
