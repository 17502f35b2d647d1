/** The coverage gate: one commit judged against the baseline of its base. */
module Ratchet {
  import opened Wrappers
  import opened Reports

  datatype Counts = Counts(covered: nat, total: nat)
  {
    function Ratio(): real
      requires total > 0
    {
      covered as real / total as real
    }
  }

  datatype Baseline = Baseline(target: real, diffTarget: real, modules: map<Name, Counts>, ignores: seq<Rule>)

  /** What a commit brings: the reports, the production sources, the lines it changes. */
  datatype Commit = Commit(reports: map<Name, Report>, inventory: set<string>, changed: map<string, set<int>>)

  /** Which paths are production sources of a module, and which a universe rule may name. */
  datatype Policy = Policy(product: (Name, string) -> bool, exempt: set<string>)

  datatype Failure =
    | TargetFell
    | DiffTargetFell
    | IgnoresWidened(paths: set<string>)
    | Stale(name: Name, sources: set<string>)
    | Missing(name: Name, sources: set<string>)
    | CountsDiffer(name: Name)
    | RatioFell(name: Name)
    | DiffBelow(name: Name)
    | FloorBelow(name: Name)

  const NAMES := [Daemon, Cli, Flutter]

  predicate Keyed(r: Rule, name: Name, path: string) {
    r.owner == name && r.path == path
  }

  ghost predicate DistinctKeys(ignores: seq<Rule>) {
    forall i, j :: 0 <= i < j < |ignores| ==> !Keyed(ignores[j], ignores[i].owner, ignores[i].path)
  }

  /** A rule the reader of a baseline lets through. */
  ghost predicate ProperRule(policy: Policy, r: Rule) {
    && policy.product(r.owner, r.path)
    && r.reason != "" && r.issue != ""
    && (r.scope.Universe? ==> r.ranges.None? && r.path in policy.exempt)
    && (r.ranges.Some? ==> r.ranges.value != [] && Gapped(r.ranges.value, |r.ranges.value|))
  }

  /** A baseline as its reader accepts it. */
  ghost predicate ProperBaseline(policy: Policy, b: Baseline) {
    && 0.9 <= b.target <= 1.0 && 0.9 <= b.diffTarget <= 1.0
    && (forall n: Name :: n in b.modules && b.modules[n].covered <= b.modules[n].total && b.modules[n].total > 0)
    && DistinctKeys(b.ignores)
    && (forall r :: r in b.ignores ==> ProperRule(policy, r))
  }

  /** The rules of a module by path; of two with one path the later is kept. */
  function RulesByPath(ignores: seq<Rule>, name: Name, all: bool): map<string, Rule> {
    if ignores == [] then map[]
    else
      var rules, last := RulesByPath(ignores[..|ignores| - 1], name, all), ignores[|ignores| - 1];
      if last.owner == name && (all || last.scope.Coverage?) then rules[last.path := last] else rules
  }

  ghost predicate RulesAre(ignores: seq<Rule>, name: Name, all: bool, rules: map<string, Rule>) {
    && (forall r :: r in ignores && r.owner == name && (all || r.scope.Coverage?) ==>
        r.path in rules && rules[r.path] == r)
    && (forall p :: p in rules ==> rules[p] in ignores && Keyed(rules[p], name, p) && (all || rules[p].scope.Coverage?))
  }

  lemma {:induction false} RulesByPathAre(ignores: seq<Rule>, name: Name, all: bool)
    requires DistinctKeys(ignores)
    ensures RulesAre(ignores, name, all, RulesByPath(ignores, name, all))
    decreases |ignores|
  {
    if ignores != [] {
      var front, last := ignores[..|ignores| - 1], ignores[|ignores| - 1];
      assert ignores == front + [last];
      RulesByPathAre(front, name, all);
      RulesOneMore(front, last, name, all, RulesByPath(front, name, all));
    }
  }

  lemma RulesOneMore(front: seq<Rule>, last: Rule, name: Name, all: bool, rules: map<string, Rule>)
    requires DistinctKeys(front + [last]) && RulesAre(front, name, all, rules)
    ensures RulesAre(front + [last], name, all,
                     if last.owner == name && (all || last.scope.Coverage?) then rules[last.path := last] else rules)
  {
    forall r | r in front && r.owner == name && last.owner == name ensures r.path != last.path {
      var i :| 0 <= i < |front| && front[i] == r;
      assert (front + [last])[i] == r && (front + [last])[|front|] == last;
    }
  }

  function Find(ignores: seq<Rule>, name: Name, path: string): Option<Rule> {
    if ignores == [] then None
    else if Keyed(ignores[|ignores| - 1], name, path) then Some(ignores[|ignores| - 1])
    else Find(ignores[..|ignores| - 1], name, path)
  }

  lemma {:induction false} FindIsMember(ignores: seq<Rule>, name: Name, path: string)
    ensures var r := Find(ignores, name, path);
      && (r.Some? ==> r.value in ignores && Keyed(r.value, name, path))
      && (r.None? ==> forall x :: x in ignores ==> !Keyed(x, name, path))
    decreases |ignores|
  {
    if ignores != [] {
      assert ignores == ignores[..|ignores| - 1] + [ignores[|ignores| - 1]];
      FindIsMember(ignores[..|ignores| - 1], name, path);
    }
  }

  /** A rule the base does not have as it stands, unless it is a new universe rule for a
      source that exists. */
  predicate Unsafe(base: Baseline, inventory: set<string>, r: Rule) {
    var previous := Find(base.ignores, r.owner, r.path);
    if previous.None? && r.scope.Universe? && r.path in inventory then false else previous != Some(r)
  }

  /** A rule is safe exactly if the base has it as it stands, or it is a universe rule for a
      source that exists, whose place no rule of the base takes. */
  lemma UnsafeExactly(base: Baseline, inventory: set<string>, r: Rule)
    requires DistinctKeys(base.ignores)
    ensures Unsafe(base, inventory, r) <==>
            !(r in base.ignores ||
              (r.scope == Universe && r.path in inventory &&
               forall x :: x in base.ignores ==> !(x.owner == r.owner && x.path == r.path)))
  {
    FindIsMember(base.ignores, r.owner, r.path);
    if r in base.ignores {
      SamePlaceSameRule(base.ignores, r, Find(base.ignores, r.owner, r.path).value);
    }
  }

  lemma SamePlaceSameRule(ignores: seq<Rule>, x: Rule, y: Rule)
    requires DistinctKeys(ignores) && x in ignores && y in ignores && Keyed(x, y.owner, y.path)
    ensures x == y
  {
    var i :| 0 <= i < |ignores| && ignores[i] == x;
    var j :| 0 <= j < |ignores| && ignores[j] == y;
    assert Keyed(ignores[i], ignores[j].owner, ignores[j].path) && Keyed(ignores[j], ignores[i].owner, ignores[i].path);
  }

  /** What the report of a module comes to once the exempt units are gone. */
  ghost function Measured(b: Baseline, c: Commit, name: Name): (int, int)
    requires name in c.reports
  {
    FilteredWeight(c.reports[name], RulesByPath(b.ignores, name, false))
  }

  ghost function MeasuredDiff(b: Baseline, c: Commit, name: Name): (int, int)
    requires name in c.reports
  {
    DiffWeight(c.reports[name], c.changed, RulesByPath(b.ignores, name, false))
  }

  function Ratio(c: (int, int)): real
    requires c.1 > 0
  {
    c.0 as real / c.1 as real
  }

  function Sources(policy: Policy, c: Commit, name: Name): set<string> {
    set p | p in c.inventory && policy.product(name, p)
  }

  function Extra(policy: Policy, c: Commit, name: Name): set<string>
    requires name in c.reports
  {
    c.reports[name].Keys - Sources(policy, c, name)
  }

  predicate WholeFile(rules: map<string, Rule>, p: string) {
    p in rules && rules[p].ranges.None?
  }

  /** The sources a report has to name: those the commit changes and, for Flutter, all
      but the exempt ones. A file exempt as a whole is never required. */
  function Required(policy: Policy, b: Baseline, c: Commit, name: Name): set<string> {
    var rules, all := RulesByPath(b.ignores, name, false), RulesByPath(b.ignores, name, true);
    set p | p in Sources(policy, c, name) && !WholeFile(rules, p)
              && (p in c.changed || (name.Flutter? && !(p in all && all[p].scope.Universe?)))
  }

  /** Some rule of the module for that path is of this scope, for the whole file or not. */
  ghost predicate HasRule(ignores: seq<Rule>, name: Name, p: string, scope: Scope, whole: bool) {
    exists r :: r in ignores && r.owner == name && r.path == p && r.scope == scope && (whole ==> r.ranges.None?)
  }

  lemma WholeFileExactly(ignores: seq<Rule>, name: Name, p: string)
    requires DistinctKeys(ignores)
    ensures WholeFile(RulesByPath(ignores, name, false), p) <==> HasRule(ignores, name, p, Coverage, true)
  {
    RulesByPathAre(ignores, name, false);
  }

  lemma UniverseExactly(ignores: seq<Rule>, name: Name, p: string)
    requires DistinctKeys(ignores)
    ensures var all := RulesByPath(ignores, name, true);
      p in all && all[p].scope.Universe? <==> HasRule(ignores, name, p, Universe, false)
  {
    RulesByPathAre(ignores, name, true);
  }

  /** The sources a report has to name, told from the rules themselves. */
  lemma RequiredExactly(policy: Policy, b: Baseline, c: Commit, name: Name, p: string)
    requires DistinctKeys(b.ignores)
    ensures p in Required(policy, b, c, name) <==>
      && p in c.inventory && policy.product(name, p) && !HasRule(b.ignores, name, p, Coverage, true)
      && (p in c.changed || (name == Flutter && !HasRule(b.ignores, name, p, Universe, false)))
  {
    WholeFileExactly(b.ignores, name, p);
    UniverseExactly(b.ignores, name, p);
  }

  /** And those it names too much: what is no source of the module. */
  lemma ExtraExactly(policy: Policy, c: Commit, name: Name, p: string)
    requires name in c.reports
    ensures p in Extra(policy, c, name) <==> p in c.reports[name] && !(p in c.inventory && policy.product(name, p))
  {
  }

  function UnsafePaths(base: Baseline, ignores: seq<Rule>, inventory: set<string>): set<string> {
    set r | r in ignores && Unsafe(base, inventory, r) :: r.path
  }

  /** When each failure is reported. */
  ghost predicate Fails(policy: Policy, b: Baseline, base: Option<Baseline>, c: Commit, f: Failure)
    requires Complete(b, base, c)
  {
    if OfModule(f) then ModuleFails(policy, b, base, c, f) else base.Some? && PolicyFails(b, base.value, c.inventory, f)
  }

  ghost predicate PolicyFails(b: Baseline, base: Baseline, inventory: set<string>, f: Failure) {
    match f
    case TargetFell => b.target < base.target
    case DiffTargetFell => b.diffTarget < base.diffTarget
    case IgnoresWidened(paths) => paths != {} && paths == UnsafePaths(base, b.ignores, inventory)
    case _ => false
  }

  ghost predicate ModuleFails(policy: Policy, b: Baseline, base: Option<Baseline>, c: Commit, f: Failure)
    requires Complete(b, base, c) && OfModule(f)
  {
    if f.Stale? then f.sources != {} && f.sources == Extra(policy, c, f.name)
    else if f.Missing? then f.sources != {} && f.sources == Required(policy, b, c, f.name) - c.reports[f.name].Keys
    else CountFails(b, base, Measured(b, c, f.name), MeasuredDiff(b, c, f.name), f)
  }

  ghost predicate CountFails(b: Baseline, base: Option<Baseline>, measured: (int, int), diff: (int, int), f: Failure)
    requires HasCounts(b) && (base.Some? ==> HasCounts(base.value)) && OfModule(f)
  {
    var declared := b.modules[f.name];
    match f
    case CountsDiffer(name) => measured != (declared.covered, declared.total)
    case RatioFell(name) => base.Some? && declared.Ratio() < base.value.modules[name].Ratio()
    case DiffBelow(name) => diff.1 > 0 && Ratio(diff) < b.diffTarget
    case FloorBelow(name) => declared.Ratio() >= b.target && measured.1 > 0 && Ratio(measured) < b.target
    case _ => false
  }

  predicate OfModule(f: Failure) {
    !f.TargetFell? && !f.DiffTargetFell? && !f.IgnoresWidened?
  }

  ghost predicate HasCounts(b: Baseline) {
    forall n: Name :: n in b.modules && b.modules[n].total > 0
  }

  /** Each module has its counts and its report. */
  ghost predicate Complete(b: Baseline, base: Option<Baseline>, c: Commit) {
    HasCounts(b) && (base.Some? ==> HasCounts(base.value)) && forall n: Name :: n in c.reports
  }

  /** Each module has something left to count. */
  ghost predicate Counted(b: Baseline, c: Commit)
    requires forall n: Name :: n in c.reports
  {
    forall n: Name :: Measured(b, c, n).1 > 0
  }

  /** The policy part: targets and rules against those of the base. */
  method CheckPolicy(b: Baseline, base: Baseline, inventory: set<string>) returns (failures: seq<Failure>)
    ensures forall f :: f in failures <==> PolicyFails(b, base, inventory, f)
  {
    failures := [];
    if b.target < base.target {
      failures := failures + [TargetFell];
    }
    if b.diffTarget < base.diffTarget {
      failures := failures + [DiffTargetFell];
    }
    var unsafe := UnsafeRules(b, base, inventory);
    if unsafe != {} {
      failures := failures + [IgnoresWidened(unsafe)];
    }
  }

  method UnsafeRules(b: Baseline, base: Baseline, inventory: set<string>) returns (paths: set<string>)
    ensures paths == UnsafePaths(base, b.ignores, inventory)
  {
    paths := {};
    for i := 0 to |b.ignores|
      invariant paths == UnsafePaths(base, b.ignores[..i], inventory)
    {
      assert b.ignores[..i + 1] == b.ignores[..i] + [b.ignores[i]];
      if Unsafe(base, inventory, b.ignores[i]) {
        paths := paths + {b.ignores[i].path};
      }
    }
    assert b.ignores[..|b.ignores|] == b.ignores;
  }

  predicate Names(f: Failure, name: Name) {
    OfModule(f) && f.name == name
  }

  /** The presence part: what a report names too much, and too little. */
  method CheckSources(policy: Policy, b: Baseline, c: Commit, name: Name) returns (failures: seq<Failure>)
    requires name in c.reports
    ensures forall f :: f in failures <==>
              || (f == Stale(name, Extra(policy, c, name)) && Extra(policy, c, name) != {})
              || (f == Missing(name, Required(policy, b, c, name) - c.reports[name].Keys)
                  && Required(policy, b, c, name) - c.reports[name].Keys != {})
  {
    failures := [];
    var extra := Extra(policy, c, name);
    if extra != {} {
      failures := failures + [Stale(name, extra)];
    }
    var missing := Required(policy, b, c, name) - c.reports[name].Keys;
    if missing != {} {
      failures := failures + [Missing(name, missing)];
    }
  }

  /** The counting part. */
  method CheckCounts(b: Baseline, base: Option<Baseline>, c: Commit, name: Name) returns (r: Result<seq<Failure>>)
    requires Complete(b, base, c)
    ensures r.Ok? <==> Measured(b, c, name).1 > 0
    ensures r.Ok? ==> forall f :: f in r.value <==>
                        Names(f, name) && CountFails(b, base, Measured(b, c, name), MeasuredDiff(b, c, name), f)
  {
    var rules := RulesByPath(b.ignores, name, false);
    var counted := FilteredCounts(c.reports[name], rules);
    if counted.Err? {
      return Err(counted.reason);
    }
    var diffCovered, diffTotal := DiffCounts(c.reports[name], c.changed, rules);
    DiffIsPartOfTotal(c.reports[name], c.changed, rules);
    var failures := JudgeCounts(b, base, name, counted.value, (diffCovered, diffTotal));
    r := Ok(failures);
  }

  method JudgeCounts(b: Baseline, base: Option<Baseline>, name: Name, measured: (int, int), diff: (int, int))
      returns (failures: seq<Failure>)
    requires HasCounts(b) && (base.Some? ==> HasCounts(base.value)) && measured.1 > 0 && diff.1 >= 0
    ensures forall f :: f in failures <==> Names(f, name) && CountFails(b, base, measured, diff, f)
  {
    var declared := b.modules[name];
    failures := [];
    if measured != (declared.covered, declared.total) {
      failures := failures + [CountsDiffer(name)];
    }
    if base.Some? && declared.Ratio() < base.value.modules[name].Ratio() {
      failures := failures + [RatioFell(name)];
    }
    if diff.1 != 0 && Ratio(diff) < b.diffTarget {
      failures := failures + [DiffBelow(name)];
    }
    if declared.Ratio() >= b.target && Ratio(measured) < b.target {
      failures := failures + [FloorBelow(name)];
    }
  }

  ghost predicate FoundSoFar(policy: Policy, b: Baseline, base: Option<Baseline>, c: Commit, names: seq<Name>,
                             failures: seq<Failure>)
    requires Complete(b, base, c)
  {
    forall f :: f in failures <==> Fails(policy, b, base, c, f) && (OfModule(f) ==> f.name in names)
  }

  method CheckModule(policy: Policy, b: Baseline, base: Option<Baseline>, c: Commit, name: Name)
      returns (r: Result<seq<Failure>>)
    requires Complete(b, base, c)
    ensures r.Ok? <==> Measured(b, c, name).1 > 0
    ensures r.Ok? ==> forall f :: f in r.value <==> Names(f, name) && ModuleFails(policy, b, base, c, f)
  {
    var sources := CheckSources(policy, b, c, name);
    var counts := CheckCounts(b, base, c, name);
    r := if counts.Err? then counts else Ok(sources + counts.value);
  }

  /** The gate: an error if some module has nothing left to count, otherwise exactly the
      failures there are. */
  method EvaluateGate(policy: Policy, b: Baseline, base: Option<Baseline>, c: Commit) returns (r: Result<seq<Failure>>)
    requires Complete(b, base, c)
    ensures r.Ok? <==> Counted(b, c)
    ensures r.Ok? ==> forall f :: f in r.value <==> Fails(policy, b, base, c, f)
  {
    var failures := [];
    if base.Some? {
      failures := CheckPolicy(b, base.value, c.inventory);
    }
    AllNames();
    for i := 0 to |NAMES|
      invariant forall j :: 0 <= j < i ==> Measured(b, c, NAMES[j]).1 > 0
      invariant FoundSoFar(policy, b, base, c, NAMES[..i], failures)
    {
      var found := CheckModule(policy, b, base, c, NAMES[i]);
      if found.Err? {
        return found;
      }
      assert NAMES[..i + 1] == NAMES[..i] + [NAMES[i]];
      failures := failures + found.value;
    }
    assert NAMES[..|NAMES|] == NAMES;
    forall n: Name ensures Measured(b, c, n).1 > 0 {
      assert n in NAMES;
    }
    r := Ok(failures);
  }

  lemma AllNames()
    ensures forall n: Name :: n in NAMES
  {
    forall n: Name ensures n in NAMES {
      match n
      case Daemon => assert n == NAMES[0];
      case Cli => assert n == NAMES[1];
      case Flutter => assert n == NAMES[2];
    }
  }
}
