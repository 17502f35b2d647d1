/** What the gate keeps over a whole history of commits. */
module RatchetHistory {
  import opened Wrappers
  import opened Reports
  import opened Ratchet

  /** The gate reports no failure. */
  ghost predicate Passes(policy: Policy, b: Baseline, base: Option<Baseline>, c: Commit) {
    Complete(b, base, c) && Counted(b, c) && forall f :: !Fails(policy, b, base, c, f)
  }

  function BaseOf(bs: seq<Baseline>, i: nat): Option<Baseline>
    requires i < |bs|
  {
    if i == 0 then None else Some(bs[i - 1])
  }

  ghost predicate Judged(policy: Policy, bs: seq<Baseline>, cs: seq<Commit>, i: nat)
    requires |bs| == |cs| && i < |bs|
  {
    Passes(policy, bs[i], BaseOf(bs, i), cs[i])
  }

  /** Each commit passes against the baseline of the one before; the first has none. */
  ghost predicate Chain(policy: Policy, bs: seq<Baseline>, cs: seq<Commit>) {
    && |bs| == |cs|
    && (forall i :: 0 <= i < |bs| ==> ProperBaseline(policy, bs[i]))
    && (forall i :: 0 <= i < |bs| ==> Judged(policy, bs, cs, i))
  }

  ghost predicate CoverageRulesWithin(after: seq<Rule>, before: seq<Rule>) {
    forall r :: r in after && r.scope.Coverage? ==> r in before
  }

  ghost predicate RatiosRise(before: Baseline, after: Baseline)
    requires HasCounts(before) && HasCounts(after)
  {
    forall n: Name :: before.modules[n].Ratio() <= after.modules[n].Ratio()
  }

  ghost predicate PolicyRises(before: Baseline, after: Baseline) {
    && before.target <= after.target && before.diffTarget <= after.diffTarget
    && CoverageRulesWithin(after.ignores, before.ignores)
  }

  /** A passing commit measures exactly what its baseline declares. */
  lemma MeasuredIsDeclared(policy: Policy, b: Baseline, base: Option<Baseline>, c: Commit, name: Name)
    requires Passes(policy, b, base, c)
    ensures Measured(b, c, name) == (b.modules[name].covered, b.modules[name].total)
    ensures MeasuredDiff(b, c, name).1 > 0 ==> Ratio(MeasuredDiff(b, c, name)) >= b.diffTarget
  {
    assert !Fails(policy, b, base, c, CountsDiffer(name));
    assert !Fails(policy, b, base, c, DiffBelow(name));
  }

  ghost predicate NewUniverseRule(before: Baseline, c: Commit, r: Rule) {
    r.scope.Universe? && r.path in c.inventory && forall x :: x in before.ignores ==> !Keyed(x, r.owner, r.path)
  }

  lemma UnsafeIsListed(base: Baseline, ignores: seq<Rule>, inventory: set<string>)
    ensures UnsafePaths(base, ignores, inventory) == {} <==> forall r :: r in ignores ==> !Unsafe(base, inventory, r)
  {
    forall r | r in ignores && Unsafe(base, inventory, r) ensures r.path in UnsafePaths(base, ignores, inventory) {
    }
  }

  lemma PassingKeepsPolicy(policy: Policy, before: Baseline, after: Baseline, c: Commit)
    requires Passes(policy, after, Some(before), c)
    ensures PolicyRises(before, after)
    ensures forall r :: r in after.ignores ==> r in before.ignores || NewUniverseRule(before, c, r)
  {
    assert !Fails(policy, after, Some(before), c, TargetFell);
    assert !Fails(policy, after, Some(before), c, DiffTargetFell);
    assert !Fails(policy, after, Some(before), c, IgnoresWidened(UnsafePaths(before, after.ignores, c.inventory)));
    UnsafeIsListed(before, after.ignores, c.inventory);
    forall r | r in after.ignores
      ensures r in before.ignores || NewUniverseRule(before, c, r) {
      FindIsMember(before.ignores, r.owner, r.path);
    }
  }

  lemma PassingKeepsRatios(policy: Policy, before: Baseline, after: Baseline, c: Commit)
    requires Passes(policy, after, Some(before), c)
    ensures RatiosRise(before, after)
  {
    forall n: Name ensures before.modules[n].Ratio() <= after.modules[n].Ratio() {
      assert !Fails(policy, after, Some(before), c, RatioFell(n));
    }
  }

  lemma {:induction false} PolicyOnlyRises(policy: Policy, bs: seq<Baseline>, cs: seq<Commit>, i: nat, j: nat)
    requires Chain(policy, bs, cs) && i <= j < |bs|
    ensures PolicyRises(bs[i], bs[j])
    decreases j
  {
    if i < j {
      PolicyOnlyRises(policy, bs, cs, i, j - 1);
      assert Judged(policy, bs, cs, j);
      PassingKeepsPolicy(policy, bs[j - 1], bs[j], cs[j]);
    }
  }

  lemma {:induction false} RatiosOnlyRise(policy: Policy, bs: seq<Baseline>, cs: seq<Commit>, i: nat, j: nat)
    requires Chain(policy, bs, cs) && i <= j < |bs|
    ensures RatiosRise(bs[i], bs[j])
    decreases j
  {
    if i < j {
      RatiosOnlyRise(policy, bs, cs, i, j - 1);
      assert Judged(policy, bs, cs, j);
      PassingKeepsRatios(policy, bs[j - 1], bs[j], cs[j]);
    }
  }

  /** The covered share of b is no less than that of a, without dividing. */
  predicate NoWorse(a: (int, int), b: (int, int)) {
    a.0 * b.1 <= b.0 * a.1
  }

  /** The covered share reaches the target, or there is nothing to cover. */
  predicate Reaches(c: (int, int), target: real) {
    c.0 as real >= target * c.1 as real
  }

  lemma RatiosCompare(a: (int, int), b: (int, int))
    requires a.1 > 0 && b.1 > 0
    ensures Ratio(a) <= Ratio(b) <==> NoWorse(a, b)
  {
    var x, y := Ratio(a), Ratio(b);
    Divided(a);
    Divided(b);
    var m, n := a.1 as real, b.1 as real;
    Scaled(x, y, m * n);
    assert (a.0 * b.1) as real == x * (m * n) && (b.0 * a.1) as real == y * (m * n);
  }

  lemma Divided(c: (int, int))
    requires c.1 > 0
    ensures Ratio(c) * c.1 as real == c.0 as real
  {
  }

  lemma Scaled(x: real, y: real, m: real)
    requires m > 0.0
    ensures x <= y <==> x * m <= y * m
  {
  }

  lemma RatioReaches(c: (int, int), target: real)
    requires c.1 > 0
    ensures Ratio(c) >= target <==> Reaches(c, target)
  {
    Divided(c);
    Scaled(target, Ratio(c), c.1 as real);
  }

  lemma MeasuredRises(policy: Policy, b: Baseline, base: Option<Baseline>, c: Commit,
                      b': Baseline, base': Option<Baseline>, c': Commit, name: Name)
    requires Passes(policy, b, base, c) && Passes(policy, b', base', c')
    requires b.modules[name].Ratio() <= b'.modules[name].Ratio()
    ensures NoWorse(Measured(b, c, name), Measured(b', c', name))
  {
    MeasuredIsDeclared(policy, b, base, c, name);
    MeasuredIsDeclared(policy, b', base', c', name);
    RatiosCompare(Measured(b, c, name), Measured(b', c', name));
  }

  lemma DiffReaches(policy: Policy, b: Baseline, base: Option<Baseline>, c: Commit, name: Name, target: real)
    requires Passes(policy, b, base, c) && target <= b.diffTarget
    ensures Reaches(MeasuredDiff(b, c, name), target)
  {
    MeasuredIsDeclared(policy, b, base, c, name);
    var diff := MeasuredDiff(b, c, name);
    DiffIsPartOfTotal(c.reports[name], c.changed, RulesByPath(b.ignores, name, false));
    if diff.1 > 0 {
      RatioReaches(diff, target);
    } else {
      NothingReaches(diff, target);
    }
  }

  lemma NothingReaches(c: (int, int), target: real)
    requires c == (0, 0)
    ensures Reaches(c, target)
  {
  }

  /** Over any history: the targets and what is measured of each module never fall, and no
      coverage rule is ever added or altered. */
  lemma HistoryOnlyRises(policy: Policy, bs: seq<Baseline>, cs: seq<Commit>, i: nat, j: nat, name: Name)
    requires Chain(policy, bs, cs) && i <= j < |bs|
    ensures PolicyRises(bs[i], bs[j])
    ensures Complete(bs[i], BaseOf(bs, i), cs[i]) && Complete(bs[j], BaseOf(bs, j), cs[j])
    ensures Measured(bs[i], cs[i], name).1 > 0 && Measured(bs[j], cs[j], name).1 > 0
    ensures NoWorse(Measured(bs[i], cs[i], name), Measured(bs[j], cs[j], name))
    ensures Reaches(MeasuredDiff(bs[j], cs[j], name), bs[i].diffTarget)
  {
    PolicyOnlyRises(policy, bs, cs, i, j);
    RatiosOnlyRise(policy, bs, cs, i, j);
    assert Judged(policy, bs, cs, i) && Judged(policy, bs, cs, j);
    MeasuredRises(policy, bs[i], BaseOf(bs, i), cs[i], bs[j], BaseOf(bs, j), cs[j], name);
    DiffReaches(policy, bs[j], BaseOf(bs, j), cs[j], name, bs[i].diffTarget);
  }

  /** A rule that a later baseline has and an earlier one lacks is a universe rule, approved
      in the code, whose source existed when it came in. */
  lemma {:induction false} NewRulesAreApproved(policy: Policy, bs: seq<Baseline>, cs: seq<Commit>, i: nat, j: nat,
                                               r: Rule)
    requires Chain(policy, bs, cs) && i <= j < |bs| && r in bs[j].ignores && r !in bs[i].ignores
    ensures r.scope.Universe? && r.path in policy.exempt && exists k :: i < k <= j && r.path in cs[k].inventory
    decreases j
  {
    assert Judged(policy, bs, cs, j);
    PassingKeepsPolicy(policy, bs[j - 1], bs[j], cs[j]);
    if r in bs[j - 1].ignores {
      NewRulesAreApproved(policy, bs, cs, i, j - 1, r);
    } else {
      assert ProperRule(policy, r);
      assert r.path in cs[j].inventory;
    }
  }

  lemma RulesOnlyShrink(before: seq<Rule>, after: seq<Rule>, name: Name)
    requires DistinctKeys(before) && DistinctKeys(after) && CoverageRulesWithin(after, before)
    ensures forall p :: p in RulesByPath(after, name, false) ==>
              p in RulesByPath(before, name, false) &&
                  RulesByPath(before, name, false)[p] == RulesByPath(after, name, false)[p]
  {
    RulesByPathAre(before, name, false);
    RulesByPathAre(after, name, false);
    var rules := RulesByPath(after, name, false);
    forall p | p in rules ensures p in RulesByPath(before, name, false) &&
        RulesByPath(before, name, false)[p] == rules[p] {
      var r := rules[p];
      assert r in after && r.scope.Coverage? && r in before;
    }
  }

  /** So whatever counts under an earlier baseline counts under a later one: taken on any one
      report, the weight that is measured does not shrink by exemption. */
  lemma ExemptionsOnlyShrink(policy: Policy, bs: seq<Baseline>, cs: seq<Commit>, i: nat, j: nat, name: Name,
                             report: Report)
    requires Chain(policy, bs, cs) && i <= j < |bs|
    ensures var before, after := RulesByPath(bs[i].ignores, name, false), RulesByPath(bs[j].ignores, name, false);
      && (forall p, u :: Ignored(after, p, u) ==> Ignored(before, p, u))
      && FilteredWeight(report, before).1 <= FilteredWeight(report, after).1
  {
    PolicyOnlyRises(policy, bs, cs, i, j);
    var before, after := RulesByPath(bs[i].ignores, name, false), RulesByPath(bs[j].ignores, name, false);
    RulesOnlyShrink(bs[i].ignores, bs[j].ignores, name);
    WeighsAllInOrder(report, report.Keys, (p, u) => !Ignored(before, p, u), (p, u) => !Ignored(after, p, u));
  }

  /** The hard floor never fails alone: the counts then differ from the declared ones too. */
  lemma FloorIsRedundant(policy: Policy, b: Baseline, base: Option<Baseline>, c: Commit, name: Name)
    requires Complete(b, base, c) && Fails(policy, b, base, c, FloorBelow(name))
    ensures Fails(policy, b, base, c, CountsDiffer(name))
  {
  }
}
