/** Kahn's algorithm over the steps a flow can reach, ties broken by node id. */
module FlowOrder {
  import opened Text
  import opened FlowGraph
  import Flows

  /** What can be popped next: the steps left over that no step left over leads to. */
  ghost function Available(f: Flow, left: set<string>): set<string> {
    set n | n in left && !HasPredecessor(f, left, n)
  }

  ghost function First(s: set<string>): (x: string)
    requires s != {}
    ensures IsLeast(x, s)
  {
    LeastExists(s);
    var x :| IsLeast(x, s);
    x
  }

  /** The order by definition: as long as anything is available, the first of it. */
  ghost function PopOrder(f: Flow, left: set<string>): (order: seq<string>)
    decreases left
  {
    if Available(f, left) == {} then []
    else
      var n := First(Available(f, left));
      [n] + PopOrder(f, left - {n})
  }

  /** The agents of the agent steps, each at its first occurrence. */
  ghost function AgentsOf(f: Flow, order: seq<string>): (agents: seq<string>)
  {
    if order == [] then []
    else
      var n := order[|order| - 1];
      var before := AgentsOf(f, order[..|order| - 1]);
      if IsAgentStep(f, n) && f.nodes[n].agent !in before then before + [f.nodes[n].agent] else before
  }

  predicate IsAgentStep(f: Flow, n: string) {
    n in f.nodes && f.nodes[n].kind == NODE_AGENT
  }

  lemma {:induction false} AgentsOfIsDistinctCover(f: Flow, order: seq<string>)
    ensures Distinct(AgentsOf(f, order))
    ensures forall a :: a in AgentsOf(f, order) <==>
            exists n :: n in order && IsAgentStep(f, n) && f.nodes[n].agent == a
  {
    if order != [] {
      var front, last := order[..|order| - 1], order[|order| - 1];
      assert order == front + [last];
      AgentsOfIsDistinctCover(f, front);
      forall a ensures a in AgentsOf(f, order) <==>
          exists n :: n in order && IsAgentStep(f, n) && f.nodes[n].agent == a {
        if n :| n in order && IsAgentStep(f, n) && f.nodes[n].agent == a {
          assert n in front || n == last;
        }
      }
    }
  }

  lemma {:induction false} PopOrderPopsOnce(f: Flow, left: set<string>)
    requires forall n :: n in left ==> n in f.nodes
    ensures forall n :: n in PopOrder(f, left) ==> n in left
    ensures Distinct(PopOrder(f, left))
    decreases left
  {
    if Available(f, left) != {} {
      PopOrderPopsOnce(f, left - {First(Available(f, left))});
    }
  }

  /** A popped step comes after every step of the set that leads to it. */
  lemma {:induction false} PopOrderAfterPredecessors(f: Flow, left: set<string>, m: string, k: nat)
    requires k < |PopOrder(f, left)| && m in left && Edge(f, m, PopOrder(f, left)[k])
    ensures m in PopOrder(f, left)[..k]
    decreases left
  {
    var n := First(Available(f, left));
    var rest := PopOrder(f, left - {n});
    assert PopOrder(f, left) == [n] + rest;
    if k == 0 {
      NoPredecessorOfAvailable(f, left, m, n);
      assert false;
    } else {
      assert ([n] + rest)[..k] == [n] + rest[..k - 1];
      if m != n {
        PopOrderAfterPredecessors(f, left - {n}, m, k - 1);
      }
    }
  }

  lemma NoPredecessorOfAvailable(f: Flow, left: set<string>, m: string, n: string)
    requires m in left && n in Available(f, left)
    ensures !Edge(f, m, n)
  {
    assert !HasPredecessor(f, left, n);
  }

  lemma {:induction false} PopOrderIsComplete(f: Flow, left: set<string>)
    requires forall n :: n in left ==> n in f.nodes && !OnCycle(f, n)
    ensures forall n :: n in left ==> n in PopOrder(f, left)
    decreases left
  {
    if left != {} {
      SetOffCyclesHasSource(f, left);
      var s :| s in left && !HasPredecessor(f, left, s);
      assert s in Available(f, left);
      PopOrderIsComplete(f, left - {First(Available(f, left))});
    }
  }

  /** Kahn's order lists every reachable step once and after all the reachable steps
      that lead to it, exactly when no cycle can be reached; else some are missing. */
  lemma OrderIsTopological(f: Flow)
    ensures Distinct(PopOrder(f, ReachSet(f))) && forall n :: n in PopOrder(f, ReachSet(f)) ==> n in ReachSet(f)
    ensures var order := PopOrder(f, ReachSet(f));
      forall m, k :: 0 <= k < |order| && m in ReachSet(f) && Edge(f, m, order[k]) ==> m in order[..k]
    ensures Elements(PopOrder(f, ReachSet(f))) == ReachSet(f) <==> forall n :: n in ReachSet(f) ==> !OnCycle(f, n)
  {
    var reach := ReachSet(f);
    var order := PopOrder(f, reach);
    PopOrderPopsOnce(f, reach);
    forall m, k | 0 <= k < |order| && m in reach && Edge(f, m, order[k])
      ensures m in order[..k]
    {
      PopOrderAfterPredecessors(f, reach, m, k);
    }
    if forall n :: n in reach ==> !OnCycle(f, n) {
      PopOrderIsComplete(f, reach);
    }
    if Elements(order) == reach {
      forall n | n in reach ensures !OnCycle(f, n) {
        CompleteOrderHasNoCycle(f, n);
      }
    }
  }

  lemma CompleteOrderHasNoCycle(f: Flow, n: string)
    requires Elements(PopOrder(f, ReachSet(f))) == ReachSet(f) && Distinct(PopOrder(f, ReachSet(f))) && n in ReachSet(f)
    ensures !OnCycle(f, n)
  {
    var order := PopOrder(f, ReachSet(f));
    assert n in Elements(order);
    var i :| 0 <= i < |order| && order[i] == n;
    forall p | |p| >= 2 && IsPath(f, p) && p[0] == n ensures p[|p| - 1] != n {
      var j := OrderAscends(f, order, p, i, |p| - 1);
    }
  }

  lemma {:induction false} OrderAscends(f: Flow, order: seq<string>, p: seq<string>, i: nat, k: nat) returns (j: nat)
    requires order == PopOrder(f, ReachSet(f)) && Elements(order) == ReachSet(f)
    requires Distinct(order)
    requires IsPath(f, p) && i < |order| && order[i] == p[0] && k < |p|
    ensures j < |order| && order[j] == p[k] && (if k == 0 then j == i else j > i)
  {
    if k == 0 {
      j := i;
    } else {
      var h := OrderAscends(f, order, p, i, k - 1);
      assert Edge(f, order[h], p[(k - 1) + 1]);
      assert order[h] in ReachSet(f);
      ReachesStep(f, f.start, order[h], p[k]);
      assert p[k] in Elements(order);
      j :| 0 <= j < |order| && order[j] == p[k];
      PopOrderAfterPredecessors(f, ReachSet(f), order[h], j);
    }
  }

  function EdgesOf(f: Flow, n: string): seq<string> {
    if n in f.nodes then f.nodes[n].Edges() else []
  }

  /** The targets of every edge that leaves the set, repeated as often as they are named. */
  ghost function Targets(f: Flow, left: set<string>): multiset<string> {
    if left == {} then multiset{}
    else
      var n :| n in left;
      multiset(EdgesOf(f, n)) + Targets(f, left - {n})
  }

  lemma {:induction false} TargetsSplit(f: Flow, left: set<string>, n: string)
    requires n in left
    ensures Targets(f, left) == multiset(EdgesOf(f, n)) + Targets(f, left - {n})
    decreases left
  {
    var m :| m in left && Targets(f, left) == multiset(EdgesOf(f, m)) + Targets(f, left - {m});
    if m != n {
      TargetsSplit(f, left - {m}, n);
      TargetsSplit(f, left - {n}, m);
      assert left - {m} - {n} == left - {n} - {m};
    }
  }

  /** Nothing in the set leads to e exactly when e is nobody's target. */
  lemma {:induction false} TargetsArePredecessors(f: Flow, left: set<string>, e: string)
    requires e in f.nodes && forall n :: n in left ==> n in f.nodes
    ensures e in Targets(f, left) <==> HasPredecessor(f, left, e)
    decreases left
  {
    if left != {} {
      var m :| m in left;
      TargetsSplit(f, left, m);
      TargetsArePredecessors(f, left - {m}, e);
      assert e in multiset(EdgesOf(f, m)) <==> Edge(f, m, e);
      if HasPredecessor(f, left, e) {
        var k :| k in left && Edge(f, k, e);
        assert k == m || k in left - {m};
      }
    }
  }

  function Degree(indeg: map<string, int>, e: string): int {
    if e in indeg then indeg[e] else 0
  }

  /** The counts are those of t, for every reachable step. */
  ghost predicate Counts(reach: set<string>, indeg: map<string, int>, t: multiset<string>) {
    forall e :: e in reach ==> Degree(indeg, e) == t[e]
  }

  method AddEdges(reach: set<string>, edges: seq<string>, indeg0: map<string, int>, ghost t: multiset<string>)
    returns (indeg: map<string, int>)
    requires indeg0.Keys <= reach && Counts(reach, indeg0, t)
    ensures indeg0.Keys <= indeg.Keys <= reach && Counts(reach, indeg, t + multiset(edges))
  {
    indeg := indeg0;
    for i := 0 to |edges|
      invariant indeg0.Keys <= indeg.Keys <= reach && Counts(reach, indeg, t + multiset(edges[..i]))
    {
      assert edges[..i + 1] == edges[..i] + [edges[i]];
      if edges[i] in reach {
        indeg := indeg[edges[i] := Degree(indeg, edges[i]) + 1];
      }
    }
    assert edges[..|edges|] == edges;
  }

  /** The edges of some steps have been counted, and each of those steps is counted itself. */
  ghost predicate Tallied(f: Flow, reach: set<string>, done: set<string>, indeg: map<string, int>) {
    done <= indeg.Keys <= reach && Counts(reach, indeg, Targets(f, done))
  }

  /** Counts the edges of one more step, which is counted itself even if none lead to it. */
  method CountStep(f: Flow, reach: set<string>, id: string, indeg0: map<string, int>, ghost done: set<string>)
      returns (indeg: map<string, int>)
    requires id in reach && id in f.nodes && id !in done && forall n :: n in reach ==> n in f.nodes
    requires Tallied(f, reach, done, indeg0)
    ensures Tallied(f, reach, done + {id}, indeg)
  {
    TargetsOneMore(f, done, id);
    ghost var t := Targets(f, done);
    TouchKeepsCounts(reach, indeg0, t, id);
    indeg := AddEdges(reach, f.nodes[id].Edges(), indeg0[id := Degree(indeg0, id)], t);
  }

  lemma TargetsOneMore(f: Flow, done: set<string>, id: string)
    requires id !in done && forall n :: n in done + {id} ==> n in f.nodes
    ensures Targets(f, done + {id}) == Targets(f, done) + multiset(f.nodes[id].Edges())
  {
    TargetsSplit(f, done + {id}, id);
    assert (done + {id}) - {id} == done;
  }

  lemma TouchKeepsCounts(reach: set<string>, indeg: map<string, int>, t: multiset<string>, id: string)
    requires Counts(reach, indeg, t)
    ensures Counts(reach, indeg[id := Degree(indeg, id)], t)
  {
  }

  /** Counts the edges between reachable steps, reading the set in any order. */
  method InDegrees(f: Flow, reach: set<string>) returns (indeg: map<string, int>)
    requires forall n :: n in reach ==> n in f.nodes
    ensures indeg.Keys == reach && Counts(reach, indeg, Targets(f, reach))
  {
    indeg := map[];
    var rest := reach;
    NothingTallied(f, reach);
    while rest != {}
      invariant rest <= reach && Tallied(f, reach, reach - rest, indeg)
      decreases rest
    {
      var id :| id in rest;
      indeg := CountStep(f, reach, id, indeg, reach - rest);
      OneMoreDone(reach, rest, id);
      rest := rest - {id};
    }
    AllDone(reach, rest);
  }

  lemma OneMoreDone(all: set<string>, rest: set<string>, id: string)
    requires rest <= all && id in rest
    ensures all - (rest - {id}) == (all - rest) + {id}
  {
  }

  lemma AllDone(all: set<string>, rest: set<string>)
    requires rest == {}
    ensures all - rest == all
  {
  }

  lemma NothingTallied(f: Flow, reach: set<string>)
    ensures Tallied(f, reach, reach - reach, map[])
  {
    assert reach - reach == {};
  }

  /** Every reachable step knows how many edges still lead to it, and the popped ones have none. */
  ghost predicate Counted(f: Flow, reach: set<string>, left: set<string>, indeg: map<string, int>) {
    && left <= reach && indeg.Keys == reach
    && (forall n :: n in reach ==> n in f.nodes)
    && Counts(reach, indeg, Targets(f, left))
    && (forall e :: e in reach - left ==> e !in Targets(f, left))
  }

  ghost predicate ReadyIs(ready: seq<string>, left: set<string>, indeg: map<string, int>) {
    && Distinct(ready)
    && forall n :: n in ready <==> n in left && Degree(indeg, n) == 0
  }

  lemma ReadyIsAvailable(f: Flow, reach: set<string>, left: set<string>, indeg: map<string, int>, ready: seq<string>)
    requires Counted(f, reach, left, indeg) && ReadyIs(ready, left, indeg)
    ensures Elements(ready) == Available(f, left)
  {
    forall n ensures n in ready <==> n in Available(f, left) {
      if n in left {
        TargetsArePredecessors(f, left, n);
      }
    }
  }

  /** Takes the popped step's edges off the counts; a step whose count drops to zero becomes ready. */
  method Release(reach: set<string>, edges: seq<string>, indeg0: map<string, int>, ready0: seq<string>,
                 ghost left: set<string>, ghost t: multiset<string>)
    returns (indeg: map<string, int>, ready: seq<string>)
    requires indeg0.Keys == reach && Counts(reach, indeg0, t + multiset(edges))
    requires forall e :: e in edges && e in reach ==> e in left
    requires ReadyIs(ready0, left, indeg0)
    ensures indeg.Keys == reach && Counts(reach, indeg, t) && ReadyIs(ready, left, indeg)
  {
    indeg, ready := indeg0, ready0;
    assert edges[0..] == edges;
    for i := 0 to |edges|
      invariant indeg.Keys == reach
      invariant Counts(reach, indeg, t + multiset(edges[i..]))
      invariant ReadyIs(ready, left, indeg)
    {
      var e := edges[i];
      assert edges[i..] == [e] + edges[i + 1..];
      if e !in reach {
        continue;
      }
      assert Degree(indeg, e) > 0;
      indeg := indeg[e := indeg[e] - 1];
      if indeg[e] == 0 {
        ready := ready + [e];
      }
    }
    assert edges[|edges|..] == [];
  }

  /** A popped step has no edge to a step popped before it, nor to itself. */
  lemma PopKeepsCounted(f: Flow, reach: set<string>, left: set<string>, indeg: map<string, int>, id: string)
    requires Counted(f, reach, left, indeg) && id in left && indeg[id] == 0
    ensures Targets(f, left) == Targets(f, left - {id}) + multiset(EdgesOf(f, id))
    ensures forall e :: e in EdgesOf(f, id) && e in reach ==> e in left - {id}
    ensures forall e :: e in reach - (left - {id}) ==> e !in Targets(f, left - {id})
  {
    TargetsSplit(f, left, id);
    forall e | e in EdgesOf(f, id) && e in reach ensures e in left - {id} {
      assert e in multiset(EdgesOf(f, id));
      assert e in Targets(f, left);
    }
  }

  method InitiallyReady(reach: set<string>, indeg: map<string, int>) returns (ready: seq<string>)
    requires indeg.Keys == reach
    ensures ReadyIs(ready, reach, indeg)
  {
    ready := [];
    var rest := reach;
    while rest != {}
      invariant rest <= reach && ReadyIs(ready, reach - rest, indeg)
      decreases rest
    {
      var id :| id in rest;
      if indeg[id] == 0 {
        ready := ready + [id];
      }
      rest := rest - {id};
    }
    assert reach - rest == reach;
  }

  /** Sorts the ready list and takes its head. */
  method PopFirst(ready: seq<string>, ghost left: set<string>, ghost indeg: map<string, int>)
    returns (id: string, rest: seq<string>)
    requires ready != [] && ReadyIs(ready, left, indeg)
    ensures IsLeast(id, Elements(ready)) && ReadyIs(rest, left - {id}, indeg)
  {
    var sorted := Sort(ready);
    PermutationKeepsElements(ready, sorted);
    assert forall n :: n in sorted <==> n in Elements(ready);
    HeadIsLeast(sorted);
    id, rest := sorted[0], sorted[1..];
    assert sorted == [id] + rest;
  }

  method Pop(f: Flow, reach: set<string>, indeg0: map<string, int>, ready0: seq<string>, ghost left: set<string>)
    returns (id: string, indeg: map<string, int>, ready: seq<string>)
    requires ready0 != [] && Counted(f, reach, left, indeg0) && ReadyIs(ready0, left, indeg0)
    ensures IsLeast(id, Available(f, left))
    ensures Counted(f, reach, left - {id}, indeg) && ReadyIs(ready, left - {id}, indeg)
  {
    ReadyIsAvailable(f, reach, left, indeg0, ready0);
    id, ready := PopFirst(ready0, left, indeg0);
    PopKeepsCounted(f, reach, left, indeg0, id);
    indeg, ready := Release(reach, f.nodes[id].Edges(), indeg0, ready, left - {id}, Targets(f, left - {id}));
  }

  /** What has been popped so far, and its agents, are the front of the order. */
  ghost predicate Front(f: Flow, left: set<string>, order: seq<string>, out: seq<string>) {
    && out == AgentsOf(f, order)
    && PopOrder(f, ReachSet(f)) == order + PopOrder(f, left)
  }

  lemma FrontStep(f: Flow, left: set<string>, order: seq<string>, out: seq<string>, id: string)
    requires Front(f, left, order, out) && IsLeast(id, Available(f, left))
    ensures Front(f, left - {id}, order + [id],
                  if IsAgentStep(f, id) && f.nodes[id].agent !in out then out + [f.nodes[id].agent] else out)
  {
    LeastIsUnique(id, First(Available(f, left)), Available(f, left));
    assert (order + [id])[..|order|] == order;
  }

  /** The distinct agents of Kahn's order, whatever order the maps are read in. */
  method TopoAgentOrder(f: Flow) returns (out: seq<string>)
    ensures out == AgentsOf(f, PopOrder(f, ReachSet(f)))
  {
    var reach := Flows.Reachable(f);
    var indeg := InDegrees(f, reach);
    var ready := InitiallyReady(reach, indeg);
    out := [];
    ghost var left, order := reach, [];
    while |ready| > 0
      invariant Counted(f, reach, left, indeg) && ReadyIs(ready, left, indeg)
      invariant Front(f, left, order, out)
      decreases left
    {
      var id;
      id, indeg, ready := Pop(f, reach, indeg, ready, left);
      FrontStep(f, left, order, out, id);
      if IsAgentStep(f, id) && f.nodes[id].agent !in out {
        out := out + [f.nodes[id].agent];
      }
      order := order + [id];
      left := left - {id};
    }
    ReadyIsAvailable(f, reach, left, indeg, ready);
    assert order + [] == order;
  }
}
