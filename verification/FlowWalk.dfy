/** Evaluating a flow: the walk that picks the agents that review a pull request. */
module FlowWalk {
  import opened Text
  import opened FlowGraph
  import Flows
  import FlowOrder

  datatype PathStep =
    | Condition(node: string, holds: bool)
    | AgentStep(node: string, agent: string, available: bool, added: bool)
    | Revisit(node: string)
    | NoSuchStep(node: string)
    | UnknownKind(node: string)

  /** The outcome of each condition, and which agents are installed or configured.
      A walk evaluates a step at most once, so one answer per step is general. */
  datatype Moment = Moment(holds: string -> bool, available: string -> bool)

  /** What the walk does at one step. */
  function StepAt(f: Flow, at: Moment, node: string, visited: set<string>, picked: set<string>): (step: PathStep)
    ensures step.node == node
  {
    if node in visited then Revisit(node)
    else if node !in f.nodes then NoSuchStep(node)
    else
      var n := f.nodes[node];
      if n.kind == NODE_CONDITION then Condition(node, at.holds(node))
      else if n.kind == NODE_AGENT then
        AgentStep(node, n.agent, at.available(n.agent), at.available(n.agent) && n.agent !in picked)
      else UnknownKind(node)
  }

  predicate GoesOn(step: PathStep) {
    step.Condition? || step.AgentStep?
  }

  function NextNode(f: Flow, step: PathStep): string {
    if step.node !in f.nodes then ""
    else
      var n := f.nodes[step.node];
      match step
      case Condition(_, holds) => if holds then n.yes else n.no
      case AgentStep(_, _, _, _) => n.next
      case _ => ""
  }

  function Picked(picked: set<string>, step: PathStep): set<string> {
    if step.AgentStep? && step.added then picked + {step.agent} else picked
  }

  /** The steps of the walk from node on, having visited some steps and picked some agents. */
  function Steps(f: Flow, at: Moment, node: string, visited: set<string>, picked: set<string>): (path: seq<PathStep>)
    decreases f.nodes.Keys - visited
  {
    if node == "" then []
    else
      var step := StepAt(f, at, node, visited, picked);
      [step] + if GoesOn(step) then Steps(f, at, NextNode(f, step), visited + {node}, Picked(picked, step)) else []
  }

  /** The agents a path added, in order. */
  function Candidates(path: seq<PathStep>): seq<string> {
    if path == [] then []
    else (if path[0].AgentStep? && path[0].added then [path[0].agent] else []) + Candidates(path[1..])
  }

  lemma {:induction false} CandidatesOfConcat(a: seq<PathStep>, b: seq<PathStep>)
    ensures Candidates(a + b) == Candidates(a) + Candidates(b)
  {
    if a == [] {
      assert a + b == b;
    } else {
      assert (a + b)[1..] == a[1..] + b && (a + b)[0] == a[0];
      CandidatesOfConcat(a[1..], b);
      var first := if a[0].AgentStep? && a[0].added then [a[0].agent] else [];
      assert Candidates(a + b) == first + (Candidates(a[1..]) + Candidates(b));
    }
  }

  /** The walk as the daemon runs it; it stops on a loop or a dangling edge in any flow. */
  method Evaluate(f: Flow, at: Moment) returns (candidates: seq<string>, path: seq<PathStep>)
    ensures path == Steps(f, at, f.start, {}, {})
    ensures candidates == Candidates(path)
  {
    candidates, path := [], [];
    var seen: set<string>, visited: set<string> := {}, {};
    var node := f.start;
    while node != ""
      invariant Steps(f, at, f.start, {}, {}) == path + Steps(f, at, node, visited, seen)
      invariant candidates == Candidates(path)
      decreases f.nodes.Keys - visited, node != ""
    {
      var step := StepAt(f, at, node, visited, seen);
      CandidatesOfConcat(path, [step]);
      SplitFirst(path, step, Steps(f, at, node, visited, seen));
      path := path + [step];
      if step.AgentStep? && step.added {
        candidates := candidates + [step.agent];
      }
      seen := Picked(seen, step);
      if !GoesOn(step) {
        break;
      }
      visited := visited + {node};
      node := NextNode(f, step);
    }
    assert path + [] == path;
  }

  lemma SplitFirst(path: seq<PathStep>, step: PathStep, steps: seq<PathStep>)
    requires steps != [] && steps[0] == step
    ensures path + steps == (path + [step]) + steps[1..]
    ensures Candidates([step]) == if step.AgentStep? && step.added then [step.agent] else []
  {
    assert [step][1..] == [];
    assert Candidates([]) == [];
  }

  /** What every walk relies on: a start, edges to existing steps, known kinds with
      their own edges only, and no way round. */
  ghost predicate Walkable(f: Flow) {
    && (f.start == "" || f.start in f.nodes)
    && (forall n :: n in f.nodes ==> WalkableNode(f, f.nodes[n]))
    && Acyclic(f)
  }

  ghost predicate WalkableNode(f: Flow, n: FlowNode) {
    && Flows.GoodEdge(f, n.yes) && Flows.GoodEdge(f, n.no) && Flows.GoodEdge(f, n.next)
    && (n.kind == NODE_CONDITION ==> n.next == "")
    && (n.kind == NODE_AGENT ==> n.yes == "" && n.no == "")
    && (n.kind == NODE_CONDITION || n.kind == NODE_AGENT)
  }

  lemma ValidFlowsAreWalkable(r: Flows.Registry, f: Flow)
    requires Flows.ValidFlow(r, f)
    ensures Walkable(f)
  {
    if f.nodes == map[] {
      forall n ensures !OnCycle(f, n) {
      }
    }
  }

  ghost function NodesOf(path: seq<PathStep>): seq<string> {
    seq(|path|, i requires 0 <= i < |path| => path[i].node)
  }

  lemma LastIsNew(p: seq<string>, node: string)
    requires Distinct(p + [node])
    ensures node !in p && Elements(p + [node]) == Elements(p) + {node}
  {
    assert forall i :: 0 <= i < |p| ==> (p + [node])[i] == p[i];
    assert (p + [node])[|p|] == node;
  }

  /** node continues the path walked so far. */
  ghost predicate Continues(f: Flow, p: seq<string>, node: string) {
    && (p == [] || IsPath(f, p))
    && (node == "" || (if p == [] then node in f.nodes else Edge(f, p[|p| - 1], node)))
  }

  lemma StepContinuesPath(f: Flow, at: Moment, p: seq<string>, node: string, picked: set<string>)
    requires Walkable(f) && Continues(f, p, node) && node != ""
    ensures var step := StepAt(f, at, node, Elements(p), picked);
      GoesOn(step) && Continues(f, p + [node], NextNode(f, step))
    ensures Elements(p + [node]) == Elements(p) + {node} && node !in p && node in f.nodes
  {
    if p != [] {
      PathsExtend(f, p, node);
    }
    AcyclicPathsAreDistinct(f, p + [node]);
    LastIsNew(p, node);
    assert WalkableNode(f, f.nodes[node]);
  }

  lemma NodesOfCons(p: seq<string>, step: PathStep, rest: seq<PathStep>)
    ensures p + NodesOf([step] + rest) == (p + [step.node]) + NodesOf(rest)
  {
  }

  ghost predicate Unstopped(path: seq<PathStep>) {
    forall s :: s in path ==> GoesOn(s)
  }

  /** The nodes of the steps continue the path walked so far, and nothing stops the walk early. */
  lemma {:induction false} WalkContinuesPath(f: Flow, at: Moment, p: seq<string>, node: string, picked: set<string>,
                                             path: seq<PathStep>)
    requires Walkable(f) && Continues(f, p, node)
    requires path == Steps(f, at, node, Elements(p), picked)
    ensures Unstopped(path) && Continues(f, p + NodesOf(path), "")
    decreases |path|
  {
    if node == "" {
      assert p + NodesOf(path) == p;
    } else {
      StepContinuesPath(f, at, p, node, picked);
      var step := StepAt(f, at, node, Elements(p), picked);
      var rest := path[1..];
      assert path == [step] + rest;
      NodesOfCons(p, step, rest);
      WalkContinuesPath(f, at, p + [node], NextNode(f, step), Picked(picked, step), rest);
    }
  }

  lemma {:induction false} CandidatesAreSound(path: seq<PathStep>)
    ensures forall a :: a in Candidates(path) ==>
              exists i :: 0 <= i < |path| && path[i].AgentStep? && path[i].added && path[i].agent == a
  {
    if path != [] {
      CandidatesAreSound(path[1..]);
      forall a | a in Candidates(path)
        ensures exists i :: 0 <= i < |path| && path[i].AgentStep? && path[i].added && path[i].agent == a
      {
        if a in Candidates(path[1..]) {
          var i :| 0 <= i < |path[1..]| && path[1..][i].AgentStep? && path[1..][i].added && path[1..][i].agent == a;
          assert path[i + 1] == path[1..][i];
        } else {
          assert path[0].AgentStep?;
        }
      }
    }
  }

  /** Candidates are available, new, and pairwise different; an agent step names its node's agent. */
  lemma {:induction false} StepsAddOnce(f: Flow, at: Moment, node: string, visited: set<string>, picked: set<string>)
    ensures var path := Steps(f, at, node, visited, picked);
      && Distinct(Candidates(path))
      && (forall a :: a in Candidates(path) ==> a !in picked && at.available(a))
      && (forall i :: 0 <= i < |path| && path[i].AgentStep? ==>
            FlowOrder.IsAgentStep(f, path[i].node) && path[i].agent == f.nodes[path[i].node].agent)
    decreases f.nodes.Keys - visited
  {
    if node != "" {
      var step := StepAt(f, at, node, visited, picked);
      if GoesOn(step) {
        StepsAddOnce(f, at, NextNode(f, step), visited + {node}, Picked(picked, step));
      }
    }
  }

  /** Every walk of a walkable flow, whatever its conditions answer, stays inside the
      flow, is never stopped early, and visits no step twice. */
  lemma EveryWalkEnds(f: Flow, at: Moment)
    requires Walkable(f)
    ensures var path := Steps(f, at, f.start, {}, {});
      && |path| <= |f.nodes|
      && Distinct(NodesOf(path))
      && Unstopped(path)
      && forall i :: 0 <= i < |path| ==> path[i].node in ReachSet(f)
  {
    var path := Steps(f, at, f.start, {}, {});
    var nodes := NodesOf(path);
    assert Elements<string>([]) == {} && [] + nodes == nodes;
    WalkContinuesPath(f, at, [], f.start, {}, path);
    if path != [] {
      AcyclicPathsAreDistinct(f, nodes);
      assert nodes[0] == f.start;
      forall i | 0 <= i < |path| ensures path[i].node in ReachSet(f) {
        PrefixReaches(f, nodes, i);
      }
    }
  }

  lemma PrefixReaches(f: Flow, p: seq<string>, i: nat)
    requires IsPath(f, p) && i < |p|
    ensures Reaches(f, p[0], p[i])
  {
    assert Joins(f, p[..i + 1], p[0], p[i]);
  }

  /** Its candidates are available, pairwise different, and all in Kahn's listing. */
  lemma EveryPickIsListed(f: Flow, at: Moment)
    requires Walkable(f)
    ensures var picks := Candidates(Steps(f, at, f.start, {}, {}));
      && Distinct(picks)
      && forall a :: a in picks ==> at.available(a) && a in FlowOrder.AgentsOf(f, FlowOrder.PopOrder(f, ReachSet(f)))
  {
    var path := Steps(f, at, f.start, {}, {});
    EveryWalkEnds(f, at);
    StepsAddOnce(f, at, f.start, {}, {});
    CandidatesAreSound(path);
    var order := FlowOrder.PopOrder(f, ReachSet(f));
    AllReachableAreListed(f);
    forall a | a in Candidates(path) ensures a in FlowOrder.AgentsOf(f, order) {
      var i :| 0 <= i < |path| && path[i].AgentStep? && path[i].added && path[i].agent == a;
      assert path[i].node in ReachSet(f);
    }
  }

  lemma AllReachableAreListed(f: Flow)
    requires Acyclic(f)
    ensures forall n :: n in ReachSet(f) && FlowOrder.IsAgentStep(f, n) ==>
              f.nodes[n].agent in FlowOrder.AgentsOf(f, FlowOrder.PopOrder(f, ReachSet(f)))
  {
    var order := FlowOrder.PopOrder(f, ReachSet(f));
    FlowOrder.PopOrderIsComplete(f, ReachSet(f));
    FlowOrder.AgentsOfIsDistinctCover(f, order);
  }

  /** Answers that lead along p. */
  ghost function Along(f: Flow, p: seq<string>): Moment {
    Moment(n => exists i :: 0 <= i < |p| - 1 && p[i] == n && n in f.nodes && p[i + 1] == f.nodes[n].yes, _ => true)
  }

  lemma {:induction false} WalkAlongPicks(f: Flow, p: seq<string>, k: nat, picked: set<string>)
    requires Walkable(f) && IsPath(f, p) && Distinct(p) && k < |p| && p[0] != ""
    requires FlowOrder.IsAgentStep(f, p[|p| - 1])
    ensures var a := f.nodes[p[|p| - 1]].agent;
      a in picked || a in Candidates(Steps(f, Along(f, p), p[k], Elements(p[..k]), picked))
    decreases |p| - k
  {
    var at, node := Along(f, p), p[k];
    var visited := Elements(p[..k]);
    PathNodesHaveNames(f, p, k);
    VisitedIsFront(p, k);
    var step := StepAt(f, at, node, visited, picked);
    assert WalkableNode(f, f.nodes[node]);
    assert GoesOn(step);
    if k < |p| - 1 {
      StepGoesAlong(f, p, k, step);
      WalkAlongPicks(f, p, k + 1, Picked(picked, step));
      var rest := Steps(f, at, p[k + 1], visited + {node}, Picked(picked, step));
      assert ([step] + rest)[1..] == rest;
    }
  }

  lemma VisitedIsFront(p: seq<string>, k: nat)
    requires k < |p| && Distinct(p)
    ensures p[k] !in p[..k] && Elements(p[..k + 1]) == Elements(p[..k]) + {p[k]}
  {
    assert p[..k + 1] == p[..k] + [p[k]];
  }

  lemma StepGoesAlong(f: Flow, p: seq<string>, k: nat, step: PathStep)
    requires Walkable(f) && IsPath(f, p) && Distinct(p) && k < |p| - 1
    requires step.node == p[k] && GoesOn(step)
    requires step.AgentStep? <==> FlowOrder.IsAgentStep(f, p[k])
    requires step.Condition? ==> f.nodes[p[k]].kind == NODE_CONDITION && step.holds == Along(f, p).holds(p[k])
    ensures NextNode(f, step) == p[k + 1]
  {
    assert Edge(f, p[k], p[k + 1]);
  }

  /** Only the start of a path can be a step whose id is empty: no edge leads to one. */
  lemma PathNodesHaveNames(f: Flow, p: seq<string>, k: nat)
    requires IsPath(f, p) && k < |p|
    ensures k > 0 ==> p[k] != ""
  {
    if k > 0 {
      assert Edge(f, p[k - 1], p[(k - 1) + 1]);
    }
  }

  /** The listing has no agent too many: some answers to the conditions make the walk
      pick each agent in it. */
  lemma EveryListedAgentCanBePicked(f: Flow, a: string)
    requires Walkable(f) && f.start != ""
    requires a in FlowOrder.AgentsOf(f, FlowOrder.PopOrder(f, ReachSet(f)))
    ensures exists at :: a in Candidates(Steps(f, at, f.start, {}, {}))
  {
    var order := FlowOrder.PopOrder(f, ReachSet(f));
    FlowOrder.AgentsOfIsDistinctCover(f, order);
    var n :| n in order && FlowOrder.IsAgentStep(f, n) && f.nodes[n].agent == a;
    FlowOrder.OrderIsTopological(f);
    var p :| Joins(f, p, f.start, n);
    AcyclicPathsAreDistinct(f, p);
    assert Elements(p[..0]) == {};
    WalkAlongPicks(f, p, 0, {});
    assert a in Candidates(Steps(f, Along(f, p), f.start, {}, {}));
  }
}
