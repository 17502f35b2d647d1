/** Which flow decides who reviews a repository, and the options prepared for its agents. */
module FlowChoice {
  import opened Text
  import opened FlowGraph
  import Flows
  import FlowOrder
  import FlowWalk

  const DEFAULT_FLOW_ID := "default"

  datatype Agents = Agents(primary: string, fallback: string)

  /** agentsFor is the primary/fallback resolution of the rest of the configuration. */
  datatype Config = Config(
    flows: map<string, Flow>,
    flow: string,
    orgFlows: map<string, string>,
    repoFlows: map<string, string>,
    agentsFor: string -> Agents)

  /** repo > org > global. */
  function FlowNameForRepo(c: Config, repo: string): string {
    var org := repo[..IndexOf(repo, '/')];
    if repo in c.repoFlows && c.repoFlows[repo] != "" then c.repoFlows[repo]
    else if '/' in repo && org in c.orgFlows && c.orgFlows[org] != "" then c.orgFlows[org]
    else c.flow
  }

  predicate Chosen(names: map<string, string>, key: string) {
    key in names && names[key] != ""
  }

  /** The repository's own choice wins over its organisation's, and that over the general one;
      the organisation is what comes before the first slash. */
  lemma MostSpecificFlowWins(c: Config, repo: string, org: string, rest: string)
    requires repo == org + "/" + rest && '/' !in org
    ensures FlowNameForRepo(c, repo) ==
            if Chosen(c.repoFlows, repo) then c.repoFlows[repo]
            else if Chosen(c.orgFlows, org) then c.orgFlows[org]
            else c.flow
  {
    FoundAt(org, '/', rest);
    assert repo == org + ['/'] + rest && repo[|org|] == '/' && repo[..|org|] == org;
  }

  /** A name without a slash has no organisation. */
  lemma WithoutOrganisation(c: Config, repo: string)
    requires '/' !in repo
    ensures FlowNameForRepo(c, repo) == if Chosen(c.repoFlows, repo) then c.repoFlows[repo] else c.flow
  {
  }

  function AgentNode(agent: string, next: string): FlowNode {
    FlowNode(NODE_AGENT, "", map[], map[], "", "", agent, next)
  }

  function LegacyFlow(a: Agents): Flow {
    var second := a.fallback != "" && a.fallback != a.primary;
    var nodes :=
      (if a.primary != "" then map["a10" := AgentNode(a.primary, if second then "a20" else "")] else map[]) +
      (if second then map["a20" := AgentNode(a.fallback, "")] else map[]);
    Flow("Primary and fallback", if a.primary != "" then "a10" else if second then "a20" else "", nodes)
  }

  /** A selected flow that exists and has a start wins; otherwise the primary/fallback flow. */
  function FlowForRepo(c: Config, repo: string): (string, Flow) {
    var name := FlowNameForRepo(c, repo);
    if name != "" && name in c.flows && c.flows[name].start != "" then (name, c.flows[name])
    else (DEFAULT_FLOW_ID, LegacyFlow(c.agentsFor(repo)))
  }

  function IfAvailable(at: FlowWalk.Moment, agent: string): seq<string> {
    if agent != "" && at.available(agent) then [agent] else []
  }

  /** What a walk picks from an agent step on. */
  lemma AgentPicks(f: Flow, at: FlowWalk.Moment, node: string, visited: set<string>, picked: set<string>)
    requires node != "" && node in f.nodes && node !in visited && f.nodes[node].kind == NODE_AGENT
    ensures var agent := f.nodes[node].agent;
      var added := at.available(agent) && agent !in picked;
      FlowWalk.Candidates(FlowWalk.Steps(f, at, node, visited, picked)) ==
      (if added then [agent] else []) +
      FlowWalk.Candidates(FlowWalk.Steps(f, at, f.nodes[node].next, visited + {node},
                                         if added then picked + {agent} else picked))
  {
    var path := FlowWalk.Steps(f, at, node, visited, picked);
    var step := FlowWalk.StepAt(f, at, node, visited, picked);
    assert path == [step] + path[1..];
  }

  lemma WalkEndsHere(f: Flow, at: FlowWalk.Moment, visited: set<string>, picked: set<string>)
    ensures FlowWalk.Candidates(FlowWalk.Steps(f, at, "", visited, picked)) == []
  {
  }

  /** Without a flow, the primary agent is picked if it is available, and then the fallback
      if it is another one and available: what the settings meant before flows. */
  lemma LegacyPicks(a: Agents, at: FlowWalk.Moment)
    ensures var f := LegacyFlow(a);
      FlowWalk.Candidates(FlowWalk.Steps(f, at, f.start, {}, {})) ==
      IfAvailable(at, a.primary) + (if a.fallback == a.primary then [] else IfAvailable(at, a.fallback))
  {
    var f := LegacyFlow(a);
    forall visited, picked ensures FlowWalk.Candidates(FlowWalk.Steps(f, at, "", visited, picked)) == [] {
      WalkEndsHere(f, at, visited, picked);
    }
    if a.primary != "" {
      AgentPicks(f, at, "a10", {}, {});
      if "a20" in f.nodes {
        AgentPicks(f, at, "a20", {} + {"a10"}, if at.available(a.primary) then {} + {a.primary} else {});
      }
    } else if "a20" in f.nodes {
      AgentPicks(f, at, "a20", {}, {});
    }
  }

  /** A selected flow that there is, with a start, decides; and otherwise the agents the
      repository has without flows. */
  lemma ResolvedFlowDecides(c: Config, repo: string, at: FlowWalk.Moment)
    ensures var (id, f) := FlowForRepo(c, repo);
      var name, a := FlowNameForRepo(c, repo), c.agentsFor(repo);
      if name != "" && name in c.flows && c.flows[name].start != "" then id == name && f == c.flows[name]
      else
        && id == "default"
        && FlowWalk.Candidates(FlowWalk.Steps(f, at, f.start, {}, {})) ==
            IfAvailable(at, a.primary) + (if a.fallback == a.primary then [] else IfAvailable(at, a.fallback))
  {
    LegacyPicks(c.agentsFor(repo), at);
  }

  lemma LegacyFlowIsWalkable(a: Agents)
    ensures FlowWalk.Walkable(LegacyFlow(a))
  {
    var f := LegacyFlow(a);
    var order := (if "a20" in f.nodes then ["a20"] else []) + (if "a10" in f.nodes then ["a10"] else []);
    assert ChildrenFirst(f, order) by {
      forall i, b | 0 <= i < |order| && Edge(f, order[i], b) ensures b in order[..i] {
        assert order[i] == "a10" && b == "a20";
        assert order[..1] == ["a20"];
      }
    }
    forall n ensures !OnCycle(f, n) {
      if n in f.nodes {
        assert n in order;
        ChildrenFirstIsAcyclic(f, order, n);
      }
    }
  }

  /** Whatever the configuration selects, every repository gets a flow whose walks end. */
  lemma ResolvedFlowIsWalkable(r: Flows.Registry, c: Config, repo: string)
    requires forall id :: id in c.flows ==> Flows.ValidFlow(r, c.flows[id])
    ensures FlowWalk.Walkable(FlowForRepo(c, repo).1)
  {
    var name := FlowNameForRepo(c, repo);
    if name != "" && name in c.flows && c.flows[name].start != "" {
      FlowWalk.ValidFlowsAreWalkable(r, c.flows[name]);
    } else {
      LegacyFlowIsWalkable(c.agentsFor(repo));
    }
  }

  /** Every agent the walk picks at that moment has its options. */
  ghost predicate Covers(f: Flow, at: FlowWalk.Moment, agents: set<string>) {
    forall a :: a in FlowWalk.Candidates(FlowWalk.Steps(f, at, f.start, {}, {})) ==> a in agents
  }

  lemma ListingCovers(f: Flow, agents: set<string>)
    requires FlowWalk.Walkable(f)
    requires forall a :: a in FlowOrder.AgentsOf(f, FlowOrder.PopOrder(f, ReachSet(f))) ==> a in agents
    ensures forall at :: Covers(f, at, agents)
  {
    forall at ensures Covers(f, at, agents) {
      FlowWalk.EveryPickIsListed(f, at);
    }
  }

  method AgentTable<T>(f: Flow, optionsFor: string -> T) returns (exec: map<string, T>)
    ensures exec.Keys == Elements(FlowOrder.AgentsOf(f, FlowOrder.PopOrder(f, ReachSet(f))))
    ensures forall a :: a in exec ==> exec[a] == optionsFor(a)
  {
    var agents := FlowOrder.TopoAgentOrder(f);
    exec := TableOf(agents, optionsFor);
  }

  method TableOf<T>(agents: seq<string>, optionsFor: string -> T) returns (exec: map<string, T>)
    ensures exec.Keys == Elements(agents)
    ensures forall a :: a in exec ==> exec[a] == optionsFor(a)
  {
    exec := map[];
    for i := 0 to |agents|
      invariant exec.Keys == Elements(agents[..i])
      invariant forall a :: a in exec ==> exec[a] == optionsFor(a)
    {
      ElementsOneMore(agents, i);
      exec := exec[agents[i] := optionsFor(agents[i])];
    }
    assert agents[..|agents|] == agents;
  }

  ghost predicate CanBePicked(f: Flow, a: string) {
    exists at :: a in FlowWalk.Candidates(FlowWalk.Steps(f, at, f.start, {}, {}))
  }

  /** No entry is prepared in vain. */
  lemma ListedCanBePicked(f: Flow, agents: set<string>)
    requires FlowWalk.Walkable(f) && f.start != ""
    requires forall a :: a in agents ==> a in FlowOrder.AgentsOf(f, FlowOrder.PopOrder(f, ReachSet(f)))
    ensures forall a :: a in agents ==> CanBePicked(f, a)
  {
    forall a | a in agents ensures CanBePicked(f, a) {
      FlowWalk.EveryListedAgentCanBePicked(f, a);
    }
  }

  /** The options prepared for a review: one entry for every agent any walk can pick, and for
      no other if the flow has a start. */
  method AgentExecOptions<T>(r: Flows.Registry, c: Config, repo: string, optionsFor: string -> T)
      returns (exec: map<string, T>)
    requires forall id :: id in c.flows ==> Flows.ValidFlow(r, c.flows[id])
    ensures forall at :: Covers(FlowForRepo(c, repo).1, at, exec.Keys)
    ensures forall a :: a in exec ==> exec[a] == optionsFor(a)
    ensures FlowForRepo(c, repo).1.start != "" ==> forall a :: a in exec ==> CanBePicked(FlowForRepo(c, repo).1, a)
  {
    ResolvedFlowIsWalkable(r, c, repo);
    var f := FlowForRepo(c, repo).1;
    exec := AgentTable(f, optionsFor);
    ListingCovers(f, exec.Keys);
    if f.start != "" {
      ListedCanBePicked(f, exec.Keys);
    }
  }
}
