/** The decision graph of a review flow, and what paths through it are: a path can repeat
    only on a graph with a cycle. */
module FlowGraph {
  import opened Text

  /** A percentage as a configuration file can give it: TOML has inf and nan. */
  datatype Percent = Number(value: real) | Infinite(negative: bool) | NaN

  datatype QuotaCondition = QuotaCondition(agent: string, window: string, op: string, percent: Percent)

  datatype ScheduleCondition = ScheduleCondition(days: seq<string>, from: string, to: string, tz: string)

  const NODE_CONDITION := "condition"
  const NODE_AGENT := "agent"

  datatype FlowNode = FlowNode(
    kind: string,
    mode: string,
    quota: map<string, QuotaCondition>,
    schedule: map<string, ScheduleCondition>,
    yes: string,
    no: string,
    agent: string,
    next: string)
  {
    /** The outgoing edges that are set, in the order yes, no, next. */
    function Edges(): (out: seq<string>)
      ensures "" !in out
      ensures forall e :: e in out <==> e != "" && (e == yes || e == no || e == next)
    {
      (if yes != "" then [yes] else []) + (if no != "" then [no] else []) + (if next != "" then [next] else [])
    }
  }

  datatype Flow = Flow(name: string, start: string, nodes: map<string, FlowNode>)

  /** An edge between two steps that exist. Edges to missing steps are not part of the graph. */
  ghost predicate Edge(f: Flow, a: string, b: string) {
    a in f.nodes && b in f.nodes && b in f.nodes[a].Edges()
  }

  ghost predicate IsPath(f: Flow, p: seq<string>) {
    && p != []
    && (forall i :: 0 <= i < |p| ==> p[i] in f.nodes)
    && (forall i :: 0 <= i < |p| - 1 ==> Edge(f, p[i], p[i + 1]))
  }

  ghost predicate Joins(f: Flow, p: seq<string>, a: string, b: string) {
    IsPath(f, p) && p[0] == a && p[|p| - 1] == b
  }

  ghost predicate Reaches(f: Flow, a: string, b: string) {
    exists p :: Joins(f, p, a, b)
  }

  /** n lies on a cycle: some path of at least one edge leads from n back to n. */
  ghost predicate OnCycle(f: Flow, n: string) {
    exists p :: |p| >= 2 && Joins(f, p, n, n)
  }

  ghost predicate Acyclic(f: Flow) {
    forall n :: !OnCycle(f, n)
  }

  /** The steps a walk can reach: the reflexive-transitive closure from the start. */
  ghost function ReachSet(f: Flow): set<string> {
    set n | n in f.nodes && Reaches(f, f.start, n)
  }

  lemma ReachesItself(f: Flow, n: string)
    requires n in f.nodes
    ensures Reaches(f, n, n)
  {
    assert Joins(f, [n], n, n);
  }

  lemma PathsExtend(f: Flow, p: seq<string>, b: string)
    requires IsPath(f, p) && Edge(f, p[|p| - 1], b)
    ensures IsPath(f, p + [b])
  {
  }

  lemma ReachesStep(f: Flow, a: string, b: string, c: string)
    requires Reaches(f, a, b) && Edge(f, b, c)
    ensures Reaches(f, a, c)
  {
    var p :| Joins(f, p, a, b);
    PathsExtend(f, p, c);
    assert Joins(f, p + [c], a, c);
  }

  /** A set that holds the first step of a path and is closed under edges holds all of it. */
  lemma {:induction false} ClosedHoldsPath(f: Flow, closed: set<string>, p: seq<string>, k: nat)
    requires IsPath(f, p) && p[0] in closed && k < |p|
    requires forall a, b :: a in closed && Edge(f, a, b) ==> b in closed
    ensures p[k] in closed
  {
    if k > 0 {
      ClosedHoldsPath(f, closed, p, k - 1);
      assert Edge(f, p[k - 1], p[(k - 1) + 1]);
    }
  }

  /** Every successor that exists of an entry stands before it. */
  ghost predicate ChildrenFirst(f: Flow, order: seq<string>) {
    forall i, b :: 0 <= i < |order| && Edge(f, order[i], b) ==> b in order[..i]
  }

  /** No cycle runs through the entries of a children-first listing. */
  lemma ChildrenFirstIsAcyclic(f: Flow, order: seq<string>, n: string)
    requires Distinct(order) && ChildrenFirst(f, order) && n in order
    ensures !OnCycle(f, n)
  {
    forall p | |p| >= 2 && IsPath(f, p) && p[0] == n
      ensures p[|p| - 1] != n
    {
      var i :| 0 <= i < |order| && order[i] == n;
      var j := PathDescends(f, order, p, i, |p| - 1);
    }
  }

  lemma {:induction false} PathDescends(f: Flow, order: seq<string>, p: seq<string>, i: nat, k: nat) returns (j: nat)
    requires ChildrenFirst(f, order)
    requires IsPath(f, p) && i < |order| && order[i] == p[0] && k < |p|
    ensures j < |order| && order[j] == p[k] && (if k == 0 then j == i else j < i)
  {
    if k == 0 {
      j := i;
    } else {
      var h := PathDescends(f, order, p, i, k - 1);
      assert Edge(f, order[h], p[(k - 1) + 1]);
      assert p[k] in order[..h];
      j :| 0 <= j < h && order[j] == p[k];
    }
  }

  /** A path that visits a step twice closes a cycle through it. */
  lemma RepeatClosesCycle(f: Flow, p: seq<string>, i: nat, j: nat)
    requires IsPath(f, p) && i < j < |p| && p[i] == p[j]
    ensures OnCycle(f, p[i])
  {
    assert Joins(f, p[i..j + 1], p[i], p[i]);
  }

  lemma AcyclicPathsAreDistinct(f: Flow, p: seq<string>)
    requires Acyclic(f) && IsPath(f, p)
    ensures Distinct(p) && |p| <= |f.nodes|
  {
    forall i, j | 0 <= i < j < |p| ensures p[i] != p[j] {
      if p[i] == p[j] {
        RepeatClosesCycle(f, p, i, j);
        assert false;
      }
    }
    PigeonHole(p, f.nodes.Keys);
  }

  ghost predicate HasPredecessor(f: Flow, u: set<string>, n: string) {
    exists m :: m in u && Edge(f, m, n)
  }

  /** Walking edges backwards inside u for k steps. */
  lemma {:induction false} BackwardPath(f: Flow, u: set<string>, k: nat) returns (p: seq<string>)
    requires u != {} && forall n :: n in u ==> n in f.nodes
    requires forall n {:trigger HasPredecessor(f, u, n)} :: n in u ==> HasPredecessor(f, u, n)
    ensures |p| == k + 1 && IsPath(f, p) && forall i :: 0 <= i < |p| ==> p[i] in u
  {
    if k == 0 {
      var n :| n in u;
      p := [n];
    } else {
      var q := BackwardPath(f, u, k - 1);
      assert HasPredecessor(f, u, q[0]);
      var m :| m in u && Edge(f, m, q[0]);
      p := [m] + q;
      forall i | 0 <= i < |p| - 1 ensures Edge(f, p[i], p[i + 1]) {
        if i > 0 { assert Edge(f, q[i - 1], q[(i - 1) + 1]); }
      }
    }
  }

  /** A non-empty set of steps off every cycle has a step no member of the set leads to. */
  lemma SetOffCyclesHasSource(f: Flow, u: set<string>)
    requires u != {} && forall n :: n in u ==> n in f.nodes && !OnCycle(f, n)
    ensures exists n :: n in u && !HasPredecessor(f, u, n)
  {
    if forall n {:trigger HasPredecessor(f, u, n)} :: n in u ==> HasPredecessor(f, u, n) {
      var p := BackwardPath(f, u, |f.nodes|);
      forall i, j | 0 <= i < j < |p| ensures p[i] != p[j] {
        if p[i] == p[j] {
          RepeatClosesCycle(f, p, i, j);
        }
      }
      PigeonHole(p, f.nodes.Keys);
      assert false;
    }
  }
}
