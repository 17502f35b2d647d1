/** What a walk of a flow is, told from its steps: each is what the flow has there, and leads
    on to the next. */
module WalkMeaning {
  import opened Text
  import opened FlowGraph
  import opened FlowWalk

  ghost predicate Visits(before: seq<PathStep>, id: string) {
    exists i :: 0 <= i < |before| && before[i].node == id
  }

  ghost predicate Adds(before: seq<PathStep>, agent: string) {
    exists i :: 0 <= i < |before| && before[i].AgentStep? && before[i].added && before[i].agent == agent
  }

  /** The step is what the flow has under its id, asked at that moment and after those steps. */
  ghost predicate IsStep(f: Flow, at: Moment, before: seq<PathStep>, step: PathStep) {
    if Visits(before, step.node) then step == Revisit(step.node)
    else if step.node !in f.nodes then step == NoSuchStep(step.node)
    else
      var n := f.nodes[step.node];
      match step
      case Condition(id, holds) => n.kind == "condition" && (holds <==> at.holds(id))
      case AgentStep(_, agent, available, added) =>
        && n.kind == "agent" && agent == n.agent && (available <==> at.available(agent))
        && (added <==> available && !Adds(before, agent))
      case UnknownKind(_) => n.kind != "condition" && n.kind != "agent"
      case _ => false
  }

  /** From the step the walk goes on there; nowhere if it is empty. */
  predicate Leads(f: Flow, step: PathStep, next: string) {
    match step
    case Condition(id, holds) =>
      id in f.nodes && (holds ==> next == f.nodes[id].yes) && (!holds ==> next == f.nodes[id].no)
    case AgentStep(id, _, _, _) => id in f.nodes && next == f.nodes[id].next
    case _ => next == ""
  }

  /** The id of step i of the path, and nothing past its end. */
  function IdAt(path: seq<PathStep>, i: nat): string {
    if i < |path| then path[i].node else ""
  }

  /** The rest of a walk that has come to a step. */
  ghost predicate GoesFrom(f: Flow, at: Moment, before: seq<PathStep>, node: string, rest: seq<PathStep>) {
    && IdAt(rest, 0) == node && (forall i :: 0 <= i < |rest| ==> IdAt(rest, i) != "")
    && (forall i :: 0 <= i < |rest| ==> IsStep(f, at, before + rest[..i], rest[i]))
    && (forall i :: 0 <= i < |rest| ==> Leads(f, rest[i], IdAt(rest, i + 1)))
  }

  ghost predicate IsWalk(f: Flow, at: Moment, path: seq<PathStep>) {
    GoesFrom(f, at, [], f.start, path)
  }

  ghost function VisitedBy(before: seq<PathStep>): set<string> {
    set i | 0 <= i < |before| :: before[i].node
  }

  ghost function PickedBy(before: seq<PathStep>): set<string> {
    set i | 0 <= i < |before| && before[i].AgentStep? && before[i].added :: before[i].agent
  }

  lemma OneMoreStep(before: seq<PathStep>, step: PathStep)
    ensures VisitedBy(before + [step]) == VisitedBy(before) + {step.node}
    ensures PickedBy(before + [step]) == Picked(PickedBy(before), step)
  {
    var longer := before + [step];
    forall x ensures x in VisitedBy(longer) <==> x in VisitedBy(before) + {step.node} {
      if i :| 0 <= i < |before| && before[i].node == x {
        assert longer[i].node == x;
      }
      assert longer[|before|].node == step.node;
    }
    forall a ensures a in PickedBy(longer) <==> a in Picked(PickedBy(before), step) {
      if i :| 0 <= i < |before| && before[i].AgentStep? && before[i].added && before[i].agent == a {
        assert longer[i] == before[i];
      }
      assert longer[|before|] == step;
    }
  }

  /** The step is the one the walk takes there. */
  lemma StepExactly(f: Flow, at: Moment, before: seq<PathStep>, step: PathStep)
    ensures IsStep(f, at, before, step) <==> step == StepAt(f, at, step.node, VisitedBy(before), PickedBy(before))
  {
    assert Visits(before, step.node) <==> step.node in VisitedBy(before);
    forall a ensures Adds(before, a) <==> a in PickedBy(before) {
    }
  }

  lemma LeadsExactly(f: Flow, step: PathStep, next: string)
    requires GoesOn(step) && step.node in f.nodes
    ensures Leads(f, step, next) <==> next == NextNode(f, step)
  {
  }

  lemma IdsOfTail(path: seq<PathStep>, i: nat)
    requires path != []
    ensures IdAt(path[1..], i) == IdAt(path, i + 1)
  {
  }

  /** A walk from a step is that step and a walk from where it leads. */
  lemma GoesOnFrom(f: Flow, at: Moment, before: seq<PathStep>, node: string, rest: seq<PathStep>)
    requires rest != []
    ensures GoesFrom(f, at, before, node, rest) <==>
      && node != "" && rest[0].node == node && IsStep(f, at, before, rest[0]) && Leads(f, rest[0], IdAt(rest, 1))
      && GoesFrom(f, at, before + [rest[0]], IdAt(rest, 1), rest[1..])
  {
    var tail := rest[1..];
    assert before + rest[..0] == before;
    forall i: nat ensures IdAt(tail, i) == IdAt(rest, i + 1) {
      IdsOfTail(rest, i);
    }
    forall i | 0 <= i < |tail|
      ensures before + [rest[0]] + tail[..i] == before + rest[..i + 1] && tail[i] == rest[i + 1] {
      assert rest[..i + 1] == [rest[0]] + tail[..i];
    }
    if GoesFrom(f, at, before + [rest[0]], IdAt(rest, 1), tail) {
      forall i | 0 < i < |rest|
        ensures IsStep(f, at, before + rest[..i], rest[i]) && Leads(f, rest[i], IdAt(rest, i + 1))
        ensures IdAt(rest, i) != "" {
        assert IsStep(f, at, before + [rest[0]] + tail[..i - 1], tail[i - 1]);
        assert Leads(f, tail[i - 1], IdAt(tail, i - 1 + 1)) && IdAt(tail, i - 1) != "";
      }
    }
    if GoesFrom(f, at, before, node, rest) {
      forall i | 0 <= i < |tail|
        ensures IsStep(f, at, before + [rest[0]] + tail[..i], tail[i]) && Leads(f, tail[i], IdAt(tail, i + 1)) &&
            IdAt(tail, i) != "" {
        assert IsStep(f, at, before + rest[..i + 1], rest[i + 1]);
        assert Leads(f, rest[i + 1], IdAt(rest, i + 1 + 1)) && IdAt(rest, i + 1) != "";
      }
    }
  }

  lemma StepsBegin(f: Flow, at: Moment, node: string, visited: set<string>, picked: set<string>)
    ensures IdAt(Steps(f, at, node, visited, picked), 0) == node
  {
  }

  lemma NothingFrom(f: Flow, at: Moment, before: seq<PathStep>, rest: seq<PathStep>)
    ensures GoesFrom(f, at, before, "", rest) <==> rest == []
  {
  }

  lemma StepsOnward(f: Flow, at: Moment, before: seq<PathStep>, rest: seq<PathStep>)
    requires rest != [] && IsStep(f, at, before, rest[0])
    requires var next := IdAt(rest, 1);
      var longer := before + [rest[0]];
      GoesFrom(f, at, longer, next, rest[1..]) <==>
      rest[1..] == Steps(f, at, next, VisitedBy(longer), PickedBy(longer))
    ensures var visited, picked := VisitedBy(before) + {rest[0].node}, Picked(PickedBy(before), rest[0]);
      Leads(f, rest[0], IdAt(rest, 1)) && GoesFrom(f, at, before + [rest[0]], IdAt(rest, 1), rest[1..]) <==>
      rest[1..] == if GoesOn(rest[0]) then Steps(f, at, NextNode(f, rest[0]), visited, picked) else []
  {
    var step, longer := rest[0], before + [rest[0]];
    OneMoreStep(before, step);
    IdsOfTail(rest, 0);
    StepExactly(f, at, before, step);
    if GoesOn(step) {
      LeadsExactly(f, step, IdAt(rest, 1));
      StepsBegin(f, at, NextNode(f, step), VisitedBy(longer), PickedBy(longer));
    } else {
      NothingFrom(f, at, longer, rest[1..]);
    }
  }

  lemma {:induction false} GoesFromExactly(f: Flow, at: Moment, before: seq<PathStep>, node: string,
                                           rest: seq<PathStep>)
    ensures GoesFrom(f, at, before, node, rest) <==>
            rest == Steps(f, at, node, VisitedBy(before), PickedBy(before))
    decreases |rest|
  {
    if rest == [] {
      NothingFrom(f, at, before, rest);
    } else {
      GoesOnFrom(f, at, before, node, rest);
      GoesFromExactly(f, at, before + [rest[0]], IdAt(rest, 1), rest[1..]);
      StepExactly(f, at, before, rest[0]);
      if IsStep(f, at, before, rest[0]) {
        StepsOnward(f, at, before, rest);
      }
      StepsUnfold(f, at, node, VisitedBy(before), PickedBy(before), rest);
    }
  }

  lemma StepsUnfold(f: Flow, at: Moment, node: string, visited: set<string>, picked: set<string>, rest: seq<PathStep>)
    requires rest != []
    ensures rest == Steps(f, at, node, visited, picked) <==>
      && node != "" && rest[0] == StepAt(f, at, node, visited, picked)
      && rest[1..] == if GoesOn(rest[0]) then
                        Steps(f, at, NextNode(f, rest[0]), visited + {node}, Picked(picked, rest[0]))
                      else []
  {
    assert rest == [rest[0]] + rest[1..];
  }

  /** The walk of a flow at a moment is exactly that: it begins at the start, each step is what
      the flow has there, a condition that holds leads to its yes and one that does not to its
      no, an agent to its next, and it ends where nothing follows. */
  lemma WalkExactly(f: Flow, at: Moment, path: seq<PathStep>)
    ensures IsWalk(f, at, path) <==> path == Steps(f, at, f.start, {}, {})
  {
    GoesFromExactly(f, at, [], f.start, path);
    assert VisitedBy([]) == {} && PickedBy([]) == {};
  }

  predicate AddsOne(step: PathStep) {
    step.AgentStep? && step.added
  }

  /** These are the agents of the steps that add one, in the order of the steps. */
  ghost predicate AgentsAt(path: seq<PathStep>, at: seq<nat>, agents: seq<string>) {
    && |agents| == |at| && (forall i, j :: 0 <= i < j < |at| ==> at[i] < at[j])
    && (forall i :: 0 <= i < |at| ==> at[i] < |path| && AddsOne(path[at[i]]) && path[at[i]].agent == agents[i])
    && (forall n: nat :: n < |path| && AddsOne(path[n]) ==> n in at)
  }

  lemma AgentsOneMore(front: seq<PathStep>, last: PathStep, at: seq<nat>, agents: seq<string>)
    requires AgentsAt(front, at, agents)
    ensures AddsOne(last) ==> AgentsAt(front + [last], at + [|front|], agents + [last.agent])
    ensures !AddsOne(last) ==> AgentsAt(front + [last], at, agents)
  {
  }

  lemma {:induction false} CandidatesExactly(path: seq<PathStep>) returns (at: seq<nat>)
    ensures AgentsAt(path, at, Candidates(path))
    decreases |path|
  {
    at := [];
    if path != [] {
      var front, last := path[..|path| - 1], path[|path| - 1];
      at := CandidatesExactly(front);
      CandidatesOfConcat(front, [last]);
      SplitFirst(front, last, [last]);
      AgentsOneMore(front, last, at, Candidates(front));
      assert path == front + [last];
      if AddsOne(last) {
        at := at + [|front|];
      } else {
        assert Candidates(front) + [] == Candidates(front);
      }
    }
  }
}
