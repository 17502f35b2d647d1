/** Validation of a review flow: which flows the daemon accepts, and what it warns about. */
module Flows {
  import opened Text
  import opened FlowGraph
  import CycleFinder

  const MAX_NODES_PER_FLOW := 200
  const MAX_CONDITIONS_PER_NODE := 20
  const MAX_NAME_BYTES := 120
  const MODEL_WINDOW_PREFIX := "model:"

  datatype FlowIssue = FlowIssue(node: string, field: string, message: string)

  /** What the validator asks of code outside this model: the agent registry, the
      time zone database, and the day names after trimming and lower-casing. */
  datatype Registry = Registry(validAgent: string -> bool, knownZone: string -> bool, knownDay: string -> bool)

  predicate IdHead(c: char) {
    'a' <= c <= 'z' || '0' <= c <= '9'
  }

  /** 1-64 characters of a-z, 0-9, '-' or '_', starting with a letter or a digit. */
  predicate ValidId(id: string) {
    && 1 <= |id| <= 64
    && IdHead(id[0])
    && forall i :: 1 <= i < |id| ==> IdHead(id[i]) || id[i] == '_' || id[i] == '-'
  }

  predicate ClockTime(s: string) {
    && |s| == 5
    && s[2] == ':'
    && (s[0] == '0' || s[0] == '1' || s[0] == '2')
    && '0' <= s[1] <= (if s[0] == '2' then '3' else '9')
    && '0' <= s[3] <= '5'
    && '0' <= s[4] <= '9'
  }

  /** A time of day in 24 hours, with two digits each. */
  lemma ClockTimesExactly(s: string)
    ensures ClockTime(s) <==> exists h: nat, m: nat :: h < 24 && m < 60 && s == TwoDigits(h) + ":" + TwoDigits(m)
  {
    if ClockTime(s) {
      var h, m := 10 * (s[0] as int - '0' as int) + (s[1] as int - '0' as int),
          10 * (s[3] as int - '0' as int) + (s[4] as int - '0' as int);
      assert s == TwoDigits(h) + ":" + TwoDigits(m);
    }
  }

  function TwoDigits(n: nat): (s: string)
    requires n < 100
    ensures |s| == 2
  {
    [(n / 10 + '0' as int) as char, (n % 10 + '0' as int) as char]
  }

  function Utf8Length(s: string): nat {
    if s == "" then 0
    else Utf8Length(s[1..]) +
         (if s[0] as int < 0x80 then 1 else if s[0] as int < 0x800 then 2 else if s[0] as int < 0x1_0000 then 3 else 4)
  }

  predicate ValidWindow(w: string) {
    || w in ["session", "weekly", "monthly", "credit", "any"]
    || (MODEL_WINDOW_PREFIX <= w && |w| > |MODEL_WINDOW_PREFIX| && Utf8Length(w) <= 128)
  }

  predicate BelowZero(p: Percent) {
    (p.Number? && p.value < 0.0) || (p.Infinite? && p.negative)
  }

  predicate AboveHundred(p: Percent) {
    (p.Number? && p.value > 100.0) || (p.Infinite? && !p.negative)
  }

  /** What is no number is neither below nor above, and so let through. */
  lemma PercentsLetThrough(p: Percent)
    ensures !(BelowZero(p) || AboveHundred(p)) <==> p.NaN? || (p.Number? && 0.0 <= p.value <= 100.0)
  {
  }

  predicate ValidQuota(r: Registry, q: QuotaCondition) {
    && r.validAgent(q.agent)
    && ValidWindow(q.window)
    && q.op in ["below", "above"]
    && !(BelowZero(q.percent) || AboveHundred(q.percent))
  }

  /** from == to is accepted: that is the whole day. */
  predicate ValidSchedule(r: Registry, s: ScheduleCondition) {
    && ClockTime(s.from) && ClockTime(s.to)
    && (forall d :: d in s.days ==> r.knownDay(d))
    && (s.tz == "" || r.knownZone(s.tz))
  }

  ghost predicate GoodEdge(f: Flow, target: string) {
    target == "" || target in f.nodes
  }

  ghost predicate ValidConditionNode(r: Registry, f: Flow, n: FlowNode) {
    && n.agent == "" && n.next == "" && n.mode in ["", "all", "any"]
    && 1 <= |n.quota| + |n.schedule| <= MAX_CONDITIONS_PER_NODE
    && (forall k :: k in n.quota ==> ValidQuota(r, n.quota[k]))
    && (forall k :: k in n.schedule ==> ValidSchedule(r, n.schedule[k]))
    && GoodEdge(f, n.yes) && GoodEdge(f, n.no)
  }

  ghost predicate ValidAgentNode(r: Registry, f: Flow, n: FlowNode) {
    && n.mode == "" && n.quota == map[] && n.schedule == map[] && n.yes == "" && n.no == ""
    && r.validAgent(n.agent) && GoodEdge(f, n.next)
  }

  ghost predicate ValidNode(r: Registry, f: Flow, n: FlowNode) {
    || (n.kind == NODE_CONDITION && ValidConditionNode(r, f, n))
    || (n.kind == NODE_AGENT && ValidAgentNode(r, f, n))
  }

  /** The flows that may be saved. */
  ghost predicate ValidFlow(r: Registry, f: Flow) {
    && Utf8Length(f.name) <= MAX_NAME_BYTES
    && |f.nodes| <= MAX_NODES_PER_FLOW
    && (if f.nodes == map[] then f.start == ""
        else
          && f.start != "" && f.start in f.nodes
          && (forall id :: id in f.nodes ==> ValidAt(r, f, id))
          && Acyclic(f))
  }

  /** The node ids in string order: the same list whatever order the map is read in. */
  method SortedNodeIDs(f: Flow) returns (ids: seq<string>)
    ensures Lists(ids, f)
  {
    var keys := MapKeys(f.nodes);
    ids := Sort(keys);
    PermutationKeepsElements(keys, ids);
    assert forall n :: n in ids <==> n in Elements(ids);
  }

  /** Marks what a walk from the start can reach. */
  method Reachable(f: Flow) returns (seen: set<string>)
    ensures seen == ReachSet(f)
  {
    seen := {};
    var stack := [f.start];
    if f.start in f.nodes {
      ReachesItself(f, f.start);
    }
    while |stack| > 0
      invariant seen <= ReachSet(f)
      invariant forall s :: s in stack && s in f.nodes ==> Reaches(f, f.start, s)
      invariant f.start in f.nodes ==> f.start in seen || f.start in stack
      invariant forall a, b :: a in seen && Edge(f, a, b) ==> b in seen || b in stack
      decreases f.nodes.Keys - seen, |stack|
    {
      var id := stack[|stack| - 1];
      var popped := stack[..|stack| - 1];
      assert stack == popped + [id];
      stack := popped;
      if id !in f.nodes || id in seen {
        continue;
      }
      forall b | Edge(f, id, b) ensures Reaches(f, f.start, b) {
        ReachesStep(f, f.start, id, b);
      }
      seen := seen + {id};
      var edges := f.nodes[id].Edges();
      assert forall e :: e in edges && e in f.nodes ==> Edge(f, id, e);
      stack := stack + edges;
    }
    forall n | n in ReachSet(f) ensures n in seen {
      var p :| Joins(f, p, f.start, n);
      ClosedHoldsPath(f, seen, p, |p| - 1);
    }
  }

  ghost predicate AllAbout(errs: seq<FlowIssue>, id: string) {
    forall e :: e in errs ==> e.node == id
  }

  ghost predicate Blamed(errs: seq<FlowIssue>, id: string) {
    exists e :: e in errs && e.node == id
  }

  method CheckEdge(f: Flow, id: string, field: string, target: string) returns (errs: seq<FlowIssue>)
    ensures errs == [] <==> GoodEdge(f, target)
    ensures AllAbout(errs, id)
  {
    errs := if target == "" || target in f.nodes then [] else [FlowIssue(id, field, "points at a missing node")];
  }

  method CheckQuota(r: Registry, id: string, key: string, q: QuotaCondition) returns (errs: seq<FlowIssue>)
    ensures errs == [] <==> ValidQuota(r, q)
    ensures AllAbout(errs, id)
  {
    errs := if ValidQuota(r, q) then [] else [FlowIssue(id, "quota." + key, "agent, window, op or percent is wrong")];
  }

  lemma AllAboutConcat(a: seq<FlowIssue>, b: seq<FlowIssue>, id: string)
    requires AllAbout(a, id) && AllAbout(b, id)
    ensures AllAbout(a + b, id)
  {
  }

  ghost predicate QuotasFit(r: Registry, quota: map<string, QuotaCondition>, keys: seq<string>) {
    forall k :: k in keys ==> k in quota && ValidQuota(r, quota[k])
  }

  method CheckQuotas(r: Registry, id: string, quota: map<string, QuotaCondition>) returns (errs: seq<FlowIssue>)
    ensures errs == [] <==> forall k :: k in quota ==> ValidQuota(r, quota[k])
    ensures AllAbout(errs, id)
  {
    errs := [];
    var keys := MapKeys(quota);
    for i := 0 to |keys|
      invariant errs == [] <==> QuotasFit(r, quota, keys[..i])
      invariant AllAbout(errs, id)
    {
      assert keys[i] in Elements(keys);
      var more := CheckQuota(r, id, keys[i], quota[keys[i]]);
      AllAboutConcat(errs, more, id);
      QuotasFitOneMore(r, quota, keys, i);
      errs := errs + more;
    }
    assert keys[..|keys|] == keys;
    assert forall k :: k in quota <==> k in Elements(keys);
  }

  lemma QuotasFitOneMore(r: Registry, quota: map<string, QuotaCondition>, keys: seq<string>, i: nat)
    requires i < |keys| && keys[i] in quota
    ensures QuotasFit(r, quota, keys[..i + 1]) <==> QuotasFit(r, quota, keys[..i]) && ValidQuota(r, quota[keys[i]])
  {
    assert keys[..i + 1] == keys[..i] + [keys[i]];
  }

  method CheckSchedules(r: Registry, id: string, schedule: map<string, ScheduleCondition>)
      returns (errs: seq<FlowIssue>)
    ensures errs == [] <==> forall k :: k in schedule ==> ValidSchedule(r, schedule[k])
    ensures AllAbout(errs, id)
  {
    errs := [];
    var keys := MapKeys(schedule);
    assert forall k :: k in schedule <==> k in Elements(keys);
    for i := 0 to |keys|
      invariant errs == [] <==> forall j :: 0 <= j < i ==> ValidSchedule(r, schedule[keys[j]])
      invariant AllAbout(errs, id)
    {
      if !ValidSchedule(r, schedule[keys[i]]) {
        errs := errs + [FlowIssue(id, "schedule." + keys[i], "days, times or zone are wrong")];
      }
    }
  }

  method CheckCondition(r: Registry, f: Flow, id: string) returns (errs: seq<FlowIssue>)
    requires id in f.nodes
    ensures errs == [] <==> ValidConditionNode(r, f, f.nodes[id])
    ensures AllAbout(errs, id)
  {
    var n := f.nodes[id];
    errs := [];
    if n.agent != "" {
      errs := errs + [FlowIssue(id, "agent", "a condition has no agent")];
    }
    if n.next != "" {
      errs := errs + [FlowIssue(id, "next", "a condition branches with yes/no, not next")];
    }
    if n.mode !in ["", "all", "any"] {
      errs := errs + [FlowIssue(id, "match", "must be all or any")];
    }
    var total := |n.quota| + |n.schedule|;
    if total == 0 {
      errs := errs + [FlowIssue(id, "", "needs at least one condition")];
    }
    if total > MAX_CONDITIONS_PER_NODE {
      errs := errs + [FlowIssue(id, "", "has too many conditions")];
    }
    var quotas := CheckQuotas(r, id, n.quota);
    var schedules := CheckSchedules(r, id, n.schedule);
    var yes := CheckEdge(f, id, "yes", n.yes);
    var no := CheckEdge(f, id, "no", n.no);
    errs := errs + quotas + schedules + yes + no;
  }

  method CheckAgent(r: Registry, f: Flow, id: string) returns (errs: seq<FlowIssue>)
    requires id in f.nodes
    ensures errs == [] <==> ValidAgentNode(r, f, f.nodes[id])
    ensures AllAbout(errs, id)
  {
    var n := f.nodes[id];
    errs := [];
    if n.mode != "" || |n.quota| > 0 || |n.schedule| > 0 {
      errs := errs + [FlowIssue(id, "", "an agent step has no conditions")];
    }
    if n.yes != "" {
      errs := errs + [FlowIssue(id, "yes", "an agent step continues through next, not yes")];
    }
    if n.no != "" {
      errs := errs + [FlowIssue(id, "no", "an agent step continues through next, not no")];
    }
    if !r.validAgent(n.agent) {
      errs := errs + [FlowIssue(id, "agent", "is not an agent")];
    }
    var next := CheckEdge(f, id, "next", n.next);
    errs := errs + next;
  }

  method CheckNode(r: Registry, f: Flow, id: string) returns (errs: seq<FlowIssue>)
    requires id in f.nodes
    ensures errs == [] <==> ValidId(id) && ValidNode(r, f, f.nodes[id])
    ensures AllAbout(errs, id)
  {
    errs := if ValidId(id) then [] else [FlowIssue(id, "", "is not a node id")];
    var more;
    if f.nodes[id].kind == NODE_CONDITION {
      more := CheckCondition(r, f, id);
    } else if f.nodes[id].kind == NODE_AGENT {
      more := CheckAgent(r, f, id);
    } else {
      more := [FlowIssue(id, "type", "must be condition or agent")];
    }
    errs := errs + more;
  }

  ghost predicate Lists(ids: seq<string>, f: Flow) {
    && Sorted(ids) && Distinct(ids)
    && forall n :: n in ids <==> n in f.nodes
  }

  ghost predicate ValidAt(r: Registry, f: Flow, id: string)
    requires id in f.nodes
  {
    ValidId(id) && ValidNode(r, f, f.nodes[id])
  }

  /** The issues blame exactly the listed steps that are not valid. */
  ghost predicate BlamesOf(r: Registry, f: Flow, ids: seq<string>, errs: seq<FlowIssue>)
    requires forall id :: id in ids ==> id in f.nodes
  {
    && (forall e :: e in errs ==> e.node in ids)
    && (forall id :: id in ids ==> (Blamed(errs, id) <==> !ValidAt(r, f, id)))
  }

  lemma BlamesOneMore(r: Registry, f: Flow, ids: seq<string>, errs: seq<FlowIssue>, id: string, more: seq<FlowIssue>)
    requires id in f.nodes && id !in ids && forall n :: n in ids ==> n in f.nodes
    requires BlamesOf(r, f, ids, errs) && AllAbout(more, id) && (more == [] <==> ValidAt(r, f, id))
    ensures BlamesOf(r, f, ids + [id], errs + more)
  {
    forall n | n in ids + [id] ensures Blamed(errs + more, n) <==> !ValidAt(r, f, n) {
      if n == id {
        if more != [] {
          assert more[0] in errs + more && more[0].node == id;
        }
      } else if Blamed(errs, n) {
        var e :| e in errs && e.node == n;
        assert e in errs + more;
      }
    }
  }

  method CheckNodes(r: Registry, f: Flow, ids: seq<string>) returns (errs: seq<FlowIssue>)
    requires Lists(ids, f)
    ensures BlamesOf(r, f, ids, errs)
  {
    errs := [];
    for i := 0 to |ids|
      invariant BlamesOf(r, f, ids[..i], errs)
    {
      var more := CheckNode(r, f, ids[i]);
      BlamesOneMore(r, f, ids[..i], errs, ids[i], more);
      assert ids[..i + 1] == ids[..i] + [ids[i]];
      errs := errs + more;
    }
    assert ids[..|ids|] == ids;
  }

  lemma NoBlameMeansValid(r: Registry, f: Flow, ids: seq<string>, errs: seq<FlowIssue>)
    requires Lists(ids, f) && BlamesOf(r, f, ids, errs)
    ensures errs == [] <==> forall id :: id in f.nodes ==> ValidAt(r, f, id)
  {
    if errs != [] {
      assert errs[0] in errs;
      assert Blamed(errs, errs[0].node);
    }
  }

  method WarnUnreachable(f: Flow, ids: seq<string>) returns (warns: seq<FlowIssue>)
    requires Lists(ids, f)
    ensures Sorted(WarnedNodes(warns)) && Distinct(WarnedNodes(warns))
    ensures Elements(WarnedNodes(warns)) == f.nodes.Keys - ReachSet(f)
  {
    warns := [];
    var reach := Reachable(f);
    for i := 0 to |ids|
      invariant Sorted(WarnedNodes(warns)) && Distinct(WarnedNodes(warns))
      invariant forall w :: w in WarnedNodes(warns) <==> w in ids[..i] && w !in reach
    {
      assert ids[..i + 1] == ids[..i] + [ids[i]];
      if ids[i] !in reach {
        var w := FlowIssue(ids[i], "", "not reachable from the start; it is ignored");
        ghost var names := WarnedNodes(warns);
        assert WarnedNodes(warns + [w]) == names + [ids[i]];
        forall k | 0 <= k < |names| ensures names[k] == ids[i] || Less(names[k], ids[i]) {
          assert names[k] in ids[..i];
        }
        warns := warns + [w];
      }
    }
    assert ids[..|ids|] == ids;
  }

  ghost function WarnedNodes(warns: seq<FlowIssue>): seq<string> {
    seq(|warns|, i requires 0 <= i < |warns| => warns[i].node)
  }

  /** The steps the issues name: each that is not valid, and at most one that is, which then
      lies on a cycle. Issues about the flow itself name none. */
  ghost predicate BlamesFlow(r: Registry, f: Flow, errs: seq<FlowIssue>) {
    && (forall id :: id in f.nodes && !ValidAt(r, f, id) ==> Blamed(errs, id))
    && (forall id :: id != "" && Blamed(errs, id) ==> id in f.nodes && (!ValidAt(r, f, id) || OnCycle(f, id)))
    && (forall id, id' :: id != "" && id' != "" && id != id' && Blamed(errs, id) && Blamed(errs, id') ==>
          !ValidAt(r, f, id) || !ValidAt(r, f, id'))
  }

  lemma FlowIsBlamed(r: Registry, f: Flow, ids: seq<string>, about: seq<FlowIssue>, nodes: seq<FlowIssue>,
                     cycle: string)
    requires Lists(ids, f) && AllAbout(about, "") && BlamesOf(r, f, ids, nodes)
    requires cycle != "" ==> OnCycle(f, cycle) && cycle in f.nodes
    ensures BlamesFlow(r, f, about + nodes + CycleIssue(cycle))
  {
    var errs := about + nodes + CycleIssue(cycle);
    forall id ensures id != "" && Blamed(errs, id) ==> Blamed(nodes, id) || id == cycle {
    }
    forall id | id in f.nodes && !ValidAt(r, f, id) ensures Blamed(errs, id) {
      assert id in ids;
      var e :| e in nodes && e.node == id;
      assert e in errs;
    }
    forall id | id != "" && Blamed(nodes, id) ensures id in f.nodes && !ValidAt(r, f, id) {
      var e :| e in nodes && e.node == id;
    }
  }

  function CycleIssue(cycle: string): seq<FlowIssue> {
    if cycle == "" then [] else [FlowIssue(cycle, "", "this step is part of a cycle")]
  }

  /** No error is reported exactly for a valid flow; a step off every path is warned
      about, in string order, when the flow gets as far as its graph. */
  method CheckFlow(r: Registry, f: Flow) returns (errs: seq<FlowIssue>, warns: seq<FlowIssue>)
    ensures errs == [] <==> ValidFlow(r, f)
    ensures |f.nodes| <= MAX_NODES_PER_FLOW ==> BlamesFlow(r, f, errs)
    ensures Sorted(WarnedNodes(warns)) && Distinct(WarnedNodes(warns))
    ensures Elements(WarnedNodes(warns)) ==
            if |f.nodes| <= MAX_NODES_PER_FLOW then f.nodes.Keys - ReachSet(f) else {}
  {
    warns := [];
    errs := CheckNameAndStart(f);
    if |f.nodes| > MAX_NODES_PER_FLOW || |f.nodes| == 0 {
      return;
    }
    var ids := SortedNodeIDs(f);
    var nodes := CheckNodes(r, f, ids);
    var cycle := CycleFinder.FindCycleNode(f, ids);
    NoBlameMeansValid(r, f, ids, nodes);
    FlowIsBlamed(r, f, ids, errs, nodes, cycle);
    errs := errs + nodes + CycleIssue(cycle);
    warns := WarnUnreachable(f, ids);
  }

  /** The issues about the flow as a whole. */
  method CheckNameAndStart(f: Flow) returns (errs: seq<FlowIssue>)
    ensures AllAbout(errs, "")
    ensures errs == [] <==>
            && Utf8Length(f.name) <= MAX_NAME_BYTES && |f.nodes| <= MAX_NODES_PER_FLOW
            && if f.nodes == map[] then f.start == "" else f.start != "" && f.start in f.nodes
  {
    errs := [];
    if Utf8Length(f.name) > MAX_NAME_BYTES {
      errs := errs + [FlowIssue("", "name", "is longer than 120 characters")];
    }
    if |f.nodes| > MAX_NODES_PER_FLOW {
      errs := errs + [FlowIssue("", "nodes", "has too many nodes")];
    } else if |f.nodes| == 0 {
      if f.start != "" {
        errs := errs + [FlowIssue("", "start", "names a node but the flow has no nodes")];
      }
    } else if f.start == "" {
      errs := errs + [FlowIssue("", "start", "must name the first node")];
    } else if f.start !in f.nodes {
      errs := errs + [FlowIssue("", "start", "names a missing node")];
    }
  }
}
