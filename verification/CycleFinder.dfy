/** Three-colour depth-first search for a step that lies on a cycle. */
module CycleFinder {
  import opened Text
  import opened FlowGraph

  datatype Colour = White | Grey | Black

  /** A missing entry reads as white. */
  function ColourOf(colour: map<string, Colour>, id: string): Colour {
    if id in colour then colour[id] else White
  }

  ghost predicate Blackens(before: map<string, Colour>, after: map<string, Colour>) {
    && before.Keys <= after.Keys
    && forall n :: ColourOf(before, n) == Black ==> ColourOf(after, n) == Black
  }

  /** The grey steps are the ones on the current search path, and everything a
      black step leads to was finished before it. */
  ghost predicate Consistent(f: Flow, colour: map<string, Colour>, path: seq<string>, finished: seq<string>) {
    && (path == [] || IsPath(f, path))
    && Distinct(path) && Distinct(finished)
    && (forall n :: n in colour <==> n in path || n in finished)
    && (forall n :: n in path ==> ColourOf(colour, n) == Grey)
    && (forall n :: n in finished ==> n in f.nodes && ColourOf(colour, n) == Black)
    && ChildrenFirst(f, finished)
  }

  lemma EnterKeeps(f: Flow, colour: map<string, Colour>, path: seq<string>, finished: seq<string>, id: string)
    requires Consistent(f, colour, path, finished) && id in f.nodes && ColourOf(colour, id) == White
    requires path != [] ==> Edge(f, path[|path| - 1], id)
    ensures Consistent(f, colour[id := Grey], path + [id], finished)
    ensures Blackens(colour, colour[id := Grey])
  {
    if path != [] {
      PathsExtend(f, path, id);
    }
  }

  lemma LeaveKeeps(f: Flow, colour: map<string, Colour>, path: seq<string>, finished: seq<string>, id: string)
    requires Consistent(f, colour, path + [id], finished)
    requires forall b :: Edge(f, id, b) ==> ColourOf(colour, b) == Black
    ensures Consistent(f, colour[id := Black], path, finished + [id])
    ensures Blackens(colour, colour[id := Black])
  {
    var longer := path + [id];
    assert longer[|path|] == id;
    assert forall i :: 0 <= i < |path| ==> longer[i] == path[i];
    assert id !in finished && id !in path;
    if path != [] {
      forall i | 0 <= i < |path| - 1 ensures Edge(f, path[i], path[i + 1]) {
        assert Edge(f, longer[i], longer[i + 1]);
      }
    }
    FinishKeepsOrder(f, finished, id);
  }

  class Finder {
    const f: Flow
    var colour: map<string, Colour>
    // The black steps in the order they were finished.
    ghost var finished: seq<string>

    constructor (f: Flow)
      ensures this.f == f && colour == map[] && finished == []
    {
      this.f := f;
      colour := map[];
      finished := [];
    }

    ghost predicate Valid(path: seq<string>)
      reads this
    {
      Consistent(f, colour, path, finished)
    }

    method Visit(id: string, ghost path: seq<string>) returns (c: string)
      requires Valid(path) && id in f.nodes && ColourOf(colour, id) == White
      requires path != [] ==> Edge(f, path[|path| - 1], id)
      modifies this
      ensures c != "" ==> OnCycle(f, c)
      ensures c == "" ==> Valid(path) && ColourOf(colour, id) == Black && Blackens(old(colour), colour)
      decreases f.nodes.Keys - colour.Keys
    {
      EnterKeeps(f, colour, path, finished, id);
      colour := colour[id := Grey];
      var edges := f.nodes[id].Edges();
      for i := 0 to |edges|
        invariant Valid(path + [id]) && Blackens(old(colour)[id := Grey], colour)
        invariant forall j :: 0 <= j < i && edges[j] in f.nodes ==> ColourOf(colour, edges[j]) == Black
      {
        var next := edges[i];
        if next in f.nodes {
          assert Edge(f, id, next);
          match ColourOf(colour, next)
          case Grey =>
            GreyEdgeClosesCycle(f, path + [id], next);
            return next;
          case White =>
            var sub := Visit(next, path + [id]);
            if sub != "" {
              return sub;
            }
          case Black =>
        }
      }
      LeaveKeeps(f, colour, path, finished, id);
      colour := colour[id := Black];
      finished := finished + [id];
      c := "";
    }
  }

  lemma GreyEdgeClosesCycle(f: Flow, path: seq<string>, next: string)
    requires IsPath(f, path) && next in path && Edge(f, path[|path| - 1], next)
    ensures OnCycle(f, next)
  {
    var k :| 0 <= k < |path| && path[k] == next;
    PathsExtend(f, path, path[k]);
    RepeatClosesCycle(f, path + [path[k]], k, |path|);
  }

  lemma FinishKeepsOrder(f: Flow, order: seq<string>, id: string)
    requires ChildrenFirst(f, order)
    requires forall b :: Edge(f, id, b) ==> b in order
    ensures ChildrenFirst(f, order + [id])
  {
    var longer := order + [id];
    forall i, b | 0 <= i < |longer| && Edge(f, longer[i], b)
      ensures b in longer[..i]
    {
      assert longer[..i] == order[..i];
    }
  }

  /** Whatever order the ids come in, the search answers "" exactly on an acyclic
      graph; any other answer is a step on a cycle. */
  method FindCycleNode(f: Flow, ids: seq<string>) returns (c: string)
    requires forall n :: n in f.nodes ==> n in ids
    requires forall n :: n in ids ==> n in f.nodes
    ensures c == "" <==> Acyclic(f)
    ensures c != "" ==> OnCycle(f, c)
  {
    var finder := new Finder(f);
    for i := 0 to |ids|
      invariant finder.f == f && finder.Valid([])
      invariant forall j :: 0 <= j < i ==> ColourOf(finder.colour, ids[j]) == Black
    {
      if ColourOf(finder.colour, ids[i]) == White {
        c := finder.Visit(ids[i], []);
        if c != "" {
          return c;
        }
      }
    }
    forall n ensures !OnCycle(f, n) {
      if n in f.nodes {
        ChildrenFirstIsAcyclic(f, finder.finished, n);
      }
    }
    c := "";
  }
}
