/** The CLI's own walk of a flow: the reachable steps depth first, then what is off every path. */
module FlowDescribe {
  import opened Text
  import opened FlowGraph
  import KeyOrder

  datatype Line = Step(id: string) | StartIsNoStep(id: string) | NoStartStep | Unreachable(id: string)

  /** The steps the recursive walk adds, in order. */
  function Preorder(f: Flow, id: string, seen: set<string>): (added: seq<string>)
    decreases f.nodes.Keys - seen, 0
  {
    if id == "" || id !in f.nodes || id in seen then []
    else
      var n := f.nodes[id];
      [id] + PreorderAll(f, [n.yes, n.no, n.next], seen + {id})
  }

  /** Walking several steps one after the other. */
  function PreorderAll(f: Flow, ids: seq<string>, seen: set<string>): (added: seq<string>)
    decreases f.nodes.Keys - seen, 1 + |ids|
  {
    if ids == [] then []
    else
      var first := Preorder(f, ids[0], seen);
      first + PreorderAll(f, ids[1..], seen + set x | x in first)
  }

  lemma PreorderOfThree(f: Flow, ids: seq<string>, seen: set<string>)
    requires |ids| == 3
    ensures var a := Preorder(f, ids[0], seen);
      var b := Preorder(f, ids[1], seen + Elements(a));
      var c := Preorder(f, ids[2], seen + Elements(a) + Elements(b));
      PreorderAll(f, ids, seen) == a + b + c
  {
    var a := Preorder(f, ids[0], seen);
    var b := Preorder(f, ids[1], seen + Elements(a));
    var c := Preorder(f, ids[2], seen + Elements(a) + Elements(b));
    PreorderAllStep(f, ids, seen);
    PreorderAllStep(f, ids[1..], seen + Elements(a));
    assert ids[1..][1..] == ids[2..];
    PreorderAllStep(f, ids[2..], seen + Elements(a) + Elements(b));
    assert ids[2..][1..] == [];
    assert a + (b + (c + [])) == a + b + c;
  }

  lemma PreorderAllStep(f: Flow, ids: seq<string>, seen: set<string>)
    requires ids != []
    ensures PreorderAll(f, ids, seen) ==
            Preorder(f, ids[0], seen) + PreorderAll(f, ids[1..], seen + Elements(Preorder(f, ids[0], seen)))
    ensures PreorderAll(f, [], seen) == []
  {
    var first := Preorder(f, ids[0], seen);
    assert Elements(first) == set x | x in first;
  }

  lemma ElementsOfConcat(a: seq<string>, b: seq<string>)
    ensures Elements(a + b) == Elements(a) + Elements(b)
  {
  }

  class Walker {
    const f: Flow
    var seen: set<string>
    var out: seq<string>

    constructor (f: Flow)
      ensures this.f == f && seen == {} && out == []
    {
      this.f := f;
      seen, out := {}, [];
    }

    method Walk(id: string)
      requires seen == Elements(out)
      modifies this
      ensures seen == Elements(out)
      ensures out == old(out) + Preorder(f, id, old(seen))
      decreases f.nodes.Keys - seen
    {
      if id == "" || id !in f.nodes || id in seen {
        return;
      }
      var n := f.nodes[id];
      ghost var out1 := out + [id];
      ghost var a := Preorder(f, n.yes, Elements(out1));
      ghost var b := Preorder(f, n.no, Elements(out1 + a));
      ghost var c := Preorder(f, n.next, Elements(out1 + a + b));
      WalkOfThree(f, id, out, a, b, c);
      seen := seen + {id};
      out := out + [id];
      Walk(n.yes);
      Walk(n.no);
      Walk(n.next);
      assert out == out1 + a + b + c;
    }
  }

  lemma WalkOfThree(f: Flow, id: string, out: seq<string>, a: seq<string>, b: seq<string>, c: seq<string>)
    requires id != "" && id in f.nodes && id !in out
    requires a == Preorder(f, f.nodes[id].yes, Elements(out + [id]))
    requires b == Preorder(f, f.nodes[id].no, Elements(out + [id] + a))
    requires c == Preorder(f, f.nodes[id].next, Elements(out + [id] + a + b))
    ensures out + [id] + a + b + c == out + Preorder(f, id, Elements(out))
    ensures Elements(out + [id]) == Elements(out) + {id}
  {
    SeenAlong(out, id, a, b);
    PreorderUnfolds(f, id, Elements(out));
    Regroup(out, id, a, b, c);
  }

  lemma SeenAlong(out: seq<string>, id: string, a: seq<string>, b: seq<string>)
    ensures Elements(out + [id]) == Elements(out) + {id}
    ensures Elements(out + [id] + a) == Elements(out) + {id} + Elements(a)
    ensures Elements(out + [id] + a + b) == Elements(out) + {id} + Elements(a) + Elements(b)
  {
    ElementsOfConcat(out, [id]);
    ElementsOfConcat(out + [id], a);
    ElementsOfConcat(out + [id] + a, b);
    assert Elements([id]) == {id};
  }

  lemma Regroup(out: seq<string>, id: string, a: seq<string>, b: seq<string>, c: seq<string>)
    ensures out + [id] + a + b + c == out + ([id] + (a + b + c))
  {
  }

  lemma PreorderUnfolds(f: Flow, id: string, seen: set<string>)
    requires id != "" && id in f.nodes && id !in seen
    ensures var a := Preorder(f, f.nodes[id].yes, seen + {id});
      var b := Preorder(f, f.nodes[id].no, seen + {id} + Elements(a));
      var c := Preorder(f, f.nodes[id].next, seen + {id} + Elements(a) + Elements(b));
      Preorder(f, id, seen) == [id] + (a + b + c)
  {
    PreorderOfThree(f, [f.nodes[id].yes, f.nodes[id].no, f.nodes[id].next], seen + {id});
  }

  /** New steps only, none twice. */
  ghost predicate Fresh(f: Flow, added: seq<string>, seen: set<string>) {
    && Distinct(added)
    && forall x :: x in added ==> x in f.nodes && x !in seen
  }

  lemma {:induction false} PreorderIsFresh(f: Flow, id: string, seen: set<string>)
    ensures Fresh(f, Preorder(f, id, seen), seen)
    decreases f.nodes.Keys - seen, 0
  {
    if id != "" && id in f.nodes && id !in seen {
      var n := f.nodes[id];
      PreorderAllIsFresh(f, [n.yes, n.no, n.next], seen + {id});
    }
  }

  lemma {:induction false} PreorderAllIsFresh(f: Flow, ids: seq<string>, seen: set<string>)
    ensures Fresh(f, PreorderAll(f, ids, seen), seen)
    decreases f.nodes.Keys - seen, 1 + |ids|
  {
    if ids != [] {
      PreorderIsFresh(f, ids[0], seen);
      PreorderAllIsFresh(f, ids[1..], seen + Elements(Preorder(f, ids[0], seen)));
      FreshConcat(f, Preorder(f, ids[0], seen),
                  PreorderAll(f, ids[1..], seen + Elements(Preorder(f, ids[0], seen))), seen);
    }
  }

  lemma FreshConcat(f: Flow, a: seq<string>, b: seq<string>, seen: set<string>)
    requires Fresh(f, a, seen) && Fresh(f, b, seen + Elements(a))
    ensures Fresh(f, a + b, seen)
  {
    assert forall x :: x in b ==> x !in Elements(a);
    assert forall i :: 0 <= i < |a| ==> a[i] in a;
    assert forall i :: 0 <= i < |b| ==> b[i] in b;
  }

  lemma {:induction false} PreorderIsReached(f: Flow, id: string, seen: set<string>, x: string)
    requires x in Preorder(f, id, seen)
    ensures Reaches(f, id, x)
    decreases f.nodes.Keys - seen, 0
  {
    ReachesItself(f, id);
    if x != id {
      var n := f.nodes[id];
      var e := PreorderAllIsReached(f, [n.yes, n.no, n.next], seen + {id}, x);
      ReachesThrough(f, id, e, x);
    }
  }

  lemma {:induction false} PreorderAllIsReached(f: Flow, ids: seq<string>, seen: set<string>, x: string)
      returns (e: string)
    requires x in PreorderAll(f, ids, seen)
    ensures e in ids && e != "" && Reaches(f, e, x)
    decreases f.nodes.Keys - seen, 1 + |ids|
  {
    var first := Preorder(f, ids[0], seen);
    if x in first {
      e := ids[0];
      PreorderIsReached(f, e, seen, x);
    } else {
      e := PreorderAllIsReached(f, ids[1..], seen + Elements(first), x);
    }
  }

  lemma ReachesThrough(f: Flow, a: string, e: string, x: string)
    requires a in f.nodes && e != "" && (e == f.nodes[a].yes || e == f.nodes[a].no || e == f.nodes[a].next)
    requires Reaches(f, e, x)
    ensures Reaches(f, a, x)
  {
    var p :| Joins(f, p, e, x);
    assert Edge(f, a, e);
    forall i | 0 <= i < |p| ensures Edge(f, ([a] + p)[i], ([a] + p)[i + 1]) {
      if i > 0 {
        assert Edge(f, p[i - 1], p[(i - 1) + 1]);
      }
    }
    assert Joins(f, [a] + p, a, x);
  }

  /** Every step that leads on from xs is in ys. */
  ghost predicate LeadsInto(f: Flow, xs: set<string>, ys: set<string>) {
    forall x, y :: x in xs && Edge(f, x, y) ==> y in ys
  }

  /** Whatever the walk adds, it has added or seen every step that leads on from there. */
  lemma {:induction false} PreorderIsClosed(f: Flow, id: string, seen: set<string>)
    ensures id != "" && id in f.nodes ==> id in seen || id in Preorder(f, id, seen)
    ensures LeadsInto(f, Elements(Preorder(f, id, seen)), seen + Elements(Preorder(f, id, seen)))
    decreases f.nodes.Keys - seen, 0
  {
    if id != "" && id in f.nodes && id !in seen {
      var n := f.nodes[id];
      PreorderAllIsClosed(f, [n.yes, n.no, n.next], seen + {id});
      assert n.yes in [n.yes, n.no, n.next] && n.no in [n.yes, n.no, n.next] && n.next in [n.yes, n.no, n.next];
    }
  }

  lemma {:induction false} PreorderAllIsClosed(f: Flow, ids: seq<string>, seen: set<string>)
    ensures forall e :: e in ids && e != "" && e in f.nodes ==> e in seen || e in PreorderAll(f, ids, seen)
    ensures LeadsInto(f, Elements(PreorderAll(f, ids, seen)), seen + Elements(PreorderAll(f, ids, seen)))
    decreases f.nodes.Keys - seen, 1 + |ids|
  {
    if ids != [] {
      var first := Preorder(f, ids[0], seen);
      PreorderIsClosed(f, ids[0], seen);
      PreorderAllIsClosed(f, ids[1..], seen + Elements(first));
      var all := PreorderAll(f, ids, seen);
      assert forall x :: x in all <==> x in first || x in PreorderAll(f, ids[1..], seen + Elements(first));
    }
  }

  /** What the CLI walks: as the daemon, except that an empty start leads nowhere. */
  ghost function WalkedSet(f: Flow): set<string> {
    if f.start == "" then {} else ReachSet(f)
  }

  lemma PreorderIsWalkedSet(f: Flow)
    ensures Distinct(Preorder(f, f.start, {}))
    ensures Elements(Preorder(f, f.start, {})) == WalkedSet(f)
  {
    var added := Preorder(f, f.start, {});
    PreorderIsFresh(f, f.start, {});
    PreorderIsClosed(f, f.start, {});
    forall x | x in added ensures x in WalkedSet(f) {
      PreorderIsReached(f, f.start, {}, x);
    }
    forall x | x in WalkedSet(f) ensures x in added {
      var p :| Joins(f, p, f.start, x);
      ClosedHoldsPath(f, Elements(added), p, |p| - 1);
    }
  }

  /** The CLI and the daemon walk the same steps, unless the flow has no start and a
      step with an empty id: then the daemon starts there and the CLI nowhere. */
  lemma WalksAgree(f: Flow)
    ensures WalkedSet(f) == ReachSet(f) <==> !(f.start == "" && "" in f.nodes)
  {
    if f.start == "" {
      if "" in f.nodes {
        ReachesItself(f, "");
        assert "" in ReachSet(f);
      } else {
        assert ReachSet(f) == {};
      }
    }
  }

  function StepLines(ids: seq<string>): (out: seq<Line>) {
    seq(|ids|, i requires 0 <= i < |ids| => Step(ids[i]))
  }

  function UnreachableLines(ids: seq<string>): (out: seq<Line>) {
    seq(|ids|, i requires 0 <= i < |ids| => Unreachable(ids[i]))
  }

  /** What the CLI notes about a start that names no step. */
  function StartNote(f: Flow): seq<Line> {
    if f.start in f.nodes then []
    else if f.start != "" then [StartIsNoStep(f.start)]
    else if |f.nodes| > 0 then [NoStartStep]
    else []
  }

  method Unwalked(f: Flow, seen: set<string>) returns (ids: seq<string>)
    ensures Distinct(ids) && SortedBy(KeyOrder.KeyLess, ids) && Elements(ids) == f.nodes.Keys - seen
  {
    var keys := MapKeys(f.nodes);
    assert forall x :: x in keys <==> x in Elements(keys);
    var rest: seq<string> := [];
    for i := 0 to |keys|
      invariant Distinct(rest) && forall x :: x in rest <==> x in keys[..i] && x !in seen
    {
      assert keys[..i + 1] == keys[..i] + [keys[i]];
      if keys[i] !in seen {
        rest := rest + [keys[i]];
      }
    }
    assert keys[..|keys|] == keys;
    KeyOrder.KeyLessIsStrictTotalOrder();
    ids := SortBy(KeyOrder.KeyLess, rest);
    PermutationKeepsElements(rest, ids);
  }

  /** The steps off the walk, each once, in key order. */
  ghost predicate IsOffList(f: Flow, off: seq<string>) {
    Distinct(off) && SortedBy(KeyOrder.KeyLess, off) && Elements(off) == f.nodes.Keys - WalkedSet(f)
  }

  /** The listing is that of the walked steps, then a note about a start that names no step,
      then the steps off the walk. */
  ghost predicate IsListing(f: Flow, walked: seq<string>, off: seq<string>, out: seq<Line>) {
    var notes := if f.start !in f.nodes && (f.start != "" || f.nodes != map[]) then 1 else 0;
    && |out| == |walked| + notes + |off|
    && (forall i :: 0 <= i < |walked| ==> out[i] == Step(walked[i]))
    && (notes == 1 ==> out[|walked|] == if f.start == "" then NoStartStep else StartIsNoStep(f.start))
    && (forall i :: 0 <= i < |off| ==> out[|walked| + notes + i] == Unreachable(off[i]))
  }

  lemma LinesAreListing(f: Flow, walked: seq<string>, off: seq<string>)
    ensures IsListing(f, walked, off, StepLines(walked) + StartNote(f) + UnreachableLines(off))
  {
  }

  /** Every step is listed exactly once: walked, in walk order, or unreachable, in key
      order; a start that is no step is noted between the two. */
  method Describe(f: Flow) returns (out: seq<Line>)
    ensures Distinct(Preorder(f, f.start, {})) && Elements(Preorder(f, f.start, {})) == WalkedSet(f)
    ensures exists off :: IsOffList(f, off) && IsListing(f, Preorder(f, f.start, {}), off, out)
  {
    var walker := new Walker(f);
    assert walker.seen == Elements(walker.out);
    walker.Walk(f.start);
    assert [] + Preorder(f, f.start, {}) == Preorder(f, f.start, {});
    PreorderIsWalkedSet(f);
    var ids := Unwalked(f, walker.seen);
    out := StepLines(walker.out) + StartNote(f) + UnreachableLines(ids);
    LinesAreListing(f, walker.out, ids);
  }
}
