/** An added line with a form feed that is accepted, and wrongly: the lines after it are
    booked under another file. */
module DiffDisguise {
  import opened Wrappers
  import opened Text
  import opened Lines
  import opened DiffParser
  import opened DiffRender
  import opened DiffText
  import opened DiffStray

  const FORM_FEED := "\U{000C}"

  /** An added line with a form feed, after which it goes on as a file header would. */
  function Disguised(name: string): Edit {
    Edit(Add, "// " + FORM_FEED + (TARGET_PREFIX + name), false)
  }

  /** Where a hunk lies in the old file and in the new. */
  datatype Place = Place(oldStart: nat, newStart: nat)

  function OneAdded(at: Place, e: Edit): Change {
    Change(at.oldStart, at.newStart, None, [e])
  }

  const PLAIN := Edit(Add, "y", false)

  /** A file with two added lines, the first of them disguised. */
  function DisguisedFile(head: FilePatch, other: string, at: Place, next: Place): FilePatch {
    head.(changes := [OneAdded(at, Disguised(other)), OneAdded(next, PLAIN)])
  }

  lemma DisguisedPieces(name: string)
    requires Whole(name)
    ensures Pieces([MarkerOf(Add)] + Disguised(name).text) == ["+// ", TARGET_PREFIX + name]
  {
    var target := TARGET_PREFIX + name;
    WholeConcat(TARGET_PREFIX, name);
    WholeIsOnePiece(target);
    CutInTwo("+// ", target);
    assert [MarkerOf(Add)] + Disguised(name).text == "+// " + FORM_FEED + target;
  }

  lemma CutInTwo(a: string, rest: string)
    requires Whole(a) && Pieces(rest) == [rest]
    ensures Pieces(a + FORM_FEED + rest) == [a, rest]
  {
    SplitFirst(a, FORM_FEED, rest + "\n");
    Regroup(a, FORM_FEED, rest, "\n");
  }

  lemma OneAddedOpens(decode: string -> Target, s: State, at: Place, e: Edit)
    requires s.hunk.None? && s.path.Some? && e.mark.Add?
    ensures Step(decode, s, RenderHeader(OneAdded(at, e))) == Ok(s.(hunk := Some(Hunk(at.newStart, 0, 1, 0, 0))))
  {
    OneEdit(at.newStart, e);
    CutHeaderIsRead(decode, s, OneAdded(at, e));
    assert CutHeader(OneAdded(at, e)) == OneAdded(at, e);
  }

  lemma AddedLineIsRead(decode: string -> Target, s: State, p: string, text: string)
    requires s.hunk.Some? && s.hunk.value.newSeen == 0 && s.hunk.value.oldCount == s.hunk.value.oldSeen == 0
    requires s.hunk.value.newCount == 1 && s.path == Some(p) && p in s.changed && !StartsWith(text, "++ ")
    ensures var r := Step(decode, s, "+" + text);
      && r.Ok? && r.value.path == s.path && r.value.changed == s.changed[p := s.changed[p] + {s.hunk.value.newLine}]
      && r.value.hunk.Some? && r.value.hunk.value.Complete()
  {
    var e := Edit(Add, text, false);
    MarkedLineIsRead(decode, s, e);
    OneEdit(s.hunk.value.newLine, e);
  }

  lemma TargetIsRead(decode: string -> Target, s: State, name: string, p: string)
    requires decode(name) == File(p) && (s.hunk.Some? ==> s.hunk.value.Complete())
    ensures Step(decode, s, TARGET_PREFIX + name)
            == Ok(State.State(if p in s.changed then s.changed else s.changed[p := {}], Some(p), None))
  {
    PrefixedLines(name);
  }

  /** A hunk of one added line, whatever its header was printed for. */
  lemma HunkIsRead(decode: string -> Target, s: State, p: string, at: Place, e: Edit, text: string)
    requires s.hunk.None? && s.path == Some(p) && p in s.changed && e.mark.Add? && !StartsWith(text, "++ ")
    ensures var r := Fold(decode, s, [RenderHeader(OneAdded(at, e)), "+" + text]);
      && r.Ok? && r.value.path == s.path && r.value.changed == s.changed[p := s.changed[p] + {at.newStart}]
      && r.value.hunk.Some? && r.value.hunk.value.Complete()
  {
    var header := RenderHeader(OneAdded(at, e));
    OneAddedOpens(decode, s, at, e);
    FoldOne(decode, s, header);
    var s1 := Step(decode, s, header).value;
    AddedLineIsRead(decode, s1, p, text);
    FoldOne(decode, s1, "+" + text);
    FoldConcat(decode, s, [header], ["+" + text]);
  }

  /** What is read of the disguised hunk, and of the plain one. */
  function DisguisedLines(at: Place, other: string): seq<string> {
    [RenderHeader(OneAdded(at, Disguised(other))), "+// "]
  }

  function PlainLines(next: Place): seq<string> {
    [RenderHeader(OneAdded(next, PLAIN)), "+y"]
  }

  /** Under file p with these changed lines, and no hunk unfinished. */
  predicate Between(s: State, p: string, changed: map<string, set<int>>) {
    s.path == Some(p) && s.changed == changed && (s.hunk.Some? ==> s.hunk.value.Complete())
  }

  lemma DisguisedHunkIsRead(decode: string -> Target, s: State, p: string, at: Place, other: string)
    requires s == State.State(map[p := {}], Some(p), None)
    ensures var r := Fold(decode, s, DisguisedLines(at, other));
      r.Ok? && Between(r.value, p, map[p := {at.newStart}])
  {
    assert "+" + "// " == "+// " && {} + {at.newStart} == {at.newStart};
    assert "// "[..3][0] != "++ "[0];
    HunkIsRead(decode, s, p, at, Disguised(other), "// ");
  }

  lemma OtherNameIsRead(decode: string -> Target, s: State, p: string, lines: set<int>, other: string, q: string)
    requires Between(s, p, map[p := lines]) && decode(other) == File(q) && p != q
    ensures Fold(decode, s, [TARGET_PREFIX + other]) == Ok(State.State(map[p := lines, q := {}], Some(q), None))
  {
    TargetIsRead(decode, s, other, q);
    FoldOne(decode, s, TARGET_PREFIX + other);
  }

  lemma PlainHunkIsRead(decode: string -> Target, s: State, p: string, q: string, lines: set<int>, next: Place)
    requires p != q && s == State.State(map[p := lines, q := {}], Some(q), None)
    ensures var r := Fold(decode, s, PlainLines(next));
      r.Ok? && Between(r.value, q, map[p := lines, q := {next.newStart}])
  {
    assert "+" + "y" == "+y" && {} + {next.newStart} == {next.newStart};
    HunkIsRead(decode, s, q, next, PLAIN, "y");
  }

  /** The second line is booked under the other name. */
  lemma DisguisedIsRead(decode: string -> Target, p: string, at: Place, other: string, q: string, next: Place)
    requires decode(other) == File(q) && p != q
    ensures var r := Fold(decode, State.State(map[p := {}], Some(p), None),
                          DisguisedLines(at, other) + [TARGET_PREFIX + other] + PlainLines(next));
      && r.Ok? && FinishHunk(r.value).Ok? && r.value.changed == map[p := {at.newStart}, q := {next.newStart}]
  {
    var s := State.State(map[p := {}], Some(p), None);
    var first, header, second := DisguisedLines(at, other), [TARGET_PREFIX + other], PlainLines(next);
    DisguisedHunkIsRead(decode, s, p, at, other);
    OtherNameIsRead(decode, Fold(decode, s, first).value, p, {at.newStart}, other, q);
    FoldConcat(decode, s, first, header);
    PlainHunkIsRead(decode, Fold(decode, s, first + header).value, p, q, {at.newStart}, next);
    FoldConcat(decode, s, first + header, second);
  }

  /** A form feed in an added line can even be accepted, and wrongly: every file name can be
      made to take the added lines that follow in another file, whatever the header lines and
      wherever the hunks lie. */
  lemma AcceptedAndWrong(decode: string -> Target, head: FilePatch, p: string, other: string, q: string,
                         at: Place, next: Place)
    requires WholeHead(decode, head) && decode(head.target.value) == File(p)
    requires decode(other) == File(q) && p != q && Whole(other)
    ensures var f := DisguisedFile(head, other, at, next);
      && WellFormed(decode, f) && CleanFile(f)
      && ScriptLines(decode, [f]) == map[p := {at.newStart, next.newStart}]
      && ParseText(decode, RenderText([f])) == Ok(map[p := {at.newStart}, q := {next.newStart}])
  {
    var f := DisguisedFile(head, other, at, next);
    var lines := DisguisedLines(at, other) + [TARGET_PREFIX + other] + PlainLines(next);
    DisguisedScript(decode, head, p, other, at, next);
    DisguisedIsCut(decode, head, other, at, next);
    PrintedIsCut(Render([f]));
    WholeHeadIsRead(decode, f);
    DisguisedIsRead(decode, p, at, other, q, next);
    FoldConcat(decode, INIT, Head(f), lines);
  }

  lemma DisguisedIsCut(decode: string -> Target, head: FilePatch, other: string, at: Place, next: Place)
    requires WholeHead(decode, head) && Whole(other)
    ensures var f := DisguisedFile(head, other, at, next);
      Flat(Render([f])) == Head(f) + (DisguisedLines(at, other) + [TARGET_PREFIX + other] + PlainLines(next))
  {
    var f := DisguisedFile(head, other, at, next);
    var c, d := f.changes[0], f.changes[1];
    TwoChanges(f, c, d);
    WholeHeadIsWhole(decode, f);
    FlatConcat(Head(f), RenderChange(c) + RenderChange(d));
    FlatConcat(RenderChange(c), RenderChange(d));
    FlatAdded(at, Disguised(other));
    FlatAdded(next, PLAIN);
    DisguisedPieces(other);
    assert [MarkerOf(Add)] + "y" == "+y";
    WholeIsOnePiece("+y");
    SameLines(RenderHeader(c), TARGET_PREFIX + other, RenderHeader(d));
  }

  lemma TwoChanges(f: FilePatch, c: Change, d: Change)
    requires f.changes == [c, d]
    ensures Render([f]) == Head(f) + (RenderChange(c) + RenderChange(d))
  {
    assert [f][..0] == [] && [c][..0] == [];
    RenderChangesSnoc([c], d);
    assert f.changes == [c] + [d];
    assert RenderChanges([c]) == RenderChange(c);
  }

  lemma SameLines(first: string, target: string, second: string)
    ensures [first] + ["+// ", target] + ([second] + ["+y"]) == [first, "+// "] + [target] + [second, "+y"]
  {
  }

  lemma FlatAdded(at: Place, e: Edit)
    requires e.mark.Add? && !e.noNewline
    ensures Flat(RenderChange(OneAdded(at, e))) == [RenderHeader(OneAdded(at, e))] + Pieces([MarkerOf(Add)] + e.text)
  {
    var c := OneAdded(at, e);
    HeaderIsCut(c);
    assert CutHeader(c) == c;
    assert [e][..0] == [];
    assert RenderEdits([e]) == [[MarkerOf(Add)] + e.text];
    FlatConcat([RenderHeader(c)], RenderEdits([e]));
    FlatOne(RenderHeader(c));
    FlatOne([MarkerOf(Add)] + e.text);
  }

  lemma DisguisedScript(decode: string -> Target, head: FilePatch, p: string, other: string, at: Place, next: Place)
    requires WholeHead(decode, head) && decode(head.target.value) == File(p)
    ensures var f := DisguisedFile(head, other, at, next);
      WellFormed(decode, f) && CleanFile(f) && ScriptLines(decode, [f]) == map[p := {at.newStart, next.newStart}]
  {
    var f := DisguisedFile(head, other, at, next);
    var c, e := f.changes[0], Disguised(other);
    assert [f][..0] == [] && [c][..0] == [] && f.changes[..|f.changes| - 1] == [c];
    OneEdit(at.newStart, e);
    OneEdit(next.newStart, PLAIN);
    assert AddedBy([c]) == {} + {at.newStart};
    assert AddedBy(f.changes) == AddedBy([c]) + {next.newStart} == {at.newStart, next.newStart};
    assert {} + {at.newStart, next.newStart} == {at.newStart, next.newStart};
    assert e.text[0] == '/' && PLAIN.text[0] == 'y' && "++ "[0] == '+';
    assert !StartsWith(e.text, "++ ") && !StartsWith(PLAIN.text, "++ ");
  }
}
