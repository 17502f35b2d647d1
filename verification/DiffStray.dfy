/** Which lines and sections of a hunk can be cut without harm; any other can break its counts. */
module DiffStray {
  import opened Wrappers
  import opened Text
  import opened Lines
  import opened DiffParser
  import opened DiffMeaning
  import opened DiffRender
  import opened DiffText

  /** The hunk has gone on by at most n lines of either side, and by some if moved. */
  ghost predicate Moved(s: State, s': State, n: nat, moved: bool) {
    && s.hunk.Some? && s'.hunk.Some? && s'.path == s.path && (s.path.Some? ==> s.path.value in s'.changed)
    && var h, h' := s.hunk.value, s'.hunk.value;
    && h'.oldCount == h.oldCount && h'.newCount == h.newCount
    && h.oldSeen <= h'.oldSeen <= h.oldSeen + n && h.newSeen <= h'.newSeen <= h.newSeen + n
    && (moved ==> h.oldSeen + h.newSeen < h'.oldSeen + h'.newSeen)
  }

  /** Inside a hunk of a named file. */
  ghost predicate Inside(s: State) {
    s.hunk.Some? && s.path.Some? && s.path.value in s.changed
  }

  /** Inside a hunk with room to spare a stray line fails, or counts. */
  lemma StrayLine(decode: string -> Target, s: State, line: string)
    requires Inside(s) && s.hunk.value.newSeen < s.hunk.value.newCount
    ensures Step(decode, s, line).Ok? ==> Moved(s, Step(decode, s, line).value, 1, !StartsWith(line, NO_NEWLINE))
  {
    if StartsWith(line, NO_NEWLINE) {
      NoNewlineIsPassedOver(decode, s, line);
    }
  }

  lemma {:induction false} StrayLines(decode: string -> Target, s: State, lines: seq<string>)
    requires Inside(s) && s.hunk.value.newSeen + |lines| < s.hunk.value.newCount
    ensures Fold(decode, s, lines).Ok? ==>
              Moved(s, Fold(decode, s, lines).value, |lines|, exists p :: p in lines && !StartsWith(p, NO_NEWLINE))
    decreases |lines|
  {
    if lines != [] {
      var front, last := lines[..|lines| - 1], lines[|lines| - 1];
      assert lines == front + [last];
      StrayLines(decode, s, front);
      if Fold(decode, s, front).Ok? {
        StrayLine(decode, Fold(decode, s, front).value, last);
      }
    }
  }

  const FILLER := Edit(Add, "", false)

  function Fillers(n: nat): seq<Edit> {
    if n == 0 then [] else Fillers(n - 1) + [FILLER]
  }

  lemma {:induction false} FillersAre(n: nat)
    ensures |Fillers(n)| == n && forall e :: e in Fillers(n) ==> e == FILLER
  {
    if n > 0 {
      FillersAre(n - 1);
    }
  }

  lemma {:induction false} FillersCount(edits: seq<Edit>)
    requires forall e :: e in edits ==> e.mark.Add?
    ensures OldCount(edits) == 0 && NewCount(edits) == |edits|
    decreases |edits|
  {
    if edits != [] {
      FillersCount(edits[..|edits| - 1]);
    }
  }

  lemma {:induction false} EditsConcat(a: seq<Edit>, b: seq<Edit>)
    ensures RenderEdits(a + b) == RenderEdits(a) + RenderEdits(b)
    ensures OldCount(a + b) == OldCount(a) + OldCount(b) && NewCount(a + b) == NewCount(a) + NewCount(b)
    decreases |b|
  {
    if b == [] {
      assert a + b == a;
    } else {
      var front, last := b[..|b| - 1], b[|b| - 1];
      EditsConcat(a, front);
      assert b == front + [last] && a + b == a + front + [last];
      RenderEditsSnoc(a + front, last);
      RenderEditsSnoc(front, last);
      CountsSnoc(a + front, last, 0);
      CountsSnoc(front, last, 0);
      Associate(RenderEdits(a), RenderEdits(front), RenderEdit(last));
    }
  }

  /** Where in a hunk text may come apart: a line, or the section after the ranges. */
  datatype Spot = Line(edit: Edit) | Section(text: string)
  {
    function Text(): string {
      if Line? then edit.text else text
    }

    function Lead(): seq<Edit> {
      if Line? then [edit] else []
    }
  }

  /** A line that changes something and does not begin as a file header would. */
  predicate Plain(x: Spot) {
    x.Line? ==> Clean(x.edit) && !x.edit.noNewline && !x.edit.mark.Keep?
  }

  /** A hunk with that spot and, after it, as many added lines as the spot has pieces. */
  function Padded(oldStart: nat, newStart: nat, x: Spot): Change {
    Change(oldStart, newStart, if x.Section? then Some(x.text) else None, x.Lead() + Fillers(|Pieces(x.Text())|))
  }

  function CutHeader(c: Change): Change {
    c.(section := if c.section.Some? then Some(Pieces(c.section.value)[0]) else None)
  }

  /** The padded hunk's lines before anything stray. */
  function Opening(c: Change, x: Spot): seq<string> {
    [RenderHeader(CutHeader(c))] + LeadPiece(x)
  }

  function LeadPiece(x: Spot): seq<string> {
    if x.Line? then [[MarkerOf(x.edit.mark)] + Pieces(x.edit.text)[0]] else []
  }

  lemma HeaderIsCut(c: Change)
    ensures Pieces(RenderHeader(c)) ==
            [RenderHeader(CutHeader(c))] + (if c.section.Some? then Pieces(c.section.value)[1..] else [])
  {
    HeaderFrontIsWhole(c);
    HeaderIsFrontAndSection(c);
    HeaderIsFrontAndSection(CutHeader(c));
    if c.section.Some? {
      WholeConcat(HeaderFront(c), " ");
      PiecesOfPrefixed(HeaderFront(c) + " ", c.section.value);
    } else {
      WholeIsOnePiece(HeaderFront(c));
    }
  }

  lemma LineIsCut(e: Edit)
    requires !e.noNewline
    ensures Flat(RenderEdits([e])) == [[MarkerOf(e.mark)] + Pieces(e.text)[0]] + Pieces(e.text)[1..]
  {
    var front := [MarkerOf(e.mark)];
    assert Whole(front);
    assert [e][..0] == [];
    assert RenderEdits([e]) == [front + e.text];
    FlatOne(front + e.text);
    PiecesOfPrefixed(front, e.text);
  }

  /** The pieces of the spot's line or header, whichever it is in. */
  lemma SpotIsCut(c: Change, x: Spot)
    requires Plain(x) && c.section == if x.Section? then Some(x.text) else None
    ensures Pieces(RenderHeader(c)) + Flat(RenderEdits(x.Lead())) == Opening(c, x) + Pieces(x.Text())[1..]
  {
    HeaderIsCut(c);
    if x.Line? {
      LineIsCut(x.edit);
    }
  }

  lemma FlatChange(c: Change, a: seq<Edit>, b: seq<Edit>)
    requires c.edits == a + b
    ensures Flat(RenderChange(c)) == Pieces(RenderHeader(c)) + Flat(RenderEdits(a)) + Flat(RenderEdits(b))
  {
    EditsConcat(a, b);
    FlatConcat([RenderHeader(c)], RenderEdits(a) + RenderEdits(b));
    FlatConcat(RenderEdits(a), RenderEdits(b));
    FlatOne(RenderHeader(c));
    Associate(Pieces(RenderHeader(c)), Flat(RenderEdits(a)), Flat(RenderEdits(b)));
  }

  lemma PaddedIsCut(oldStart: nat, newStart: nat, x: Spot)
    requires Plain(x)
    ensures var c, n := Padded(oldStart, newStart, x), |Pieces(x.Text())|;
      Flat(RenderChange(c)) == Opening(c, x) + (Pieces(x.Text())[1..] + RenderEdits(Fillers(n)))
  {
    var c, n := Padded(oldStart, newStart, x), |Pieces(x.Text())|;
    FlatChange(c, x.Lead(), Fillers(n));
    SpotIsCut(c, x);
    FillersAreWhole(n);
    Associate(Opening(c, x), Pieces(x.Text())[1..], RenderEdits(Fillers(n)));
  }

  lemma CutHeaderIsRead(decode: string -> Target, s: State, c: Change)
    requires s.hunk.None? && s.path.Some?
    ensures Step(decode, s, RenderHeader(CutHeader(c))) ==
            Ok(s.(hunk := Some(Hunk(c.newStart, OldCount(c.edits), NewCount(c.edits), 0, 0))))
  {
    HeaderIsRead(CutHeader(c));
    HeaderIsNoOther(CutHeader(c));
  }

  lemma FirstPieceOpens(decode: string -> Target, s: State, e: Edit)
    requires Inside(s) && Clean(e)
    ensures var r := Step(decode, s, [MarkerOf(e.mark)] + Pieces(e.text)[0]);
      && r.Ok? && Inside(r.value)
      && var h, h' := s.hunk.value, r.value.hunk.value;
      && h'.oldCount == h.oldCount && h'.newCount == h.newCount
      && h'.oldSeen == h.oldSeen + OldCount([e]) && h'.newSeen == h.newSeen + NewCount([e])
  {
    var cut := Edit(e.mark, Pieces(e.text)[0], false);
    FirstPieceBegins(e.text, "++ ");
    MarkedLineIsRead(decode, s, cut);
    OneEdit(s.hunk.value.newLine, cut);
    OneEdit(s.hunk.value.newLine, e);
  }

  /** Once the padded hunk is opened, the lines it lacks are as many as the spot has pieces. */
  ghost predicate Lacks(s: State, n: nat) {
    Inside(s) && s.hunk.value.oldSeen == s.hunk.value.oldCount && s.hunk.value.newSeen + n == s.hunk.value.newCount
  }

  lemma PaddedCounts(oldStart: nat, newStart: nat, x: Spot)
    ensures var c, n := Padded(oldStart, newStart, x), |Pieces(x.Text())|;
      OldCount(c.edits) == OldCount(x.Lead()) && NewCount(c.edits) == NewCount(x.Lead()) + n
  {
    var n := |Pieces(x.Text())|;
    EditsConcat(x.Lead(), Fillers(n));
    FillersAre(n);
    FillersCount(Fillers(n));
  }

  /** The counts of the spot's own line are met by its first piece, if it has a line. */
  lemma LeadIsRead(decode: string -> Target, s: State, x: Spot, n: nat)
    requires Inside(s) && s.hunk.value.oldSeen == s.hunk.value.newSeen == 0 && Plain(x)
    requires s.hunk.value.oldCount == OldCount(x.Lead()) && s.hunk.value.newCount == NewCount(x.Lead()) + n
    ensures var r := Fold(decode, s, LeadPiece(x));
      r.Ok? && Lacks(r.value, n)
  {
    if x.Line? {
      FirstPieceOpens(decode, s, x.edit);
      FoldOne(decode, s, [MarkerOf(x.edit.mark)] + Pieces(x.edit.text)[0]);
    }
  }

  lemma PaddedOpens(decode: string -> Target, s: State, oldStart: nat, newStart: nat, x: Spot)
    requires s.hunk.None? && s.path.Some? && s.path.value in s.changed && Plain(x)
    ensures var r := Fold(decode, s, Opening(Padded(oldStart, newStart, x), x));
      r.Ok? && Lacks(r.value, |Pieces(x.Text())|)
  {
    var c := Padded(oldStart, newStart, x);
    var header := RenderHeader(CutHeader(c));
    PaddedCounts(oldStart, newStart, x);
    CutHeaderIsRead(decode, s, c);
    FoldOne(decode, s, header);
    LeadIsRead(decode, Step(decode, s, header).value, x, |Pieces(x.Text())|);
    FoldConcat(decode, s, [header], LeadPiece(x));
  }

  lemma FillersDoNotHelp(decode: string -> Target, s: State, n: nat)
    requires Inside(s)
    requires s.hunk.value.oldSeen != s.hunk.value.oldCount || s.hunk.value.newSeen + n != s.hunk.value.newCount
    ensures var r := Fold(decode, s, RenderEdits(Fillers(n)));
      r.Ok? ==> FinishHunk(r.value).Err?
  {
    FillersAre(n);
    FillersCount(Fillers(n));
    EditsAreRead(decode, s, Fillers(n));
  }

  lemma StrayPiece(pieces: seq<string>)
    requires pieces != []
    ensures (exists p :: p in pieces[1..] && !StartsWith(p, NO_NEWLINE)) <==>
            exists i :: 0 < i < |pieces| && !StartsWith(pieces[i], NO_NEWLINE)
  {
    if i :| 0 < i < |pieces| && !StartsWith(pieces[i], NO_NEWLINE) {
      assert pieces[1..][i - 1] == pieces[i];
    }
  }

  /** With what is stray the hunk fails, or takes more lines than its header says. */
  lemma StraysFail(decode: string -> Target, s: State, text: string)
    requires Lacks(s, |Pieces(text)|) && !Harmless(text)
    ensures var r := Fold(decode, s, Pieces(text)[1..] + RenderEdits(Fillers(|Pieces(text)|)));
      r.Ok? ==> FinishHunk(r.value).Err?
  {
    var pieces := Pieces(text);
    FoldConcat(decode, s, pieces[1..], RenderEdits(Fillers(|pieces|)));
    StrayLines(decode, s, pieces[1..]);
    StrayPiece(pieces);
    if Fold(decode, s, pieces[1..]).Ok? {
      FillersDoNotHelp(decode, Fold(decode, s, pieces[1..]).value, |pieces|);
    }
  }

  lemma {:induction false} WholeLinesAreFlat(lines: seq<string>)
    requires forall line :: line in lines ==> Whole(line)
    ensures Flat(lines) == lines
    decreases |lines|
  {
    if lines != [] {
      var front, last := lines[..|lines| - 1], lines[|lines| - 1];
      WholeLinesAreFlat(front);
      WholeIsOnePiece(last);
      assert lines == front + [last];
    }
  }

  lemma {:induction false} WholeEditsPrintWhole(edits: seq<Edit>)
    requires forall e :: e in edits ==> Whole(e.text) && !e.noNewline
    ensures forall line :: line in RenderEdits(edits) ==> Whole(line)
    decreases |edits|
  {
    if edits != [] {
      WholeEditsPrintWhole(edits[..|edits| - 1]);
      var last := edits[|edits| - 1];
      assert RenderEdit(last) == [[MarkerOf(last.mark)] + last.text];
    }
  }

  lemma FillersAreWhole(n: nat)
    ensures Flat(RenderEdits(Fillers(n))) == RenderEdits(Fillers(n))
  {
    FillersAre(n);
    WholeEditsPrintWhole(Fillers(n));
    WholeLinesAreFlat(RenderEdits(Fillers(n)));
  }

  /** The header lines of a named file, none of which comes apart. */
  ghost predicate WholeHead(decode: string -> Target, f: FilePatch) {
    && Whole(f.title)
    && (forall line :: line in f.extra ==> Whole(line) && !Structural(line))
    && f.target.Some? && Whole(f.target.value) && decode(f.target.value).File?
  }

  lemma WholeHeadIsWhole(decode: string -> Target, f: FilePatch)
    requires WholeHead(decode, f)
    ensures Flat(Head(f)) == Head(f)
  {
    WholeConcat(DIFF_PREFIX, f.title);
    WholeConcat(TARGET_PREFIX, f.target.value);
    WholeLinesAreFlat(Head(f));
  }

  lemma WholeHeadIsRead(decode: string -> Target, f: FilePatch)
    requires WholeHead(decode, f)
    ensures FileOf(decode, f).Some?
    ensures Fold(decode, INIT, Head(f)) == Ok(State.State(map[FileOf(decode, f).value := {}], FileOf(decode, f), None))
  {
    PrefixedLines(f.title);
    PrefixedLines(f.target.value);
    FoldOne(decode, INIT, DIFF_PREFIX + f.title);
    ExtraIsSkipped(decode, INIT, f.extra);
    FoldConcat(decode, INIT, [DIFF_PREFIX + f.title], f.extra);
    FoldConcat(decode, INIT, [DIFF_PREFIX + f.title] + f.extra, TargetLine(f));
    FoldOne(decode, INIT, TARGET_PREFIX + f.target.value);
  }

  /** The file under those header lines with the padded hunk alone. */
  function PaddedFile(head: FilePatch, oldStart: nat, newStart: nat, x: Spot): FilePatch {
    head.(changes := [Padded(oldStart, newStart, x)])
  }

  lemma RenderOne(f: FilePatch, c: Change)
    requires f.changes == [c]
    ensures Render([f]) == Head(f) + RenderChange(c)
  {
    assert [f][..0] == [] && [c][..0] == [];
    assert Render([f]) == RenderFile(f) && RenderChanges([c]) == RenderChange(c);
  }

  /** Whatever comes apart otherwise is refused in some script, whatever the file's header lines
      and wherever the hunk lies. */
  lemma UnsafeTextIsRefused(decode: string -> Target, head: FilePatch, oldStart: nat, newStart: nat, x: Spot)
    requires WholeHead(decode, head) && Plain(x) && !Harmless(x.Text())
    ensures ParseText(decode, RenderText([PaddedFile(head, oldStart, newStart, x)])).Err?
  {
    var f, c := PaddedFile(head, oldStart, newStart, x), Padded(oldStart, newStart, x);
    var opening, rest := Opening(c, x), Pieces(x.Text())[1..] + RenderEdits(Fillers(|Pieces(x.Text())|));
    PrintedIsCut(Render([f]));
    RenderOne(f, c);
    FlatConcat(Head(f), RenderChange(c));
    WholeHeadIsWhole(decode, f);
    WholeHeadIsRead(decode, f);
    PaddedIsCut(oldStart, newStart, x);
    FoldConcat(decode, INIT, Head(f), opening + rest);
    var s := Fold(decode, INIT, Head(f)).value;
    PaddedOpens(decode, s, oldStart, newStart, x);
    FoldConcat(decode, s, opening, rest);
    StraysFail(decode, Fold(decode, s, opening).value, x.Text());
  }

  /** A hunk without lines that stay, in which nothing comes apart but that spot. */
  ghost predicate WholeChangeBut(c: Change, x: Spot) {
    && (c.section.Some? ==> x == Section(c.section.value) || Whole(c.section.value))
    && forall d :: d in c.edits ==> !d.mark.Keep? && (x == Line(d) || Whole(d.text))
  }

  /** A script git can print when asked for no context, without an added line that begins "++ ",
      in which nothing comes apart but that spot. */
  ghost predicate WholeBut(decode: string -> Target, files: seq<FilePatch>, x: Spot) {
    forall f :: f in files ==>
      && WellFormed(decode, f) && CleanFile(f)
      && Whole(f.title) && (forall line :: line in f.extra ==> Whole(line))
      && (f.target.Some? ==> Whole(f.target.value))
      && forall c :: c in f.changes ==> WholeChangeBut(c, x)
  }

  lemma WholeIsHarmless(text: string)
    requires Whole(text)
    ensures Harmless(text)
  {
    WholeIsOnePiece(text);
  }

  lemma WholeChangeIsHarmless(c: Change, x: Spot)
    requires WholeChangeBut(c, x) && Harmless(x.Text())
    ensures HarmlessChange(c)
  {
    if c.section.Some? && x != Section(c.section.value) {
      WholeIsHarmless(c.section.value);
    }
    forall d | d in c.edits ensures Harmless(d.text) {
      if x != Line(d) {
        WholeIsHarmless(d.text);
      }
    }
  }

  lemma WholeButIsCutSafely(decode: string -> Target, files: seq<FilePatch>, x: Spot, f: FilePatch)
    requires WholeBut(decode, files, x) && Harmless(x.Text()) && f in files
    ensures CutSafely(f)
  {
    WholeIsOnePiece(f.title);
    forall line | line in f.extra ensures Quiet(Pieces(line)) {
      WholeIsOnePiece(line);
    }
    forall c | c in f.changes ensures HarmlessChange(c) {
      WholeChangeIsHarmless(c, x);
    }
  }

  lemma PaddedIsWholeBut(decode: string -> Target, head: FilePatch, oldStart: nat, newStart: nat, x: Spot)
    requires WholeHead(decode, head) && Plain(x)
    ensures WholeBut(decode, [PaddedFile(head, oldStart, newStart, x)], x)
  {
    var f, c := PaddedFile(head, oldStart, newStart, x), Padded(oldStart, newStart, x);
    FillersAre(|Pieces(x.Text())|);
    forall d | d in c.edits ensures Clean(d) && !d.mark.Keep? && (x == Line(d) || Whole(d.text)) {
      if d !in x.Lead() {
        assert d == FILLER;
      }
    }
    assert f.changes == [c] && CleanChange(c) && WholeChangeBut(c, x);
  }

  /** A changed line or a section is read back right in every script in which all else stays
      whole exactly if it comes apart, if at all, only into pieces that say a newline is
      missing. Any header lines of a named file will do to show the other direction. */
  lemma HarmlessExactly(decode: string -> Target, head: FilePatch, x: Spot)
    requires WholeHead(decode, head) && Plain(x)
    ensures Harmless(x.Text()) <==>
            forall files :: WholeBut(decode, files, x) ==>
              ParseText(decode, RenderText(files)) == Ok(ScriptLines(decode, files))
  {
    if Harmless(x.Text()) {
      forall files | WholeBut(decode, files, x)
        ensures ParseText(decode, RenderText(files)) == Ok(ScriptLines(decode, files)) {
        forall f | f in files ensures CutSafely(f) {
          WholeButIsCutSafely(decode, files, x, f);
        }
        PrintedDiffIsReadBack(decode, files);
      }
    } else {
      PaddedIsWholeBut(decode, head, 0, 1, x);
      UnsafeTextIsRefused(decode, head, 0, 1, x);
    }
  }
}
