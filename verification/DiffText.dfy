/** A diff as git prints it, cut into lines where Python ends a line, which git does not always:
    what comes apart harmlessly is read back as if it had not. */
module DiffText {
  import opened Wrappers
  import opened Numbers
  import opened Text
  import opened Lines
  import opened DiffParser
  import opened DiffMeaning
  import opened DiffRender

  function RenderText(files: seq<FilePatch>): string {
    Printed(Render(files))
  }

  /** The text comes apart, if at all, only into pieces the parser passes over in a hunk. */
  predicate Harmless(text: string) {
    forall i :: 0 < i < |Pieces(text)| ==> StartsWith(Pieces(text)[i], NO_NEWLINE)
  }

  predicate HarmlessChange(c: Change) {
    (c.section.Some? ==> Harmless(c.section.value)) && forall e :: e in c.edits ==> Harmless(e.text)
  }

  ghost predicate Quiet(pieces: seq<string>) {
    forall p :: p in pieces ==> !Structural(p)
  }

  /** What comes apart does so harmlessly: in a hunk as above, before the hunks into no line
      the parser reads; the name of the file does not come apart. */
  ghost predicate CutSafely(f: FilePatch) {
    && Quiet(Pieces(f.title)[1..])
    && (forall line :: line in f.extra ==> Quiet(Pieces(line)))
    && (f.target.Some? ==> Whole(f.target.value))
    && (forall c :: c in f.changes ==> HarmlessChange(c))
  }

  function CutEdit(e: Edit): Edit {
    e.(text := Pieces(e.text)[0])
  }

  function CutEdits(edits: seq<Edit>): (cut: seq<Edit>)
    ensures |cut| == |edits| && forall i :: 0 <= i < |edits| ==> cut[i] == CutEdit(edits[i])
  {
    seq(|edits|, i requires 0 <= i < |edits| => CutEdit(edits[i]))
  }

  function CutChange(c: Change): Change {
    c.(section := if c.section.Some? then Some(Pieces(c.section.value)[0]) else None, edits := CutEdits(c.edits))
  }

  function CutChanges(changes: seq<Change>): (cut: seq<Change>)
    ensures |cut| == |changes| && forall i :: 0 <= i < |changes| ==> cut[i] == CutChange(changes[i])
  {
    seq(|changes|, i requires 0 <= i < |changes| => CutChange(changes[i]))
  }

  /** The script as its lines are read; pieces of header lines are header lines. */
  function CutFile(f: FilePatch): FilePatch {
    FilePatch(Pieces(f.title)[0], Pieces(f.title)[1..] + Flat(f.extra), f.target, CutChanges(f.changes))
  }

  function CutFiles(files: seq<FilePatch>): seq<FilePatch> {
    if files == [] then [] else CutFiles(files[..|files| - 1]) + [CutFile(files[|files| - 1])]
  }

  /** The first piece begins as the text does, as far as that is without line ends. */
  lemma FirstPieceBegins(text: string, prefix: string)
    requires Whole(prefix)
    ensures StartsWith(Pieces(text)[0], prefix) <==> StartsWith(text, prefix)
  {
    var line := text + "\n";
    var i := LineEnd(line);
    assert Pieces(text)[0] == line[..i];
    assert line[|text|] == '\n';
    assert line[..i] == text[..i];
    if StartsWith(text, prefix) {
      assert forall k :: 0 <= k < |prefix| ==> text[..|prefix|][k] == text[k] == line[k];
      assert text[..i][..|prefix|] == text[..|prefix|];
    }
  }

  lemma CutKeepsClean(e: Edit)
    ensures Clean(CutEdit(e)) <==> Clean(e)
  {
    FirstPieceBegins(e.text, "++ ");
  }

  lemma CutEditsSnoc(front: seq<Edit>, last: Edit)
    ensures CutEdits(front + [last]) == CutEdits(front) + [CutEdit(last)]
  {
  }

  lemma CountsSnoc(front: seq<Edit>, last: Edit, start: nat)
    ensures OldCount(front + [last]) == OldCount(front) + (if last.mark.Add? then 0 else 1)
    ensures NewCount(front + [last]) == NewCount(front) + (if last.mark.Del? then 0 else 1)
    ensures AddedAt(start, front + [last]) ==
            AddedAt(start, front) + (if last.mark.Add? then {start + NewCount(front)} else {})
  {
    assert (front + [last])[..|front|] == front;
  }

  lemma {:induction false} CutKeepsCounts(edits: seq<Edit>, start: nat)
    ensures OldCount(CutEdits(edits)) == OldCount(edits) && NewCount(CutEdits(edits)) == NewCount(edits)
    ensures AddedAt(start, CutEdits(edits)) == AddedAt(start, edits)
    decreases |edits|
  {
    if edits != [] {
      var front, last := edits[..|edits| - 1], edits[|edits| - 1];
      assert edits == front + [last];
      CutKeepsCounts(front, start);
      CutEditsSnoc(front, last);
      CountsSnoc(front, last, start);
      CountsSnoc(CutEdits(front), CutEdit(last), start);
    }
  }

  ghost predicate AllDeletes(c: Change) {
    forall e :: e in c.edits ==> e.mark.Del?
  }

  predicate Alike(a: Edit, b: Edit) {
    a.mark == b.mark && (Clean(a) <==> Clean(b))
  }

  lemma EditsAlike(c: Change, d: Change)
    requires |c.edits| == |d.edits| && forall i :: 0 <= i < |c.edits| ==> Alike(c.edits[i], d.edits[i])
    ensures CleanChange(c) ==> CleanChange(d)
    ensures AllDeletes(c) ==> AllDeletes(d)
  {
    forall e | e in d.edits
      ensures CleanChange(c) ==> Clean(e)
      ensures AllDeletes(c) ==> e.mark.Del?
    {
      var i :| 0 <= i < |d.edits| && d.edits[i] == e;
      assert Alike(c.edits[i], d.edits[i]);
    }
  }

  lemma CutChangeIsClean(c: Change)
    ensures CleanChange(CutChange(c)) <==> CleanChange(c)
    ensures AllDeletes(CutChange(c)) <==> AllDeletes(c)
  {
    var cut := CutChange(c);
    forall i | 0 <= i < |c.edits| ensures Alike(c.edits[i], cut.edits[i]) && Alike(cut.edits[i], c.edits[i]) {
      CutKeepsClean(c.edits[i]);
    }
    EditsAlike(c, cut);
    EditsAlike(cut, c);
  }

  lemma {:induction false} CutKeepsAdded(changes: seq<Change>)
    ensures AddedBy(CutChanges(changes)) == AddedBy(changes)
    decreases |changes|
  {
    if changes != [] {
      var front, last := changes[..|changes| - 1], changes[|changes| - 1];
      CutKeepsAdded(front);
      var cut := CutChanges(changes);
      assert cut[..|cut| - 1] == CutChanges(front);
      CutKeepsCounts(last.edits, last.newStart);
    }
  }

  ghost predicate AlikeChanges(c: Change, d: Change) {
    (CleanChange(c) <==> CleanChange(d)) && (AllDeletes(c) <==> AllDeletes(d))
  }

  lemma ChangesAlike(a: seq<Change>, b: seq<Change>)
    requires |a| == |b| && forall i :: 0 <= i < |a| ==> AlikeChanges(a[i], b[i])
    ensures (forall c :: c in a ==> CleanChange(c)) ==> forall c :: c in b ==> CleanChange(c)
    ensures OnlyDeletes(a) ==> OnlyDeletes(b)
  {
    forall c | c in b
      ensures (forall d :: d in a ==> CleanChange(d)) ==> CleanChange(c)
      ensures OnlyDeletes(a) ==> AllDeletes(c)
    {
      var i :| 0 <= i < |b| && b[i] == c;
      assert a[i] in a && AlikeChanges(a[i], b[i]);
    }
  }

  lemma CutKeepsMarks(changes: seq<Change>)
    ensures (forall c :: c in CutChanges(changes) ==> CleanChange(c)) <==> forall c :: c in changes ==> CleanChange(c)
    ensures OnlyDeletes(CutChanges(changes)) <==> OnlyDeletes(changes)
  {
    var cut := CutChanges(changes);
    forall i | 0 <= i < |cut| ensures AlikeChanges(cut[i], changes[i]) && AlikeChanges(changes[i], cut[i]) {
      CutChangeIsClean(changes[i]);
    }
    ChangesAlike(cut, changes);
    ChangesAlike(changes, cut);
  }

  /** A line that says a newline is missing is passed over anywhere. */
  lemma NoNewlineIsPassedOver(decode: string -> Target, s: State, line: string)
    requires StartsWith(line, NO_NEWLINE)
    ensures Step(decode, s, line) == Ok(s)
  {
    assert line[..|NO_NEWLINE|][0] == line[0] == '\\';
    assert DIFF_PREFIX[0] == 'd' && TARGET_PREFIX[0] == '+' && "@@ -"[0] == '@';
  }

  lemma {:induction false} RestIsPassedOver(decode: string -> Target, s: State, rest: seq<string>)
    requires forall p :: p in rest ==> StartsWith(p, NO_NEWLINE)
    ensures Fold(decode, s, rest) == Ok(s)
    decreases |rest|
  {
    if rest != [] {
      var front, last := rest[..|rest| - 1], rest[|rest| - 1];
      RestIsPassedOver(decode, s, front);
      assert last in rest;
      NoNewlineIsPassedOver(decode, s, last);
    }
  }

  /** Of a line that comes apart harmlessly only the first piece is read. */
  lemma FirstPieceIsRead(decode: string -> Target, s: State, front: string, text: string)
    requires Whole(front) && Harmless(text)
    ensures Fold(decode, s, Pieces(front + text)) == Fold(decode, s, [front + Pieces(text)[0]])
  {
    var rest := Pieces(text)[1..];
    PiecesOfPrefixed(front, text);
    FoldConcat(decode, s, [front + Pieces(text)[0]], rest);
    forall p | p in rest ensures StartsWith(p, NO_NEWLINE) {
      var i :| 0 <= i < |rest| && rest[i] == p;
      assert Pieces(text)[i + 1] == p;
    }
    if Fold(decode, s, [front + Pieces(text)[0]]).Ok? {
      RestIsPassedOver(decode, Fold(decode, s, [front + Pieces(text)[0]]).value, rest);
    }
  }

  /** Reading one stretch of lines after another, each as its cut form. */
  lemma FoldTwo(decode: string -> Target, s: State, a: seq<string>, b: seq<string>, a': seq<string>, b': seq<string>)
    requires Fold(decode, s, a) == Fold(decode, s, a')
    requires Fold(decode, s, a).Ok? ==>
               Fold(decode, Fold(decode, s, a).value, b) == Fold(decode, Fold(decode, s, a).value, b')
    ensures Fold(decode, s, a + b) == Fold(decode, s, a' + b')
  {
    FoldConcat(decode, s, a, b);
    FoldConcat(decode, s, a', b');
  }

  lemma NoNewlineIsWhole()
    ensures Pieces(NO_NEWLINE) == [NO_NEWLINE]
  {
    WholeIsOnePiece(NO_NEWLINE);
  }

  lemma EditIsReadAsCut(decode: string -> Target, s: State, e: Edit)
    requires Harmless(e.text)
    ensures Fold(decode, s, Flat(RenderEdit(e))) == Fold(decode, s, RenderEdit(CutEdit(e)))
  {
    var front := [MarkerOf(e.mark)];
    var line := front + e.text;
    var tail := if e.noNewline then [NO_NEWLINE] else [];
    FirstPieceIsRead(decode, s, front, e.text);
    FlatConcat([line], tail);
    FlatOne(line);
    if e.noNewline {
      FlatOne(NO_NEWLINE);
      NoNewlineIsWhole();
    }
    FoldTwo(decode, s, Pieces(line), tail, [front + Pieces(e.text)[0]], tail);
  }

  lemma RenderEditsSnoc(front: seq<Edit>, last: Edit)
    ensures RenderEdits(front + [last]) == RenderEdits(front) + RenderEdit(last)
  {
    assert (front + [last])[..|front|] == front;
  }

  lemma {:induction false} EditsAreReadAsCut(decode: string -> Target, s: State, edits: seq<Edit>)
    requires forall e :: e in edits ==> Harmless(e.text)
    ensures Fold(decode, s, Flat(RenderEdits(edits))) == Fold(decode, s, RenderEdits(CutEdits(edits)))
    decreases |edits|
  {
    if edits != [] {
      var front, last := edits[..|edits| - 1], edits[|edits| - 1];
      assert edits == front + [last] && last in edits;
      EditsAreReadAsCut(decode, s, front);
      if Fold(decode, s, Flat(RenderEdits(front))).Ok? {
        EditIsReadAsCut(decode, Fold(decode, s, Flat(RenderEdits(front))).value, last);
      }
      RenderEditsSnoc(front, last);
      CutEditsSnoc(front, last);
      RenderEditsSnoc(CutEdits(front), CutEdit(last));
      FlatConcat(RenderEdits(front), RenderEdit(last));
      FoldTwo(decode, s, Flat(RenderEdits(front)), Flat(RenderEdit(last)), RenderEdits(CutEdits(front)),
              RenderEdit(CutEdit(last)));
    }
  }

  lemma WholeConcat(a: string, b: string)
    requires Whole(a) && Whole(b)
    ensures Whole(a + b)
  {
  }

  lemma WholeDigits(n: nat)
    ensures Whole(Digits(n))
  {
    forall i | 0 <= i < |Digits(n)| ensures !IsBreak(Digits(n)[i]) {
      assert IsDigit(Digits(n)[i]);
    }
  }

  lemma WholeRange(start: nat, count: nat)
    ensures Whole(RenderRange(start, count))
  {
    WholeDigits(start);
    WholeDigits(count);
    WholeConcat(",", Digits(count));
    WholeConcat(Digits(start), if count == 1 then "" else "," + Digits(count));
  }

  /** A hunk header up to its section. */
  function HeaderFront(c: Change): string {
    RenderRanges(c.oldStart, OldCount(c.edits), c.newStart, NewCount(c.edits), "")
  }

  lemma HeaderFrontIsWhole(c: Change)
    ensures Whole(HeaderFront(c))
  {
    var removed, added := RenderRange(c.oldStart, OldCount(c.edits)), RenderRange(c.newStart, NewCount(c.edits));
    WholeRange(c.oldStart, OldCount(c.edits));
    WholeRange(c.newStart, NewCount(c.edits));
    WholeConcat(added, " @@");
    WholeConcat(" +", added + " @@");
    WholeConcat(removed, " +" + (added + " @@"));
    assert " @@" + "" == " @@";
    WholeConcat("@@ -", removed + (" +" + (added + " @@")));
  }

  lemma HeaderIsFrontAndSection(c: Change)
    ensures RenderHeader(c) == if c.section.Some? then HeaderFront(c) + " " + c.section.value else HeaderFront(c)
  {
    var tail := if c.section.Some? then " " + c.section.value else "";
    var removed, added := RenderRange(c.oldStart, OldCount(c.edits)), RenderRange(c.newStart, NewCount(c.edits));
    assert "@@ -" + (removed + (" +" + (added + (" @@" + tail)))) ==
        "@@ -" + (removed + (" +" + (added + (" @@" + "")))) + tail;
    if c.section.Some? {
      assert HeaderFront(c) + tail == HeaderFront(c) + " " + c.section.value;
    }
  }

  lemma HeaderIsReadAsCut(decode: string -> Target, s: State, c: Change)
    requires HarmlessChange(c)
    ensures Fold(decode, s, Pieces(RenderHeader(c))) == Fold(decode, s, [RenderHeader(CutChange(c))])
  {
    HeaderIsFrontAndSection(c);
    HeaderIsFrontAndSection(CutChange(c));
    CutKeepsCounts(c.edits, 0);
    HeaderFrontIsWhole(c);
    if c.section.Some? {
      WholeConcat(HeaderFront(c), " ");
      FirstPieceIsRead(decode, s, HeaderFront(c) + " ", c.section.value);
    } else {
      WholeIsOnePiece(HeaderFront(c));
    }
  }

  lemma ChangeIsReadAsCut(decode: string -> Target, s: State, c: Change)
    requires HarmlessChange(c)
    ensures Fold(decode, s, Flat(RenderChange(c))) == Fold(decode, s, RenderChange(CutChange(c)))
  {
    FlatConcat([RenderHeader(c)], RenderEdits(c.edits));
    FlatOne(RenderHeader(c));
    HeaderIsReadAsCut(decode, s, c);
    if Fold(decode, s, Pieces(RenderHeader(c))).Ok? {
      EditsAreReadAsCut(decode, Fold(decode, s, Pieces(RenderHeader(c))).value, c.edits);
    }
    FoldTwo(decode, s, Pieces(RenderHeader(c)), Flat(RenderEdits(c.edits)), [RenderHeader(CutChange(c))],
            RenderEdits(CutEdits(c.edits)));
  }

  lemma RenderChangesSnoc(front: seq<Change>, last: Change)
    ensures RenderChanges(front + [last]) == RenderChanges(front) + RenderChange(last)
    ensures CutChanges(front + [last]) == CutChanges(front) + [CutChange(last)]
  {
    assert (front + [last])[..|front|] == front;
  }

  lemma {:induction false} ChangesAreReadAsCut(decode: string -> Target, s: State, changes: seq<Change>)
    requires forall c :: c in changes ==> HarmlessChange(c)
    ensures Fold(decode, s, Flat(RenderChanges(changes))) == Fold(decode, s, RenderChanges(CutChanges(changes)))
    decreases |changes|
  {
    if changes != [] {
      var front, last := changes[..|changes| - 1], changes[|changes| - 1];
      assert changes == front + [last] && last in changes;
      ChangesAreReadAsCut(decode, s, front);
      if Fold(decode, s, Flat(RenderChanges(front))).Ok? {
        ChangeIsReadAsCut(decode, Fold(decode, s, Flat(RenderChanges(front))).value, last);
      }
      RenderChangesSnoc(front, last);
      RenderChangesSnoc(CutChanges(front), CutChange(last));
      FlatConcat(RenderChanges(front), RenderChange(last));
      FoldTwo(decode, s, Flat(RenderChanges(front)), Flat(RenderChange(last)),
              RenderChanges(CutChanges(front)), RenderChange(CutChange(last)));
    }
  }

  /** The header lines of a file. */
  function Head(f: FilePatch): seq<string> {
    [DIFF_PREFIX + f.title] + f.extra + TargetLine(f)
  }

  function TargetLine(f: FilePatch): seq<string> {
    if f.target.Some? then [TARGET_PREFIX + f.target.value] else []
  }

  lemma TargetIsWhole(f: FilePatch)
    requires f.target.Some? ==> Whole(f.target.value)
    ensures Flat(TargetLine(f)) == TargetLine(f)
  {
    if f.target.Some? {
      WholeConcat(TARGET_PREFIX, f.target.value);
      WholeIsOnePiece(TARGET_PREFIX + f.target.value);
      FlatOne(TARGET_PREFIX + f.target.value);
    }
  }

  lemma HeadIsCut(f: FilePatch)
    requires CutSafely(f)
    ensures Flat(Head(f)) == Head(CutFile(f))
  {
    var line := DIFF_PREFIX + f.title;
    FlatConcat([line], f.extra);
    FlatConcat([line] + f.extra, TargetLine(f));
    FlatOne(line);
    PiecesOfPrefixed(DIFF_PREFIX, f.title);
    TargetIsWhole(f);
    Associate([DIFF_PREFIX + Pieces(f.title)[0]], Pieces(f.title)[1..], Flat(f.extra));
  }

  lemma FileIsReadAsCut(decode: string -> Target, s: State, f: FilePatch)
    requires CutSafely(f)
    ensures Fold(decode, s, Flat(RenderFile(f))) == Fold(decode, s, RenderFile(CutFile(f)))
  {
    HeadIsCut(f);
    FlatConcat(Head(f), RenderChanges(f.changes));
    if Fold(decode, s, Flat(Head(f))).Ok? {
      ChangesAreReadAsCut(decode, Fold(decode, s, Flat(Head(f))).value, f.changes);
    }
    FoldTwo(decode, s, Flat(Head(f)), Flat(RenderChanges(f.changes)), Head(CutFile(f)),
            RenderChanges(CutChanges(f.changes)));
  }

  lemma RenderSnoc(decode: string -> Target, front: seq<FilePatch>, last: FilePatch)
    ensures Render(front + [last]) == Render(front) + RenderFile(last)
    ensures CutFiles(front + [last]) == CutFiles(front) + [CutFile(last)]
    ensures ScriptLines(decode, front + [last]) ==
            AddTo(ScriptLines(decode, front), FileOf(decode, last), AddedBy(last.changes))
  {
    assert (front + [last])[..|front|] == front;
  }

  lemma {:induction false} FilesAreReadAsCut(decode: string -> Target, s: State, files: seq<FilePatch>)
    requires forall f :: f in files ==> CutSafely(f)
    ensures Fold(decode, s, Flat(Render(files))) == Fold(decode, s, Render(CutFiles(files)))
    decreases |files|
  {
    if files != [] {
      var front, last := files[..|files| - 1], files[|files| - 1];
      assert files == front + [last] && last in files;
      FilesAreReadAsCut(decode, s, front);
      if Fold(decode, s, Flat(Render(front))).Ok? {
        FileIsReadAsCut(decode, Fold(decode, s, Flat(Render(front))).value, last);
      }
      RenderSnoc(decode, front, last);
      RenderSnoc(decode, CutFiles(front), CutFile(last));
      FlatConcat(Render(front), RenderFile(last));
      FoldTwo(decode, s, Flat(Render(front)), Flat(RenderFile(last)), Render(CutFiles(front)),
              RenderFile(CutFile(last)));
    }
  }

  lemma {:induction false} FlatIsQuiet(lines: seq<string>)
    requires forall line :: line in lines ==> Quiet(Pieces(line))
    ensures Quiet(Flat(lines))
    decreases |lines|
  {
    if lines != [] {
      FlatIsQuiet(lines[..|lines| - 1]);
      assert lines[|lines| - 1] in lines;
    }
  }

  lemma CutFileIsWellFormed(decode: string -> Target, f: FilePatch)
    requires WellFormed(decode, f) && CutSafely(f)
    ensures WellFormed(decode, CutFile(f)) && (CleanFile(CutFile(f)) <==> CleanFile(f))
    ensures FileOf(decode, CutFile(f)) == FileOf(decode, f) && AddedBy(CutFile(f).changes) == AddedBy(f.changes)
  {
    FlatIsQuiet(f.extra);
    CutKeepsMarks(f.changes);
    CutKeepsAdded(f.changes);
  }

  lemma {:induction false} CutFilesAreWellFormed(decode: string -> Target, files: seq<FilePatch>)
    requires forall f :: f in files ==> WellFormed(decode, f) && CutSafely(f)
    ensures forall f :: f in CutFiles(files) ==> WellFormed(decode, f)
    ensures (forall f :: f in CutFiles(files) ==> CleanFile(f)) <==> forall f :: f in files ==> CleanFile(f)
    ensures ScriptLines(decode, CutFiles(files)) == ScriptLines(decode, files)
    decreases |files|
  {
    if files != [] {
      var front, last := files[..|files| - 1], files[|files| - 1];
      assert files == front + [last] && last in files;
      CutFilesAreWellFormed(decode, front);
      CutFileIsWellFormed(decode, last);
      RenderSnoc(decode, front, last);
      RenderSnoc(decode, CutFiles(front), CutFile(last));
      LastFile(decode, front, last);
      LastFile(decode, CutFiles(front), CutFile(last));
    }
  }

  lemma LastFile(decode: string -> Target, front: seq<FilePatch>, last: FilePatch)
    ensures (forall f :: f in front + [last] ==> CleanFile(f)) <==>
            (forall f :: f in front ==> CleanFile(f)) && CleanFile(last)
    ensures (forall f :: f in front + [last] ==> WellFormed(decode, f)) <==>
            (forall f :: f in front ==> WellFormed(decode, f)) && WellFormed(decode, last)
  {
    var all := front + [last];
    assert last in all && forall f :: f in front ==> f in all;
    assert forall f :: f in all ==> f in front || f == last;
  }

  /** A diff printed from an edit script reads back as the script's own added lines, file by
      file, unless an added line begins "++ ", which is refused; so long as no line comes
      apart where Python ends a line and git does not, or only harmlessly. */
  lemma PrintedDiffIsReadBack(decode: string -> Target, files: seq<FilePatch>)
    requires forall f :: f in files ==> WellFormed(decode, f) && CutSafely(f)
    ensures ParseText(decode, RenderText(files)).Ok? <==> forall f :: f in files ==> CleanFile(f)
    ensures (forall f :: f in files ==> CleanFile(f)) ==>
            ParseText(decode, RenderText(files)) == Ok(ScriptLines(decode, files))
  {
    PrintedIsCut(Render(files));
    FilesAreReadAsCut(decode, INIT, files);
    CutFilesAreWellFormed(decode, files);
    PrintedLinesAreReadBack(decode, CutFiles(files));
    SameFoldSameParse(decode, Flat(Render(files)), Render(CutFiles(files)));
  }

  lemma SameFoldSameParse(decode: string -> Target, a: seq<string>, b: seq<string>)
    requires Fold(decode, INIT, a) == Fold(decode, INIT, b)
    ensures Parse(decode, a) == Parse(decode, b)
  {
  }
}
