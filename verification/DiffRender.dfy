/** A diff as git prints an edit script, and when the parser accepts it: the lines of the
    script, put through the parser one after the other, come out as its changed lines. */
module DiffRender {
  import opened Wrappers
  import opened Numbers
  import opened Text
  import opened DiffParser
  import opened DiffMeaning

  datatype Mark = Add | Del | Keep

  /** One line of a hunk; the last line of a file may lack its newline. */
  datatype Edit = Edit(mark: Mark, text: string, noNewline: bool)

  /** section is what git prints after the ranges to say where in the file they lie. */
  datatype Change = Change(oldStart: nat, newStart: nat, section: Option<string>, edits: seq<Edit>)

  /** target is what follows "+++ ", if the file has such a line; extra are the other header lines. */
  datatype FilePatch = FilePatch(title: string, extra: seq<string>, target: Option<string>, changes: seq<Change>)

  function MarkerOf(m: Mark): char {
    match m
    case Add => '+'
    case Del => '-'
    case Keep => ' '
  }

  function RenderEdit(e: Edit): seq<string> {
    [[MarkerOf(e.mark)] + e.text] + (if e.noNewline then [NO_NEWLINE] else [])
  }

  function RenderEdits(edits: seq<Edit>): seq<string> {
    if edits == [] then [] else RenderEdits(edits[..|edits| - 1]) + RenderEdit(edits[|edits| - 1])
  }

  function OldCount(edits: seq<Edit>): nat {
    if edits == [] then 0 else OldCount(edits[..|edits| - 1]) + (if edits[|edits| - 1].mark.Add? then 0 else 1)
  }

  function NewCount(edits: seq<Edit>): nat {
    if edits == [] then 0 else NewCount(edits[..|edits| - 1]) + (if edits[|edits| - 1].mark.Del? then 0 else 1)
  }

  /** A count of one is left out. */
  function RenderRange(start: nat, count: nat): string {
    Digits(start) + (if count == 1 then "" else "," + Digits(count))
  }

  function RenderRanges(oldStart: nat, oldCount: nat, newStart: nat, newCount: nat, tail: string): string {
    "@@ -" + (RenderRange(oldStart, oldCount) + (" +" + (RenderRange(newStart, newCount) + (" @@" + tail))))
  }

  function RenderHeader(c: Change): string {
    RenderRanges(c.oldStart, OldCount(c.edits), c.newStart, NewCount(c.edits),
                 if c.section.Some? then " " + c.section.value else "")
  }

  function RenderChange(c: Change): seq<string> {
    [RenderHeader(c)] + RenderEdits(c.edits)
  }

  function RenderChanges(changes: seq<Change>): seq<string> {
    if changes == [] then [] else RenderChanges(changes[..|changes| - 1]) + RenderChange(changes[|changes| - 1])
  }

  function RenderFile(f: FilePatch): seq<string> {
    [DIFF_PREFIX + f.title] + f.extra + (if f.target.Some? then [TARGET_PREFIX + f.target.value] else [])
        + RenderChanges(f.changes)
  }

  function Render(files: seq<FilePatch>): seq<string> {
    if files == [] then [] else Render(files[..|files| - 1]) + RenderFile(files[|files| - 1])
  }

  ghost predicate OnlyDeletes(changes: seq<Change>) {
    forall c, e :: c in changes && e in c.edits ==> e.mark.Del?
  }

  /** A patch git can print: its other header lines are none the parser reads, a file that
      goes away only loses lines, and one that is named has a name. */
  ghost predicate WellFormed(decode: string -> Target, f: FilePatch) {
    && (forall line :: line in f.extra ==> !Structural(line))
    && (f.target.None? ==> f.changes == [])
    && (f.target.Some? ==>
          && decode(f.target.value) != Malformed
          && (decode(f.target.value).DevNull? ==> OnlyDeletes(f.changes)))
  }

  /** An added line whose text begins "++ " prints as a file header. */
  predicate Clean(e: Edit) {
    !(e.mark.Add? && StartsWith(e.text, "++ "))
  }

  ghost predicate CleanChange(c: Change) {
    forall e :: e in c.edits ==> Clean(e)
  }

  ghost predicate CleanFile(f: FilePatch) {
    forall c :: c in f.changes ==> CleanChange(c)
  }

  /** The numbers, in the new file, of the lines a hunk adds. */
  function AddedAt(start: nat, edits: seq<Edit>): set<int> {
    if edits == [] then {}
    else
      var front, last := edits[..|edits| - 1], edits[|edits| - 1];
      AddedAt(start, front) + (if last.mark.Add? then {start + NewCount(front)} else {})
  }

  function AddedBy(changes: seq<Change>): set<int> {
    if changes == [] then {}
    else
      var last := changes[|changes| - 1];
      AddedBy(changes[..|changes| - 1]) + AddedAt(last.newStart, last.edits)
  }

  function AddTo(changed: map<string, set<int>>, path: Option<string>, lines: set<int>): map<string, set<int>> {
    if path.None? then changed
    else changed[path.value := (if path.value in changed then changed[path.value] else {}) + lines]
  }

  function FileOf(decode: string -> Target, f: FilePatch): Option<string> {
    if f.target.Some? && decode(f.target.value).File? then Some(decode(f.target.value).path) else None
  }

  /** The added lines of an edit script, by the file each patch names. */
  function ScriptLines(decode: string -> Target, files: seq<FilePatch>): map<string, set<int>> {
    if files == [] then map[]
    else
      var last := files[|files| - 1];
      AddTo(ScriptLines(decode, files[..|files| - 1]), FileOf(decode, last), AddedBy(last.changes))
  }

  lemma {:induction false} FoldConcat(decode: string -> Target, s: State, a: seq<string>, b: seq<string>)
    ensures Fold(decode, s, a + b) == if Fold(decode, s, a).Ok? then Fold(decode, Fold(decode, s, a).value, b)
            else Fold(decode, s, a)
    decreases |b|
  {
    if b == [] {
      assert a + b == a;
    } else {
      assert (a + b)[..|a + b| - 1] == a + b[..|b| - 1];
      FoldConcat(decode, s, a, b[..|b| - 1]);
    }
  }

  lemma FoldOne(decode: string -> Target, s: State, line: string)
    ensures Fold(decode, s, [line]) == Step(decode, s, line)
  {
    assert [line][..0] == [];
  }

  lemma {:induction false} SpanOfDigits(digits: string, rest: string)
    requires AllDigits(digits) && (rest != "" ==> !IsDigit(rest[0]))
    ensures SpanDigits(digits + rest) == (digits, rest)
  {
    if digits == "" {
      assert digits + rest == rest;
    } else {
      SpanOfDigits(digits[1..], rest);
      SpanOneMore(digits[0], digits[1..] + rest);
      assert [digits[0]] + digits[1..] == digits;
      assert digits + rest == [digits[0]] + (digits[1..] + rest);
    }
  }

  lemma SpanOneMore(c: char, s: string)
    requires IsDigit(c)
    ensures SpanDigits([c] + s) == ([c] + SpanDigits(s).0, SpanDigits(s).1)
  {
    assert ([c] + s)[1..] == s;
  }

  lemma StartIsRead(start: nat, rest: string)
    requires rest != "" && !IsDigit(rest[0])
    ensures SpanDigits(Digits(start) + rest) == (Digits(start), rest) && Decimal(Digits(start)) == start
  {
    DecimalOfDigits(start);
    SpanOfDigits(Digits(start), rest);
  }

  lemma BareRangeIsRead(s: string, digits: string, rest: string)
    requires SpanDigits(s) == (digits, rest) && AllDigits(digits) && digits != "" && rest != "" && rest[0] == ' '
    ensures ParseRange(s) == Some((Decimal(digits), 1, rest))
  {
  }

  lemma FullRangeIsRead(s: string, first: string, tail: string, second: string, rest: string)
    requires SpanDigits(s) == (first, tail) && AllDigits(first) && first != "" && tail != "" && tail[0] == ','
    requires SpanDigits(tail[1..]) == (second, rest) && AllDigits(second) && second != ""
    ensures ParseRange(s) == Some((Decimal(first), Decimal(second), rest))
  {
  }

  lemma RangeIsRead(start: nat, count: nat, rest: string)
    requires rest != "" && rest[0] == ' '
    ensures ParseRange(RenderRange(start, count) + rest) == Some((start, count, rest))
  {
    var printed := RenderRange(start, count) + rest;
    if count == 1 {
      assert printed == Digits(start) + rest;
      StartIsRead(start, rest);
      BareRangeIsRead(printed, Digits(start), rest);
    } else {
      var tail := "," + (Digits(count) + rest);
      assert printed == Digits(start) + tail;
      StartIsRead(start, tail);
      assert tail[1..] == Digits(count) + rest;
      StartIsRead(count, rest);
      FullRangeIsRead(printed, Digits(start), tail, Digits(count), rest);
    }
  }

  /** A printed hunk header reads back as printed. */
  lemma HeaderIsRead(c: Change)
    ensures ParseHeader(RenderHeader(c)) == Some(Header(OldCount(c.edits), c.newStart, NewCount(c.edits)))
  {
    var tail := if c.section.Some? then " " + c.section.value else "";
    RangesAreRead(c.oldStart, OldCount(c.edits), c.newStart, NewCount(c.edits), tail);
  }

  lemma RangesAreRead(oldStart: nat, oldCount: nat, newStart: nat, newCount: nat, tail: string)
    requires tail == "" || tail[0] == ' '
    ensures ParseHeader(RenderRanges(oldStart, oldCount, newStart, newCount, tail)) ==
            Some(Header(oldCount, newStart, newCount))
  {
    var added := RenderRange(newStart, newCount) + (" @@" + tail);
    var removed := RenderRange(oldStart, oldCount) + (" +" + added);
    RangeIsRead(oldStart, oldCount, " +" + added);
    RangeIsRead(newStart, newCount, " @@" + tail);
    PrefixIsRead("@@ -", removed);
    PrefixIsRead(" +", added);
    PrefixIsRead(" @@", tail);
    HeaderFromRanges("@@ -" + removed, removed, oldStart, oldCount, added, newStart, newCount, " @@" + tail, tail);
  }

  lemma PrefixIsRead(prefix: string, rest: string)
    ensures StartsWith(prefix + rest, prefix) && (prefix + rest)[|prefix|..] == rest
  {
  }

  lemma HeaderFromRanges(line: string, removed: string, oldStart: nat, oldCount: nat,
                         added: string, newStart: nat, newCount: nat, closed: string, tail: string)
    requires StartsWith(line, "@@ -") && line[4..] == removed
    requires ParseRange(removed) == Some((oldStart, oldCount, " +" + added))
    requires StartsWith(" +" + added, " +") && (" +" + added)[2..] == added
    requires ParseRange(added) == Some((newStart, newCount, closed))
    requires StartsWith(closed, " @@") && closed[3..] == tail && (tail == "" || tail[0] == ' ')
    ensures ParseHeader(line) == Some(Header(oldCount, newStart, newCount))
  {
  }

  lemma HeaderIsNoOther(c: Change)
    ensures !IsDiff(RenderHeader(c)) && !IsTarget(RenderHeader(c))
  {
    assert RenderHeader(c)[0] == '@';
    assert DIFF_PREFIX[0] == 'd' && TARGET_PREFIX[0] == '+';
  }

  /** A printed line of a hunk is never a header, but for an added line that begins "++ ". */
  lemma EditLines(e: Edit)
    ensures var line := [MarkerOf(e.mark)] + e.text;
      && !IsDiff(line) && !IsHunk(line) && (IsTarget(line) <==> !Clean(e)) && !StartsWith(line, NO_NEWLINE)
    ensures !Structural(NO_NEWLINE) && StartsWith(NO_NEWLINE, NO_NEWLINE)
  {
    var line := [MarkerOf(e.mark)] + e.text;
    assert line[0] == MarkerOf(e.mark);
    assert DIFF_PREFIX[0] == 'd' && TARGET_PREFIX[0] == '+' && NO_NEWLINE[0] == '\\' && "@@ -"[0] == '@';
    if |line| >= 4 {
      assert line[..4] == [line[0]] + e.text[..3];
      assert line[..4][1..] == e.text[..3] && TARGET_PREFIX[1..] == "++ ";
      assert TARGET_PREFIX == ['+'] + "++ ";
    }
    assert NO_NEWLINE[..|NO_NEWLINE|] == NO_NEWLINE;
  }

  ghost predicate Ready(s: State) {
    && (s.hunk.Some? ==> s.hunk.value.Complete())
    && (s.path.Some? ==> s.path.value in s.changed)
  }

  /** In a hunk that has the room, with a file to add to. */
  ghost predicate Open(s: State, edits: seq<Edit>) {
    && s.hunk.Some?
    && (s.path.Some? ==> s.path.value in s.changed)
    && (s.path.None? ==> forall e :: e in edits ==> e.mark.Del?)
  }

  /** The state once a clean stretch of a hunk has been read. */
  function After(s: State, edits: seq<Edit>): State
    requires s.hunk.Some?
  {
    var h := s.hunk.value;
    State(AddTo(s.changed, s.path, AddedAt(h.newLine, edits)), s.path,
          Some(Hunk(h.newLine + NewCount(edits), h.oldCount, h.newCount, h.oldSeen + OldCount(edits),
                    h.newSeen + NewCount(edits))))
  }

  lemma AddToTwice(changed: map<string, set<int>>, path: Option<string>, a: set<int>, b: set<int>)
    ensures AddTo(AddTo(changed, path, a), path, b) == AddTo(changed, path, a + b)
    ensures (path.Some? ==> path.value in changed) ==> AddTo(changed, path, {}) == changed
  {
    if path.Some? {
      var was := if path.value in changed then changed[path.value] else {};
      assert (was + a) + b == was + (a + b);
      assert was + {} == was;
    }
  }

  lemma OneEdit(start: nat, e: Edit)
    ensures NewCount([e]) == (if e.mark.Del? then 0 else 1) && OldCount([e]) == (if e.mark.Add? then 0 else 1)
    ensures AddedAt(start, [e]) == if e.mark.Add? then {start} else {}
  {
    assert [e][..0] == [];
  }

  lemma AfterOne(s: State, front: seq<Edit>, e: Edit)
    requires s.hunk.Some?
    ensures After(After(s, front), [e]) == After(s, front + [e])
  {
    var edits := front + [e];
    assert edits[..|edits| - 1] == front;
    var start := s.hunk.value.newLine;
    OneEdit(start + NewCount(front), e);
    AddToTwice(s.changed, s.path, AddedAt(start, front), AddedAt(start + NewCount(front), [e]));
  }

  lemma MarkedLineIsRead(decode: string -> Target, s: State, e: Edit)
    requires Open(s, [e]) && Clean(e)
    ensures Step(decode, s, [MarkerOf(e.mark)] + e.text) == Ok(After(s, [e]))
  {
    var line := [MarkerOf(e.mark)] + e.text;
    EditLines(e);
    OneEdit(s.hunk.value.newLine, e);
    assert e in [e];
    assert line[0] == MarkerOf(e.mark);
    if !e.mark.Add? {
      AddToTwice(s.changed, s.path, {}, {});
    }
  }

  lemma EditIsRead(decode: string -> Target, s: State, e: Edit)
    requires Open(s, [e]) && Clean(e)
    ensures Fold(decode, s, RenderEdit(e)) == Ok(After(s, [e]))
  {
    var line := [MarkerOf(e.mark)] + e.text;
    MarkedLineIsRead(decode, s, e);
    FoldOne(decode, s, line);
    if e.noNewline {
      EditLines(e);
      FoldConcat(decode, s, [line], [NO_NEWLINE]);
      FoldOne(decode, After(s, [e]), NO_NEWLINE);
    } else {
      assert RenderEdit(e) == [line];
    }
  }

  lemma {:induction false} EditsAreRead(decode: string -> Target, s: State, edits: seq<Edit>)
    requires Open(s, edits) && forall e :: e in edits ==> Clean(e)
    ensures Fold(decode, s, RenderEdits(edits)) == Ok(After(s, edits))
    decreases |edits|
  {
    if edits == [] {
      AddToTwice(s.changed, s.path, {}, {});
    } else {
      var front, last := edits[..|edits| - 1], edits[|edits| - 1];
      assert edits == front + [last];
      EditsAreRead(decode, s, front);
      AfterOne(s, front, last);
      assert last in edits;
      EditIsRead(decode, After(s, front), last);
      FoldConcat(decode, s, RenderEdits(front), RenderEdit(last));
    }
  }

  lemma {:induction false} NewCountIsMonotone(edits: seq<Edit>, k: nat)
    requires k < |edits| && edits[k].mark.Add?
    ensures NewCount(edits[..k]) < NewCount(edits)
    decreases |edits|
  {
    var front := edits[..|edits| - 1];
    if k < |front| {
      assert front[..k] == edits[..k];
      NewCountIsMonotone(front, k);
    }
  }

  lemma {:induction false} RenderEditsSplit(edits: seq<Edit>, k: nat)
    requires k <= |edits|
    ensures |RenderEdits(edits[..k])| <= |RenderEdits(edits)|
    ensures RenderEdits(edits)[..|RenderEdits(edits[..k])|] == RenderEdits(edits[..k])
    decreases |edits|
  {
    if k == |edits| {
      assert edits[..k] == edits;
    } else {
      var front := edits[..|edits| - 1];
      assert front[..k] == edits[..k];
      RenderEditsSplit(front, k);
    }
  }

  /** An unclean line ends the hunk before its counts are met. */
  lemma UncleanEditsFail(decode: string -> Target, s: State, edits: seq<Edit>, k: nat)
    requires Open(s, edits) && s.hunk.value.newCount == s.hunk.value.newSeen + NewCount(edits)
    requires k < |edits| && !Clean(edits[k]) && forall e :: e in edits[..k] ==> Clean(e)
    ensures Fold(decode, s, RenderEdits(edits)).Err?
  {
    EditsAreRead(decode, s, edits[..k]);
    var s' := After(s, edits[..k]);
    NewCountIsMonotone(edits, k);
    var line := [MarkerOf(edits[k].mark)] + edits[k].text;
    EditLines(edits[k]);
    assert FinishHunk(s').Err?;
    FoldOne(decode, s', line);
    FoldConcat(decode, s', [line], RenderEdit(edits[k])[1..]);
    assert RenderEdit(edits[k]) == [line] + RenderEdit(edits[k])[1..];
    FoldConcat(decode, s, RenderEdits(edits[..k]), RenderEdit(edits[k]));
    assert edits[..k + 1][..k] == edits[..k];
    RenderEditsSplit(edits, k + 1);
    FoldFails(decode, s, RenderEdits(edits), |RenderEdits(edits[..k + 1])|);
  }

  lemma {:induction false} FirstUnclean(edits: seq<Edit>) returns (k: nat)
    requires exists e :: e in edits && !Clean(e)
    ensures k < |edits| && !Clean(edits[k]) && forall e :: e in edits[..k] ==> Clean(e)
  {
    k := 0;
    while k < |edits| && Clean(edits[k])
      invariant k <= |edits| && forall i :: 0 <= i < k ==> Clean(edits[i])
    {
      k := k + 1;
    }
  }

  lemma {:induction false} OnlyDeletesAddNothing(edits: seq<Edit>)
    requires forall e :: e in edits ==> e.mark.Del?
    ensures NewCount(edits) == 0
  {
    if edits != [] {
      OnlyDeletesAddNothing(edits[..|edits| - 1]);
    }
  }

  /** A printed hunk is read to its end exactly when all its lines are clean. */
  lemma ChangeIsRead(decode: string -> Target, s: State, c: Change)
    requires Ready(s) && (s.path.None? ==> forall e :: e in c.edits ==> e.mark.Del?)
    ensures var r := Fold(decode, s, RenderChange(c));
      && (r.Ok? <==> CleanChange(c))
      && (r.Ok? ==> Ready(r.value) && r.value.path == s.path)
      && (r.Ok? ==> r.value.changed == AddTo(s.changed, s.path, AddedAt(c.newStart, c.edits)))
  {
    HeaderIsRead(c);
    HeaderIsNoOther(c);
    FoldConcat(decode, s, [RenderHeader(c)], RenderEdits(c.edits));
    FoldOne(decode, s, RenderHeader(c));
    if s.path.None? {
      OnlyDeletesAddNothing(c.edits);
    }
    var s' := Step(decode, s, RenderHeader(c)).value;
    if CleanChange(c) {
      EditsAreRead(decode, s', c.edits);
    } else {
      var k := FirstUnclean(c.edits);
      UncleanEditsFail(decode, s', c.edits, k);
    }
  }

  lemma {:induction false} ChangesAreRead(decode: string -> Target, s: State, changes: seq<Change>)
    requires Ready(s) && (s.path.None? ==> OnlyDeletes(changes))
    ensures var r := Fold(decode, s, RenderChanges(changes));
      && (r.Ok? <==> forall c :: c in changes ==> CleanChange(c))
      && (r.Ok? ==> Ready(r.value))
      && (r.Ok? ==> r.value.path == s.path)
      && (r.Ok? ==> r.value.changed == AddTo(s.changed, s.path, AddedBy(changes)))
    decreases |changes|
  {
    if changes != [] {
      var front, last := changes[..|changes| - 1], changes[|changes| - 1];
      assert changes == front + [last];
      ChangesAreRead(decode, s, front);
      FoldConcat(decode, s, RenderChanges(front), RenderChange(last));
      if forall c :: c in front ==> CleanChange(c) {
        ChangeIsRead(decode, Fold(decode, s, RenderChanges(front)).value, last);
        AddToTwice(s.changed, s.path, AddedBy(front), AddedAt(last.newStart, last.edits));
      }
    } else {
      AddToTwice(s.changed, s.path, {}, {});
    }
  }

  lemma {:induction false} ExtraIsSkipped(decode: string -> Target, s: State, extra: seq<string>)
    requires s.hunk.None? && forall line :: line in extra ==> !Structural(line)
    ensures Fold(decode, s, extra) == Ok(s)
    decreases |extra|
  {
    if extra != [] {
      var front, last := extra[..|extra| - 1], extra[|extra| - 1];
      assert extra == front + [last];
      ExtraIsSkipped(decode, s, front);
      assert last in extra;
    }
  }

  lemma PrefixedLines(title: string)
    ensures IsDiff(DIFF_PREFIX + title)
    ensures IsTarget(TARGET_PREFIX + title) && !IsDiff(TARGET_PREFIX + title) && (TARGET_PREFIX + title)[4..] == title
  {
    assert (DIFF_PREFIX + title)[..|DIFF_PREFIX|] == DIFF_PREFIX;
    assert (TARGET_PREFIX + title)[..|TARGET_PREFIX|] == TARGET_PREFIX;
    assert (TARGET_PREFIX + title)[0] == '+' && DIFF_PREFIX[0] == 'd';
  }

  lemma NamedFile(changed: map<string, set<int>>, p: string)
    ensures AddTo(changed, Some(p), {}) == if p in changed then changed else changed[p := {}]
  {
    var none: set<int> := {};
    assert none + none == none;
    AddToTwice(changed, if p in changed then Some(p) else None, none, none);
  }

  /** The header lines of a file, up to its hunks. */
  lemma FileHeaderIsRead(decode: string -> Target, s: State, f: FilePatch)
    requires Ready(s) && WellFormed(decode, f)
    ensures var head := [DIFF_PREFIX + f.title] + f.extra
            + (if f.target.Some? then [TARGET_PREFIX + f.target.value] else []);
      var r := Fold(decode, s, head);
      && r.Ok? && Ready(r.value) && (r.value.path.None? ==> OnlyDeletes(f.changes))
      && r.value.path == FileOf(decode, f) && r.value.changed == AddTo(s.changed, FileOf(decode, f), {})
  {
    PrefixedLines(f.title);
    FoldOne(decode, s, DIFF_PREFIX + f.title);
    var s1 := Step(decode, s, DIFF_PREFIX + f.title).value;
    FoldConcat(decode, s, [DIFF_PREFIX + f.title], f.extra);
    ExtraIsSkipped(decode, s1, f.extra);
    var target := if f.target.Some? then [TARGET_PREFIX + f.target.value] else [];
    FoldConcat(decode, s, [DIFF_PREFIX + f.title] + f.extra, target);
    if f.target.Some? {
      PrefixedLines(f.target.value);
      FoldOne(decode, s1, TARGET_PREFIX + f.target.value);
      if FileOf(decode, f).Some? {
        NamedFile(s.changed, FileOf(decode, f).value);
      }
    }
  }

  lemma FileIsRead(decode: string -> Target, s: State, f: FilePatch)
    requires Ready(s) && WellFormed(decode, f)
    ensures var r := Fold(decode, s, RenderFile(f));
      && (r.Ok? <==> CleanFile(f)) && (r.Ok? ==> Ready(r.value))
      && (r.Ok? ==> r.value.changed == AddTo(s.changed, FileOf(decode, f), AddedBy(f.changes)))
  {
    var head := [DIFF_PREFIX + f.title] + f.extra + (if f.target.Some? then [TARGET_PREFIX + f.target.value] else []);
    FileHeaderIsRead(decode, s, f);
    FoldConcat(decode, s, head, RenderChanges(f.changes));
    ChangesAreRead(decode, Fold(decode, s, head).value, f.changes);
    AddToTwice(s.changed, FileOf(decode, f), {}, AddedBy(f.changes));
    assert {} + AddedBy(f.changes) == AddedBy(f.changes);
  }

  lemma {:induction false} FilesAreRead(decode: string -> Target, files: seq<FilePatch>)
    requires forall f :: f in files ==> WellFormed(decode, f)
    ensures var r := Fold(decode, INIT, Render(files));
      && (r.Ok? <==> forall f :: f in files ==> CleanFile(f))
      && (r.Ok? ==> Ready(r.value) && r.value.changed == ScriptLines(decode, files))
    decreases |files|
  {
    if files != [] {
      var front, last := files[..|files| - 1], files[|files| - 1];
      assert files == front + [last];
      FilesAreRead(decode, front);
      FoldConcat(decode, INIT, Render(front), RenderFile(last));
      if forall f :: f in front ==> CleanFile(f) {
        FileIsRead(decode, Fold(decode, INIT, Render(front)).value, last);
      }
    }
  }

  /** The lines of an edit script read back as the script's own added lines, file by file,
      unless some added line begins "++ "; a script with such a line fails closed. */
  lemma PrintedLinesAreReadBack(decode: string -> Target, files: seq<FilePatch>)
    requires forall f :: f in files ==> WellFormed(decode, f)
    ensures Parse(decode, Render(files)).Ok? <==> forall f :: f in files ==> CleanFile(f)
    ensures (forall f :: f in files ==> CleanFile(f)) ==> Parse(decode, Render(files)) == Ok(ScriptLines(decode, files))
  {
    FilesAreRead(decode, files);
  }
}
