/** What an accepted diff means, told from the text of its lines alone: the number of a line is
    where its hunk starts and how many lines of the new file come before it. */
module DiffMeaning {
  import opened Wrappers
  import opened Text
  import opened Lines
  import opened DiffParser

  predicate Structural(line: string) {
    IsDiff(line) || IsTarget(line) || IsHunk(line)
  }

  /** The last header line of a stretch of the diff. */
  function LastHeader(prefix: seq<string>): (r: Option<nat>)
    ensures r.Some? ==> r.value < |prefix| && Structural(prefix[r.value])
  {
    if prefix == [] then None
    else if Structural(prefix[|prefix| - 1]) then Some(|prefix| - 1)
    else LastHeader(prefix[..|prefix| - 1])
  }

  /** The next line belongs to a hunk. */
  predicate InHunk(prefix: seq<string>) {
    var g := LastHeader(prefix);
    g.Some? && !IsDiff(prefix[g.value]) && !IsTarget(prefix[g.value])
  }

  function HunkOf(prefix: seq<string>): Header
    requires InHunk(prefix)
  {
    ParseHeader(prefix[LastHeader(prefix).value]).value
  }

  /** The file named by the last file header, unless it names none. */
  function PathOf(decode: string -> Target, prefix: seq<string>): Option<string> {
    if prefix == [] then None
    else
      var last := prefix[|prefix| - 1];
      if IsDiff(last) then None
      else if IsTarget(last) then
        match decode(last[4..])
        case File(p) => Some(p)
        case _ => None
      else PathOf(decode, prefix[..|prefix| - 1])
  }

  predicate Marked(line: string, marker: char) {
    line != "" && line[0] == marker
  }

  /** How many lines of the new file these lines of a hunk stand for. */
  function NewLines(body: seq<string>): nat {
    if body == [] then 0
    else
      var last := body[|body| - 1];
      NewLines(body[..|body| - 1]) + (if Marked(last, '+') || Marked(last, ' ') then 1 else 0)
  }

  /** The number, in the new file, of the line that comes next in the hunk. */
  function LineNumber(prefix: seq<string>): nat
    requires InHunk(prefix)
  {
    HunkOf(prefix).newStart + NewLines(prefix[LastHeader(prefix).value + 1..])
  }

  /** Line i adds line x of file p. */
  predicate AddsLine(decode: string -> Target, lines: seq<string>, i: nat, p: string, x: int)
    requires i < |lines|
  {
    && !Structural(lines[i]) && Marked(lines[i], '+') && InHunk(lines[..i])
    && PathOf(decode, lines[..i]) == Some(p) && LineNumber(lines[..i]) == x
  }

  predicate NamesFile(decode: string -> Target, line: string, p: string) {
    !IsDiff(line) && IsTarget(line) && decode(line[4..]) == File(p)
  }

  /** The files are the named ones, and their changed lines the numbers of their added lines. */
  ghost predicate ChangedIs(decode: string -> Target, lines: seq<string>, changed: map<string, set<int>>) {
    && (forall p :: p in changed <==> exists i :: 0 <= i < |lines| && NamesFile(decode, lines[i], p))
    && (forall p, x :: p in changed && x in changed[p] ==>
        exists i :: 0 <= i < |lines| && AddsLine(decode, lines, i, p, x))
    && (forall i, p, x :: 0 <= i < |lines| && AddsLine(decode, lines, i, p, x) ==> p in changed && x in changed[p])
  }

  predicate AddedInHunk(lines: seq<string>, i: nat)
    requires i < |lines|
  {
    !Structural(lines[i]) && Marked(lines[i], '+') && InHunk(lines[..i])
  }

  /** Every added line lies inside the range its hunk declares or, in the hunk that is
      still open, among the lines seen so far. */
  ghost predicate InRange(lines: seq<string>, seen: nat) {
    forall i :: 0 <= i < |lines| && AddedInHunk(lines, i) ==>
      LineNumber(lines[..i]) < HunkOf(lines[..i]).newStart +
        (if LastHeader(lines[..i]) == LastHeader(lines) then seen else HunkOf(lines[..i]).newCount)
  }

  function Seen(s: State): nat {
    if s.hunk.Some? then s.hunk.value.newSeen else 0
  }

  ghost predicate HunkTracks(lines: seq<string>, hunk: Option<Hunk>) {
    && (hunk.Some? <==> InHunk(lines))
    && (hunk.Some? ==>
          && hunk.value.newCount == HunkOf(lines).newCount
          && hunk.value.newLine == LineNumber(lines) == HunkOf(lines).newStart + hunk.value.newSeen)
  }

  /** The parser's state after the lines so far. */
  ghost predicate Tracks(decode: string -> Target, lines: seq<string>, s: State) {
    && s.path == PathOf(decode, lines)
    && (s.path.Some? ==> s.path.value in s.changed)
    && HunkTracks(lines, s.hunk)
    && ChangedIs(decode, lines, s.changed)
  }

  lemma NoNewlineIsUnmarked(line: string)
    requires StartsWith(line, NO_NEWLINE)
    ensures !Marked(line, '+') && !Marked(line, ' ') && !Marked(line, '-')
  {
    assert line[..|NO_NEWLINE|][0] == NO_NEWLINE[0];
  }

  lemma StepTracksHunk(decode: string -> Target, lines: seq<string>, s: State, line: string)
    requires HunkTracks(lines, s.hunk) && Step(decode, s, line).Ok?
    ensures HunkTracks(lines + [line], Step(decode, s, line).value.hunk)
  {
    var all := lines + [line];
    assert all[..|lines|] == lines;
    if Structural(line) {
      assert all[|lines| + 1..] == [];
    } else {
      if StartsWith(line, NO_NEWLINE) {
        NoNewlineIsUnmarked(line);
      }
      HunkGoesOn(lines, line);
    }
  }

  /** A line that is no header stays in the hunk, and counts if it is of the new file. */
  lemma HunkGoesOn(lines: seq<string>, line: string)
    requires !Structural(line)
    ensures var all := lines + [line];
      && (InHunk(all) <==> InHunk(lines))
      && (InHunk(lines) ==> HunkOf(all) == HunkOf(lines)
                            && LineNumber(all) ==
                                LineNumber(lines) + (if Marked(line, '+') || Marked(line, ' ') then 1 else 0))
  {
    var all := lines + [line];
    assert all[..|lines|] == lines;
    assert LastHeader(all) == LastHeader(lines);
    if InHunk(lines) {
      var g := LastHeader(lines).value;
      assert all[g + 1..] == lines[g + 1..] + [line];
      assert (lines[g + 1..] + [line])[..|lines[g + 1..]|] == lines[g + 1..];
    }
  }

  lemma AddsLineOfPrefix(decode: string -> Target, lines: seq<string>, line: string, i: nat, p: string, x: int)
    requires i < |lines|
    ensures AddsLine(decode, lines + [line], i, p, x) <==> AddsLine(decode, lines, i, p, x)
  {
    assert (lines + [line])[..i] == lines[..i];
  }

  /** What one more line adds to the changed lines. */
  lemma OneMoreLine(decode: string -> Target, lines: seq<string>, changed: map<string, set<int>>, line: string,
                    changed': map<string, set<int>>)
    requires ChangedIs(decode, lines, changed)
    requires forall p :: p in changed' <==> p in changed || NamesFile(decode, line, p)
    requires forall p, x :: p in changed' ==>
               (x in changed'[p] <==>
                (p in changed && x in changed[p]) || AddsLine(decode, lines + [line], |lines|, p, x))
    requires forall p, x :: AddsLine(decode, lines + [line], |lines|, p, x) ==> p in changed'
    ensures ChangedIs(decode, lines + [line], changed')
  {
    var all := lines + [line];
    forall p ensures p in changed' <==> exists i :: 0 <= i < |all| && NamesFile(decode, all[i], p) {
      if p in changed {
        var i :| 0 <= i < |lines| && NamesFile(decode, lines[i], p);
        assert NamesFile(decode, all[i], p);
      } else if NamesFile(decode, line, p) {
        assert NamesFile(decode, all[|lines|], p);
      }
    }
    forall p, x | p in changed' && x in changed'[p]
      ensures exists i :: 0 <= i < |all| && AddsLine(decode, all, i, p, x) {
      if p in changed && x in changed[p] {
        var i :| 0 <= i < |lines| && AddsLine(decode, lines, i, p, x);
        AddsLineOfPrefix(decode, lines, line, i, p, x);
      } else {
        assert AddsLine(decode, all, |lines|, p, x);
      }
    }
    forall i, p, x | 0 <= i < |all| && AddsLine(decode, all, i, p, x) ensures p in changed' && x in changed'[p] {
      if i < |lines| {
        AddsLineOfPrefix(decode, lines, line, i, p, x);
      }
    }
  }

  /** A header line adds no line, and names a file only as a target. */
  lemma HeaderTracks(decode: string -> Target, lines: seq<string>, s: State, line: string)
    requires Tracks(decode, lines, s) && Structural(line) && Step(decode, s, line).Ok?
    ensures Tracks(decode, lines + [line], Step(decode, s, line).value)
  {
    var s' := Step(decode, s, line).value;
    StepTracksHunk(decode, lines, s, line);
    HeaderTracksPath(decode, lines, s, line);
    HeaderAddsNothing(decode, lines, line);
    OneMoreLine(decode, lines, s.changed, line, s'.changed);
  }

  lemma HeaderTracksPath(decode: string -> Target, lines: seq<string>, s: State, line: string)
    requires s.path == PathOf(decode, lines) && (s.path.Some? ==> s.path.value in s.changed)
    requires Structural(line) && Step(decode, s, line).Ok?
    ensures var s' := Step(decode, s, line).value;
      && s'.path == PathOf(decode, lines + [line]) && (s'.path.Some? ==> s'.path.value in s'.changed)
      && (forall p :: p in s'.changed <==> p in s.changed || NamesFile(decode, line, p))
      && (forall p :: p in s'.changed ==> s'.changed[p] == if p in s.changed then s.changed[p] else {})
  {
    assert (lines + [line])[..|lines|] == lines;
  }

  lemma HeaderAddsNothing(decode: string -> Target, lines: seq<string>, line: string)
    requires Structural(line)
    ensures forall p, x :: !AddsLine(decode, lines + [line], |lines|, p, x)
  {
  }

  /** Any other line keeps the file, and adds a line exactly when it is marked so in a hunk. */
  lemma BodyTracks(decode: string -> Target, lines: seq<string>, s: State, line: string)
    requires Tracks(decode, lines, s) && !Structural(line) && Step(decode, s, line).Ok?
    ensures Tracks(decode, lines + [line], Step(decode, s, line).value)
  {
    var s' := Step(decode, s, line).value;
    StepTracksHunk(decode, lines, s, line);
    BodyTracksPath(decode, lines, s, line);
    BodyAdds(decode, lines, s, line);
    OneMoreLine(decode, lines, s.changed, line, s'.changed);
  }

  lemma BodyTracksPath(decode: string -> Target, lines: seq<string>, s: State, line: string)
    requires s.path == PathOf(decode, lines) && !Structural(line) && Step(decode, s, line).Ok?
    ensures Step(decode, s, line).value.path == s.path == PathOf(decode, lines + [line])
    ensures forall p :: !NamesFile(decode, line, p)
  {
    assert (lines + [line])[..|lines|] == lines;
  }

  /** What a line that is no header adds, told from the text and from the state. */
  lemma BodyAdds(decode: string -> Target, lines: seq<string>, s: State, line: string)
    requires Tracks(decode, lines, s) && !Structural(line) && Step(decode, s, line).Ok?
    ensures var s' := Step(decode, s, line).value;
      && s'.changed.Keys == s.changed.Keys
      && (forall p, x :: AddsLine(decode, lines + [line], |lines|, p, x) ==> p in s.changed)
      && (forall p, x :: p in s.changed ==>
            (x in s'.changed[p] <==> x in s.changed[p] || AddsLine(decode, lines + [line], |lines|, p, x)))
  {
    assert (lines + [line])[..|lines|] == lines;
    if StartsWith(line, NO_NEWLINE) {
      NoNewlineIsUnmarked(line);
    }
    BodyChanges(decode, s, line);
  }

  lemma BodyChanges(decode: string -> Target, s: State, line: string)
    requires !Structural(line) && Step(decode, s, line).Ok? && (StartsWith(line, NO_NEWLINE) ==> !Marked(line, '+'))
    ensures Step(decode, s, line).value.changed ==
            if s.hunk.Some? && Marked(line, '+') && s.path.Some? && s.path.value in s.changed then
              s.changed[s.path.value := s.changed[s.path.value] + {s.hunk.value.newLine}]
            else s.changed
    ensures s.hunk.Some? && Marked(line, '+') ==> s.path.Some? && s.path.value in s.changed
  {
  }

  lemma StepTracks(decode: string -> Target, lines: seq<string>, s: State, line: string)
    requires Tracks(decode, lines, s) && Step(decode, s, line).Ok?
    ensures Tracks(decode, lines + [line], Step(decode, s, line).value)
  {
    if Structural(line) {
      HeaderTracks(decode, lines, s, line);
    } else {
      BodyTracks(decode, lines, s, line);
    }
  }

  lemma {:induction false} FoldTracks(decode: string -> Target, lines: seq<string>)
    requires Fold(decode, INIT, lines).Ok?
    ensures Tracks(decode, lines, Fold(decode, INIT, lines).value)
    decreases |lines|
  {
    if lines != [] {
      var front, last := lines[..|lines| - 1], lines[|lines| - 1];
      FoldTracks(decode, front);
      StepTracks(decode, front, Fold(decode, INIT, front).value, last);
      assert front + [last] == lines;
    }
  }

  /** A hunk's last header stands before every line of it. */
  lemma {:induction false} LastHeaderOfPrefix(lines: seq<string>, i: nat)
    requires i <= |lines|
    ensures LastHeader(lines[..i]).Some? ==>
            LastHeader(lines).Some? && LastHeader(lines[..i]).value <= LastHeader(lines).value
    decreases |lines| - i
  {
    if i == |lines| {
      assert lines[..i] == lines;
    } else {
      LastHeaderOfPrefix(lines, i + 1);
      assert lines[..i + 1][..i] == lines[..i];
    }
  }

  lemma SameHeaderSameHunk(lines: seq<string>, i: nat)
    requires i <= |lines| && InHunk(lines[..i]) && LastHeader(lines[..i]) == LastHeader(lines)
    ensures InHunk(lines) && HunkOf(lines) == HunkOf(lines[..i])
  {
  }

  lemma StepInRange(decode: string -> Target, lines: seq<string>, s: State, line: string)
    requires Tracks(decode, lines, s) && InRange(lines, Seen(s)) && Step(decode, s, line).Ok?
    ensures InRange(lines + [line], Seen(Step(decode, s, line).value))
  {
    var all := lines + [line];
    var s' := Step(decode, s, line).value;
    assert all[..|lines|] == lines;
    forall i | 0 <= i < |all| && AddedInHunk(all, i)
      ensures LineNumber(all[..i]) < HunkOf(all[..i]).newStart +
                (if LastHeader(all[..i]) == LastHeader(all) then Seen(s') else HunkOf(all[..i]).newCount)
    {
      if i < |lines| {
        assert all[..i] == lines[..i];
        EarlierInRange(decode, lines, s, line, i);
      } else {
        LatestInRange(decode, lines, s, line);
      }
    }
  }

  lemma LastHeaderOneMore(lines: seq<string>, line: string)
    ensures LastHeader(lines + [line]) == if Structural(line) then Some(|lines|) else LastHeader(lines)
  {
    assert (lines + [line])[..|lines|] == lines;
  }

  /** A line that was in range stays in range: its hunk is still open and has not lost lines,
      or has just been closed with its count met. */
  lemma EarlierInRange(decode: string -> Target, lines: seq<string>, s: State, line: string, i: nat)
    requires Tracks(decode, lines, s) && InRange(lines, Seen(s)) && Step(decode, s, line).Ok?
    requires i < |lines| && AddedInHunk(lines, i)
    ensures var all := lines + [line];
      LineNumber(lines[..i]) < HunkOf(lines[..i]).newStart +
        (if LastHeader(lines[..i]) == LastHeader(all) then Seen(Step(decode, s, line).value)
            else HunkOf(lines[..i]).newCount)
  {
    LastHeaderOneMore(lines, line);
    if LastHeader(lines[..i]) == LastHeader(lines) {
      SameHeaderSameHunk(lines, i);
      SeenGrows(decode, s, line);
    }
  }

  /** A line of a hunk adds to what was seen; a header closes it only once its counts are met. */
  lemma SeenGrows(decode: string -> Target, s: State, line: string)
    requires s.hunk.Some? && Step(decode, s, line).Ok?
    ensures if Structural(line) then Seen(s) == s.hunk.value.newCount else Seen(s) <= Seen(Step(decode, s, line).value)
  {
  }

  /** The line just added is the last one seen. */
  lemma LatestInRange(decode: string -> Target, lines: seq<string>, s: State, line: string)
    requires Tracks(decode, lines, s) && Step(decode, s, line).Ok?
    requires !Structural(line) && Marked(line, '+') && InHunk(lines)
    ensures LastHeader(lines + [line]) == LastHeader(lines)
    ensures LineNumber(lines) < HunkOf(lines).newStart + Seen(Step(decode, s, line).value)
  {
    LastHeaderOneMore(lines, line);
    if StartsWith(line, NO_NEWLINE) {
      NoNewlineIsUnmarked(line);
    }
  }

  lemma {:induction false} FoldInRange(decode: string -> Target, lines: seq<string>)
    requires Fold(decode, INIT, lines).Ok?
    ensures InRange(lines, Seen(Fold(decode, INIT, lines).value))
    decreases |lines|
  {
    if lines != [] {
      var front, last := lines[..|lines| - 1], lines[|lines| - 1];
      FoldInRange(decode, front);
      FoldTracks(decode, front);
      StepInRange(decode, front, Fold(decode, INIT, front).value, last);
      assert front + [last] == lines;
    }
  }

  /** An accepted diff's changed lines are exactly the new-file numbers of its '+' lines,
      under the file named last, and each lies inside the range its hunk declares. Its lines
      are the text's, as Python cuts it. */
  lemma AcceptedDiffIsExact(decode: string -> Target, text: string)
    requires ParseText(decode, text).Ok?
    ensures var lines := SplitLines(text);
      && ChangedIs(decode, lines, ParseText(decode, text).value)
      && forall i :: 0 <= i < |lines| && AddedInHunk(lines, i) ==>
           var h := HunkOf(lines[..i]);
           && h.newStart <= LineNumber(lines[..i]) < h.newStart + h.newCount
           && PathOf(decode, lines[..i]).Some?
  {
    var lines := SplitLines(text);
    AcceptedLinesAreExact(decode, lines);
    forall i | 0 <= i < |lines| && AddedInHunk(lines, i) ensures PathOf(decode, lines[..i]).Some? {
      NoAddedLineIsLost(decode, lines, i);
    }
  }

  lemma AcceptedLinesAreExact(decode: string -> Target, lines: seq<string>)
    requires Parse(decode, lines).Ok?
    ensures ChangedIs(decode, lines, Parse(decode, lines).value)
    ensures forall i :: 0 <= i < |lines| && AddedInHunk(lines, i) ==>
              var h := HunkOf(lines[..i]);
              h.newStart <= LineNumber(lines[..i]) < h.newStart + h.newCount
  {
    FoldTracks(decode, lines);
    FoldInRange(decode, lines);
    var s := Fold(decode, INIT, lines).value;
    forall i | 0 <= i < |lines| && AddedInHunk(lines, i)
      ensures LineNumber(lines[..i]) < HunkOf(lines[..i]).newStart + HunkOf(lines[..i]).newCount
    {
      if LastHeader(lines[..i]) == LastHeader(lines) {
        SameHeaderSameHunk(lines, i);
      }
    }
  }

  /** No added line of an accepted diff is lost: each is some line of some file. */
  lemma NoAddedLineIsLost(decode: string -> Target, lines: seq<string>, i: nat)
    requires Parse(decode, lines).Ok? && i < |lines| && AddedInHunk(lines, i)
    ensures var p := PathOf(decode, lines[..i]);
      p.Some? && p.value in Parse(decode, lines).value && LineNumber(lines[..i]) in Parse(decode, lines).value[p.value]
  {
    var front := lines[..i];
    PrefixIsRead(decode, lines, i);
    FoldTracks(decode, front);
    AddedLineHasFile(decode, front, Fold(decode, INIT, front).value, lines[i]);
    AcceptedLinesAreExact(decode, lines);
    assert AddsLine(decode, lines, i, PathOf(decode, front).value, LineNumber(front));
  }

  lemma {:induction false} PrefixIsRead(decode: string -> Target, lines: seq<string>, i: nat)
    requires Fold(decode, INIT, lines).Ok? && i < |lines|
    ensures Fold(decode, INIT, lines[..i]).Ok? && Step(decode, Fold(decode, INIT, lines[..i]).value, lines[i]).Ok?
    decreases |lines|
  {
    if i < |lines| - 1 {
      var front := lines[..|lines| - 1];
      PrefixIsRead(decode, front, i);
      assert front[..i] == lines[..i];
    }
  }

  lemma AddedLineHasFile(decode: string -> Target, front: seq<string>, s: State, line: string)
    requires Tracks(decode, front, s) && Step(decode, s, line).Ok?
    requires !Structural(line) && Marked(line, '+') && InHunk(front)
    ensures PathOf(decode, front).Some?
  {
    if StartsWith(line, NO_NEWLINE) {
      NoNewlineIsUnmarked(line);
    }
  }
}
