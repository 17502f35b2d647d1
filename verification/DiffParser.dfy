/** Reading a unified diff: which lines of which files a change adds. */
module DiffParser {
  import opened Wrappers
  import opened Numbers
  import opened Text
  import opened Lines

  /** What the path after "+++ " names. */
  datatype Target = File(path: string) | DevNull | Malformed

  /** Where a hunk says it lies; only the counts and the new start matter here. */
  datatype Header = Header(oldCount: nat, newStart: nat, newCount: nat)

  const DIFF_PREFIX := "diff --git "
  const TARGET_PREFIX := "+++ "
  const NO_NEWLINE := "\\ No newline at end of file"

  /** The leading digits of s, and what follows them. */
  function SpanDigits(s: string): (r: (string, string))
    ensures AllDigits(r.0) && r.0 + r.1 == s && (r.1 != "" ==> !IsDigit(r.1[0]))
  {
    if s == "" || !IsDigit(s[0]) then ("", s)
    else
      var (digits, rest) := SpanDigits(s[1..]);
      ([s[0]] + digits, rest)
  }

  /** A number and an optional ",count", which is one if left out. */
  function ParseRange(s: string): Option<(nat, nat, string)> {
    var (start, rest) := SpanDigits(s);
    if start == "" then None
    else if rest != "" && rest[0] == ',' then
      var (count, rest') := SpanDigits(rest[1..]);
      if count == "" then None else Some((Decimal(start), Decimal(count), rest'))
    else Some((Decimal(start), 1, rest))
  }

  /** "@@ -a,b +c,d @@", and anything after a space. */
  function ParseHeader(line: string): Option<Header> {
    if !StartsWith(line, "@@ -") then None
    else
      var removed := ParseRange(line[4..]);
      if removed.None? || !StartsWith(removed.value.2, " +") then None
      else
        var added := ParseRange(removed.value.2[2..]);
        if added.None? || !StartsWith(added.value.2, " @@") then None
        else
          var tail := added.value.2[3..];
          if tail == "" || tail[0] == ' ' then Some(Header(removed.value.1, added.value.0, added.value.1)) else None
  }

  predicate IsDiff(line: string) {
    StartsWith(line, DIFF_PREFIX)
  }

  predicate IsTarget(line: string) {
    StartsWith(line, TARGET_PREFIX)
  }

  predicate IsHunk(line: string) {
    ParseHeader(line).Some?
  }

  datatype Hunk = Hunk(newLine: nat, oldCount: nat, newCount: nat, oldSeen: nat, newSeen: nat)
  {
    predicate Complete() {
      oldSeen == oldCount && newSeen == newCount
    }
  }

  datatype State = State(changed: map<string, set<int>>, path: Option<string>, hunk: Option<Hunk>)

  const INIT := State(map[], None, None)

  function FinishHunk(s: State): Result<State> {
    if s.hunk.Some? && !s.hunk.value.Complete() then Err("hunk line counts do not match header")
    else Ok(s.(hunk := None))
  }

  function ReadTarget(decode: string -> Target, s: State, line: string): Result<State> {
    var done :- FinishHunk(s);
    match decode(line[(if |line| < 4 then |line| else 4)..])
    case Malformed => Err("malformed path")
    case DevNull => Ok(done.(path := None))
    case File(p) =>
      Ok(done.(path := Some(p), changed := if p in done.changed then done.changed else done.changed[p := {}]))
  }

  function ReadHeader(s: State, h: Header): Result<State> {
    var done :- FinishHunk(s);
    if done.path.None? && h.newCount != 0 then Err("hunk has no destination file")
    else Ok(done.(hunk := Some(Hunk(h.newStart, h.oldCount, h.newCount, 0, 0))))
  }

  /** A line that is no header. */
  function ReadBody(s: State, line: string): Result<State> {
    if s.hunk.None? || StartsWith(line, NO_NEWLINE) then Ok(s)
    else if line == "" then Err("malformed hunk line")
    else
      var h := s.hunk.value;
      if line[0] == '+' then
        if s.path.None? || s.path.value !in s.changed then Err("addition has no destination file")
        else
          var p := s.path.value;
          Ok(s.(changed := s.changed[p := s.changed[p] + {h.newLine}],
                hunk := Some(h.(newLine := h.newLine + 1, newSeen := h.newSeen + 1))))
      else if line[0] == '-' then Ok(s.(hunk := Some(h.(oldSeen := h.oldSeen + 1))))
      else if line[0] == ' ' then
        Ok(s.(hunk := Some(h.(oldSeen := h.oldSeen + 1, newSeen := h.newSeen + 1, newLine := h.newLine + 1))))
      else Err("malformed hunk line")
  }

  function Step(decode: string -> Target, s: State, line: string): Result<State> {
    if IsDiff(line) then
      var done :- FinishHunk(s);
      Ok(done.(path := None))
    else if IsTarget(line) then ReadTarget(decode, s, line)
    else if IsHunk(line) then ReadHeader(s, ParseHeader(line).value)
    else ReadBody(s, line)
  }

  function Fold(decode: string -> Target, s: State, lines: seq<string>): Result<State> {
    if lines == [] then Ok(s)
    else
      var before :- Fold(decode, s, lines[..|lines| - 1]);
      Step(decode, before, lines[|lines| - 1])
  }

  function Parse(decode: string -> Target, lines: seq<string>): Result<map<string, set<int>>> {
    var s :- Fold(decode, INIT, lines);
    var done :- FinishHunk(s);
    Ok(done.changed)
  }

  lemma {:induction false} FoldFails(decode: string -> Target, s: State, lines: seq<string>, n: nat)
    requires n <= |lines| && Fold(decode, s, lines[..n]).Err?
    ensures Fold(decode, s, lines).Err?
    decreases |lines|
  {
    if n < |lines| {
      assert lines[..|lines| - 1][..n] == lines[..n];
      FoldFails(decode, s, lines[..|lines| - 1], n);
    } else {
      assert lines[..n] == lines;
    }
  }

  /** The whole of the parser, on the text git prints. */
  function ParseText(decode: string -> Target, text: string): Result<map<string, set<int>>> {
    Parse(decode, SplitLines(text))
  }

  /** The parser's loop, line by line. */
  method ParseUnifiedDiff(decode: string -> Target, text: string) returns (r: Result<map<string, set<int>>>)
    ensures r == ParseText(decode, text)
  {
    var lines := SplitLines(text);
    var s := INIT;
    for i := 0 to |lines|
      invariant Fold(decode, INIT, lines[..i]) == Ok(s)
    {
      assert lines[..i + 1][..i] == lines[..i];
      var next := Step(decode, s, lines[i]);
      if next.Err? {
        FoldFails(decode, INIT, lines, i + 1);
        FirstError(decode, INIT, lines, i + 1);
        return Err(next.reason);
      }
      s := next.value;
    }
    assert lines[..|lines|] == lines;
    var done := FinishHunk(s);
    r := if done.Err? then Err(done.reason) else Ok(done.value.changed);
  }

  /** The first error is the one reported. */
  lemma {:induction false} FirstError(decode: string -> Target, s: State, lines: seq<string>, n: nat)
    requires n <= |lines| && Fold(decode, s, lines[..n]).Err?
    ensures Fold(decode, s, lines) == Fold(decode, s, lines[..n])
    decreases |lines|
  {
    if n < |lines| {
      assert lines[..|lines| - 1][..n] == lines[..n];
      FirstError(decode, s, lines[..|lines| - 1], n);
    } else {
      assert lines[..n] == lines;
    }
  }
}
