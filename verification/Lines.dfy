/** Cutting a text into lines, as Python's str.splitlines does: at more characters than git
    ends a line with. */
module Lines {

  /** The characters Python ends a line at; "\r\n" is one end. */
  predicate IsBreak(c: char) {
    || '\n' <= c <= '\r'
    || '\U{001C}' <= c <= '\U{001E}'
    || c == '\U{0085}' || c == '\U{2028}' || c == '\U{2029}'
  }

  predicate Whole(s: string) {
    forall i :: 0 <= i < |s| ==> !IsBreak(s[i])
  }

  /** Where the first line ends. */
  function LineEnd(s: string): (i: nat)
    ensures i <= |s| && Whole(s[..i]) && (i < |s| ==> IsBreak(s[i]))
  {
    if s == "" || IsBreak(s[0]) then 0
    else
      var i := LineEnd(s[1..]) + 1;
      assert s[..i] == [s[0]] + s[1..][..i - 1];
      i
  }

  /** Where the second line begins. */
  function NextLine(s: string): (n: nat)
    ensures n <= |s| && (s != "" ==> n > 0)
  {
    var i := LineEnd(s);
    if i == |s| then i
    else if s[i] == '\r' && i + 1 < |s| && s[i + 1] == '\n' then i + 2
    else i + 1
  }

  function SplitLines(text: string): seq<string>
    decreases |text|
  {
    if text == "" then [] else [text[..LineEnd(text)]] + SplitLines(text[NextLine(text)..])
  }

  /** The text without its line ends. */
  function Unbroken(text: string): string {
    if text == "" then "" else (if IsBreak(text[0]) then "" else [text[0]]) + Unbroken(text[1..])
  }

  function Concat(lines: seq<string>): string {
    if lines == [] then "" else lines[0] + Concat(lines[1..])
  }

  lemma {:induction false} UnbrokenOfConcat(a: string, b: string)
    ensures Unbroken(a + b) == Unbroken(a) + Unbroken(b)
  {
    if a == "" {
      assert a + b == b;
    } else {
      assert (a + b)[0] == a[0] && (a + b)[1..] == a[1..] + b;
      UnbrokenOfConcat(a[1..], b);
    }
  }

  lemma {:induction false} UnbrokenOfWhole(s: string)
    requires Whole(s)
    ensures Unbroken(s) == s
  {
    if s != "" {
      UnbrokenOfWhole(s[1..]);
      assert s == [s[0]] + s[1..];
    }
  }

  lemma {:induction false} UnbrokenOfBreaks(s: string)
    requires forall i :: 0 <= i < |s| ==> IsBreak(s[i])
    ensures Unbroken(s) == ""
  {
    if s != "" {
      UnbrokenOfBreaks(s[1..]);
    }
  }

  /** One line end, whole: a "\r" before "\n" is only half of one. */
  predicate IsEnd(end: string, rest: string) {
    || end == "\r\n"
    || (|end| == 1 && IsBreak(end[0]) && !(end[0] == '\r' && rest != "" && rest[0] == '\n'))
  }

  lemma {:induction false} LineEndOf(a: string, rest: string)
    requires Whole(a) && (rest != "" ==> IsBreak(rest[0]))
    ensures LineEnd(a + rest) == |a|
  {
    if a == "" {
      assert a + rest == rest;
    } else {
      assert (a + rest)[0] == a[0] && (a + rest)[1..] == a[1..] + rest;
      LineEndOf(a[1..], rest);
    }
  }

  lemma SplitFirst(a: string, end: string, rest: string)
    requires Whole(a) && IsEnd(end, rest)
    ensures SplitLines(a + end + rest) == [a] + SplitLines(rest)
  {
    var text := a + end + rest;
    assert text == a + (end + rest);
    LineEndOf(a, end + rest);
    assert forall k :: 0 <= k < |end| + |rest| ==> text[|a| + k] == (end + rest)[k];
    assert NextLine(text) == |a| + |end|;
    assert text[..|a|] == a && text[|a| + |end|..] == rest;
  }

  /** A text with a line end in it is a line, its end, and the rest. */
  lemma Decompose(text: string) returns (a: string, end: string, rest: string)
    requires !Whole(text)
    ensures text == a + end + rest && Whole(a) && IsEnd(end, rest)
  {
    var i, n := LineEnd(text), NextLine(text);
    assert text[..|text|] == text;
    a, end, rest := text[..i], text[i..n], text[n..];
    if n == i + 2 {
      assert end == [text[i], text[i + 1]];
    }
  }

  lemma SplitWhole(line: string)
    requires Whole(line) && line != ""
    ensures SplitLines(line) == [line]
  {
    assert line + "" == line;
    LineEndOf(line, "");
    assert line[..|line|] == line && line[|line|..] == "";
  }

  /** No line has a line end in it, and the cut loses nothing but line ends. */
  lemma {:induction false} CutLosesOnlyBreaks(text: string)
    ensures forall line :: line in SplitLines(text) ==> Whole(line)
    ensures Concat(SplitLines(text)) == Unbroken(text)
    decreases |text|
  {
    if Whole(text) {
      UnbrokenOfWhole(text);
      if text != "" {
        SplitWhole(text);
        assert [text][1..] == [] && text + "" == text;
      }
    } else {
      var a, end, rest := Decompose(text);
      SplitFirst(a, end, rest);
      CutLosesOnlyBreaks(rest);
      UnbrokenOfLine(a, end, rest);
      assert ([a] + SplitLines(rest))[1..] == SplitLines(rest);
    }
  }

  lemma UnbrokenOfLine(a: string, end: string, rest: string)
    requires Whole(a) && IsEnd(end, rest)
    ensures Unbroken(a + end + rest) == a + Unbroken(rest)
  {
    UnbrokenOfWhole(a);
    UnbrokenOfBreaks(end);
    UnbrokenOfConcat(a, end);
    UnbrokenOfConcat(a + end, rest);
  }

  /** The lines a line becomes once it is printed with a newline. */
  function Pieces(line: string): (pieces: seq<string>)
    ensures pieces != []
  {
    SplitLines(line + "\n")
  }

  function Flat(lines: seq<string>): seq<string> {
    if lines == [] then [] else Flat(lines[..|lines| - 1]) + Pieces(lines[|lines| - 1])
  }

  /** The lines, printed one after the other. */
  function Printed(lines: seq<string>): string {
    if lines == [] then "" else Printed(lines[..|lines| - 1]) + (lines[|lines| - 1] + "\n")
  }

  /** A printed line is a line, its end and, if it was not whole, a shorter printed line. */
  lemma DecomposePrinted(line: string) returns (a: string, end: string, tail: string)
    ensures line + "\n" == a + end + tail && Whole(a) && IsEnd(end, tail)
    ensures tail == "" ==> end[|end| - 1] == '\n'
    ensures tail != "" ==> |tail| <= |line| && tail == tail[..|tail| - 1] + "\n"
  {
    var short := line + "\n";
    assert !Whole(short) by {
      assert short[|line|] == '\n';
    }
    a, end, tail := Decompose(short);
    if tail == "" {
      assert short == a + end && end[|end| - 1] == short[|line|];
    } else {
      assert tail[|tail| - 1] == short[|line|];
      assert tail == tail[..|tail| - 1] + [tail[|tail| - 1]];
    }
  }

  lemma Regroup(a: string, b: string, c: string, d: string)
    ensures a + b + c + d == a + b + (c + d)
  {
  }

  lemma EndStaysEnd(end: string, tail: string, rest: string)
    requires IsEnd(end, tail) && (tail == "" ==> end[|end| - 1] == '\n')
    ensures IsEnd(end, tail + rest)
  {
  }

  /** What follows a newline does not change how the text before it is cut. */
  lemma {:induction false} SplitAfterNewline(line: string, rest: string)
    ensures SplitLines(line + "\n" + rest) == SplitLines(line + "\n") + SplitLines(rest)
    decreases |line|
  {
    var a, end, tail := DecomposePrinted(line);
    if tail == "" {
      assert tail + rest == rest;
    } else {
      SplitAfterNewline(tail[..|tail| - 1], rest);
    }
    EndStaysEnd(end, tail, rest);
    Regroup(a, end, tail, rest);
    SplitTwice(a, end, tail, tail + rest, SplitLines(rest));
  }

  lemma SplitTwice(a: string, end: string, short: string, long: string, more: seq<string>)
    requires Whole(a) && IsEnd(end, short) && IsEnd(end, long) && SplitLines(long) == SplitLines(short) + more
    ensures SplitLines(a + end + long) == SplitLines(a + end + short) + more
  {
    SplitFirst(a, end, short);
    SplitFirst(a, end, long);
    Associate([a], SplitLines(short), more);
  }

  lemma {:induction false} PrintedIsCut(lines: seq<string>)
    ensures SplitLines(Printed(lines)) == Flat(lines)
    decreases |lines|
  {
    if lines != [] {
      var front, last := lines[..|lines| - 1], lines[|lines| - 1];
      PrintedIsCut(front);
      if front == [] {
        assert "" + (last + "\n") == last + "\n";
      } else {
        var before := Printed(front[..|front| - 1]) + front[|front| - 1];
        assert Printed(front) == before + "\n";
        SplitAfterNewline(before, last + "\n");
        assert Printed(lines) == before + "\n" + (last + "\n");
      }
    }
  }

  lemma {:induction false} FlatConcat(a: seq<string>, b: seq<string>)
    ensures Flat(a + b) == Flat(a) + Flat(b)
    decreases |b|
  {
    if b == [] {
      assert a + b == a;
    } else {
      var front, last := b[..|b| - 1], b[|b| - 1];
      FlatConcat(a, front);
      FlatSnoc(a + front, last);
      assert b == front + [last];
      Associate(a, front, [last]);
      Associate(Flat(a), Flat(front), Pieces(last));
    }
  }

  lemma Associate(x: seq<string>, y: seq<string>, z: seq<string>)
    ensures x + (y + z) == x + y + z
  {
  }

  lemma FlatSnoc(front: seq<string>, last: string)
    ensures Flat(front + [last]) == Flat(front) + Pieces(last)
  {
    assert (front + [last])[..|front|] == front;
  }

  lemma FlatOne(line: string)
    ensures Flat([line]) == Pieces(line)
  {
    assert [line][..0] == [];
  }

  /** A line without line ends is one piece; one that only ends in "\r" loses that. */
  lemma WholeIsOnePiece(line: string)
    requires Whole(line)
    ensures Pieces(line) == [line] && Pieces(line + "\r") == [line]
  {
    SplitFirst(line, "\n", "");
    SplitFirst(line, "\r\n", "");
    assert line + "\n" + "" == line + "\n" && line + "\r\n" + "" == line + "\r" + "\n";
  }

  /** Text in front without line ends joins the first piece. */
  lemma PiecesOfPrefixed(front: string, line: string)
    requires Whole(front)
    ensures Pieces(front + line) == [front + Pieces(line)[0]] + Pieces(line)[1..]
  {
    var a, end, tail := DecomposePrinted(line);
    SplitFirst(a, end, tail);
    SplitFirst(front + a, end, tail);
    Prepend(front, line, a, end, tail);
  }

  lemma Prepend(front: string, line: string, a: string, end: string, tail: string)
    requires line + "\n" == a + end + tail
    ensures front + line + "\n" == front + a + end + tail
  {
    assert front + line + "\n" == front + (line + "\n");
  }
}
