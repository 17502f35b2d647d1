/** Which texts are read as which version: numbers, a pre-release and a build, with or without
    a leading "v". */
module SemVerText {
  import opened Wrappers
  import opened Text
  import opened Numbers
  import opened SemVer
  import opened SemVerOrder

  function Join(parts: seq<string>, c: char): string
    requires parts != []
  {
    if |parts| == 1 then parts[0] else parts[0] + [c] + Join(parts[1..], c)
  }

  /** How a version may be written, its pre-release apart. */
  datatype Writing = Writing(prefix: bool, major: string, minor: string, patch: string, build: Option<string>)

  function CoreText(w: Writing): string {
    Join([w.major, w.minor, w.patch], '.')
  }

  function BareText(w: Writing, pre: seq<string>): string {
    CoreText(w) + (if pre == [] then "" else "-" + Join(pre, '.'))
  }

  function Written(w: Writing, pre: seq<string>): string {
    (if w.prefix then "v" else "") + BareText(w, pre) + (if w.build.Some? then "+" + w.build.value else "")
  }

  /** None of the characters that separate the parts. */
  predicate Plain(s: string) {
    '.' !in s && '-' !in s && '+' !in s
  }

  /** The part is a number that is not negative. */
  predicate Counts(part: string, n: int) {
    Plain(part) && n >= 0 && Atoi(part) == Some(n)
  }

  ghost predicate PlainIds(ids: seq<string>) {
    forall i :: 0 <= i < |ids| ==> '.' !in ids[i] && '+' !in ids[i]
  }

  /** Written so, the text says that version. */
  ghost predicate Says(w: Writing, v: Version) {
    Counts(w.major, v.major) && Counts(w.minor, v.minor) && Counts(w.patch, v.patch) && PlainIds(v.pre)
  }

  lemma SplitStep(a: string, c: char, rest: string)
    requires c !in a
    ensures SplitAt(a + [c] + rest, c) == [a] + SplitAt(rest, c) && SplitAt(a, c) == [a]
  {
    FoundAt(a, c, rest);
    var s := a + [c] + rest;
    assert s[..|a|] == a && s[|a| + 1..] == rest;
  }

  lemma {:induction false} SplitJoined(parts: seq<string>, c: char)
    requires parts != [] && forall i :: 0 <= i < |parts| ==> c !in parts[i]
    ensures SplitAt(Join(parts, c), c) == parts
  {
    if |parts| == 1 {
      SplitStep(parts[0], c, "");
    } else {
      SplitStep(parts[0], c, Join(parts[1..], c));
      SplitJoined(parts[1..], c);
      assert [parts[0]] + parts[1..] == parts;
    }
  }

  lemma {:induction false} JoinedHas(parts: seq<string>, c: char, x: char)
    requires parts != [] && x != c && forall i :: 0 <= i < |parts| ==> x !in parts[i]
    ensures x !in Join(parts, c)
  {
    if |parts| > 1 {
      JoinedHas(parts[1..], c, x);
    }
  }

  lemma {:induction false} SplitIsJoined(s: string, c: char)
    ensures SplitAt(s, c) != [] && Join(SplitAt(s, c), c) == s
    ensures forall i :: 0 <= i < |SplitAt(s, c)| ==> c !in SplitAt(s, c)[i]
    decreases |s|
  {
    var n := IndexOf(s, c);
    if n < |s| {
      SplitIsJoined(s[n + 1..], c);
      assert SplitAt(s, c)[1..] == SplitAt(s[n + 1..], c);
      assert s == s[..n] + [c] + s[n + 1..];
    } else {
      assert s[..n] == s;
    }
  }

  /** What is in no whole is in no part. */
  lemma {:induction false} PartsHaveNo(parts: seq<string>, c: char, x: char)
    requires parts != [] && x !in Join(parts, c)
    ensures forall i :: 0 <= i < |parts| ==> x !in parts[i]
  {
    if |parts| > 1 {
      assert Join(parts, c) == parts[0] + [c] + Join(parts[1..], c);
      PartsHaveNo(parts[1..], c, x);
    }
  }

  lemma StrippedToBare(bare: string, prefix: bool, build: Option<string>)
    requires bare != "" && IsDigit(bare[0]) && '+' !in bare
    ensures var s := (if prefix then "v" else "") + bare + (if build.Some? then "+" + build.value else "");
      Before(if StartsWith(s, "v") then s[1..] else s, '+') == bare
  {
    var tail := if build.Some? then "+" + build.value else "";
    PrefixIsDropped(bare + tail, prefix);
    Regroup(if prefix then "v" else "", bare, tail);
    BuildIsDropped(bare, build);
  }

  lemma Regroup(a: string, b: string, c: string)
    ensures a + b + c == a + (b + c)
  {
  }

  lemma PrefixIsDropped(rest: string, prefix: bool)
    requires rest != "" && IsDigit(rest[0])
    ensures var s := (if prefix then "v" else "") + rest;
      (if StartsWith(s, "v") then s[1..] else s) == rest
  {
    if prefix {
      assert ("v" + rest)[..1] == "v" && ("v" + rest)[1..] == rest;
    } else {
      assert "" + rest == rest && rest[..1][0] == rest[0];
    }
  }

  lemma BuildIsDropped(bare: string, build: Option<string>)
    requires '+' !in bare
    ensures Before(bare + (if build.Some? then "+" + build.value else ""), '+') == bare
  {
    FoundAt(bare, '+', if build.Some? then build.value else "");
    if build.Some? {
      assert bare + ("+" + build.value) == bare + ['+'] + build.value;
    } else {
      assert bare + "" == bare;
    }
  }

  lemma CountBeginsWithDigit(part: string, n: int)
    requires Counts(part, n)
    ensures part != "" && IsDigit(part[0])
  {
    assert part == "" || (part[0] in part);
  }

  lemma CoreHasNo(w: Writing, x: char)
    requires x != '.' && x !in w.major && x !in w.minor && x !in w.patch
    ensures x !in CoreText(w)
  {
    JoinedHas([w.major, w.minor, w.patch], '.', x);
  }

  lemma BareBegins(w: Writing, v: Version)
    requires Says(w, v)
    ensures BareText(w, v.pre) != "" && IsDigit(BareText(w, v.pre)[0]) && '+' !in BareText(w, v.pre)
  {
    CountBeginsWithDigit(w.major, v.major);
    assert CoreText(w)[0] == w.major[0];
    CoreHasNo(w, '+');
    if v.pre != [] {
      JoinedHas(v.pre, '.', '+');
    }
  }

  lemma PartsAreFound(w: Writing, v: Version)
    requires Says(w, v)
    ensures var bare := BareText(w, v.pre);
      var dash := IndexOf(bare, '-');
      && bare[..dash] == CoreText(w)
      && PreOf(bare) == v.pre
  {
    var bare, core := BareText(w, v.pre), CoreText(w);
    CoreHasNo(w, '-');
    if v.pre == [] {
      assert bare == core;
      FoundAt(core, '-', "");
    } else {
      var rest := Join(v.pre, '.');
      assert bare == core + ['-'] + rest;
      FoundAt(core, '-', rest);
      SplitJoined(v.pre, '.');
      assert bare[|core| + 1..] == rest;
    }
  }

  lemma CoreIsRead(w: Writing, v: Version)
    requires Says(w, v)
    ensures ParseCore(SplitAt(CoreText(w), '.'), v.pre) == Some(v)
  {
    SplitJoined([w.major, w.minor, w.patch], '.');
  }

  lemma BareFromParts(bare: string, core: string, v: Version)
    requires var dash := IndexOf(bare, '-');
      bare[..dash] == core && PreOf(bare) == v.pre
    requires ParseCore(SplitAt(core, '.'), v.pre) == Some(v)
    ensures ParseBare(bare) == Some(v)
  {
  }

  lemma SaidIsRead(w: Writing, v: Version)
    requires Says(w, v)
    ensures var s := Written(w, v.pre);
      ParseBare(Before(if StartsWith(s, "v") then s[1..] else s, '+')) == Some(v)
  {
    BareBegins(w, v);
    StrippedToBare(BareText(w, v.pre), w.prefix, w.build);
    PartsAreFound(w, v);
    CoreIsRead(w, v);
    BareFromParts(BareText(w, v.pre), CoreText(w), v);
  }

  lemma CountOfPart(part: string, n: int)
    requires Core(part) == Some(n) && Plain(part)
    ensures Counts(part, n)
  {
  }

  lemma CoreIsSaid(core: string, v: Version) returns (w: Writing)
    requires ParseCore(SplitAt(core, '.'), v.pre) == Some(v) && '-' !in core && '+' !in core
    ensures !w.prefix && w.build.None? && CoreText(w) == core
    ensures Counts(w.major, v.major) && Counts(w.minor, v.minor) && Counts(w.patch, v.patch)
  {
    var parts := SplitAt(core, '.');
    SplitIsJoined(core, '.');
    PartsHaveNo(parts, '.', '-');
    PartsHaveNo(parts, '.', '+');
    w := Writing(false, parts[0], parts[1], parts[2], None);
    assert parts == [parts[0], parts[1], parts[2]];
    CountOfPart(parts[0], v.major);
    CountOfPart(parts[1], v.minor);
    CountOfPart(parts[2], v.patch);
  }

  /** What the numbers were read from, and the identifiers. */
  lemma BareIsSaid(bare: string, v: Version) returns (w: Writing)
    requires ParseBare(bare) == Some(v) && '+' !in bare
    ensures !w.prefix && w.build.None? && BareText(w, v.pre) == bare && Says(w, v)
  {
    var dash := IndexOf(bare, '-');
    assert forall x :: x in bare[..dash] ==> x in bare;
    w := CoreIsSaid(bare[..dash], v);
    PreIsSaid(bare, dash, PreOf(bare));
  }

  lemma CutAround(s: string, n: nat)
    requires n < |s|
    ensures s == s[..n] + ([s[n]] + s[n + 1..])
  {
  }

  lemma CutAtFirst(s: string, c: char)
    ensures var n := IndexOf(s, c);
      s == s[..n] + (if n < |s| then [c] + s[n + 1..] else "")
  {
    var n := IndexOf(s, c);
    if n < |s| {
      CutAround(s, n);
    }
  }

  lemma PreIsSaid(bare: string, dash: nat, pre: seq<string>)
    requires '+' !in bare && dash == IndexOf(bare, '-')
    requires pre == PreOf(bare)
    ensures PlainIds(pre) && bare == bare[..dash] + (if pre == [] then "" else "-" + Join(pre, '.'))
  {
    CutAtFirst(bare, '-');
    if dash < |bare| {
      var tail := bare[dash + 1..];
      SplitIsJoined(tail, '.');
      assert forall x :: x in tail ==> x in bare;
      PartsHaveNo(pre, '.', '+');
    }
  }

  lemma VIsCut(s: string) returns (prefix: bool, rest: string)
    ensures prefix == StartsWith(s, "v") && rest == (if prefix then s[1..] else s)
    ensures s == (if prefix then "v" else "") + rest
  {
    prefix := StartsWith(s, "v");
    rest := if prefix then s[1..] else s;
    if prefix {
      assert s == s[..1] + s[1..];
    } else {
      assert s == "" + s;
    }
  }

  lemma TextIsDecorated(s: string) returns (prefix: bool, bare: string, build: Option<string>)
    ensures bare == Before(if StartsWith(s, "v") then s[1..] else s, '+') && '+' !in bare
    ensures s == (if prefix then "v" else "") + bare + (if build.Some? then "+" + build.value else "")
  {
    var rest;
    prefix, rest := VIsCut(s);
    var n := IndexOf(rest, '+');
    bare := rest[..n];
    build := if n < |rest| then Some(rest[n + 1..]) else None;
    CutAtFirst(rest, '+');
    Regroup(if prefix then "v" else "", bare, if build.Some? then "+" + build.value else "");
  }

  lemma ReadIsSaid(s: string, v: Version) returns (w: Writing)
    requires ParseBare(Before(if StartsWith(s, "v") then s[1..] else s, '+')) == Some(v)
    ensures Says(w, v) && s == Written(w, v.pre)
  {
    var prefix, bare, build := TextIsDecorated(s);
    w := BareIsSaid(bare, v);
    w := w.(prefix := prefix, build := build);
  }

  /** A text is read as a version exactly if it says it: three numbers that fit and are not
      negative, perhaps a pre-release, perhaps a build, perhaps a "v" before it all. */
  lemma ParsedExactly(trim: string -> string, s: string, v: Version)
    ensures Parse(trim, s) == Some(v) <==> exists w :: Says(w, v) && trim(s) == Written(w, v.pre)
  {
    if Parse(trim, s) == Some(v) {
      var w := ReadIsSaid(trim(s), v);
    }
    if w :| Says(w, v) && trim(s) == Written(w, v.pre) {
      SaidIsRead(w, v);
    }
  }

  ghost predicate Printable(v: Version) {
    Proper(v.pre) && 0 <= v.major <= MAX_INT64 && 0 <= v.minor <= MAX_INT64 && 0 <= v.patch <= MAX_INT64
  }

  lemma DigitsCount(n: nat)
    requires n <= MAX_INT64
    ensures Counts(Digits(n), n)
  {
    AtoiOfDigits(n);
  }

  lemma ProperIsPlain(ids: seq<string>)
    requires Proper(ids)
    ensures PlainIds(ids)
  {
    forall i | 0 <= i < |ids| ensures '.' !in ids[i] && '+' !in ids[i] {
      assert IsId(ids[i]);
    }
  }

  /** So a version printed in decimal, with or without "v" and build, reads back, and the
      build is ignored. */
  lemma PrintedReadsBack(trim: string -> string, s: string, v: Version, prefix: bool, build: Option<string>)
    requires Printable(v)
    requires trim(s) == Written(Writing(prefix, Digits(v.major), Digits(v.minor), Digits(v.patch), build), v.pre)
    ensures Parse(trim, s) == Some(v)
  {
    DigitsCount(v.major);
    DigitsCount(v.minor);
    DigitsCount(v.patch);
    ProperIsPlain(v.pre);
    SaidIsRead(Writing(prefix, Digits(v.major), Digits(v.minor), Digits(v.patch), build), v);
  }
}
