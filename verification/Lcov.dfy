/** Merging an LCOV report: records of the same file are merged line by line, a line being
    covered if any record says so. */
module Lcov {
  import opened Wrappers
  import opened Text
  import opened Lines
  import opened Ordered
  import opened Reports

  /** The text functions of the parser: stripping, reading a number, the repository path of
      a reported path, and whether that is a source of the module. */
  datatype Lexer = Lexer(strip: string -> string, number: string -> Option<int>, path: string -> Option<string>,
                         product: string -> bool)

  type Hits = map<int, bool>

  type Merged = map<(string, int), bool>

  datatype Totals = Totals(present: set<string>, merged: Merged, sawRecord: bool)

  datatype State = State(totals: Totals, path: Option<string>, hits: Hits)

  const NOTHING := Totals({}, map[], false)
  const IDLE := State(NOTHING, None, map[])

  const END := "end_of_record"
  const OUTSIDE: set<string> := {"TN", "VER"}
  const COUNTS: set<string> := {"LF", "LH"}
  const TOLERATED: set<string> := {"FN", "FNDA", "FNF", "FNH", "BRDA", "BRF", "BRH", "BA"}

  /** A line that says how often a source line ran: "line,count" and perhaps a checksum. */
  function ReadHit(lex: Lexer, value: string): Result<(int, bool)> {
    var parts := SplitAt(value, ',');
    if |parts| != 2 && |parts| != 3 then Err("malformed DA record")
    else
      match (lex.number(parts[0]), lex.number(parts[1]))
      case (Some(line), Some(count)) => if line < 1 || count < 0 then Err("invalid DA values")
          else Ok((line, count > 0))
      case _ => Err("malformed DA record")
  }

  function At(merged: Merged, k: (string, int)): bool {
    k in merged && merged[k]
  }

  function HitAt(hits: Hits, line: int): bool {
    line in hits && hits[line]
  }

  /** The lines of a record, as lines of its file. */
  function Lift(path: string, hits: Hits): (m: Merged)
    ensures forall line :: line in hits ==> (path, line) in m
    ensures forall k :: k in m ==> k.0 == path && k.1 in hits && m[k] == hits[k.1]
  {
    var keys := set line | line in hits :: (path, line);
    map k | k in keys :: hits[k.1]
  }

  lemma LiftHolds(path: string, hits: Hits)
    ensures forall k :: k in Lift(path, hits) <==> k.0 == path && k.1 in hits
  {
    forall k: (string, int) | k.0 == path && k.1 in hits ensures k in Lift(path, hits) {
      assert (path, k.1) in Lift(path, hits);
    }
  }

  /** A line is covered if either says so. */
  function Or(a: Merged, b: Merged): (m: Merged)
    ensures forall k :: k in m <==> k in a || k in b
    ensures forall k :: k in m ==> m[k] == (At(a, k) || At(b, k))
  {
    map k | k in a.Keys + b.Keys :: At(a, k) || At(b, k)
  }

  function FinishRecord(lex: Lexer, t: Totals, path: string, hits: Hits): Totals {
    if lex.product(path) then Totals(t.present + {path}, Or(t.merged, Lift(path, hits)), true)
        else t.(sawRecord := true)
  }

  function Step(lex: Lexer, s: State, raw: string): Result<State> {
    var line := lex.strip(raw);
    if line == "" then Ok(s)
    else if line == END then
      if s.path.None? then Err("end_of_record without SF")
      else Ok(State.State(FinishRecord(lex, s.totals, s.path.value, s.hits), None, map[]))
    else
      var colon := IndexOf(line, ':');
      if colon == |line| then Err("malformed LCOV record")
      else ReadTag(lex, s, line[..colon], line[colon + 1..])
  }

  function ReadTag(lex: Lexer, s: State, tag: string, value: string): Result<State> {
    if tag !in OUTSIDE + COUNTS + TOLERATED + {"SF", "DA"} then Err("unknown LCOV tag")
    else if tag in OUTSIDE then
      if s.path.Some? then Err("inside a record") else Ok(s)
    else if tag == "SF" then
      if s.path.Some? then Err("nested SF record")
      else
        match lex.path(value)
        case None => Err("invalid path")
        case Some(p) => Ok(s.(path := Some(p)))
    else if s.path.None? then Err("appears before SF")
    else if tag == "DA" then
      var hit :- ReadHit(lex, value);
      Ok(s.(hits := s.hits[hit.0 := HitAt(s.hits, hit.0) || hit.1]))
    else if tag in COUNTS then
      match lex.number(value)
      case None => Err("malformed count")
      case Some(n) => if n < 0 then Err("invalid count") else Ok(s)
    else Ok(s)
  }

  function Fold(lex: Lexer, s: State, lines: seq<string>): Result<State> {
    if lines == [] then Ok(s)
    else
      var before :- Fold(lex, s, lines[..|lines| - 1]);
      Step(lex, before, lines[|lines| - 1])
  }

  /** The loop that merges a finished record. */
  method JoinRecord(merged: Merged, record: Merged) returns (out: Merged)
    ensures out == Or(merged, record)
  {
    out := merged;
    ghost var done: Merged := map[];
    var rest := record.Keys;
    OrIsAssociative(merged, merged, merged);
    while rest != {}
      invariant Part(record, done, rest)
      invariant out == Or(merged, done)
      decreases rest
    {
      var k :| k in rest;
      OrOne(merged, done, k, record[k]);
      out := out[k := At(out, k) || record[k]];
      done, rest := done[k := record[k]], rest - {k};
    }
    assert done == record;
  }

  ghost predicate Part(record: Merged, done: Merged, rest: set<(string, int)>) {
    && (forall k :: k in record <==> k in done || k in rest)
    && (forall k :: k in done ==> k !in rest && done[k] == record[k])
  }

  lemma OrOne(merged: Merged, done: Merged, k: (string, int), hit: bool)
    requires k !in done
    ensures Or(merged, done[k := hit]) == Or(merged, done)[k := At(Or(merged, done), k) || hit]
  {
    var m, n := Or(merged, done[k := hit]), Or(merged, done)[k := At(Or(merged, done), k) || hit];
    assert m.Keys == n.Keys;
  }

  /** What a stretch of the report contributes. */
  function Combine(t: Totals, u: Totals): Totals {
    Totals(t.present + u.present, Or(t.merged, u.merged), t.sawRecord || u.sawRecord)
  }

  function Onto(t: Totals, s: State): State {
    s.(totals := Combine(t, s.totals))
  }

  lemma OrIsAssociative(a: Merged, b: Merged, c: Merged)
    ensures Or(a, Or(b, c)) == Or(Or(a, b), c)
    ensures Or(a, map[]) == a
  {
    var m, n := Or(a, Or(b, c)), Or(Or(a, b), c);
    assert m.Keys == n.Keys;
    forall k | k in m ensures m[k] == n[k] {
      assert m[k] == (At(a, k) || At(b, k) || At(c, k));
      assert n[k] == (At(a, k) || At(b, k) || At(c, k));
    }
  }

  lemma FinishOnto(lex: Lexer, t: Totals, u: Totals, path: string, hits: Hits)
    ensures FinishRecord(lex, Combine(t, u), path, hits) == Combine(t, FinishRecord(lex, u, path, hits))
  {
    OrIsAssociative(t.merged, u.merged, Lift(path, hits));
  }

  lemma StepOnto(lex: Lexer, t: Totals, s: State, raw: string)
    ensures Step(lex, Onto(t, s), raw).Ok? <==> Step(lex, s, raw).Ok?
    ensures Step(lex, s, raw).Ok? ==> Step(lex, Onto(t, s), raw).value == Onto(t, Step(lex, s, raw).value)
  {
    if s.path.Some? {
      FinishOnto(lex, t, s.totals, s.path.value, s.hits);
    }
  }

  /** What was read before changes nothing but the totals it is added to. */
  lemma {:induction false} FoldOnto(lex: Lexer, t: Totals, s: State, lines: seq<string>)
    ensures Fold(lex, Onto(t, s), lines).Ok? <==> Fold(lex, s, lines).Ok?
    ensures Fold(lex, s, lines).Ok? ==> Fold(lex, Onto(t, s), lines).value == Onto(t, Fold(lex, s, lines).value)
    decreases |lines|
  {
    if lines != [] {
      var front, last := lines[..|lines| - 1], lines[|lines| - 1];
      FoldOnto(lex, t, s, front);
      if Fold(lex, s, front).Ok? {
        StepOnto(lex, t, Fold(lex, s, front).value, last);
      }
    }
  }

  lemma {:induction false} FoldConcat(lex: Lexer, s: State, a: seq<string>, b: seq<string>)
    ensures Fold(lex, s, a + b) == if Fold(lex, s, a).Ok? then Fold(lex, Fold(lex, s, a).value, b) else Fold(lex, s, a)
    decreases |b|
  {
    if b == [] {
      assert a + b == a;
    } else {
      assert (a + b)[..|a + b| - 1] == a + b[..|b| - 1];
      FoldConcat(lex, s, a, b[..|b| - 1]);
    }
  }

  /** Every merged line is of a file that is present. */
  ghost predicate Rooted(t: Totals) {
    forall k :: k in t.merged ==> k.0 in t.present
  }

  lemma {:induction false} FoldIsRooted(lex: Lexer, s: State, lines: seq<string>)
    requires Rooted(s.totals)
    ensures Fold(lex, s, lines).Ok? ==> Rooted(Fold(lex, s, lines).value.totals)
    decreases |lines|
  {
    if lines != [] {
      FoldIsRooted(lex, s, lines[..|lines| - 1]);
    }
  }

  predicate PairBefore(a: (string, int), b: (string, int)) {
    Less(a.0, b.0) || (a.0 == b.0 && a.1 < b.1)
  }

  lemma PairsOrder()
    ensures Orders(PairBefore)
  {
    LessIsStrictTotalOrder();
  }

  ghost function InOrder(keys: set<(string, int)>): (out: seq<(string, int)>)
    ensures Distinct(out) && forall k :: k in out <==> k in keys
  {
    PairsOrder();
    ListingIsSorted(PairBefore, keys);
    Listing(PairBefore, keys)
  }

  /** The covered and uncovered lines of one file, in the order of the keys. */
  function UnitsOf(merged: Merged, keys: seq<(string, int)>, path: string): seq<Unit> {
    if keys == [] then []
    else
      var last := keys[|keys| - 1];
      UnitsOf(merged, keys[..|keys| - 1], path)
          + (if last.0 == path then [Unit(path, last.1, last.1, 1, At(merged, last))] else [])
  }

  ghost function ReportOf(t: Totals): Report {
    map p | p in t.present :: UnitsOf(t.merged, InOrder(t.merged.Keys), p)
  }

  ghost predicate BuiltSoFar(t: Totals, keys: seq<(string, int)>, report: Report) {
    report.Keys == t.present && forall p :: p in report ==> report[p] == UnitsOf(t.merged, keys, p)
  }

  lemma BuildOne(t: Totals, keys: seq<(string, int)>, k: (string, int), report: Report)
    requires BuiltSoFar(t, keys, report) && k.0 in report
    ensures BuiltSoFar(t, keys + [k], report[k.0 := report[k.0] + [Unit(k.0, k.1, k.1, 1, At(t.merged, k))]])
  {
    assert (keys + [k])[..|keys|] == keys;
  }

  lemma BuildNext(t: Totals, keys: seq<(string, int)>, i: nat, report: Report)
    requires i < |keys| && keys == InOrder(t.merged.Keys) && Rooted(t) && BuiltSoFar(t, keys[..i], report)
    ensures var k := keys[i];
      && k.0 in report
      && var unit := Unit(k.0, k.1, k.1, 1, At(t.merged, k));
      BuiltSoFar(t, keys[..i + 1], report[k.0 := report[k.0] + [unit]])
  {
    assert keys[i] in keys && keys[i] in t.merged;
    BuildOne(t, keys[..i], keys[i], report);
    assert keys[..i + 1] == keys[..i] + [keys[i]];
  }

  method BuildReport(t: Totals) returns (report: Report)
    requires Rooted(t)
    ensures report == ReportOf(t)
  {
    PairsOrder();
    var keys := SortKeys(PairBefore, t.merged.Keys);
    assert keys == InOrder(t.merged.Keys);
    report := map p | p in t.present :: [];
    for i := 0 to |keys|
      invariant BuiltSoFar(t, keys[..i], report)
    {
      var k := keys[i];
      BuildNext(t, keys, i, report);
      report := report[k.0 := report[k.0] + [Unit(k.0, k.1, k.1, 1, At(t.merged, k))]];
    }
    assert keys[..|keys|] == keys;
    BuiltIsReport(t, report);
  }

  lemma BuiltIsReport(t: Totals, report: Report)
    requires BuiltSoFar(t, InOrder(t.merged.Keys), report)
    ensures report == ReportOf(t)
  {
  }

  /** The whole of the parser, on the lines of the report. */
  ghost function Parse(lex: Lexer, lines: seq<string>): Result<Report> {
    if forall x :: x in lines ==> lex.strip(x) == "" then Err("empty")
    else
      var s :- Fold(lex, IDLE, lines);
      if s.path.Some? then Err("final record is missing end_of_record")
      else if !s.totals.sawRecord then Err("no LCOV records")
      else if s.totals.merged == map[] then Err("no production DA records")
      else Ok(ReportOf(s.totals))
  }

  lemma {:induction false} FirstError(lex: Lexer, s: State, lines: seq<string>, n: nat)
    requires n <= |lines| && Fold(lex, s, lines[..n]).Err?
    ensures Fold(lex, s, lines) == Fold(lex, s, lines[..n])
    decreases |lines|
  {
    if n < |lines| {
      assert lines[..|lines| - 1][..n] == lines[..n];
      FirstError(lex, s, lines[..|lines| - 1], n);
    } else {
      assert lines[..n] == lines;
    }
  }

  /** One step of the loop; a finished record is merged line by line. */
  method ReadLine(lex: Lexer, s: State, raw: string) returns (r: Result<State>)
    ensures r == Step(lex, s, raw)
  {
    if lex.strip(raw) == END && s.path.Some? && lex.product(s.path.value) {
      var merged := JoinRecord(s.totals.merged, Lift(s.path.value, s.hits));
      r := Ok(State.State(Totals(s.totals.present + {s.path.value}, merged, true), None, map[]));
    } else {
      r := Step(lex, s, raw);
    }
  }

  method ReadLines(lex: Lexer, lines: seq<string>) returns (r: Result<State>)
    ensures r == Fold(lex, IDLE, lines)
  {
    var s := IDLE;
    for i := 0 to |lines|
      invariant Fold(lex, IDLE, lines[..i]) == Ok(s)
    {
      assert lines[..i + 1][..i] == lines[..i];
      var next := ReadLine(lex, s, lines[i]);
      if next.Err? {
        FirstError(lex, IDLE, lines, i + 1);
        return next;
      }
      s := next.value;
    }
    assert lines[..|lines|] == lines;
    return Ok(s);
  }

  method ParseLcov(lex: Lexer, text: string) returns (r: Result<Report>)
    ensures r == Parse(lex, SplitLines(text))
  {
    var lines := SplitLines(text);
    if forall x :: x in lines ==> lex.strip(x) == "" {
      return Err("empty");
    }
    var read := ReadLines(lex, lines);
    if read.Err? {
      return Err(read.reason);
    }
    var s := read.value;
    if s.path.Some? {
      return Err("final record is missing end_of_record");
    }
    if !s.totals.sawRecord {
      return Err("no LCOV records");
    }
    if s.totals.merged == map[] {
      return Err("no production DA records");
    }
    FoldIsRooted(lex, IDLE, lines);
    var report := BuildReport(s.totals);
    return Ok(report);
  }
}
