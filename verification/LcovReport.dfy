/** Which LCOV reports are accepted, and what an accepted one reports, told from its lines. */
module LcovReport {
  import opened Wrappers
  import opened Text
  import opened Ordered
  import opened Reports
  import opened Lcov
  import opened LcovMeaning

  predicate NotNegative(n: Option<int>) {
    n.Some? && n.value >= 0
  }

  /** The line may stand where it does: tags that open a record outside one, the end and all
      others inside, each with a value that is in order. */
  ghost predicate InOrderAt(lex: Lexer, open: bool, raw: string) {
    var line := lex.strip(raw);
    || line == ""
    || (line == END && open)
    || (line != END && TagOf(line).Some? && TagInOrder(lex, open, TagOf(line).value.0, TagOf(line).value.1))
  }

  ghost predicate TagInOrder(lex: Lexer, open: bool, tag: string, value: string) {
    || (!open && tag in {"TN", "VER"})
    || (!open && tag == "SF" && lex.path(value).Some?)
    || (open && tag == "DA" && exists line, hit :: Says(lex, value, line, hit))
    || (open && tag in {"LF", "LH"} && NotNegative(lex.number(value)))
    || (open && tag in {"FN", "FNDA", "FNF", "FNH", "BRDA", "BRF", "BRH", "BA"})
  }

  lemma HitIsRead(lex: Lexer, value: string)
    ensures ReadHit(lex, value).Ok? <==> exists line, hit :: Says(lex, value, line, hit)
  {
    if ReadHit(lex, value).Ok? {
      var (line, hit) := ReadHit(lex, value).value;
      ReadHitSays(lex, value, line, hit);
    }
    if line, hit :| Says(lex, value, line, hit) {
      ReadHitSays(lex, value, line, hit);
    }
  }

  lemma StepSucceedsExactly(lex: Lexer, s: State, raw: string)
    ensures Step(lex, s, raw).Ok? <==> InOrderAt(lex, s.path.Some?, raw)
  {
    var line := lex.strip(raw);
    if line != "" && line != END && TagOf(line).Some? {
      HitIsRead(lex, TagOf(line).value.1);
    }
  }

  ghost predicate AllInOrder(lex: Lexer, lines: seq<string>) {
    forall i :: 0 <= i < |lines| ==> InOrderAt(lex, FileAt(lex, lines[..i]).Some?, lines[i])
  }

  lemma InOrderOneMore(lex: Lexer, front: seq<string>, last: string)
    ensures AllInOrder(lex, front + [last]) <==>
            AllInOrder(lex, front) && InOrderAt(lex, FileAt(lex, front).Some?, last)
  {
    var lines := front + [last];
    assert lines[..|front|] == front;
    forall i | 0 <= i < |front| ensures lines[..i] == front[..i] {
    }
    if AllInOrder(lex, lines) {
      forall i | 0 <= i < |front| ensures InOrderAt(lex, FileAt(lex, front[..i]).Some?, front[i]) {
        assert lines[i] == front[i];
      }
    }
  }

  /** The lines so far are read to the end exactly if they are in order. */
  ghost predicate ReadInOrder(lex: Lexer, lines: seq<string>, r: Result<State>) {
    (r.Ok? <==> AllInOrder(lex, lines)) && (r.Ok? ==> r.value.path == FileAt(lex, lines))
  }

  lemma StepReadsInOrder(lex: Lexer, front: seq<string>, last: string, r: Result<State>)
    requires ReadInOrder(lex, front, r)
    ensures var next := if r.Ok? then Step(lex, r.value, last) else r;
      next.Ok? <==> AllInOrder(lex, front + [last])
  {
    InOrderOneMore(lex, front, last);
    if r.Ok? {
      StepSucceedsExactly(lex, r.value, last);
    }
  }

  lemma FoldKnowsFile(lex: Lexer, lines: seq<string>)
    ensures Fold(lex, IDLE, lines).Ok? ==> Fold(lex, IDLE, lines).value.path == FileAt(lex, lines)
  {
    FoldTracks(lex, lines);
  }

  lemma {:induction false} FoldSucceedsExactly(lex: Lexer, lines: seq<string>)
    ensures ReadInOrder(lex, lines, Fold(lex, IDLE, lines))
    decreases |lines|
  {
    FoldKnowsFile(lex, lines);
    if lines != [] {
      var front, last := lines[..|lines| - 1], lines[|lines| - 1];
      FoldSucceedsExactly(lex, front);
      FoldOneMore(lex, front, last);
      StepReadsInOrder(lex, front, last, Fold(lex, IDLE, front));
      assert lines == front + [last];
    }
  }

  ghost predicate SomeEnd(lex: Lexer, lines: seq<string>) {
    exists x :: x in lines && lex.strip(x) == END
  }

  /** Some record is of that file. */
  ghost predicate SomeRecord(lex: Lexer, lines: seq<string>, p: string) {
    exists x :: x in lines && HasTag(lex, x, "SF") && lex.path(TagOf(lex.strip(x)).value.1) == Some(p)
  }

  lemma SomeOneMore(lex: Lexer, front: seq<string>, last: string, p: string)
    ensures SomeEnd(lex, front + [last]) <==> SomeEnd(lex, front) || lex.strip(last) == END
    ensures SomeRecord(lex, front + [last], p) <==>
            SomeRecord(lex, front, p) ||
            (HasTag(lex, last, "SF") && lex.path(TagOf(lex.strip(last)).value.1) == Some(p))
  {
    var lines := front + [last];
    assert last in lines && forall x :: x in front ==> x in lines;
    assert forall x :: x in lines ==> x in front || x == last;
  }

  /** A file is present, or the file of the open record: it is a source some record is of. */
  predicate PresentAt(lex: Lexer, s: State, p: string) {
    p in s.totals.present || (s.path == Some(p) && lex.product(p))
  }

  ghost predicate Presents(lex: Lexer, lines: seq<string>, s: State) {
    && (s.totals.sawRecord <==> SomeEnd(lex, lines))
    && forall p :: PresentAt(lex, s, p) <==> lex.product(p) && SomeRecord(lex, lines, p)
  }

  lemma StepPresents(lex: Lexer, front: seq<string>, last: string, s: State)
    requires Presents(lex, front, s) && Step(lex, s, last).Ok?
    ensures Presents(lex, front + [last], Step(lex, s, last).value)
  {
    forall p
      ensures SomeEnd(lex, front + [last]) <==> SomeEnd(lex, front) || lex.strip(last) == END
      ensures SomeRecord(lex, front + [last], p) <==>
              SomeRecord(lex, front, p) ||
              (HasTag(lex, last, "SF") && lex.path(TagOf(lex.strip(last)).value.1) == Some(p)) {
      SomeOneMore(lex, front, last, p);
    }
    SomeOneMore(lex, front, last, "");
    if !HasTag(lex, last, "DA") {
      OtherStep(lex, s, last);
    }
  }

  lemma {:induction false} FoldPresents(lex: Lexer, lines: seq<string>)
    requires Fold(lex, IDLE, lines).Ok?
    ensures Presents(lex, lines, Fold(lex, IDLE, lines).value)
    decreases |lines|
  {
    if lines != [] {
      var front, last := lines[..|lines| - 1], lines[|lines| - 1];
      FoldPresents(lex, front);
      StepPresents(lex, front, last, Fold(lex, IDLE, front).value);
      assert lines == front + [last];
    }
  }

  /** A report is accepted exactly if every line may stand where it does, no record is left
      open, there is one, and some line tells of a source of the module. */
  lemma AcceptedReports(lex: Lexer, lines: seq<string>)
    ensures Parse(lex, lines).Ok? <==>
      && AllInOrder(lex, lines) && FileAt(lex, lines).None? && SomeEnd(lex, lines)
      && exists k: (string, int) :: lex.product(k.0) && Told(lex, lines, k)
  {
    ParseIsRead(lex, lines);
    FoldSucceedsExactly(lex, lines);
    if Fold(lex, IDLE, lines).Ok? {
      var s := Fold(lex, IDLE, lines).value;
      FoldTracks(lex, lines);
      FoldPresents(lex, lines);
      if s.path.None? {
        MergedIsTold(lex, lines, s.totals.merged);
      }
    }
  }

  lemma MergedIsTold(lex: Lexer, lines: seq<string>, merged: Merged)
    requires Means(lex, lines, merged)
    ensures merged != map[] <==> exists k: (string, int) :: lex.product(k.0) && Told(lex, lines, k)
  {
    if merged != map[] {
      var k :| k in merged;
    }
    if k: (string, int) :| lex.product(k.0) && Told(lex, lines, k) {
      assert k in merged;
    }
  }

  /** The units are the lines told of the file, each once and in order, and covered exactly if
      some record says that the line ran. */
  ghost predicate Reported(lex: Lexer, lines: seq<string>, p: string, units: seq<Unit>, at: seq<int>) {
    && |units| == |at|
    && (forall x :: x in at <==> Told(lex, lines, (p, x)))
    && (forall i, j :: 0 <= i < j < |at| ==> at[i] < at[j])
    && forall i :: 0 <= i < |at| ==> units[i] == Unit(p, at[i], at[i], 1, ToldHit(lex, lines, (p, at[i])))
  }

  /** The lines of one file, in the order they are in. */
  function OfFile(keys: seq<(string, int)>, p: string): seq<int> {
    if keys == [] then []
    else OfFile(keys[..|keys| - 1], p) + (if keys[|keys| - 1].0 == p then [keys[|keys| - 1].1] else [])
  }

  ghost predicate InKeyOrder(keys: seq<(string, int)>) {
    forall i, j :: 0 <= i < j < |keys| ==> PairBefore(keys[i], keys[j])
  }

  ghost predicate Ascends(at: seq<int>) {
    forall i, j :: 0 <= i < j < |at| ==> at[i] < at[j]
  }

  lemma AscendsOneMore(at: seq<int>, x: int)
    requires Ascends(at) && forall y :: y in at ==> y < x
    ensures Ascends(at + [x])
  {
    forall i | 0 <= i < |at| ensures at[i] < x {
      assert at[i] in at;
    }
  }

  lemma {:induction false} OfFileIs(keys: seq<(string, int)>, p: string)
    requires InKeyOrder(keys)
    ensures Ascends(OfFile(keys, p)) && forall x :: x in OfFile(keys, p) <==> (p, x) in keys
    decreases |keys|
  {
    if keys != [] {
      var front, last := keys[..|keys| - 1], keys[|keys| - 1];
      OfFileIs(front, p);
      assert keys == front + [last];
      forall x | last.0 == p && (p, x) in front ensures x < last.1 {
        var i :| 0 <= i < |front| && front[i] == (p, x);
        assert PairBefore(keys[i], keys[|front|]);
        LessIsTotal(p, p);
      }
      if last.0 == p {
        AscendsOneMore(OfFile(front, p), last.1);
      }
    }
  }

  lemma {:induction false} UnitsAreOfFile(merged: Merged, keys: seq<(string, int)>, p: string)
    ensures |UnitsOf(merged, keys, p)| == |OfFile(keys, p)|
    ensures forall i :: 0 <= i < |OfFile(keys, p)| ==>
              UnitsOf(merged, keys, p)[i] ==
              Unit(p, OfFile(keys, p)[i], OfFile(keys, p)[i], 1, At(merged, (p, OfFile(keys, p)[i])))
    decreases |keys|
  {
    if keys != [] {
      UnitsAreOfFile(merged, keys[..|keys| - 1], p);
    }
  }

  lemma ListedInOrder(merged: Merged)
    ensures InKeyOrder(InOrder(merged.Keys)) && forall k :: k in InOrder(merged.Keys) <==> k in merged
  {
    PairsOrder();
    ListingIsSorted(PairBefore, merged.Keys);
  }

  lemma FileIsReported(lex: Lexer, lines: seq<string>, merged: Merged, p: string)
    requires Means(lex, lines, merged) && lex.product(p)
    ensures var keys := InOrder(merged.Keys);
      Reported(lex, lines, p, UnitsOf(merged, keys, p), OfFile(keys, p))
  {
    var keys := InOrder(merged.Keys);
    ListedInOrder(merged);
    OfFileIs(keys, p);
    UnitsAreOfFile(merged, keys, p);
    forall x ensures x in OfFile(keys, p) <==> Told(lex, lines, (p, x)) {
      assert (p, x) in merged <==> Told(lex, lines, (p, x));
    }
    var at := OfFile(keys, p);
    forall i | 0 <= i < |at| ensures At(merged, (p, at[i])) == ToldHit(lex, lines, (p, at[i])) {
      assert at[i] in at;
    }
  }

  /** An accepted report reports the sources of the module that have a record, and of each
      exactly the lines told. */
  lemma ReportedExactly(lex: Lexer, lines: seq<string>)
    requires Parse(lex, lines).Ok?
    ensures var report := Parse(lex, lines).value;
      && (forall p :: p in report <==> lex.product(p) && SomeRecord(lex, lines, p))
      && forall p :: p in report ==> exists at :: Reported(lex, lines, p, report[p], at)
  {
    ParseIsRead(lex, lines);
    AcceptedReportMeans(lex, lines);
    FoldPresents(lex, lines);
    var t, report := Fold(lex, IDLE, lines).value.totals, Parse(lex, lines).value;
    forall p ensures p in report <==> lex.product(p) && SomeRecord(lex, lines, p) {
      assert PresentAt(lex, Fold(lex, IDLE, lines).value, p) <==> p in t.present;
    }
    forall p | p in report ensures exists at :: Reported(lex, lines, p, report[p], at) {
      FileIsReported(lex, lines, t.merged, p);
    }
  }
}
