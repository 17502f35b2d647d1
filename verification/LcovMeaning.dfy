/** What an accepted LCOV report means, and what its order and repeats do not change. A line
    of the report is understood from the lines before it: which record is open, and so which
    file it tells of. */
module LcovMeaning {
  import opened Wrappers
  import opened Text
  import opened Lcov

  function TagOf(line: string): Option<(string, string)> {
    var colon := IndexOf(line, ':');
    if colon == |line| then None else Some((line[..colon], line[colon + 1..]))
  }

  predicate HasTag(lex: Lexer, raw: string, tag: string) {
    var line := lex.strip(raw);
    line != "" && line != END && TagOf(line).Some? && TagOf(line).value.0 == tag
  }

  /** The file of the record that is open after these lines. */
  function FileAt(lex: Lexer, lines: seq<string>): Option<string> {
    if lines == [] then None
    else
      var last := lines[|lines| - 1];
      if lex.strip(last) == END then None
      else if HasTag(lex, last, "SF") then lex.path(TagOf(lex.strip(last)).value.1)
      else FileAt(lex, lines[..|lines| - 1])
  }

  /** "line,count" and perhaps a checksum: the line counts from one, and the count tells
      whether it ran. */
  predicate Says(lex: Lexer, value: string, line: int, hit: bool) {
    var parts := SplitAt(value, ',');
    && (|parts| == 2 || |parts| == 3)
    && lex.number(parts[0]) == Some(line) && 1 <= line
    && match lex.number(parts[1])
       case Some(count) => 0 <= count && (hit <==> count >= 1)
       case None => false
  }

  lemma ReadHitSays(lex: Lexer, value: string, line: int, hit: bool)
    ensures ReadHit(lex, value) == Ok((line, hit)) <==> Says(lex, value, line, hit)
  {
  }

  /** Line i says of line k.1 of file k.0 whether it ran. */
  predicate Tells(lex: Lexer, lines: seq<string>, i: nat, k: (string, int), hit: bool)
    requires i < |lines|
  {
    && HasTag(lex, lines[i], "DA")
    && Says(lex, TagOf(lex.strip(lines[i])).value.1, k.1, hit)
    && FileAt(lex, lines[..i]) == Some(k.0)
  }

  ghost predicate Told(lex: Lexer, lines: seq<string>, k: (string, int)) {
    exists i, hit :: 0 <= i < |lines| && Tells(lex, lines, i, k, hit)
  }

  ghost predicate ToldHit(lex: Lexer, lines: seq<string>, k: (string, int)) {
    exists i :: 0 <= i < |lines| && Tells(lex, lines, i, k, true)
  }

  /** What has been merged, and what the open record will add. */
  function Pending(lex: Lexer, s: State): Merged {
    if s.path.Some? && lex.product(s.path.value) then Or(s.totals.merged, Lift(s.path.value, s.hits))
        else s.totals.merged
  }

  ghost predicate Means(lex: Lexer, lines: seq<string>, merged: Merged) {
    && (forall k :: k in merged <==> lex.product(k.0) && Told(lex, lines, k))
    && (forall k :: k in merged ==> (merged[k] <==> ToldHit(lex, lines, k)))
  }

  ghost predicate Tracks(lex: Lexer, lines: seq<string>, s: State) {
    && s.path == FileAt(lex, lines)
    && (s.path.None? ==> s.hits == map[])
    && Means(lex, lines, Pending(lex, s))
  }

  lemma ToldOneMore(lex: Lexer, front: seq<string>, last: string, k: (string, int))
    ensures var lines := front + [last];
      && (Told(lex, lines, k) <==>
          Told(lex, front, k) || Tells(lex, lines, |front|, k, true) || Tells(lex, lines, |front|, k, false))
      && (ToldHit(lex, lines, k) <==> ToldHit(lex, front, k) || Tells(lex, lines, |front|, k, true))
  {
    var lines := front + [last];
    forall i, hit | 0 <= i < |front| ensures Tells(lex, lines, i, k, hit) <==> Tells(lex, front, i, k, hit) {
      assert lines[..i] == front[..i] && lines[i] == front[i];
    }
  }

  /** A line that tells of no source line leaves the meaning as it was. */
  lemma MeansWithout(lex: Lexer, front: seq<string>, last: string, merged: Merged)
    requires Means(lex, front, merged)
    requires HasTag(lex, last, "DA") ==>
               || ReadHit(lex, TagOf(lex.strip(last)).value.1).Err?
               || FileAt(lex, front).None? || !lex.product(FileAt(lex, front).value)
    ensures Means(lex, front + [last], merged)
  {
    var lines := front + [last];
    assert lines[..|front|] == front;
    forall k: (string, int)
      ensures lex.product(k.0) ==> (Told(lex, lines, k) <==> Told(lex, front, k))
      ensures lex.product(k.0) ==> (ToldHit(lex, lines, k) <==> ToldHit(lex, front, k)) {
      ToldOneMore(lex, front, last, k);
    }
  }

  lemma MeansWith(lex: Lexer, front: seq<string>, last: string, merged: Merged, merged': Merged, path: string,
                  line: int, hit: bool)
    requires Means(lex, front, merged)
    requires HasTag(lex, last, "DA") && ReadHit(lex, TagOf(lex.strip(last)).value.1) == Ok((line, hit)) &&
            FileAt(lex, front) == Some(path)
    requires lex.product(path) && merged' == merged[(path, line) := At(merged, (path, line)) || hit]
    ensures Means(lex, front + [last], merged')
  {
    var lines := front + [last];
    forall k
      ensures Told(lex, lines, k) <==> Told(lex, front, k) || k == (path, line)
      ensures ToldHit(lex, lines, k) <==> ToldHit(lex, front, k) || (k == (path, line) && hit) {
      ToldOneMore(lex, front, last, k);
      TellsLast(lex, front, last, path, line, hit, k);
    }
    OneMoreTold(lex, front, lines, merged, merged', (path, line), hit);
  }

  lemma TellsLast(lex: Lexer, front: seq<string>, last: string, path: string, line: int, hit: bool, k: (string, int))
    requires HasTag(lex, last, "DA") && ReadHit(lex, TagOf(lex.strip(last)).value.1) == Ok((line, hit)) &&
            FileAt(lex, front) == Some(path)
    ensures forall h :: Tells(lex, front + [last], |front|, k, h) <==> k == (path, line) && h == hit
  {
    assert (front + [last])[..|front|] == front;
  }

  lemma OneMoreTold(lex: Lexer, front: seq<string>, lines: seq<string>, merged: Merged, merged': Merged,
                    at: (string, int), hit: bool)
    requires Means(lex, front, merged) && lex.product(at.0) && merged' == merged[at := At(merged, at) || hit]
    requires forall k :: Told(lex, lines, k) <==> Told(lex, front, k) || k == at
    requires forall k :: ToldHit(lex, lines, k) <==> ToldHit(lex, front, k) || (k == at && hit)
    ensures Means(lex, lines, merged')
  {
    HitIsTold(lex, front, at);
    OneMoreEntry(merged, merged', at, hit,
                 (k: (string, int)) => lex.product(k.0) && Told(lex, front, k),
                 (k: (string, int)) => ToldHit(lex, front, k));
  }

  lemma OneMoreEntry(merged: Merged, merged': Merged, at: (string, int), hit: bool,
                     told: ((string, int)) -> bool, ran: ((string, int)) -> bool)
    requires forall k :: k in merged <==> told(k)
    requires forall k :: k in merged ==> (merged[k] <==> ran(k))
    requires (ran(at) ==> told(at)) && merged' == merged[at := At(merged, at) || hit]
    ensures forall k :: k in merged' <==> told(k) || k == at
    ensures forall k :: k in merged' ==> (merged'[k] <==> ran(k) || (k == at && hit))
  {
  }

  lemma HitIsTold(lex: Lexer, lines: seq<string>, k: (string, int))
    ensures ToldHit(lex, lines, k) ==> Told(lex, lines, k)
  {
    if ToldHit(lex, lines, k) {
      var i :| 0 <= i < |lines| && Tells(lex, lines, i, k, true);
      assert Told(lex, lines, k);
    }
  }

  lemma OrAt(a: Merged, b: Merged, k: (string, int))
    ensures (k in Or(a, b) <==> k in a || k in b) && (At(Or(a, b), k) <==> At(a, k) || At(b, k))
  {
  }

  lemma LiftAt(path: string, hits: Hits, k: (string, int))
    ensures (k in Lift(path, hits) <==> k.0 == path && k.1 in hits) &&
            (At(Lift(path, hits), k) <==> k.0 == path && HitAt(hits, k.1))
  {
    LiftHolds(path, hits);
  }

  lemma SameMerged(a: Merged, b: Merged)
    requires forall k :: (k in a <==> k in b) && (At(a, k) <==> At(b, k))
    ensures a == b
  {
    forall k | k in a ensures k in b && a[k] == b[k] {
      assert At(a, k) <==> At(b, k);
    }
  }

  lemma PendingHit(merged: Merged, path: string, hits: Hits, line: int, hit: bool)
    ensures var before := Or(merged, Lift(path, hits));
      Or(merged, Lift(path, hits[line := HitAt(hits, line) || hit])) ==
          before[(path, line) := At(before, (path, line)) || hit]
  {
    var hits' := hits[line := HitAt(hits, line) || hit];
    var before, after := Or(merged, Lift(path, hits)), Or(merged, Lift(path, hits'));
    var wanted := before[(path, line) := At(before, (path, line)) || hit];
    forall k ensures (k in after <==> k in wanted) && (At(after, k) <==> At(wanted, k)) {
      OrAt(merged, Lift(path, hits), k);
      OrAt(merged, Lift(path, hits'), k);
      LiftAt(path, hits, k);
      LiftAt(path, hits', k);
    }
    SameMerged(after, wanted);
  }

  lemma LiftNothing(merged: Merged, path: string)
    ensures Or(merged, Lift(path, map[])) == merged
  {
    LiftHolds(path, map[]);
    assert Lift(path, map[]) == map[];
    OrIsAssociative(merged, map[], map[]);
  }

  lemma DataTracks(lex: Lexer, front: seq<string>, last: string, s: State)
    requires Tracks(lex, front, s) && HasTag(lex, last, "DA") && Step(lex, s, last).Ok?
    ensures Tracks(lex, front + [last], Step(lex, s, last).value)
  {
    var s' := Step(lex, s, last).value;
    assert (front + [last])[..|front|] == front;
    var (line, hit) := ReadHit(lex, TagOf(lex.strip(last)).value.1).value;
    assert s' == s.(hits := s.hits[line := HitAt(s.hits, line) || hit]);
    if lex.product(s.path.value) {
      PendingHit(s.totals.merged, s.path.value, s.hits, line, hit);
      MeansWith(lex, front, last, Pending(lex, s), Pending(lex, s'), s.path.value, line, hit);
    } else {
      MeansWithout(lex, front, last, Pending(lex, s));
    }
  }

  /** Any other line ends a record, starts one, or changes nothing. */
  lemma OtherStep(lex: Lexer, s: State, raw: string)
    requires !HasTag(lex, raw, "DA") && Step(lex, s, raw).Ok?
    ensures var s' := Step(lex, s, raw).value;
      if lex.strip(raw) == END then
        s.path.Some? && s' == State.State(FinishRecord(lex, s.totals, s.path.value, s.hits), None, map[])
      else if HasTag(lex, raw, "SF") then
        s.path.None? && lex.path(TagOf(lex.strip(raw)).value.1).Some? &&
            s' == s.(path := lex.path(TagOf(lex.strip(raw)).value.1))
      else s' == s
  {
  }

  lemma OtherTracks(lex: Lexer, front: seq<string>, last: string, s: State)
    requires Tracks(lex, front, s) && !HasTag(lex, last, "DA") && Step(lex, s, last).Ok?
    ensures Tracks(lex, front + [last], Step(lex, s, last).value)
  {
    var s' := Step(lex, s, last).value;
    OtherStep(lex, s, last);
    FileOneMore(lex, front, last);
    MeansWithout(lex, front, last, Pending(lex, s));
    if lex.strip(last) != END && HasTag(lex, last, "SF") {
      LiftNothing(s.totals.merged, s'.path.value);
    }
  }

  lemma FileOneMore(lex: Lexer, front: seq<string>, last: string)
    ensures FileAt(lex, front + [last]) ==
              if lex.strip(last) == END then None
              else if HasTag(lex, last, "SF") then lex.path(TagOf(lex.strip(last)).value.1)
              else FileAt(lex, front)
  {
    assert (front + [last])[..|front|] == front;
  }

  lemma StepTracks(lex: Lexer, front: seq<string>, last: string, s: State)
    requires Tracks(lex, front, s) && Step(lex, s, last).Ok?
    ensures Tracks(lex, front + [last], Step(lex, s, last).value)
  {
    if HasTag(lex, last, "DA") {
      DataTracks(lex, front, last, s);
    } else {
      OtherTracks(lex, front, last, s);
    }
  }

  ghost predicate TracksIfRead(lex: Lexer, lines: seq<string>, r: Result<State>) {
    r.Ok? ==> Tracks(lex, lines, r.value)
  }

  lemma StepTracksIfRead(lex: Lexer, front: seq<string>, last: string, r: Result<State>)
    requires TracksIfRead(lex, front, r)
    ensures TracksIfRead(lex, front + [last], if r.Ok? then Step(lex, r.value, last) else r)
  {
    if r.Ok? && Step(lex, r.value, last).Ok? {
      StepTracks(lex, front, last, r.value);
    }
  }

  lemma FoldOneMore(lex: Lexer, front: seq<string>, last: string)
    ensures Fold(lex, IDLE, front + [last]) ==
            if Fold(lex, IDLE, front).Ok? then Step(lex, Fold(lex, IDLE, front).value, last) else Fold(lex, IDLE, front)
  {
    assert (front + [last])[..|front|] == front;
  }

  lemma IdleTracks(lex: Lexer)
    ensures TracksIfRead(lex, [], Fold(lex, IDLE, []))
  {
  }

  lemma {:induction false} FoldTracks(lex: Lexer, lines: seq<string>)
    ensures TracksIfRead(lex, lines, Fold(lex, IDLE, lines))
    decreases |lines|
  {
    if lines == [] {
      IdleTracks(lex);
    } else {
      var front, last := lines[..|lines| - 1], lines[|lines| - 1];
      FoldTracks(lex, front);
      StepTracksIfRead(lex, front, last, Fold(lex, IDLE, front));
      FoldOneMore(lex, front, last);
      assert lines == front + [last];
    }
  }

  /** An accepted report counts exactly the lines some record of a source of the module tells
      of, each once, and as covered exactly when some record says it ran. */
  lemma AcceptedReportMeans(lex: Lexer, lines: seq<string>)
    requires Parse(lex, lines).Ok?
    ensures var t := Fold(lex, IDLE, lines).value.totals;
      && Means(lex, lines, t.merged) && Rooted(t) && Parse(lex, lines).value == ReportOf(t)
      && Distinct(InOrder(t.merged.Keys)) && (forall k :: k in InOrder(t.merged.Keys) <==> k in t.merged)
      && forall p :: p in Parse(lex, lines).value ==>
          Parse(lex, lines).value[p] == UnitsOf(t.merged, InOrder(t.merged.Keys), p)
  {
    FoldTracks(lex, lines);
    FoldIsRooted(lex, IDLE, lines);
  }

  function Concat(chunks: seq<seq<string>>): seq<string> {
    if chunks == [] then [] else Concat(chunks[..|chunks| - 1]) + chunks[|chunks| - 1]
  }

  /** Read on its own, the chunk leaves no record open: it fails, or is whole records. */
  predicate Closed(lex: Lexer, chunk: seq<string>) {
    Fold(lex, IDLE, chunk).Ok? ==> Fold(lex, IDLE, chunk).value.path.None?
  }

  ghost predicate AllClosed(lex: Lexer, chunks: seq<seq<string>>) {
    forall c :: c in chunks ==> Closed(lex, c)
  }

  ghost predicate AllRead(lex: Lexer, chunks: seq<seq<string>>) {
    forall c :: c in chunks ==> Fold(lex, IDLE, c).Ok?
  }

  function Effect(lex: Lexer, chunk: seq<string>): Totals {
    if Fold(lex, IDLE, chunk).Ok? then Fold(lex, IDLE, chunk).value.totals else NOTHING
  }

  ghost predicate SomePresent(lex: Lexer, chunks: seq<seq<string>>, p: string) {
    exists c :: c in chunks && p in Effect(lex, c).present
  }

  ghost predicate SomeTells(lex: Lexer, chunks: seq<seq<string>>, k: (string, int)) {
    exists c :: c in chunks && k in Effect(lex, c).merged
  }

  ghost predicate SomeHits(lex: Lexer, chunks: seq<seq<string>>, k: (string, int)) {
    exists c :: c in chunks && At(Effect(lex, c).merged, k)
  }

  ghost predicate SomeSaw(lex: Lexer, chunks: seq<seq<string>>) {
    exists c :: c in chunks && Effect(lex, c).sawRecord
  }

  /** The totals are what the chunks contribute together, in any order. */
  ghost predicate Together(lex: Lexer, chunks: seq<seq<string>>, t: Totals) {
    && (forall p :: p in t.present <==> SomePresent(lex, chunks, p))
    && (forall k :: (k in t.merged <==> SomeTells(lex, chunks, k)) && (At(t.merged, k) <==> SomeHits(lex, chunks, k)))
    && (t.sawRecord <==> SomeSaw(lex, chunks))
  }

  lemma OneTotal(lex: Lexer, a: seq<seq<string>>, b: seq<seq<string>>, ta: Totals, tb: Totals)
    requires (forall c :: c in a <==> c in b) && Together(lex, a, ta) && Together(lex, b, tb)
    ensures ta == tb
  {
    forall p ensures SomePresent(lex, a, p) <==> SomePresent(lex, b, p) {
    }
    assert ta.present == tb.present;
    forall k ensures (SomeTells(lex, a, k) <==> SomeTells(lex, b, k)) &&
        (SomeHits(lex, a, k) <==> SomeHits(lex, b, k)) {
    }
    SameMerged(ta.merged, tb.merged);
  }

  lemma TogetherOneMore(lex: Lexer, front: seq<seq<string>>, last: seq<string>, t: Totals)
    requires Together(lex, front, t)
    ensures Together(lex, front + [last], Combine(t, Effect(lex, last)))
  {
    var chunks := front + [last];
    var e := Effect(lex, last);
    SomeOneMore(lex, front, last);
    forall k
      ensures (k in Or(t.merged, e.merged) <==> k in t.merged || k in e.merged)
      ensures At(Or(t.merged, e.merged), k) <==> At(t.merged, k) || At(e.merged, k) {
      OrAt(t.merged, e.merged, k);
    }
  }

  lemma SomeOneMore(lex: Lexer, front: seq<seq<string>>, last: seq<string>)
    ensures forall p :: SomePresent(lex, front + [last], p) <==>
            SomePresent(lex, front, p) || p in Effect(lex, last).present
    ensures forall k :: SomeTells(lex, front + [last], k) <==> SomeTells(lex, front, k) || k in Effect(lex, last).merged
    ensures forall k :: SomeHits(lex, front + [last], k) <==> SomeHits(lex, front, k) || At(Effect(lex, last).merged, k)
    ensures SomeSaw(lex, front + [last]) <==> SomeSaw(lex, front) || Effect(lex, last).sawRecord
  {
    var chunks := front + [last];
    assert last in chunks && forall c :: c in front ==> c in chunks;
    assert forall c :: c in chunks ==> c in front || c == last;
  }

  lemma {:induction false} ClosedIsClean(lex: Lexer, s: State, lines: seq<string>)
    requires s.path.None? ==> s.hits == map[]
    ensures Fold(lex, s, lines).Ok? && Fold(lex, s, lines).value.path.None? ==> Fold(lex, s, lines).value.hits == map[]
    decreases |lines|
  {
    if lines != [] {
      ClosedIsClean(lex, s, lines[..|lines| - 1]);
    }
  }

  lemma ChunkOntoRest(lex: Lexer, t: Totals, chunk: seq<string>)
    requires Closed(lex, chunk)
    ensures var s := State.State(t, None, map[]);
      && (Fold(lex, s, chunk).Ok? <==> Fold(lex, IDLE, chunk).Ok?)
      && (Fold(lex, s, chunk).Ok? ==>
          Fold(lex, s, chunk).value == State.State(Combine(t, Effect(lex, chunk)), None, map[]))
  {
    OrIsAssociative(t.merged, map[], map[]);
    assert t.present + {} == t.present;
    assert Onto(t, IDLE) == State.State(t, None, map[]);
    FoldOnto(lex, t, IDLE, chunk);
    ClosedIsClean(lex, IDLE, chunk);
  }

  lemma {:induction false} ChunksAreRead(lex: Lexer, chunks: seq<seq<string>>)
    requires AllClosed(lex, chunks)
    ensures var r := Fold(lex, IDLE, Concat(chunks));
      && (r.Ok? <==> AllRead(lex, chunks))
      && (r.Ok? ==> r.value.path.None? && r.value.hits == map[] && Together(lex, chunks, r.value.totals))
    decreases |chunks|
  {
    if chunks != [] {
      var front, last := chunks[..|chunks| - 1], chunks[|chunks| - 1];
      assert chunks == front + [last];
      ChunksAreRead(lex, front);
      FoldConcat(lex, IDLE, Concat(front), last);
      if Fold(lex, IDLE, Concat(front)).Ok? {
        var t := Fold(lex, IDLE, Concat(front)).value.totals;
        assert last in chunks;
        ChunkOntoRest(lex, t, last);
        TogetherOneMore(lex, front, last, t);
      }
    }
  }

  lemma {:induction false} BlankIsIdle(lex: Lexer, lines: seq<string>)
    requires forall x :: x in lines ==> lex.strip(x) == ""
    ensures Fold(lex, IDLE, lines) == Ok(IDLE)
  {
    if lines != [] {
      BlankIsIdle(lex, lines[..|lines| - 1]);
    }
  }

  lemma ParseIsRead(lex: Lexer, lines: seq<string>)
    ensures var r := Fold(lex, IDLE, lines);
      && (Parse(lex, lines).Ok? <==>
          r.Ok? && r.value.path.None? && r.value.totals.sawRecord && r.value.totals.merged != map[])
      && (Parse(lex, lines).Ok? ==> Parse(lex, lines).value == ReportOf(r.value.totals))
  {
    if forall x :: x in lines ==> lex.strip(x) == "" {
      BlankIsIdle(lex, lines);
    }
  }

  /** Records in another order, or repeated, give the same report. */
  lemma SameRecordsSameReport(lex: Lexer, a: seq<seq<string>>, b: seq<seq<string>>)
    requires AllClosed(lex, a) && AllClosed(lex, b) && forall c :: c in a <==> c in b
    ensures Parse(lex, Concat(a)).Ok? <==> Parse(lex, Concat(b)).Ok?
    ensures Parse(lex, Concat(a)).Ok? ==> Parse(lex, Concat(a)).value == Parse(lex, Concat(b)).value
  {
    ParseIsRead(lex, Concat(a));
    ParseIsRead(lex, Concat(b));
    ChunksAreRead(lex, a);
    ChunksAreRead(lex, b);
    assert AllRead(lex, a) <==> AllRead(lex, b);
    if AllRead(lex, a) {
      OneTotal(lex, a, b, Fold(lex, IDLE, Concat(a)).value.totals, Fold(lex, IDLE, Concat(b)).value.totals);
    }
  }

  predicate EndsRecord(lex: Lexer, chunk: seq<string>) {
    chunk != [] && lex.strip(chunk[|chunk| - 1]) == END
  }

  /** The chunks, with one more line. */
  function Grown(lex: Lexer, chunks: seq<seq<string>>, line: string): seq<seq<string>> {
    if chunks == [] || EndsRecord(lex, chunks[|chunks| - 1]) then chunks + [[line]]
    else chunks[..|chunks| - 1] + [chunks[|chunks| - 1] + [line]]
  }

  /** The report, cut after each end of a record. */
  function Cut(lex: Lexer, lines: seq<string>): seq<seq<string>> {
    if lines == [] then [] else Grown(lex, Cut(lex, lines[..|lines| - 1]), lines[|lines| - 1])
  }

  ghost predicate AllButLastEnd(lex: Lexer, chunks: seq<seq<string>>) {
    forall i :: 0 <= i < |chunks| - 1 ==> EndsRecord(lex, chunks[i])
  }

  lemma GrownIsWhole(lex: Lexer, chunks: seq<seq<string>>, line: string)
    requires AllButLastEnd(lex, chunks)
    ensures Concat(Grown(lex, chunks, line)) == Concat(chunks) + [line] && AllButLastEnd(lex, Grown(lex, chunks, line))
  {
    if chunks == [] || EndsRecord(lex, chunks[|chunks| - 1]) {
      ConcatSnoc(chunks, [line]);
    } else {
      var rest, open := chunks[..|chunks| - 1], chunks[|chunks| - 1];
      assert chunks == rest + [open];
      ConcatSnoc(rest, open);
      ConcatSnoc(rest, open + [line]);
      assert Concat(rest) + (open + [line]) == Concat(rest) + open + [line];
    }
  }

  lemma {:induction false} CutIsWhole(lex: Lexer, lines: seq<string>)
    ensures Concat(Cut(lex, lines)) == lines && AllButLastEnd(lex, Cut(lex, lines))
    decreases |lines|
  {
    if lines != [] {
      var front, last := lines[..|lines| - 1], lines[|lines| - 1];
      CutIsWhole(lex, front);
      GrownIsWhole(lex, Cut(lex, front), last);
      assert lines == front + [last];
    }
  }

  lemma ConcatSnoc(chunks: seq<seq<string>>, chunk: seq<string>)
    ensures Concat(chunks + [chunk]) == Concat(chunks) + chunk
  {
    assert (chunks + [chunk])[..|chunks|] == chunks;
  }

  lemma EndedIsClosed(lex: Lexer, chunk: seq<string>)
    requires EndsRecord(lex, chunk)
    ensures Closed(lex, chunk)
  {
  }

  /** An accepted report is made of whole records, so the law about records applies to it. */
  lemma CutIsClosed(lex: Lexer, lines: seq<string>)
    requires Parse(lex, lines).Ok?
    ensures AllClosed(lex, Cut(lex, lines)) && Concat(Cut(lex, lines)) == lines
  {
    var chunks := Cut(lex, lines);
    CutIsWhole(lex, lines);
    ParseIsRead(lex, lines);
    var n := |chunks| - 1;
    forall i | 0 <= i < n ensures Closed(lex, chunks[i]) {
      EndedIsClosed(lex, chunks[i]);
    }
    if n >= 0 {
      var front := chunks[..n];
      ChunksAreRead(lex, front);
      FoldConcat(lex, IDLE, Concat(front), chunks[n]);
      var t := Fold(lex, IDLE, Concat(front)).value.totals;
      assert t.present + {} == t.present;
      OrIsAssociative(t.merged, map[], map[]);
      FoldOnto(lex, t, IDLE, chunks[n]);
      assert Closed(lex, chunks[n]);
    }
  }
}
