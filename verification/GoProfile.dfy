/** Merging a Go coverage profile: which profiles are accepted, and what they report. Blocks
    are keyed by file and position; a block that is listed more than once counts once, and is
    covered if any of its listings ran. */
module GoProfile {
  import opened Wrappers
  import opened Text
  import opened Lines
  import opened Ordered
  import opened Reports

  /** Where a block begins and ends. */
  datatype Pos = Pos(startLine: nat, startCol: nat, endLine: nat, endCol: nat)

  datatype Key = Key(path: string, pos: Pos)

  /** What the block pattern finds in a line. */
  datatype Block = Block(rawPath: string, pos: Pos, statements: nat, count: nat)

  /** The text functions of the parser: stripping, the block pattern, the repository path of
      a reported path, and whether that is a source of the module. */
  datatype Lexer = Lexer(strip: string -> string, block: string -> Option<Block>, path: string -> Option<string>,
                         product: string -> bool)

  type Blocks = map<Key, (nat, bool)>

  datatype State = State(blocks: Blocks, sawHeader: bool)

  const MODE := "mode:"
  const ATOMIC := "mode: atomic"

  predicate ValidPos(p: Pos) {
    && p.startLine >= 1 && p.startCol >= 1 && p.endLine >= 1 && p.endCol >= 1
    && !(p.endLine < p.startLine || (p.endLine == p.startLine && p.endCol < p.startCol))
  }

  function AddBlock(s: State, key: Key, statements: nat, count: nat): Result<State> {
    if key in s.blocks && s.blocks[key].0 != statements then Err("duplicate block has conflicting statement count")
    else Ok(s.(blocks := s.blocks[key := (statements, count > 0 || (key in s.blocks && s.blocks[key].1))]))
  }

  function Step(lex: Lexer, s: State, raw: string): Result<State> {
    var line := lex.strip(raw);
    if line == "" then Ok(s)
    else if StartsWith(line, MODE) then
      if line != ATOMIC then Err("mode must be atomic") else Ok(s.(sawHeader := true))
    else if !s.sawHeader then Err("missing header")
    else
      match lex.block(line)
      case None => Err("malformed block")
      case Some(b) =>
        match lex.path(b.rawPath)
        case None => Err("invalid path")
        case Some(path) =>
          if !ValidPos(b.pos) then Err("invalid values")
          else AddBlock(s, Key(path, b.pos), b.statements, b.count)
  }

  function Fold(lex: Lexer, lines: seq<string>): Result<State> {
    if lines == [] then Ok(State.State(map[], false))
    else
      var before :- Fold(lex, lines[..|lines| - 1]);
      Step(lex, before, lines[|lines| - 1])
  }

  /** Sorted order of the keys: by path, then by position. */
  predicate Precedes(a: Key, b: Key) {
    Less(a.path, b.path) || (a.path == b.path && PosBefore(a.pos, b.pos))
  }

  predicate PosBefore(p: Pos, q: Pos) {
    if p.startLine != q.startLine then p.startLine < q.startLine
    else if p.startCol != q.startCol then p.startCol < q.startCol
    else if p.endLine != q.endLine then p.endLine < q.endLine
    else p.endCol < q.endCol
  }

  lemma PrecedesOrders()
    ensures Orders(Precedes)
  {
    LessIsStrictTotalOrder();
  }

  function UnitOf(k: Key, b: (nat, bool)): Unit {
    Unit(k.path, k.pos.startLine, k.pos.endLine, b.0, b.1)
  }

  /** The units of one file, in the order of the keys. */
  function UnitsOf(blocks: Blocks, keys: seq<Key>, path: string): seq<Unit>
    requires forall k :: k in keys ==> k in blocks
  {
    if keys == [] then []
    else
      var last := keys[|keys| - 1];
      UnitsOf(blocks, keys[..|keys| - 1], path) + (if last.path == path then [UnitOf(last, blocks[last])] else [])
  }

  /** The report of the merged blocks: for each source of the module its blocks, in order. */
  ghost predicate IsReport(product: string -> bool, blocks: Blocks, keys: seq<Key>, report: Report)
    requires forall k :: k in keys ==> k in blocks
  {
    && (forall p :: p in report <==> product(p) && exists k :: k in keys && k.path == p)
    && (forall p :: p in report ==> report[p] == UnitsOf(blocks, keys, p))
  }

  ghost function InOrder(keys: set<Key>): (out: seq<Key>)
    ensures Distinct(out) && forall k :: k in out <==> k in keys
  {
    PrecedesOrders();
    ListingIsSorted(Precedes, keys);
    Listing(Precedes, keys)
  }

  method BuildReport(lex: Lexer, blocks: Blocks, keys: seq<Key>) returns (report: Report)
    requires forall k :: k in keys ==> k in blocks
    ensures IsReport(lex.product, blocks, keys, report)
  {
    report := map[];
    for i := 0 to |keys|
      invariant IsReport(lex.product, blocks, keys[..i], report)
    {
      var k := keys[i];
      assert keys[..i + 1] == keys[..i] + [k];
      ReportOneMore(lex.product, blocks, keys[..i], k, report);
      if lex.product(k.path) {
        var units := if k.path in report then report[k.path] else [];
        report := report[k.path := units + [UnitOf(k, blocks[k])]];
      }
    }
    assert keys[..|keys|] == keys;
  }

  lemma UnitsOneMore(blocks: Blocks, keys: seq<Key>, k: Key, path: string)
    requires k in blocks && forall x :: x in keys ==> x in blocks
    ensures UnitsOf(blocks, keys + [k], path) ==
            UnitsOf(blocks, keys, path) + (if k.path == path then [UnitOf(k, blocks[k])] else [])
  {
    assert (keys + [k])[..|keys|] == keys;
  }

  lemma ReportOneMore(product: string -> bool, blocks: Blocks, keys: seq<Key>, k: Key, report: Report)
    requires k in blocks && forall x :: x in keys ==> x in blocks
    requires IsReport(product, blocks, keys, report)
    ensures !product(k.path) ==> IsReport(product, blocks, keys + [k], report)
    ensures product(k.path) ==>
              var units := if k.path in report then report[k.path] else [];
              IsReport(product, blocks, keys + [k], report[k.path := units + [UnitOf(k, blocks[k])]])
  {
    NoKeyNoUnit(blocks, keys, k.path);
    forall p ensures UnitsOf(blocks, keys + [k], p) ==
        UnitsOf(blocks, keys, p) + (if k.path == p then [UnitOf(k, blocks[k])] else []) {
      UnitsOneMore(blocks, keys, k, p);
    }
    assert k in keys + [k];
  }

  lemma {:induction false} NoKeyNoUnit(blocks: Blocks, keys: seq<Key>, path: string)
    requires forall k :: k in keys ==> k in blocks
    ensures (forall k :: k in keys ==> k.path != path) ==> UnitsOf(blocks, keys, path) == []
  {
    if keys != [] {
      NoKeyNoUnit(blocks, keys[..|keys| - 1], path);
    }
  }

  /** Lines and columns count from one, and the end is not before the start. */
  predicate Spans(p: Pos) {
    && 1 <= p.startLine && 1 <= p.startCol && 1 <= p.endLine && 1 <= p.endCol
    && (p.startLine < p.endLine || (p.startLine == p.endLine && p.startCol <= p.endCol))
  }

  /** The block a line stands for, if it stands for a sound one. */
  function BlockAt(lex: Lexer, raw: string): Option<(Key, nat, nat)> {
    var line := lex.strip(raw);
    if line == "" || StartsWith(line, MODE) then None
    else
      match lex.block(line)
      case None => None
      case Some(b) =>
        match lex.path(b.rawPath)
        case None => None
        case Some(path) => if Spans(b.pos) then Some((Key(path, b.pos), b.statements, b.count)) else None
  }

  predicate IsBlank(lex: Lexer, raw: string) {
    lex.strip(raw) == ""
  }

  predicate IsHeader(lex: Lexer, raw: string) {
    lex.strip(raw) == ATOMIC
  }

  /** A line with nothing wrong about it taken alone. */
  predicate Sound(lex: Lexer, raw: string) {
    IsBlank(lex, raw) || IsHeader(lex, raw) || BlockAt(lex, raw).Some?
  }

  ghost predicate AllSound(lex: Lexer, lines: seq<string>) {
    forall x :: x in lines ==> Sound(lex, x)
  }

  /** No line says anything before a header has been seen. */
  ghost predicate HeaderLeads(lex: Lexer, lines: seq<string>) {
    forall i :: 0 <= i < |lines| && !IsBlank(lex, lines[i]) && !IsHeader(lex, lines[i]) ==> HasHeader(lex, lines[..i])
  }

  ghost predicate HasHeader(lex: Lexer, lines: seq<string>) {
    exists x :: x in lines && IsHeader(lex, x)
  }

  /** Repeated blocks all give the same number of statements. */
  ghost predicate Consistent(lex: Lexer, lines: seq<string>) {
    forall x, y, k :: x in lines && y in lines && Gives(lex, x, k) && Gives(lex, y, k) ==>
      BlockAt(lex, x).value.1 == BlockAt(lex, y).value.1
  }

  predicate Gives(lex: Lexer, raw: string, key: Key) {
    BlockAt(lex, raw).Some? && BlockAt(lex, raw).value.0 == key
  }

  predicate Runs(lex: Lexer, raw: string, key: Key) {
    Gives(lex, raw, key) && BlockAt(lex, raw).value.2 > 0
  }

  /** The merged blocks are those the lines give: each with the weight every line gives it,
      counted once, and covered exactly when some line says it ran. */
  ghost predicate Merges(lex: Lexer, lines: seq<string>, blocks: Blocks) {
    && (forall k :: k in blocks <==> SomeGives(lex, lines, k))
    && (forall x, k :: x in lines && Gives(lex, x, k) ==> k in blocks && BlockAt(lex, x).value.1 == blocks[k].0)
    && (forall k :: k in blocks ==> (blocks[k].1 <==> SomeRuns(lex, lines, k)))
  }

  ghost predicate SomeGives(lex: Lexer, lines: seq<string>, k: Key) {
    exists x :: x in lines && Gives(lex, x, k)
  }

  ghost predicate SomeRuns(lex: Lexer, lines: seq<string>, k: Key) {
    exists x :: x in lines && Runs(lex, x, k)
  }

  lemma AtomicIsMode()
    ensures StartsWith(ATOMIC, MODE) && ATOMIC != ""
  {
    assert ATOMIC[..5] == MODE;
  }

  lemma SomeOneMore(lex: Lexer, front: seq<string>, last: string, k: Key)
    ensures SomeGives(lex, front + [last], k) <==> SomeGives(lex, front, k) || Gives(lex, last, k)
    ensures SomeRuns(lex, front + [last], k) <==> SomeRuns(lex, front, k) || Runs(lex, last, k)
  {
    var lines := front + [last];
    assert last in lines && forall x :: x in front ==> x in lines;
    assert forall x :: x in lines ==> x in front || x == last;
  }

  lemma MergeOne(lex: Lexer, front: seq<string>, last: string, s: State)
    requires Merges(lex, front, s.blocks) && s.sawHeader && BlockAt(lex, last).Some?
    ensures Step(lex, s, last).Ok? ==> Merges(lex, front + [last], Step(lex, s, last).value.blocks)
    ensures Step(lex, s, last).Ok? <==> forall x :: x in front && Gives(lex, x, BlockAt(lex, last).value.0) ==>
                                          BlockAt(lex, x).value.1 == BlockAt(lex, last).value.1
  {
    var (key, statements, count) := BlockAt(lex, last).value;
    assert Step(lex, s, last) == AddBlock(s, key, statements, count);
    forall k ensures k in s.blocks ==> SomeGives(lex, front, k) {
    }
    if AddBlock(s, key, statements, count).Ok? {
      MergedOneMore(lex, front, last, s.blocks, AddBlock(s, key, statements, count).value.blocks);
    }
  }

  lemma MergedOneMore(lex: Lexer, front: seq<string>, last: string, blocks: Blocks, blocks': Blocks)
    requires Merges(lex, front, blocks) && BlockAt(lex, last).Some?
    requires var (key, statements, count) := BlockAt(lex, last).value;
      && (key in blocks ==> blocks[key].0 == statements)
      && blocks' == blocks[key := (statements, count > 0 || (key in blocks && blocks[key].1))]
    ensures Merges(lex, front + [last], blocks')
  {
    forall k
      ensures SomeGives(lex, front + [last], k) <==> SomeGives(lex, front, k) || Gives(lex, last, k)
      ensures SomeRuns(lex, front + [last], k) <==> SomeRuns(lex, front, k) || Runs(lex, last, k) {
      SomeOneMore(lex, front, last, k);
    }
    RunGives(lex, front);
  }

  lemma RunGives(lex: Lexer, lines: seq<string>)
    ensures forall k :: SomeRuns(lex, lines, k) ==> SomeGives(lex, lines, k)
  {
  }

  lemma MergeNone(lex: Lexer, front: seq<string>, last: string, blocks: Blocks)
    requires Merges(lex, front, blocks) && BlockAt(lex, last).None?
    ensures Merges(lex, front + [last], blocks)
  {
    forall k
      ensures SomeGives(lex, front + [last], k) <==> SomeGives(lex, front, k)
      ensures SomeRuns(lex, front + [last], k) <==> SomeRuns(lex, front, k) {
      SomeOneMore(lex, front, last, k);
    }
  }

  ghost predicate Agrees(lex: Lexer, front: seq<string>, last: string) {
    forall x, k :: x in front && Gives(lex, x, k) && Gives(lex, last, k) ==>
        BlockAt(lex, x).value.1 == BlockAt(lex, last).value.1
  }

  lemma ConsistentOneMore(lex: Lexer, front: seq<string>, last: string)
    ensures Consistent(lex, front + [last]) <==> Consistent(lex, front) && Agrees(lex, front, last)
  {
    var lines := front + [last];
    assert last in lines && forall x :: x in front ==> x in lines;
    assert forall x :: x in lines ==> x in front || x == last;
  }

  lemma HeaderLeadsOneMore(lex: Lexer, front: seq<string>, last: string)
    ensures HeaderLeads(lex, front + [last]) <==>
              HeaderLeads(lex, front) && (IsBlank(lex, last) || IsHeader(lex, last) || HasHeader(lex, front))
    ensures HasHeader(lex, front + [last]) <==> HasHeader(lex, front) || IsHeader(lex, last)
  {
    var lines := front + [last];
    assert last in lines && forall x :: x in front ==> x in lines;
    assert lines[..|front|] == front;
    forall i | 0 <= i < |front| ensures lines[..i] == front[..i] {
    }
    if HeaderLeads(lex, lines) {
      forall i | 0 <= i < |front| && !IsBlank(lex, front[i]) && !IsHeader(lex, front[i])
        ensures HasHeader(lex, front[..i]) {
        assert lines[i] == front[i];
      }
    }
  }

  ghost predicate Readable(lex: Lexer, lines: seq<string>) {
    AllSound(lex, lines) && HeaderLeads(lex, lines) && Consistent(lex, lines)
  }

  /** The line is in order after those before it. */
  ghost predicate MayFollow(lex: Lexer, front: seq<string>, last: string) {
    && Sound(lex, last) && Agrees(lex, front, last)
    && (IsBlank(lex, last) || IsHeader(lex, last) || HasHeader(lex, front))
  }

  lemma StepMeans(lex: Lexer, front: seq<string>, last: string, s: State)
    requires Merges(lex, front, s.blocks) && (s.sawHeader <==> HasHeader(lex, front))
    ensures var r := Step(lex, s, last);
      && (r.Ok? <==> MayFollow(lex, front, last))
      && (r.Ok? ==> Merges(lex, front + [last], r.value.blocks))
      && (r.Ok? ==> (r.value.sawHeader <==> HasHeader(lex, front + [last])))
  {
    AtomicIsMode();
    HeaderLeadsOneMore(lex, front, last);
    if BlockAt(lex, last).None? {
      MergeNone(lex, front, last, s.blocks);
    } else if s.sawHeader {
      MergeOne(lex, front, last, s);
    }
  }

  lemma ReadableOneMore(lex: Lexer, front: seq<string>, last: string)
    ensures Readable(lex, front + [last]) <==>
            Readable(lex, front) && MayFollow(lex, front, last)
  {
    ConsistentOneMore(lex, front, last);
    HeaderLeadsOneMore(lex, front, last);
    assert AllSound(lex, front + [last]) <==> AllSound(lex, front) && Sound(lex, last);
  }

  lemma FoldOneMore(lex: Lexer, front: seq<string>, last: string)
    ensures Fold(lex, front + [last]) ==
            if Fold(lex, front).Ok? then Step(lex, Fold(lex, front).value, last) else Fold(lex, front)
  {
    assert (front + [last])[..|front|] == front;
  }

  /** The loop reads exactly the readable lines to the end, and has merged their blocks then. */
  ghost predicate ReadRightly(lex: Lexer, lines: seq<string>, r: Result<State>) {
    && (r.Ok? <==> Readable(lex, lines))
    && (r.Ok? ==> Merges(lex, lines, r.value.blocks) && (r.value.sawHeader <==> HasHeader(lex, lines)))
  }

  lemma StepReadsRightly(lex: Lexer, front: seq<string>, last: string, r: Result<State>)
    requires ReadRightly(lex, front, r)
    ensures ReadRightly(lex, front + [last], if r.Ok? then Step(lex, r.value, last) else r)
  {
    ReadableOneMore(lex, front, last);
    if r.Ok? {
      StepMeans(lex, front, last, r.value);
    }
  }

  lemma NothingIsReadRightly(lex: Lexer)
    ensures ReadRightly(lex, [], Fold(lex, []))
  {
  }

  lemma {:induction false} FoldMeans(lex: Lexer, lines: seq<string>)
    ensures ReadRightly(lex, lines, Fold(lex, lines))
    decreases |lines|
  {
    if lines == [] {
      NothingIsReadRightly(lex);
    } else {
      var front, last := lines[..|lines| - 1], lines[|lines| - 1];
      FoldMeans(lex, front);
      StepReadsRightly(lex, front, last, Fold(lex, front));
      FoldOneMore(lex, front, last);
      assert lines == front + [last];
    }
  }

  /** The report of the merged blocks. */
  ghost function ReportOf(product: string -> bool, blocks: Blocks): (report: Report)
    ensures IsReport(product, blocks, InOrder(blocks.Keys), report)
  {
    var keys := InOrder(blocks.Keys);
    var paths := set k | k in blocks && product(k.path) :: k.path;
    map p | p in paths :: UnitsOf(blocks, keys, p)
  }

  lemma OneReport(product: string -> bool, blocks: Blocks, keys: seq<Key>, a: Report, b: Report)
    requires forall k :: k in keys ==> k in blocks
    requires IsReport(product, blocks, keys, a) && IsReport(product, blocks, keys, b)
    ensures a == b
  {
  }

  /** The whole of the parser, on the lines of the profile. */
  ghost function Parse(lex: Lexer, lines: seq<string>): Result<Report> {
    if forall x :: x in lines ==> IsBlank(lex, x) then Err("empty")
    else
      var s :- Fold(lex, lines);
      if !s.sawHeader then Err("no mode header")
      else if s.blocks == map[] then Err("no coverage blocks")
      else if ReportOf(lex.product, s.blocks) == map[] then Err("no production coverage blocks")
      else Ok(ReportOf(lex.product, s.blocks))
  }

  lemma {:induction false} FirstError(lex: Lexer, lines: seq<string>, n: nat)
    requires n <= |lines| && Fold(lex, lines[..n]).Err?
    ensures Fold(lex, lines) == Fold(lex, lines[..n])
    decreases |lines|
  {
    if n < |lines| {
      assert lines[..|lines| - 1][..n] == lines[..n];
      FirstError(lex, lines[..|lines| - 1], n);
    } else {
      assert lines[..n] == lines;
    }
  }

  /** The line loop. */
  method ReadLines(lex: Lexer, lines: seq<string>) returns (r: Result<State>)
    ensures r == Fold(lex, lines)
  {
    var s := State.State(map[], false);
    for i := 0 to |lines|
      invariant Fold(lex, lines[..i]) == Ok(s)
    {
      assert lines[..i + 1][..i] == lines[..i];
      var next := Step(lex, s, lines[i]);
      if next.Err? {
        FirstError(lex, lines, i + 1);
        return next;
      }
      s := next.value;
    }
    assert lines[..|lines|] == lines;
    return Ok(s);
  }

  method ParseGoProfile(lex: Lexer, text: string) returns (r: Result<Report>)
    ensures r == Parse(lex, SplitLines(text))
  {
    var lines := SplitLines(text);
    if forall x :: x in lines ==> IsBlank(lex, x) {
      return Err("empty");
    }
    var read := ReadLines(lex, lines);
    if read.Err? {
      return Err(read.reason);
    }
    var s := read.value;
    if !s.sawHeader {
      return Err("no mode header");
    }
    if s.blocks == map[] {
      return Err("no coverage blocks");
    }
    PrecedesOrders();
    var keys := SortKeys(Precedes, s.blocks.Keys);
    assert keys == InOrder(s.blocks.Keys);
    var report := BuildReport(lex, s.blocks, keys);
    OneReport(lex.product, s.blocks, keys, report, ReportOf(lex.product, s.blocks));
    r := if report == map[] then Err("no production coverage blocks") else Ok(report);
  }

  predicate GivesProduct(lex: Lexer, raw: string) {
    BlockAt(lex, raw).Some? && lex.product(BlockAt(lex, raw).value.0.path)
  }

  lemma ReportIsEmpty(product: string -> bool, blocks: Blocks)
    ensures ReportOf(product, blocks) == map[] <==> forall k :: k in blocks ==> !product(k.path)
  {
    var report := ReportOf(product, blocks);
    if k :| k in blocks && product(k.path) {
      assert k in InOrder(blocks.Keys) && k.path in report;
    }
    if report != map[] {
      var p :| p in report;
    }
  }

  lemma ParseIsRead(lex: Lexer, lines: seq<string>)
    ensures var r := Fold(lex, lines);
      && (Parse(lex, lines).Ok? <==> r.Ok? && r.value.sawHeader && ReportOf(lex.product, r.value.blocks) != map[])
      && (Parse(lex, lines).Ok? ==> Parse(lex, lines).value == ReportOf(lex.product, r.value.blocks))
  {
    HeaderSaysSomething(lex, lines);
    NoBlocksNoReport(lex.product);
  }

  lemma NoBlocksNoReport(product: string -> bool)
    ensures ReportOf(product, map[]) == map[]
  {
    ReportIsEmpty(product, map[]);
  }

  lemma HeaderSaysSomething(lex: Lexer, lines: seq<string>)
    ensures Fold(lex, lines).Ok? && Fold(lex, lines).value.sawHeader ==> exists x :: x in lines && !IsBlank(lex, x)
  {
    FoldMeans(lex, lines);
    if Fold(lex, lines).Ok? && Fold(lex, lines).value.sawHeader {
      var x :| x in lines && IsHeader(lex, x);
      assert !IsBlank(lex, x);
    }
  }

  lemma ProductBlocks(lex: Lexer, lines: seq<string>, blocks: Blocks)
    requires Merges(lex, lines, blocks)
    ensures (exists k :: k in blocks && lex.product(k.path)) <==> exists x :: x in lines && GivesProduct(lex, x)
  {
    if k :| k in blocks && lex.product(k.path) {
      var x :| x in lines && Gives(lex, x, k);
      assert GivesProduct(lex, x);
    }
    if x :| x in lines && GivesProduct(lex, x) {
      assert Gives(lex, x, BlockAt(lex, x).value.0);
    }
  }

  /** A profile is accepted exactly when each line is sound, the header leads, repeats agree
      on their statements, and some block is of a source of the module. */
  lemma AcceptedProfiles(lex: Lexer, lines: seq<string>)
    ensures Parse(lex, lines).Ok? <==>
              Readable(lex, lines) && HasHeader(lex, lines) && exists x :: x in lines && GivesProduct(lex, x)
  {
    ParseIsRead(lex, lines);
    FoldMeans(lex, lines);
    if Fold(lex, lines).Ok? {
      var blocks := Fold(lex, lines).value.blocks;
      ReportIsEmpty(lex.product, blocks);
      ProductBlocks(lex, lines, blocks);
    }
  }

  /** What an accepted profile reports: the merged blocks of the module's sources, in order
      and each once. */
  lemma AcceptedReport(lex: Lexer, lines: seq<string>, blocks: Blocks)
    requires Parse(lex, lines).Ok? && Merges(lex, lines, blocks)
    ensures Parse(lex, lines).value == ReportOf(lex.product, blocks)
    ensures Distinct(InOrder(blocks.Keys)) && forall k :: k in InOrder(blocks.Keys) <==> k in blocks
    ensures IsReport(lex.product, blocks, InOrder(blocks.Keys), Parse(lex, lines).value)
  {
    ParseIsRead(lex, lines);
    FoldMeans(lex, lines);
    OneMerge(lex, lines, lines, Fold(lex, lines).value.blocks, blocks);
  }

  lemma OneMerge(lex: Lexer, a: seq<string>, b: seq<string>, ma: Blocks, mb: Blocks)
    requires forall x :: x in a <==> x in b
    requires Merges(lex, a, ma) && Merges(lex, b, mb)
    ensures ma == mb
  {
    forall k ensures k in ma <==> k in mb {
    }
    forall k | k in ma ensures ma[k] == mb[k] {
      var x :| x in a && Gives(lex, x, k);
      assert ma[k].0 == mb[k].0;
      assert ma[k].1 <==> mb[k].1;
    }
  }

  /** Lines in another order, or repeated, give the same report, so long as a header still leads. */
  lemma SameLinesSameReport(lex: Lexer, a: seq<string>, b: seq<string>)
    requires (forall x :: x in a <==> x in b) && HeaderLeads(lex, a) && HeaderLeads(lex, b)
    ensures Parse(lex, a).Ok? <==> Parse(lex, b).Ok?
    ensures Parse(lex, a).Ok? ==> Parse(lex, a).value == Parse(lex, b).value
  {
    AcceptedProfiles(lex, a);
    AcceptedProfiles(lex, b);
    assert Readable(lex, a) <==> Readable(lex, b);
    if Parse(lex, a).Ok? {
      FoldMeans(lex, a);
      FoldMeans(lex, b);
      OneMerge(lex, a, b, Fold(lex, a).value.blocks, Fold(lex, b).value.blocks);
      ParseIsRead(lex, a);
      ParseIsRead(lex, b);
    }
  }
}
