/** What an accepted Go profile reports, unit by unit, told from its lines. */
module GoReport {
  import opened Wrappers
  import opened Text
  import opened Ordered
  import opened Reports
  import opened GoProfile

  /** The unit stands for the block: where it begins and ends, the statements every line gives
      it, and covered exactly if some line says it ran. */
  ghost predicate StandsFor(lex: Lexer, lines: seq<string>, u: Unit, k: Key) {
    && u.path == k.path && u.startLine == k.pos.startLine && u.endLine == k.pos.endLine
    && (forall x :: x in lines && Gives(lex, x, k) ==> u.weight == BlockAt(lex, x).value.1)
    && (u.covered <==> SomeRuns(lex, lines, k))
  }

  /** a begins before b, or ends before it where both begin together. */
  predicate Earlier(a: Pos, b: Pos) {
    || a.startLine < b.startLine
    || (a.startLine == b.startLine && a.startCol < b.startCol)
    || (a.startLine == b.startLine && a.startCol == b.startCol && a.endLine < b.endLine)
    || (a.startLine == b.startLine && a.startCol == b.startCol && a.endLine == b.endLine && a.endCol < b.endCol)
  }

  /** The units stand for the blocks the lines give of the file: each once, by position. */
  ghost predicate Reported(lex: Lexer, lines: seq<string>, p: string, units: seq<Unit>, keys: seq<Key>) {
    && |units| == |keys|
    && (forall k :: k in keys <==> k.path == p && SomeGives(lex, lines, k))
    && (forall i, j :: 0 <= i < j < |keys| ==> Earlier(keys[i].pos, keys[j].pos))
    && forall i :: 0 <= i < |keys| ==> StandsFor(lex, lines, units[i], keys[i])
  }

  /** The keys of one file, in the order they are in. */
  ghost function OfFile(keys: seq<Key>, p: string): seq<Key> {
    if keys == [] then []
    else OfFile(keys[..|keys| - 1], p) + (if keys[|keys| - 1].path == p then [keys[|keys| - 1]] else [])
  }

  ghost predicate InKeyOrder(keys: seq<Key>) {
    forall i, j :: 0 <= i < j < |keys| ==> Precedes(keys[i], keys[j])
  }

  lemma {:induction false} OfFileIs(keys: seq<Key>, p: string)
    requires InKeyOrder(keys)
    ensures InKeyOrder(OfFile(keys, p))
    ensures forall k :: k in OfFile(keys, p) <==> k in keys && k.path == p
    decreases |keys|
  {
    if keys != [] {
      var front, last := keys[..|keys| - 1], keys[|keys| - 1];
      OfFileIs(front, p);
      assert keys == front + [last];
      forall k | k in front ensures Precedes(k, last) {
        var i :| 0 <= i < |front| && front[i] == k;
        assert Precedes(keys[i], keys[|front|]);
      }
    }
  }

  lemma {:induction false} UnitsAreOfFile(blocks: Blocks, keys: seq<Key>, p: string)
    requires forall k :: k in keys ==> k in blocks
    ensures |UnitsOf(blocks, keys, p)| == |OfFile(keys, p)|
    ensures forall i :: 0 <= i < |OfFile(keys, p)| ==>
              OfFile(keys, p)[i] in blocks &&
              UnitsOf(blocks, keys, p)[i] == UnitOf(OfFile(keys, p)[i], blocks[OfFile(keys, p)[i]])
    decreases |keys|
  {
    if keys != [] {
      UnitsAreOfFile(blocks, keys[..|keys| - 1], p);
    }
  }

  lemma UnitStandsFor(lex: Lexer, lines: seq<string>, blocks: Blocks, k: Key)
    requires Merges(lex, lines, blocks) && k in blocks
    ensures StandsFor(lex, lines, UnitOf(k, blocks[k]), k)
  {
  }

  lemma OrderIsEarlier(a: Key, b: Key)
    requires Precedes(a, b) && a.path == b.path
    ensures Earlier(a.pos, b.pos)
  {
    LessIsTotal(a.path, b.path);
  }

  lemma ListedInOrder(blocks: Blocks)
    ensures InKeyOrder(InOrder(blocks.Keys)) && forall k :: k in InOrder(blocks.Keys) <==> k in blocks
  {
    PrecedesOrders();
    ListingIsSorted(Precedes, blocks.Keys);
  }

  lemma FileIsReported(lex: Lexer, lines: seq<string>, blocks: Blocks, p: string)
    requires Merges(lex, lines, blocks)
    ensures var keys := InOrder(blocks.Keys);
      Reported(lex, lines, p, UnitsOf(blocks, keys, p), OfFile(keys, p))
  {
    var keys := InOrder(blocks.Keys);
    ListedInOrder(blocks);
    OfFileIs(keys, p);
    UnitsAreOfFile(blocks, keys, p);
    var own := OfFile(keys, p);
    forall i, j | 0 <= i < j < |own| ensures Earlier(own[i].pos, own[j].pos) {
      assert own[i] in own && own[j] in own;
      OrderIsEarlier(own[i], own[j]);
    }
    forall i | 0 <= i < |own| ensures StandsFor(lex, lines, UnitsOf(blocks, keys, p)[i], own[i]) {
      UnitStandsFor(lex, lines, blocks, own[i]);
    }
  }

  /** An accepted profile reports the sources of the module that some line gives a block of,
      and of each exactly its blocks. */
  lemma ReportedExactly(lex: Lexer, lines: seq<string>)
    requires Parse(lex, lines).Ok?
    ensures var report := Parse(lex, lines).value;
      && (forall p :: p in report <==> lex.product(p) && exists k: Key :: k.path == p && SomeGives(lex, lines, k))
      && forall p :: p in report ==> exists keys :: Reported(lex, lines, p, report[p], keys)
  {
    ParseIsRead(lex, lines);
    FoldMeans(lex, lines);
    var blocks := Fold(lex, lines).value.blocks;
    var report := Parse(lex, lines).value;
    assert IsReport(lex.product, blocks, InOrder(blocks.Keys), report);
    forall p | p in report ensures exists keys :: Reported(lex, lines, p, report[p], keys) {
      FileIsReported(lex, lines, blocks, p);
    }
  }
}
