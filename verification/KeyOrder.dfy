/** The order of flow keys, numbers by value and first, as the daemon and the CLI have it. */
module KeyOrder {
  import opened Wrappers
  import opened Numbers
  import opened Text

  /** The daemon's comparison; its sign is the order. */
  function CompareKeys(a: string, b: string): int {
    match (Atoi(a), Atoi(b))
    case (Some(ai), Some(bi)) => if ai != bi then Wrap64(ai - bi) else CompareText(a, b)
    case (Some(_), None) => -1
    case (None, Some(_)) => 1
    case (None, None) => CompareText(a, b)
  }

  function CompareText(a: string, b: string): int {
    if Less(a, b) then -1 else if a == b then 0 else 1
  }

  /** The CLI's comparison. */
  predicate KeyLess(a: string, b: string) {
    match (Atoi(a), Atoi(b))
    case (Some(ai), Some(bi)) => if ai != bi then ai < bi else Less(a, b)
    case (Some(_), None) => true
    case (None, Some(_)) => false
    case (None, None) => Less(a, b)
  }

  lemma KeyLessIsStrictTotalOrder()
    ensures StrictTotalOrder(KeyLess)
  {
    LessIsStrictTotalOrder();
  }

  /** Numbers come by value, "2" before "10", and before everything that is no number. */
  lemma NumbersComeByValue(m: nat, n: nat, key: string)
    requires m <= MAX_INT64 && n <= MAX_INT64 && Atoi(key).None?
    ensures KeyLess(Digits(m), Digits(n)) <==> m < n
    ensures KeyLess(Digits(m), key) && !KeyLess(key, Digits(m))
  {
    AtoiOfDigits(m);
    AtoiOfDigits(n);
    LessIsTotal(Digits(m), Digits(m));
  }

  /** And what is no number as text: where two keys first differ, the shorter or lesser first. */
  lemma OthersComeAsText(a: string, b: string)
    requires Atoi(a).None? && Atoi(b).None?
    ensures KeyLess(a, b) <==> exists n: nat :: LesserAt(a, b, n)
  {
    LessExactly(a, b);
  }

  predicate DifferenceFits(a: string, b: string) {
    Atoi(a).Some? && Atoi(b).Some? ==> MIN_INT64 <= Atoi(a).value - Atoi(b).value <= MAX_INT64
  }

  /** The two comparisons put a pair of keys in the same order exactly when the
      daemon's subtraction of the two numbers does not overflow. */
  lemma ComparisonsAgreeUnlessOverflow(a: string, b: string)
    ensures (CompareKeys(a, b) < 0 <==> KeyLess(a, b)) && (CompareKeys(a, b) == 0 <==> a == b)
            <==> DifferenceFits(a, b)
  {
    LessIsTotal(a, b);
  }

  /** A pair the daemon puts the wrong way round: the largest number before minus one. */
  lemma OverflowSwapsKeys() returns (a: string, b: string)
    ensures Atoi(a) == Some(MAX_INT64) && Atoi(b) == Some(-1)
    ensures CompareKeys(a, b) < 0 && KeyLess(b, a)
  {
    a := PrintedAs(MAX_INT64);
    b := MinusOne();
  }

  lemma PrintedAs(n: nat) returns (a: string)
    requires n <= MAX_INT64
    ensures Atoi(a) == Some(n)
  {
    AtoiOfDigits(n);
    a := Digits(n);
  }

  lemma MinusOne() returns (b: string)
    ensures Atoi(b) == Some(-1)
  {
    b := "-1";
    assert b[1..] == "1" && "1"[..0] == "";
  }
}
