/** Precedence as in section 11 of Semantic Versioning 2.0.0, and when the code has it. */
module SemVerOrder {
  import opened Wrappers
  import opened Text
  import opened Numbers
  import opened SemVer

  predicate Numeric(id: string) {
    id != "" && AllDigits(id)
  }

  predicate IsIdChar(c: char) {
    IsDigit(c) || 'a' <= c <= 'z' || 'A' <= c <= 'Z' || c == '-'
  }

  /** Section 9: letters, digits and hyphens, and no number with leading zeros. */
  predicate IsId(id: string) {
    && id != "" && (forall i :: 0 <= i < |id| ==> IsIdChar(id[i]))
    && (Numeric(id) && |id| > 1 ==> id[0] != '0')
  }

  /** Section 11.4: numbers by value and before anything else, the rest as text. */
  predicate IdPrecedes(a: string, b: string) {
    if Numeric(a) && Numeric(b) then Decimal(a) < Decimal(b)
    else if Numeric(a) || Numeric(b) then Numeric(a)
    else Less(a, b)
  }

  function IdPrecedence(a: string, b: string): int {
    if IdPrecedes(a, b) then -1 else if a == b then 0 else 1
  }

  /** The code takes the identifier for a number exactly if it is one: it is no number
      too large for 64 bits, and not a hyphen and a number that is not. */
  predicate ReadRightly(id: string) {
    Atoi(id).Some? <==> Numeric(id)
  }

  predicate HyphenNumber(id: string) {
    id != "" && id[0] == '-' && Numeric(id[1..]) && Decimal(id[1..]) + MIN_INT64 <= 0
  }

  lemma ReadRightlyMeans(id: string)
    requires IsId(id)
    ensures ReadRightly(id) <==> !(Numeric(id) && Decimal(id) > MAX_INT64) && !HyphenNumber(id)
  {
    assert IsIdChar(id[0]);
    assert Numeric(id) ==> IsDigit(id[0]);
  }

  /** A number without leading zeros is the only way to write it. */
  lemma {:induction false} OneWayToWrite(a: string, b: string)
    requires Numeric(a) && (|a| > 1 ==> a[0] != '0')
    requires Numeric(b) && (|b| > 1 ==> b[0] != '0')
    requires Decimal(a) == Decimal(b)
    ensures a == b
    decreases |a|
  {
    DecimalStep(a);
    DecimalStep(b);
    var a', b' := a[..|a| - 1], b[..|b| - 1];
    if |a| > 1 {
      PositiveIfLeads(a');
    }
    if |b| > 1 {
      PositiveIfLeads(b');
    }
    if |a| > 1 && |b| > 1 {
      OneWayToWrite(a', b');
    }
    assert a == a' + [a[|a| - 1]] && b == b' + [b[|b| - 1]];
  }

  lemma DecimalStep(a: string)
    requires Numeric(a)
    ensures AllDigits(a[..|a| - 1]) && IsDigit(a[|a| - 1])
    ensures Decimal(a) == 10 * Decimal(a[..|a| - 1]) + (a[|a| - 1] as int - '0' as int)
    ensures a[..|a| - 1] == "" ==> Decimal(a[..|a| - 1]) == 0
  {
  }

  lemma {:induction false} PositiveIfLeads(a: string)
    requires Numeric(a) && a[0] != '0'
    ensures Decimal(a) > 0
  {
    if |a| > 1 {
      PositiveIfLeads(a[..|a| - 1]);
    }
  }

  /** Precedence of identifiers is a strict total order. */
  lemma IdsAreOrdered(a: string, b: string, c: string)
    requires IsId(a) && IsId(b) && IsId(c)
    ensures !IdPrecedes(a, a) && (IdPrecedes(a, b) || a == b || IdPrecedes(b, a))
    ensures !(IdPrecedes(a, b) && IdPrecedes(b, a))
    ensures IdPrecedes(a, b) && IdPrecedes(b, c) ==> IdPrecedes(a, c)
  {
    LessIsTotal(a, a);
    LessIsTotal(a, b);
    if Less(a, b) && Less(b, c) {
      LessIsTransitive(a, b, c);
    }
    if Numeric(a) && Numeric(b) {
      if Decimal(a) == Decimal(b) {
        OneWayToWrite(a, b);
      }
    }
  }

  lemma AgreeIfReadRightly(a: string, b: string)
    requires IsId(a) && IsId(b) && ReadRightly(a) && ReadRightly(b)
    ensures CompareIds(a, b) == IdPrecedence(a, b)
  {
    IdsAreOrdered(a, b, a);
    assert IsIdChar(a[0]) && IsIdChar(b[0]);
  }

  /** The code gives an identifier its place among those it reads rightly exactly if it
      reads that one rightly too. */
  lemma AgreesExactlyIfReadRightly(a: string)
    requires IsId(a)
    ensures ReadRightly(a) <==>
            forall b :: IsId(b) && ReadRightly(b) ==>
                CompareIds(a, b) == IdPrecedence(a, b) && CompareIds(b, a) == IdPrecedence(b, a)
  {
    if ReadRightly(a) {
      forall b | IsId(b) && ReadRightly(b)
        ensures CompareIds(a, b) == IdPrecedence(a, b) && CompareIds(b, a) == IdPrecedence(b, a) {
        AgreeIfReadRightly(a, b);
        AgreeIfReadRightly(b, a);
      }
    } else {
      MisreadIsMisplaced(a);
    }
  }

  lemma MisreadIsMisplaced(a: string)
    requires IsId(a) && !ReadRightly(a)
    ensures exists b :: IsId(b) && ReadRightly(b) && CompareIds(a, b) != IdPrecedence(a, b)
  {
    assert IsIdChar(a[0]);
    if Numeric(a) {
      var b := "-a";
      assert IsDigit(a[0]) && b[0] == '-' && b[1..] == "a" && !IsDigit(b[1]) && !IsDigit("a"[0]);
      assert Less(b, a);
      LessIsTotal(a, b);
      assert IsId(b) && ReadRightly(b) && CompareIds(a, b) != IdPrecedence(a, b);
    } else {
      var b := "1";
      assert b[..0] == "" && Decimal(b) == 1;
      assert IsId(b) && ReadRightly(b) && CompareIds(a, b) != IdPrecedence(a, b);
    }
  }

  /** Every identifier obeys section 9. */
  ghost predicate Proper(ids: seq<string>) {
    forall i :: 0 <= i < |ids| ==> IsId(ids[i])
  }

  ghost predicate AllReadRightly(ids: seq<string>) {
    forall i :: 0 <= i < |ids| ==> ReadRightly(ids[i])
  }

  /** Precedence of versions, as section 11 has it: -1 if a comes before b. */
  ghost function Precedence(a: Version, b: Version): int {
    if Older(IdPrecedes, a, b) then -1 else if a == b then 0 else 1
  }

  lemma PreIsOlderAlike(f: (string, string) -> bool, g: (string, string) -> bool, a: seq<string>, b: seq<string>)
    requires forall x, y :: f(x, y) == g(x, y)
    ensures PreOlder(f, a, b) ==> PreOlder(g, a, b)
  {
    if a != [] && b != [] && PreOlder(f, a, b) {
      var n: nat :| PartsAt(f, a, b, n);
      assert PartsAt(g, a, b, n);
    }
  }

  /** Comparing by the precedence of identifiers yields the precedence of versions. */
  lemma PrecedenceIsCompared(a: Version, b: Version)
    ensures Precedence(a, b) < 0 <==> CompareVersions(IdPrecedence, a, b) < 0
    ensures Precedence(a, b) == 0 <==> CompareVersions(IdPrecedence, a, b) == 0
    ensures -1 <= CompareVersions(IdPrecedence, a, b) <= 1
  {
    forall x, y ensures IdPrecedence(x, y) == 0 <==> x == y {
      LessIsTotal(x, x);
    }
    ComparedExactly(IdPrecedence, a, b);
    PreIsOlderAlike(IdPrecedes, Below(IdPrecedence), a.pre, b.pre);
    PreIsOlderAlike(Below(IdPrecedence), IdPrecedes, a.pre, b.pre);
    ListsCompareToUnit(a.pre, b.pre);
  }

  lemma {:induction false} ListsCompareToUnit(a: seq<string>, b: seq<string>)
    ensures -1 <= CompareLists(IdPrecedence, a, b) <= 1
  {
    if a != [] && b != [] {
      ListsCompareToUnit(a[1..], b[1..]);
    }
  }

  lemma {:induction false} ListsAgree(a: seq<string>, b: seq<string>)
    requires Proper(a) && Proper(b) && AllReadRightly(a) && AllReadRightly(b)
    ensures CompareLists(CompareIds, a, b) == CompareLists(IdPrecedence, a, b)
  {
    if a != [] && b != [] {
      AgreeIfReadRightly(a[0], b[0]);
      ListsAgree(a[1..], b[1..]);
    }
  }

  /** The code's comparison is precedence, on versions whose identifiers it reads rightly. */
  lemma CompareIsPrecedence(a: Version, b: Version)
    requires Proper(a.pre) && Proper(b.pre) && AllReadRightly(a.pre) && AllReadRightly(b.pre)
    ensures CompareVersions(CompareIds, a, b) == Precedence(a, b)
  {
    ListsAgree(a.pre, b.pre);
    PrecedenceIsCompared(a, b);
  }

  lemma {:induction false} ListsAreOrdered(a: seq<string>, b: seq<string>)
    requires Proper(a) && Proper(b)
    ensures -1 <= CompareLists(IdPrecedence, a, b) <= 1
    ensures CompareLists(IdPrecedence, a, b) + CompareLists(IdPrecedence, b, a) == 0
    ensures CompareLists(IdPrecedence, a, b) == 0 <==> a == b
  {
    if a != [] && b != [] {
      IdsAreOrdered(a[0], b[0], a[0]);
      ListsAreOrdered(a[1..], b[1..]);
      assert a == [a[0]] + a[1..] && b == [b[0]] + b[1..];
    }
  }

  lemma {:induction false} ListsAreTransitive(a: seq<string>, b: seq<string>, c: seq<string>)
    requires Proper(a) && Proper(b) && Proper(c)
    requires CompareLists(IdPrecedence, a, b) <= 0 && CompareLists(IdPrecedence, b, c) <= 0
    ensures CompareLists(IdPrecedence, a, c) <= 0
  {
    if a != [] && b != [] && c != [] {
      IdsAreOrdered(a[0], b[0], c[0]);
      if a[0] == b[0] && b[0] == c[0] {
        ListsAreTransitive(a[1..], b[1..], c[1..]);
      }
    }
  }

  /** Precedence is a total preorder: of any two versions one does not exceed the other, it is
      transitive, and two that tie have the same numbers and identifiers. */
  lemma PrecedenceIsTotal(a: Version, b: Version)
    requires Proper(a.pre) && Proper(b.pre)
    ensures -1 <= Precedence(a, b) <= 1 && Precedence(a, b) + Precedence(b, a) == 0
    ensures Precedence(a, b) == 0 <==> a == b
  {
    ListsAreOrdered(a.pre, b.pre);
    PrecedenceIsCompared(a, b);
    PrecedenceIsCompared(b, a);
  }

  lemma PreIsTransitive(a: seq<string>, b: seq<string>, c: seq<string>)
    requires Proper(a) && Proper(b) && Proper(c)
    requires ComparePre(IdPrecedence, a, b) <= 0 && ComparePre(IdPrecedence, b, c) <= 0
    ensures ComparePre(IdPrecedence, a, c) <= 0
  {
    if a != [] && b != [] && c != [] {
      ListsAreTransitive(a, b, c);
    }
  }

  lemma PrecedenceIsTransitive(a: Version, b: Version, c: Version)
    requires Proper(a.pre) && Proper(b.pre) && Proper(c.pre)
    requires Precedence(a, b) <= 0 && Precedence(b, c) <= 0
    ensures Precedence(a, c) <= 0
  {
    PrecedenceIsCompared(a, b);
    PrecedenceIsCompared(b, c);
    PrecedenceIsCompared(a, c);
    if a.major == b.major == c.major && a.minor == b.minor == c.minor && a.patch == b.patch == c.patch {
      PreIsTransitive(a.pre, b.pre, c.pre);
    }
  }

  /** Of two different identifiers the comparison exceeds one way only, exactly unless it
      reads both as the same number; of those each exceeds the other. */
  lemma ComparesOneWayExactly(a: string, b: string)
    requires a != b
    ensures CompareIds(a, b) + CompareIds(b, a) == 0 <==> !(Atoi(a).Some? && Atoi(a) == Atoi(b))
    ensures Atoi(a).Some? && Atoi(a) == Atoi(b) ==> CompareIds(a, b) == CompareIds(b, a) == 1
  {
    LessIsTotal(a, b);
  }

  /** So the comparison orders not even the identifiers section 9 allows: "-0", which is text
      to section 11, and "0" each exceed the other; as do, outside section 9, "01" and "1". */
  lemma SameNumbersExceedEachOther()
    ensures IsId("-0") && IsId("0") && !ReadRightly("-0")
    ensures CompareIds("-0", "0") == 1 && CompareIds("0", "-0") == 1
    ensures CompareIds("01", "1") == 1 && CompareIds("1", "01") == 1
  {
    ZeroAndOneAreRead();
    assert "-0"[0] == '-' && "0"[0] == '0' && "-0"[1] == '0';
    ComparesOneWayExactly("-0", "0");
    ComparesOneWayExactly("01", "1");
  }

  lemma ZeroAndOneAreRead()
    ensures Atoi("0") == Atoi("-0") == Some(0) && Atoi("1") == Atoi("01") == Some(1)
  {
    assert "01"[..1] == "0" && "0"[..0] == "" && "1"[..0] == "" && "-0"[1..] == "0";
    assert Decimal("0") == 0 && Decimal("1") == 1 && Decimal("01") == 1;
    assert AllDigits("0") && AllDigits("1") && AllDigits("01");
  }

  datatype Release = Release(tag: string, draft: bool)

  /** The version of a release that may be picked. */
  function VersionOf(trim: string -> string, r: Release): Option<Version> {
    if r.draft || r.tag == "" then None else Parse(trim, r.tag)
  }

  function VersionsOf(trim: string -> string, rels: seq<Release>): (vs: seq<Option<Version>>)
    ensures |vs| == |rels| && forall i :: 0 <= i < |vs| ==> vs[i] == VersionOf(trim, rels[i])
  {
    seq(|rels|, i requires 0 <= i < |rels| => VersionOf(trim, rels[i]))
  }

  /** The versions compare as they should. */
  ghost predicate Orderly(vs: seq<Option<Version>>) {
    forall i :: 0 <= i < |vs| && vs[i].Some? ==> Proper(vs[i].value.pre) && AllReadRightly(vs[i].value.pre)
  }

  /** Of the first n, each is older than the best or the same, and each before it is older. */
  ghost predicate NewestOf(vs: seq<Option<Version>>, n: nat, best: nat) {
    && best < n <= |vs| && vs[best].Some?
    && (forall i :: 0 <= i < n && vs[i].Some? ==>
        vs[i].value == vs[best].value || Older(IdPrecedes, vs[i].value, vs[best].value))
    && (forall i :: 0 <= i < best && vs[i].Some? ==> Older(IdPrecedes, vs[i].value, vs[best].value))
  }

  lemma NewerThanAll(u: Version, v: Version, w: Version)
    requires Proper(u.pre) && Proper(v.pre) && Proper(w.pre)
    requires Precedence(u, v) <= 0 && Precedence(w, v) > 0
    ensures Precedence(u, w) < 0
  {
    PrecedenceIsTotal(v, w);
    PrecedenceIsTotal(u, w);
    PrecedenceIsTotal(w, u);
    if Precedence(u, w) >= 0 {
      PrecedenceIsTransitive(w, u, v);
      assert false;
    }
  }

  lemma NewestChanges(vs: seq<Option<Version>>, n: nat, best: nat)
    requires NewestOf(vs, n, best) && Orderly(vs) && n < |vs|
    requires vs[n].Some? && Precedence(vs[n].value, vs[best].value) > 0
    ensures NewestOf(vs, n + 1, n)
  {
    var w := vs[n].value;
    PrecedenceIsTotal(w, w);
    forall i | 0 <= i < n && vs[i].Some? ensures Precedence(vs[i].value, w) < 0 {
      NewerThanAll(vs[i].value, vs[best].value, w);
    }
  }

  lemma NewestOneMore(vs: seq<Option<Version>>, n: nat, best: nat)
    requires NewestOf(vs, n, best) && Orderly(vs) && n < |vs|
    ensures vs[n].None? ==> NewestOf(vs, n + 1, best)
    ensures vs[n].Some? ==>
              NewestOf(vs, n + 1, if CompareVersions(CompareIds, vs[n].value, vs[best].value) > 0 then n else best)
  {
    if vs[n].Some? {
      CompareIsPrecedence(vs[n].value, vs[best].value);
      if Precedence(vs[n].value, vs[best].value) > 0 {
        NewestChanges(vs, n, best);
      }
    }
  }

  lemma FirstIsNewest(vs: seq<Option<Version>>, n: nat)
    requires Orderly(vs) && n < |vs| && vs[n].Some? && forall j :: 0 <= j < n ==> vs[j].None?
    ensures NewestOf(vs, n + 1, n)
  {
    PrecedenceIsTotal(vs[n].value, vs[n].value);
  }

  ghost predicate Tracked(vs: seq<Option<Version>>, n: nat, best: Option<nat>)
    requires n <= |vs|
  {
    match best
    case None => forall j :: 0 <= j < n ==> vs[j].None?
    case Some(b) => b < n && vs[b].Some? && (Orderly(vs) ==> NewestOf(vs, n, b))
  }

  function Better(vs: seq<Option<Version>>, n: nat, best: Option<nat>): Option<nat>
    requires n < |vs| && (best.Some? ==> best.value < |vs| && vs[best.value].Some?)
  {
    if vs[n].None? then best
    else if best.None? || CompareVersions(CompareIds, vs[n].value, vs[best.value].value) > 0 then Some(n)
    else best
  }

  lemma TrackedOneMore(vs: seq<Option<Version>>, n: nat, best: Option<nat>)
    requires n < |vs| && Tracked(vs, n, best)
    ensures Tracked(vs, n + 1, Better(vs, n, best))
  {
    if Orderly(vs) {
      if best.Some? {
        NewestOneMore(vs, n, best.value);
      } else if vs[n].Some? {
        FirstIsNewest(vs, n);
      }
    }
  }

  /** The loop of the "latest" channel: none if no release is eligible, and else the first of
      those that no eligible release exceeds. */
  method Latest(trim: string -> string, rels: seq<Release>) returns (best: Option<nat>)
    ensures best.None? <==> forall i :: 0 <= i < |rels| ==> VersionOf(trim, rels[i]).None?
    ensures best.Some? ==> best.value < |rels| && VersionOf(trim, rels[best.value]).Some?
    ensures best.Some? && Orderly(VersionsOf(trim, rels)) ==> NewestOf(VersionsOf(trim, rels), |rels|, best.value)
  {
    best := None;
    ghost var vs := VersionsOf(trim, rels);
    for i := 0 to |rels|
      invariant Tracked(vs, i, best)
    {
      TrackedOneMore(vs, i, best);
      if !rels[i].draft && rels[i].tag != "" && Parse(trim, rels[i].tag).Some? {
        if best.None? {
          best := Some(i);
        } else {
          var c := Compare(trim, rels[i].tag, rels[best.value].tag);
          if c.value > 0 {
            best := Some(i);
          }
        }
      }
    }
  }
}
