/** Comparing release versions, and picking the newest release. */
module SemVer {
  import opened Wrappers
  import opened Text
  import opened Numbers

  /** pre is empty for a version without a pre-release part. */
  datatype Version = Version(major: int, minor: int, patch: int, pre: seq<string>)

  function Before(s: string, c: char): string {
    s[..IndexOf(s, c)]
  }

  function Core(part: string): Option<int> {
    match Atoi(part)
    case Some(n) => if n < 0 then None else Some(n)
    case None => None
  }

  /** An optional "v", three numbers, perhaps "-" and dotted identifiers, perhaps "+" and
      anything. */
  function Parse(trim: string -> string, s: string): Option<Version> {
    var trimmed := trim(s);
    ParseBare(Before(if StartsWith(trimmed, "v") then trimmed[1..] else trimmed, '+'))
  }

  function ParseBare(bare: string): Option<Version> {
    ParseCore(SplitAt(bare[..IndexOf(bare, '-')], '.'), PreOf(bare))
  }

  /** The identifiers after the first hyphen. */
  function PreOf(bare: string): seq<string> {
    var dash := IndexOf(bare, '-');
    if dash < |bare| then SplitAt(bare[dash + 1..], '.') else []
  }

  function ParseCore(parts: seq<string>, pre: seq<string>): (r: Option<Version>)
    ensures r.Some? ==> r.value.pre == pre
  {
    if |parts| != 3 then None
    else
      match (Core(parts[0]), Core(parts[1]), Core(parts[2]))
      case (Some(major), Some(minor), Some(patch)) => Some(Version(major, minor, patch, pre))
      case _ => None
  }

  /** Two identifiers of a pre-release, as the code compares them. */
  function CompareIds(a: string, b: string): int {
    if a == b then 0
    else
      match (Atoi(a), Atoi(b))
      case (Some(na), Some(nb)) => if na < nb then -1 else 1
      case (Some(_), None) => -1
      case (None, Some(_)) => 1
      case (None, None) => if Less(a, b) then -1 else 1
  }

  function Sign(a: int, b: int): int {
    if a < b then -1 else if a > b then 1 else 0
  }

  /** The first two identifiers that differ decide; then the longer list is newer. */
  function CompareLists(ids: (string, string) -> int, a: seq<string>, b: seq<string>): int {
    if a == [] || b == [] then Sign(|a|, |b|)
    else if ids(a[0], b[0]) != 0 then ids(a[0], b[0])
    else CompareLists(ids, a[1..], b[1..])
  }

  /** A release is newer than its pre-releases. */
  function ComparePre(ids: (string, string) -> int, a: seq<string>, b: seq<string>): int {
    if a == [] && b == [] then 0
    else if a == [] then 1
    else if b == [] then -1
    else CompareLists(ids, a, b)
  }

  function CompareVersions(ids: (string, string) -> int, a: Version, b: Version): int {
    if a.major != b.major then Sign(a.major, b.major)
    else if a.minor != b.minor then Sign(a.minor, b.minor)
    else if a.patch != b.patch then Sign(a.patch, b.patch)
    else ComparePre(ids, a.pre, b.pre)
  }

  /** The first n identifiers are the same, and there a ends and b does not, or less has a's first. */
  ghost predicate PartsAt(less: (string, string) -> bool, a: seq<string>, b: seq<string>, n: nat) {
    n <= |a| && n < |b| && a[..n] == b[..n] && (n == |a| || (a[n] != b[n] && less(a[n], b[n])))
  }

  /** A pre-release is older than its release, and than a pre-release that goes on where it
      ends or has the later identifier where they first differ. */
  ghost predicate PreOlder(less: (string, string) -> bool, a: seq<string>, b: seq<string>) {
    a != [] && (b == [] || exists n: nat :: PartsAt(less, a, b, n))
  }

  /** The first number that differs decides, and then the pre-releases do. */
  ghost predicate Older(less: (string, string) -> bool, a: Version, b: Version) {
    || a.major < b.major
    || (a.major == b.major && a.minor < b.minor)
    || (a.major == b.major && a.minor == b.minor && a.patch < b.patch)
    || (a.major == b.major && a.minor == b.minor && a.patch == b.patch && PreOlder(less, a.pre, b.pre))
  }

  ghost function Below(ids: (string, string) -> int): (string, string) -> bool {
    (x, y) => ids(x, y) < 0
  }

  /** y below x, as comparing x with y tells. */
  ghost function Above(ids: (string, string) -> int): (string, string) -> bool {
    (y, x) => ids(x, y) > 0
  }

  ghost predicate TellsApart(ids: (string, string) -> int) {
    forall x, y :: ids(x, y) == 0 <==> x == y
  }

  lemma FrontsAgree(a: seq<string>, b: seq<string>, n: nat)
    requires 0 < n <= |a| && n <= |b|
    ensures a[..n] == b[..n] <==> a[0] == b[0] && a[1..][..n - 1] == b[1..][..n - 1]
  {
    assert a[..n] == [a[0]] + a[1..][..n - 1] && b[..n] == [b[0]] + b[1..][..n - 1];
    if a[..n] == b[..n] {
      assert a[..n][0] == a[0] && b[..n][0] == b[0];
      assert a[..n][1..] == a[1..][..n - 1] && b[..n][1..] == b[1..][..n - 1];
    }
  }

  lemma PartsInTail(less: (string, string) -> bool, a: seq<string>, b: seq<string>, n: nat)
    requires a != [] && b != []
    ensures PartsAt(less, a, b, n) <==>
            if n == 0 then a[0] != b[0] && less(a[0], b[0]) else a[0] == b[0] && PartsAt(less, a[1..], b[1..], n - 1)
  {
    if 0 < n <= |a| && n < |b| {
      FrontsAgree(a, b, n);
    }
  }

  ghost predicate SomewhereParts(less: (string, string) -> bool, a: seq<string>, b: seq<string>) {
    exists n: nat :: PartsAt(less, a, b, n)
  }

  lemma PartsSomewhere(less: (string, string) -> bool, a: seq<string>, b: seq<string>)
    requires a != [] && b != []
    ensures SomewhereParts(less, a, b) <==>
            if a[0] == b[0] then SomewhereParts(less, a[1..], b[1..]) else less(a[0], b[0])
  {
    if n: nat :| PartsAt(less, a, b, n) {
      PartsInTail(less, a, b, n);
    }
    if a[0] != b[0] {
      PartsInTail(less, a, b, 0);
    } else if n: nat :| PartsAt(less, a[1..], b[1..], n) {
      PartsInTail(less, a, b, n + 1);
    }
  }

  lemma {:induction false} ListsPart(ids: (string, string) -> int, a: seq<string>, b: seq<string>)
    requires TellsApart(ids)
    ensures CompareLists(ids, a, b) < 0 <==> SomewhereParts(Below(ids), a, b)
    ensures CompareLists(ids, a, b) > 0 <==> SomewhereParts(Above(ids), b, a)
    ensures CompareLists(ids, a, b) == 0 <==> a == b
  {
    if a == [] || b == [] {
      EmptyParts(Below(ids), a, b);
      EmptyParts(Above(ids), b, a);
    } else {
      ListsPart(ids, a[1..], b[1..]);
      PartsSomewhere(Below(ids), a, b);
      PartsSomewhere(Above(ids), b, a);
      assert a == [a[0]] + a[1..] && b == [b[0]] + b[1..];
    }
  }

  lemma EmptyParts(less: (string, string) -> bool, a: seq<string>, b: seq<string>)
    requires a == [] || b == []
    ensures SomewhereParts(less, a, b) <==> |a| < |b|
  {
    if a == [] && b != [] {
      assert PartsAt(less, a, b, 0);
    }
  }

  /** What the comparison of versions decides, told from the versions alone. */
  lemma ComparedExactly(ids: (string, string) -> int, a: Version, b: Version)
    requires TellsApart(ids)
    ensures CompareVersions(ids, a, b) < 0 <==> Older(Below(ids), a, b)
    ensures CompareVersions(ids, a, b) > 0 <==> Older(Above(ids), b, a)
    ensures CompareVersions(ids, a, b) == 0 <==> a == b
  {
    ListsPart(ids, a.pre, b.pre);
    PreExactly(ids, a.pre, b.pre);
  }

  lemma PreExactly(ids: (string, string) -> int, a: seq<string>, b: seq<string>)
    requires TellsApart(ids)
    ensures ComparePre(ids, a, b) < 0 <==> PreOlder(Below(ids), a, b)
    ensures ComparePre(ids, a, b) > 0 <==> PreOlder(Above(ids), b, a)
    ensures ComparePre(ids, a, b) == 0 <==> a == b
  {
    ListsPart(ids, a, b);
  }

  lemma IdsTellApart()
    ensures TellsApart(CompareIds)
  {
  }

  /** The verdict of a comparison is about these versions: -1 for the older, 1 for the newer. */
  ghost predicate Verdict(a: Version, b: Version, c: int) {
    && -1 <= c <= 1 && (c == 0 <==> a == b)
    && (c == -1 <==> Older(Below(CompareIds), a, b))
    && (c == 1 <==> Older(Above(CompareIds), b, a))
  }

  lemma {:induction false} ListsCompareToUnit(a: seq<string>, b: seq<string>)
    ensures -1 <= CompareLists(CompareIds, a, b) <= 1
  {
    if a != [] && b != [] {
      ListsCompareToUnit(a[1..], b[1..]);
    }
  }

  lemma ComparedIsVerdict(a: Version, b: Version)
    ensures Verdict(a, b, CompareVersions(CompareIds, a, b))
  {
    IdsTellApart();
    ComparedExactly(CompareIds, a, b);
    ListsCompareToUnit(a.pre, b.pre);
  }

  /** The loop over identifiers. */
  method ComparePreLoop(a: seq<string>, b: seq<string>) returns (c: int)
    ensures c == ComparePre(CompareIds, a, b)
  {
    if a == [] && b == [] {
      return 0;
    }
    if a == [] {
      return 1;
    }
    if b == [] {
      return -1;
    }
    var i := 0;
    while i < |a| && i < |b|
      invariant 0 <= i <= |a| && i <= |b|
      invariant CompareLists(CompareIds, a, b) == CompareLists(CompareIds, a[i..], b[i..])
    {
      assert a[i..][1..] == a[i + 1..] && b[i..][1..] == b[i + 1..];
      if a[i] != b[i] {
        return CompareIds(a[i], b[i]);
      }
      i := i + 1;
    }
    return Sign(|a|, |b|);
  }

  method Compare(trim: string -> string, a: string, b: string) returns (c: Option<int>)
    ensures c.Some? <==> Parse(trim, a).Some? && Parse(trim, b).Some?
    ensures c.Some? ==> c.value == CompareVersions(CompareIds, Parse(trim, a).value, Parse(trim, b).value)
    ensures c.Some? ==> Verdict(Parse(trim, a).value, Parse(trim, b).value, c.value)
  {
    var va, vb := Parse(trim, a), Parse(trim, b);
    if va.None? || vb.None? {
      return None;
    }
    var x, y := va.value, vb.value;
    ComparedIsVerdict(x, y);
    if x.major != y.major {
      return Some(Sign(x.major, y.major));
    }
    if x.minor != y.minor {
      return Some(Sign(x.minor, y.minor));
    }
    if x.patch != y.patch {
      return Some(Sign(x.patch, y.patch));
    }
    var pre := ComparePreLoop(x.pre, y.pre);
    return Some(pre);
  }
}
