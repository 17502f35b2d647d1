/** What a hub remembers of each routed instance: notices given, and failures in a row, each
    until it is released. */
module InstanceNotes {

  /** One call on the notes. Calls exclude one another, so any run is a list of them. */
  datatype Op =
    | Claim(id: string, subject: string)
    | Record(id: string, unit: string)
    | Clear(id: string, unit: string)
    | Forget(id: string)
    | Retain(registered: set<string>)

  predicate EndsWith(s: string, suffix: string) {
    |suffix| <= |s| && s[|s| - |suffix|..] == suffix
  }

  /** One operation on one repository. */
  function Unit(op: string, repo: string): string {
    op + "|" + repo
  }

  /** The name of a notice about a unit of work. */
  function Subject(notice: string, unit: string): string {
    notice + "#" + unit
  }

  predicate ReleasesCount(op: Op, id: string, unit: string) {
    match op
    case Clear(i, u) => i == id && u == unit
    case Forget(i) => i == id
    case Retain(registered) => id !in registered
    case _ => false
  }

  predicate ReleasesClaim(op: Op, id: string, subject: string) {
    match op
    case Clear(i, u) => i == id && EndsWith(subject, "#" + u)
    case Forget(i) => i == id
    case Retain(registered) => id !in registered
    case _ => false
  }

  /** Entry i of the history is a failure of the unit that nothing has released since. */
  ghost predicate StandsAt(h: seq<Op>, i: int, id: string, unit: string) {
    0 <= i < |h| && h[i] == Record(id, unit) && forall j :: i < j < |h| ==> !ReleasesCount(h[j], id, unit)
  }

  ghost function Standing(h: seq<Op>, id: string, unit: string): (s: set<int>)
    ensures forall i :: i in s <==> StandsAt(h, i, id, unit)
  {
    set i | 0 <= i < |h| && StandsAt(h, i, id, unit)
  }

  /** The failures of a unit since it last succeeded, or its instance recovered or was removed. */
  ghost function FailuresSince(h: seq<Op>, id: string, unit: string): nat {
    |Standing(h, id, unit)|
  }

  /** The notice has been given, and not released since. */
  ghost predicate ClaimedSince(h: seq<Op>, id: string, subject: string) {
    exists i :: 0 <= i < |h| && ClaimAt(h, i, id, subject)
  }

  ghost predicate ClaimAt(h: seq<Op>, i: nat, id: string, subject: string)
    requires i < |h|
  {
    h[i] == Claim(id, subject) && forall j :: i < j < |h| ==> !ReleasesClaim(h[j], id, subject)
  }

  lemma FailuresOneMore(h: seq<Op>, op: Op, id: string, unit: string)
    ensures FailuresSince(h + [op], id, unit) ==
              if ReleasesCount(op, id, unit) then 0
              else FailuresSince(h, id, unit) + (if op == Record(id, unit) then 1 else 0)
  {
    var h' := h + [op];
    forall i | 0 <= i < |h| ensures StandsAt(h', i, id, unit) <==>
        StandsAt(h, i, id, unit) && !ReleasesCount(op, id, unit) {
      assert h'[i] == h[i];
      if StandsAt(h', i, id, unit) {
        assert !ReleasesCount(h'[|h|], id, unit);
        forall j | i < j < |h| ensures !ReleasesCount(h[j], id, unit) {
          assert h'[j] == h[j];
        }
      }
    }
    assert StandsAt(h', |h|, id, unit) <==> op == Record(id, unit);
    assert Standing(h', id, unit) ==
           (if ReleasesCount(op, id, unit) then {} else Standing(h, id, unit))
               + (if op == Record(id, unit) then {|h|} else {});
  }

  lemma ClaimedOneMore(h: seq<Op>, op: Op, id: string, subject: string)
    ensures ClaimedSince(h + [op], id, subject) <==>
              op == Claim(id, subject) || (ClaimedSince(h, id, subject) && !ReleasesClaim(op, id, subject))
  {
    var h' := h + [op];
    if op == Claim(id, subject) {
      assert ClaimAt(h', |h|, id, subject);
    }
    forall i | 0 <= i < |h| ensures ClaimAt(h', i, id, subject) <==>
        ClaimAt(h, i, id, subject) && !ReleasesClaim(op, id, subject) {
      assert h'[i] == h[i];
      if ClaimAt(h', i, id, subject) {
        assert !ReleasesClaim(h'[|h|], id, subject);
        forall j | i < j < |h| ensures !ReleasesClaim(h[j], id, subject) {
          assert h'[j] == h[j];
        }
      }
    }
    if ClaimedSince(h', id, subject) && op != Claim(id, subject) {
      var i :| 0 <= i < |h'| && ClaimAt(h', i, id, subject);
      assert i < |h|;
    }
    if i :| 0 <= i < |h| && ClaimAt(h, i, id, subject) && !ReleasesClaim(op, id, subject) {
      assert ClaimAt(h', i, id, subject);
    }
  }

  type Announced = map<string, map<string, bool>>
  type Failures = map<string, map<string, nat>>

  predicate Told(announced: Announced, id: string, subject: string) {
    id in announced && subject in announced[id] && announced[id][subject]
  }

  function Count(failures: Failures, id: string, unit: string): nat {
    if id in failures && unit in failures[id] then failures[id][unit] else 0
  }

  ghost predicate TellsHistory(announced: Announced, h: seq<Op>) {
    forall id, subject :: Told(announced, id, subject) <==> ClaimedSince(h, id, subject)
  }

  ghost predicate CountsHistory(failures: Failures, h: seq<Op>) {
    forall id, unit :: Count(failures, id, unit) == FailuresSince(h, id, unit)
  }

  lemma ClaimsFollow(a: Announced, a': Announced, h: seq<Op>, op: Op)
    requires TellsHistory(a, h)
    requires forall id, s :: Told(a', id, s) <==> op == Claim(id, s) || (Told(a, id, s) && !ReleasesClaim(op, id, s))
    ensures TellsHistory(a', h + [op])
  {
    forall id, s ensures Told(a', id, s) <==> ClaimedSince(h + [op], id, s) {
      ClaimedOneMore(h, op, id, s);
    }
  }

  lemma CountsFollow(f: Failures, f': Failures, h: seq<Op>, op: Op)
    requires CountsHistory(f, h)
    requires forall id, u :: Count(f', id, u) ==
                             if ReleasesCount(op, id, u) then 0
                                 else Count(f, id, u) + (if op == Record(id, u) then 1 else 0)
    ensures CountsHistory(f', h + [op])
  {
    forall id, u ensures Count(f', id, u) == FailuresSince(h + [op], id, u) {
      FailuresOneMore(h, op, id, u);
    }
  }

  /** Drops the subjects that end so. */
  method DropSubjects(subjects: map<string, bool>, suffix: string) returns (kept: map<string, bool>)
    ensures kept == map s | s in subjects && !EndsWith(s, suffix) :: subjects[s]
  {
    kept := subjects;
    var rest := subjects.Keys;
    while rest != {}
      invariant rest <= subjects.Keys
      invariant kept == map s | s in subjects && (s in rest || !EndsWith(s, suffix)) :: subjects[s]
      decreases rest
    {
      var s :| s in rest;
      if EndsWith(s, suffix) {
        kept := kept - {s};
      }
      rest := rest - {s};
    }
  }

  /** Forgets the failures of a unit, and its instance if it has no others. */
  method DropUnit(failures: Failures, id: string, unit: string) returns (kept: Failures)
    ensures forall i, u :: Count(kept, i, u) == if i == id && u == unit then 0 else Count(failures, i, u)
  {
    kept := failures;
    if id in failures {
      var units := failures[id] - {unit};
      kept := if units == map[] then failures - {id} else failures[id := units];
      assert forall u :: u in failures[id] && u != unit ==> u in units;
    }
  }

  /** Forgets the notices about a unit, and their instance if it has no others. */
  method DropNotices(announced: Announced, id: string, unit: string) returns (kept: Announced)
    ensures forall i, s :: Told(kept, i, s) <==> Told(announced, i, s) && !ReleasesClaim(Clear(id, unit), i, s)
  {
    kept := announced;
    if id in announced {
      var subjects := DropSubjects(announced[id], "#" + unit);
      kept := if subjects == map[] then announced - {id} else announced[id := subjects];
      assert forall s :: s in announced[id] && !EndsWith(s, "#" + unit) ==> s in subjects;
    }
  }

  /** Drops the instances that are not registered. */
  method DropInstances<V>(entries: map<string, V>, registered: set<string>) returns (kept: map<string, V>)
    ensures kept == map id | id in entries && id in registered :: entries[id]
  {
    kept := entries;
    var rest := entries.Keys;
    while rest != {}
      invariant rest <= entries.Keys
      invariant kept == map id | id in entries && (id in rest || id in registered) :: entries[id]
      decreases rest
    {
      var id :| id in rest;
      if id !in registered {
        kept := kept - {id};
      }
      rest := rest - {id};
    }
  }

  class Notes {
    var announced: Announced
    var failures: Failures
    ghost var history: seq<Op>

    /** The notes say exactly what the history says. */
    ghost predicate Valid()
      reads this
    {
      TellsHistory(announced, history) && CountsHistory(failures, history)
    }

    constructor ()
      ensures Valid() && history == []
    {
      announced, failures, history := map[], map[], [];
    }

    /** Claims a notice; true for the first claim since it was last released. */
    method ClaimNotice(id: string, subject: string) returns (first: bool)
      requires Valid()
      modifies this
      ensures Valid() && history == old(history) + [Claim(id, subject)]
      ensures first <==> !ClaimedSince(old(history), id, subject)
    {
      var subjects: map<string, bool> := if id in announced then announced[id] else map[];
      first := !(subject in subjects && subjects[subject]);
      ghost var op := Claim(id, subject);
      announced := announced[id := subjects[subject := true]];
      ClaimsFollow(old(announced), announced, history, op);
      CountsFollow(failures, failures, history, op);
      history := history + [op];
    }

    /** Counts one more failure in a row, and says how many that makes. */
    method RecordFailure(id: string, unit: string) returns (n: nat)
      requires Valid()
      modifies this
      ensures Valid() && history == old(history) + [Record(id, unit)]
      ensures n == FailuresSince(old(history), id, unit) + 1
    {
      var units: map<string, nat> := if id in failures then failures[id] else map[];
      n := (if unit in units then units[unit] else 0) + 1;
      ghost var op := Record(id, unit);
      assert n == Count(failures, id, unit) + 1;
      failures := failures[id := units[unit := n]];
      ClaimsFollow(announced, announced, history, op);
      CountsFollow(old(failures), failures, history, op);
      history := history + [op];
    }

    /** A dispatch of the unit succeeded: its failures and its notices are forgotten. */
    method ClearUnit(id: string, unit: string)
      requires Valid()
      modifies this
      ensures Valid() && history == old(history) + [Clear(id, unit)]
    {
      ghost var op := Clear(id, unit);
      failures := DropUnit(failures, id, unit);
      announced := DropNotices(announced, id, unit);
      ClaimsFollow(old(announced), announced, history, op);
      CountsFollow(old(failures), failures, history, op);
      history := history + [op];
    }

    /** The instance recovered: everything about it is forgotten. */
    method ForgetInstance(id: string)
      requires Valid()
      modifies this
      ensures Valid() && history == old(history) + [Forget(id)]
    {
      ghost var op := Forget(id);
      announced, failures := announced - {id}, failures - {id};
      ClaimsFollow(old(announced), announced, history, op);
      CountsFollow(old(failures), failures, history, op);
      history := history + [op];
    }

    /** A reload: everything about instances that are gone is forgotten. */
    method RetainRegistered(registered: set<string>)
      requires Valid()
      modifies this
      ensures Valid() && history == old(history) + [Retain(registered)]
    {
      ghost var op := Retain(registered);
      announced := DropInstances(announced, registered);
      failures := DropInstances(failures, registered);
      ClaimsFollow(old(announced), announced, history, op);
      CountsFollow(old(failures), failures, history, op);
      history := history + [op];
    }
  }

  predicate HashFree(s: string) {
    '#' !in s
  }

  /** Clearing unit u releases a notice about v exactly when v is u, or ends in "#" and u. */
  lemma ClearReaches(notice: string, v: string, u: string)
    requires HashFree(notice)
    ensures EndsWith(Subject(notice, v), "#" + u) <==> v == u || EndsWith(v, "#" + u)
  {
    var s, suffix := Subject(notice, v), "#" + u;
    assert |s| == |notice| + 1 + |v| && s[|notice|..] == "#" + v;
    if |suffix| > |v| + 1 {
      if |suffix| <= |s| {
        var at := |s| - |suffix|;
        assert s[at..][0] == notice[at] && notice[at] in notice;
      }
    } else if |suffix| == |v| + 1 {
      assert s[|s| - |suffix|..] == "#" + v;
      assert ("#" + v)[1..] == v && ("#" + u)[1..] == u;
    } else if |suffix| <= |v| {
      assert s[|s| - |suffix|..] == v[|v| - |suffix|..];
    }
  }

  /** So where no unit has a "#" in it, a success clears the notices of its own unit alone. */
  lemma ClearIsExact(notice: string, v: string, u: string)
    requires HashFree(notice) && HashFree(v)
    ensures EndsWith(Subject(notice, v), "#" + u) <==> v == u
  {
    ClearReaches(notice, v, u);
    if |v| > |u| {
      var at := |v| - |u| - 1;
      assert v[at..][0] == v[at] && v[at] in v;
    }
  }

  /** With a "#" in a unit, a success of another can release its notices. */
  lemma ClearCanReachAnother() returns (notice: string, v: string, u: string)
    ensures HashFree(notice) && v != u && EndsWith(Subject(notice, v), "#" + u)
    ensures v == Unit("review", "x#" + u) && u == Unit("review", "a/b")
  {
    notice, u := "rpc", Unit("review", "a/b");
    v := Unit("review", "x#" + u);
    var front := "review" + "|" + "x";
    assert v == front + ("#" + u);
    assert v[|v| - |"#" + u|..] == "#" + u;
    ClearReaches(notice, v, u);
  }

  /** Two claims of one notice are both the first only if it was released in between. */
  lemma OneNoticeBetweenReleases(h: seq<Op>, i: nat, j: nat, id: string, subject: string)
    requires i < j < |h| && h[i] == Claim(id, subject) && h[j] == Claim(id, subject)
    requires !ClaimedSince(h[..j], id, subject)
    ensures exists k :: i < k < j && ReleasesClaim(h[k], id, subject)
  {
    if forall k :: i < k < j ==> !ReleasesClaim(h[k], id, subject) {
      assert h[..j][i] == Claim(id, subject);
      forall k | i < k < j ensures !ReleasesClaim(h[..j][k], id, subject) {
        assert h[..j][k] == h[k];
      }
      assert ClaimAt(h[..j], i, id, subject);
    }
  }

  /** And after a release the next claim is a first one again. */
  lemma ReleasedNoticeIsNew(h: seq<Op>, k: nat, id: string, subject: string)
    requires k < |h| && ReleasesClaim(h[k], id, subject)
    requires forall i :: k < i < |h| ==> h[i] != Claim(id, subject)
    ensures !ClaimedSince(h, id, subject)
  {
  }
}
