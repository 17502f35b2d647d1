/** Who does a repository's work: this daemon, or the instance it is routed to. */
module Cluster {
  import opened Wrappers
  import opened InstanceNotes

  datatype Verdict = ActLocally | DispatchToOwner | DeferToOwner | TakeOver | NotAssigned

  datatype Reason = ProbesFailed | DispatchRejected | NoObserver
  {
    function Label(): string {
      match this
      case DispatchRejected => "dispatch_rejected"
      case NoObserver => "no_observer"
      case ProbesFailed => "probes_failed"
    }
  }

  datatype Instance = Instance(id: string, isSelf: bool, usable: bool)

  /** What the router answers about a repository; the owner is empty if it has none. */
  datatype Route = Route(owner: string, withheld: bool)

  /** What the prober has seen of the instances at one moment. */
  datatype Prober = Prober(confirmedDown: (string, int) -> bool, healthy: seq<string>)

  const UNASSIGNED := "#unassigned"

  /** The repository belongs to another instance that could be doing its work. */
  predicate RoutedAway(registry: map<string, Instance>, route: Route) {
    route.owner != "" && route.owner in registry && !registry[route.owner].isSelf && registry[route.owner].usable
  }

  predicate OwnedHere(registry: map<string, Instance>, route: Route) {
    route.owner != "" && route.owner in registry && registry[route.owner].isSelf
  }

  /** What each verdict means. */
  ghost predicate IsVerdict(registry: map<string, Instance>, prober: Option<Prober>, threshold: int, route: Route,
                            v: Verdict) {
    match v
    case ActLocally => OwnedHere(registry, route) || (!RoutedAway(registry, route) && !route.withheld)
    case NotAssigned => !RoutedAway(registry, route) && !OwnedHere(registry, route) && route.withheld
    case TakeOver => RoutedAway(registry, route) && prober.Some? && prober.value.confirmedDown(route.owner, threshold)
    case DispatchToOwner =>
      RoutedAway(registry, route) &&
      (prober.Some? ==> !prober.value.confirmedDown(route.owner, threshold) && route.owner in prober.value.healthy)
    case DeferToOwner =>
      RoutedAway(registry, route) && prober.Some? &&
      !prober.value.confirmedDown(route.owner, threshold) && route.owner !in prober.value.healthy
  }

  /** Every case has its verdict, and only one. */
  lemma VerdictIsUnique(registry: map<string, Instance>, prober: Option<Prober>, threshold: int, route: Route)
    ensures exists v :: IsVerdict(registry, prober, threshold, route, v)
    ensures forall v, w ::
              IsVerdict(registry, prober, threshold, route, v) && IsVerdict(registry, prober, threshold, route, w) ==>
              v == w
  {
    if !RoutedAway(registry, route) {
      assert IsVerdict(registry, prober, threshold, route, ActLocally) ||
          IsVerdict(registry, prober, threshold, route, NotAssigned);
    } else {
      assert IsVerdict(registry, prober, threshold, route, TakeOver) ||
          IsVerdict(registry, prober, threshold, route, DispatchToOwner)
             || IsVerdict(registry, prober, threshold, route, DeferToOwner);
    }
  }

  /** The notices among these calls that were the first of their kind. */
  ghost function NewNotices(h: seq<Op>, ops: seq<Op>): seq<string>
    decreases |ops|
  {
    if ops == [] then []
    else
      var rest := NewNotices(h + [ops[0]], ops[1..]);
      if ops[0].Claim? && !ClaimedSince(h, ops[0].id, ops[0].subject) then [ops[0].subject] + rest else rest
  }

  lemma {:induction false} NewNoticesAppend(h: seq<Op>, a: seq<Op>, b: seq<Op>)
    ensures NewNotices(h, a + b) == NewNotices(h, a) + NewNotices(h + a, b)
    decreases |a|
  {
    if a == [] {
      assert a + b == b && h + a == h;
    } else {
      assert (a + b)[1..] == a[1..] + b;
      assert h + [a[0]] + a[1..] == h + a;
      NewNoticesAppend(h + [a[0]], a[1..], b);
    }
  }

  lemma RecordsAreQuiet(h: seq<Op>, ops: seq<Op>)
    requires |ops| <= 1 && forall i :: 0 <= i < |ops| ==> ops[i].Record?
    ensures NewNotices(h, ops) == []
  {
  }

  /** What follows a rejection: with no prober, or an owner given up on, a take-over; else
      one more failure is counted, and the threshold-th in a row takes over. */
  ghost predicate Escalates(failures: nat, ops: seq<Op>, id: string, unit: string, threshold: int,
                            after: Option<Prober>, v: Verdict, reason: Reason) {
    if after.None? then v.TakeOver? && reason.NoObserver? && ops == []
    else if after.value.confirmedDown(id, threshold) then v.TakeOver? && reason.ProbesFailed? && ops == []
    else
      && ops == [Record(id, unit)]
      && if failures + 1 < threshold then v.DeferToOwner? else v.TakeOver? && reason.DispatchRejected?
  }

  /** What a rejected dispatch does to the notes, and whether the work is left to its owner. */
  ghost predicate Rejects(failures: nat, ops: seq<Op>, id: string, unit: string, threshold: int, after: Option<Prober>,
                          handled: bool) {
    var rpc := [Claim(id, Subject("rpc", unit))];
    if after.None? then !handled && ops == rpc + [] + [Claim(id, Subject("takeover:" + NoObserver.Label(), unit))]
    else if after.value.confirmedDown(id, threshold) then
      !handled && ops == rpc + [] + [Claim(id, Subject("takeover:" + ProbesFailed.Label(), unit))]
    else if failures + 1 < threshold then
      handled && ops == rpc + [Record(id, unit)] + [Claim(id, Subject("defer", unit))]
    else
      var takeover := Claim(id, Subject("takeover:" + DispatchRejected.Label(), unit));
      !handled && ops == rpc + [Record(id, unit)] + [takeover]
  }

  /** The notices about one unit, by what they say. */
  datatype Notice = Failed | Deferred | Unassigned | TakenOver(reason: Reason)

  function NoticeText(n: Notice): string {
    match n
    case Failed => "rpc"
    case Deferred => "defer"
    case Unassigned => "not_assigned"
    case TakenOver(reason) => "takeover:" + reason.Label()
  }

  lemma FirstLetter(n: Notice)
    ensures NoticeText(n) != ""
    ensures NoticeText(n)[0] == match n
                                case Failed => 'r'
                                case Deferred => 'd'
                                case Unassigned => 'n'
                                case TakenOver(_) => 't'
  {
  }

  lemma NoticesAreHashFree(n: Notice)
    ensures HashFree(NoticeText(n))
  {
    if n.TakenOver? {
      LabelsDiffer(n.reason, n.reason);
    }
  }

  lemma NoticesDiffer(m: Notice, n: Notice)
    ensures NoticeText(m) == NoticeText(n) ==> m == n
  {
    FirstLetter(m);
    FirstLetter(n);
    if m.TakenOver? && n.TakenOver? {
      LabelsDiffer(m.reason, n.reason);
      assert NoticeText(m)[9..] == m.reason.Label() && NoticeText(n)[9..] == n.reason.Label();
    }
  }

  lemma LabelsDiffer(a: Reason, b: Reason)
    ensures a.Label() == b.Label() ==> a == b
    ensures HashFree(a.Label())
  {
  }

  lemma FirstHash(notice: string, unit: string)
    requires HashFree(notice)
    ensures var s := Subject(notice, unit);
      |notice| < |s| && s[|notice|] == '#' && s[..|notice|] == notice && s[|notice| + 1..] == unit
  {
  }

  lemma LongerNoticeDiffers(a: string, unit: string, b: string, unit': string)
    requires HashFree(a) && HashFree(b) && |a| < |b|
    ensures Subject(a, unit) != Subject(b, unit')
  {
    FirstHash(a, unit);
    assert Subject(b, unit')[|a|] == b[|a|] && b[|a|] in b;
  }

  /** No two notices are taken for one: what is claimed names the notice and the unit. */
  lemma SubjectsDiffer(m: Notice, unit: string, n: Notice, unit': string)
    ensures Subject(NoticeText(m), unit) == Subject(NoticeText(n), unit') ==> m == n && unit == unit'
  {
    var a, b := NoticeText(m), NoticeText(n);
    NoticesDiffer(m, n);
    NoticesAreHashFree(m);
    NoticesAreHashFree(n);
    FirstHash(a, unit);
    FirstHash(b, unit');
    if |a| < |b| {
      LongerNoticeDiffers(a, unit, b, unit');
    } else if |b| < |a| {
      LongerNoticeDiffers(b, unit', a, unit);
    }
  }

  class Control {
    const notes: Notes
    var registry: map<string, Instance>
    var prober: Option<Prober>
    var threshold: int

    constructor (registry: map<string, Instance>, prober: Option<Prober>, threshold: int)
      ensures fresh(notes) && notes.Valid() && notes.history == []
      ensures this.registry == registry && this.prober == prober && this.threshold == threshold
    {
      notes := new Notes();
      this.registry, this.prober, this.threshold := registry, prober, threshold;
    }

    /** A reload. The prober lives as long as the daemon; one is built only when a reload
        makes the daemon a hub, and the caller has to start it. */
    method Update(registry: map<string, Instance>, threshold: int, isHub: bool, built: Prober)
        returns (proberBuilt: bool)
      requires notes.Valid()
      modifies this, notes
      ensures notes.Valid() && notes.history == old(notes.history) + [Retain(registry.Keys)]
      ensures this.registry == registry && this.threshold == threshold
      ensures proberBuilt <==> isHub && old(prober).None?
      ensures prober == if proberBuilt then Some(built) else old(prober)
    {
      this.registry, this.threshold := registry, threshold;
      proberBuilt := isHub && prober.None?;
      if proberBuilt {
        prober := Some(built);
      }
      notes.RetainRegistered(registry.Keys);
    }

    method OwnerVerdictFor(route: Route) returns (v: Verdict)
      ensures IsVerdict(registry, prober, threshold, route, v)
    {
      if route.owner == "" || route.owner !in registry {
        return if route.withheld then NotAssigned else ActLocally;
      }
      var inst := registry[route.owner];
      if inst.isSelf {
        return ActLocally;
      }
      if !inst.usable {
        return if route.withheld then NotAssigned else ActLocally;
      }
      if prober.None? {
        return DispatchToOwner;
      }
      if prober.value.confirmedDown(route.owner, threshold) {
        return TakeOver;
      }
      for i := 0 to |prober.value.healthy|
        invariant route.owner !in prober.value.healthy[..i]
      {
        if prober.value.healthy[i] == route.owner {
          return DispatchToOwner;
        }
      }
      return DeferToOwner;
    }

    /** A notice is given only the first time. */
    method Note(id: string, subject: string) returns (told: seq<string>)
      requires notes.Valid()
      modifies notes
      ensures notes.Valid() && notes.history == old(notes.history) + [Claim(id, subject)]
      ensures told == NewNotices(old(notes.history), [Claim(id, subject)])
    {
      var first := notes.ClaimNotice(id, subject);
      told := if first then [subject] else [];
    }

    /** What a rejected dispatch means, given what the prober says by then. */
    method VerdictAfterFailedDispatch(id: string, unit: string, after: Option<Prober>)
        returns (v: Verdict, reason: Reason, ghost ops: seq<Op>)
      requires notes.Valid()
      modifies notes
      ensures notes.Valid() && notes.history == old(notes.history) + ops
      ensures Escalates(FailuresSince(old(notes.history), id, unit), ops, id, unit, threshold, after, v, reason)
    {
      if after.None? {
        return TakeOver, NoObserver, [];
      }
      if after.value.confirmedDown(id, threshold) {
        return TakeOver, ProbesFailed, [];
      }
      var n := notes.RecordFailure(id, unit);
      if n >= threshold {
        return TakeOver, DispatchRejected, [Record(id, unit)];
      }
      return DeferToOwner, ProbesFailed, [Record(id, unit)];
    }

    method Rejected(id: string, unit: string, after: Option<Prober>)
        returns (handled: bool, told: seq<string>, ghost ops: seq<Op>)
      requires notes.Valid()
      modifies notes
      ensures notes.Valid() && notes.history == old(notes.history) + ops
      ensures Rejects(FailuresSince(old(notes.history), id, unit), ops, id, unit, threshold, after, handled)
      ensures told == NewNotices(old(notes.history), ops)
    {
      ghost var h := notes.history;
      ghost var rpc := [Claim(id, Subject("rpc", unit))];
      told := Note(id, Subject("rpc", unit));
      FailuresOneMore(h, rpc[0], id, unit);
      ghost var recorded;
      var v, reason;
      v, reason, recorded := VerdictAfterFailedDispatch(id, unit, after);
      var subject := if v.TakeOver? then Subject("takeover:" + reason.Label(), unit) else Subject("defer", unit);
      var last := Note(id, subject);
      NewNoticesAppend(h, rpc, recorded);
      NewNoticesAppend(h, rpc + recorded, [Claim(id, subject)]);
      RecordsAreQuiet(h + rpc, recorded);
      handled, told, ops := v.DeferToOwner?, told + last, rpc + recorded + [Claim(id, subject)];
      assert h + rpc + recorded + [Claim(id, subject)] == h + ops;
      assert h + (rpc + recorded) == h + rpc + recorded;
    }

    /** Sends the work to its owner, or decides what to do instead. The rpc tells whether the
        owner took it, and after what the prober says once it did not. */
    method Dispatch(op: string, repo: string, route: Route, rpc: bool, after: Option<Prober>)
      returns (handled: bool, told: seq<string>, ghost ops: seq<Op>)
      requires notes.Valid()
      modifies notes
      ensures notes.Valid() && notes.history == old(notes.history) + ops
      ensures told == NewNotices(old(notes.history), ops)
      ensures forall v :: IsVerdict(registry, prober, threshold, route, v) ==>
                          Dispatches(old(notes.history), ops, v, route.owner, Unit(op, repo), threshold, rpc, after,
                                     handled)
    {
      var unit := Unit(op, repo);
      ghost var h := notes.history;
      VerdictIsUnique(registry, prober, threshold, route);
      var v := OwnerVerdictFor(route);
      handled, told, ops := v.DeferToOwner? || v.NotAssigned?, [], [];
      match v {
        case DispatchToOwner =>
          if rpc {
            notes.ClearUnit(route.owner, unit);
            handled, ops := true, [Clear(route.owner, unit)];
          } else {
            handled, told, ops := Rejected(route.owner, unit, after);
          }
        case TakeOver =>
          told := Note(route.owner, Subject("takeover:" + ProbesFailed.Label(), unit));
          ops := notes.history[|h|..];
        case DeferToOwner =>
          told := Note(route.owner, Subject("defer", unit));
          ops := notes.history[|h|..];
        case NotAssigned =>
          told := Note(UNASSIGNED, Subject("not_assigned", unit));
          ops := notes.history[|h|..];
        case ActLocally =>
      }
    }
  }

  /** What a dispatch does under each verdict. */
  ghost predicate Dispatches(h: seq<Op>, ops: seq<Op>, v: Verdict, id: string, unit: string, threshold: int, rpc: bool,
                             after: Option<Prober>, handled: bool) {
    match v
    case DispatchToOwner => if rpc then handled && ops == [Clear(id, unit)]
        else Rejects(FailuresSince(h, id, unit), ops, id, unit, threshold, after, handled)
    case TakeOver => !handled && ops == [Claim(id, Subject("takeover:" + ProbesFailed.Label(), unit))]
    case DeferToOwner => handled && ops == [Claim(id, Subject("defer", unit))]
    case NotAssigned => handled && ops == [Claim(UNASSIGNED, Subject("not_assigned", unit))]
    case ActLocally => !handled && ops == []
  }

  ghost predicate Increasing(at: seq<nat>) {
    forall i, j :: 0 <= i < j < |at| ==> at[i] < at[j]
  }

  /** Since entry start nothing has released the unit, and its failures are at these entries. */
  ghost predicate Stretch(h: seq<Op>, start: nat, at: seq<nat>, id: string, unit: string) {
    && start <= |h| && (start == 0 || ReleasesCount(h[start - 1], id, unit))
    && (forall i :: start <= i < |h| ==> !ReleasesCount(h[i], id, unit))
    && Increasing(at)
    && (forall i :: i in at <==> start <= i < |h| && h[i] == Record(id, unit))
  }

  ghost function Entries(at: seq<nat>): set<int> {
    if at == [] then {} else Entries(at[..|at| - 1]) + {at[|at| - 1]}
  }

  lemma {:induction false} EntriesCount(at: seq<nat>)
    requires Increasing(at)
    ensures |Entries(at)| == |at| && forall i: int :: i in Entries(at) <==> 0 <= i && i in at
    decreases |at|
  {
    if at != [] {
      var front, last := at[..|at| - 1], at[|at| - 1];
      assert at == front + [last];
      EntriesCount(front);
      assert last !in front;
    }
  }

  lemma StretchInRange(h: seq<Op>, start: nat, at: seq<nat>, m: nat, id: string, unit: string)
    requires Stretch(h, start, at, id, unit) && m < |at|
    ensures start <= at[m] < |h| && h[at[m]] == Record(id, unit)
  {
    assert at[m] in at;
  }

  /** The failures of a unit since its last release are numbered from one. */
  lemma FailuresAreNumbered(h: seq<Op>, start: nat, at: seq<nat>, m: nat, id: string, unit: string)
    requires Stretch(h, start, at, id, unit) && m < |at|
    ensures at[m] < |h| && FailuresSince(h[..at[m]], id, unit) == m
  {
    StretchInRange(h, start, at, m, id, unit);
    var before, front := h[..at[m]], at[..m];
    forall i: int ensures StandsAt(before, i, id, unit) <==> 0 <= i && i in front {
      StandsInStretch(h, start, at, m, i, id, unit);
    }
    EntriesCount(front);
    assert Standing(before, id, unit) == Entries(front);
  }

  lemma StandsInStretch(h: seq<Op>, start: nat, at: seq<nat>, m: nat, i: int, id: string, unit: string)
    requires Stretch(h, start, at, id, unit) && m < |at| && at[m] < |h|
    ensures StandsAt(h[..at[m]], i, id, unit) <==> 0 <= i && i in at[..m]
  {
    StretchInRange(h, start, at, m, id, unit);
    var before := h[..at[m]];
    if start > 0 {
      assert before[start - 1] == h[start - 1];
    }
    if StandsAt(before, i, id, unit) {
      assert start <= i && h[i] == before[i];
      assert i in at;
      var k :| 0 <= k < |at| && at[k] == i;
      assert at[..m][k] == i;
    }
    if 0 <= i && i in at[..m] {
      var k :| 0 <= k < m && at[k] == i;
      assert i in at;
      forall j | i < j < |before| ensures !ReleasesCount(before[j], id, unit) {
        assert before[j] == h[j];
      }
    }
  }

  /** The rejection counted at entry i leaves the work to the owner. */
  ghost predicate DefersAt(h: seq<Op>, i: nat, id: string, unit: string, threshold: int)
    requires i < |h|
  {
    FailuresSince(h[..i], id, unit) + 1 < threshold
  }

  /** Of the rejections a hub counts since the unit's last release, whatever else happens in
      between, exactly the first threshold - 1 leave the work to its owner, and each later
      one takes it over. */
  lemma FirstRejectionsDefer(h: seq<Op>, start: nat, at: seq<nat>, m: nat, id: string, unit: string, threshold: int)
    requires Stretch(h, start, at, id, unit) && m < |at|
    ensures at[m] < |h| && (DefersAt(h, at[m], id, unit, threshold) <==> m + 1 < threshold)
  {
    FailuresAreNumbered(h, start, at, m, id, unit);
  }

  /** Two units are the same only for the same operation on the same repository. */
  lemma UnitsDiffer(op: string, repo: string, op': string, repo': string)
    requires '|' !in op && '|' !in op' && Unit(op, repo) == Unit(op', repo')
    ensures op == op' && repo == repo'
  {
    var u, u' := Unit(op, repo), Unit(op', repo');
    assert forall i :: 0 <= i < |op| ==> u[i] == op[i] && op[i] in op;
    assert forall i :: 0 <= i < |op'| ==> u'[i] == op'[i] && op'[i] in op';
    assert u[|op|] == '|' && u'[|op'|] == '|';
    assert u[..|op|] == op && u[|op| + 1..] == repo;
    assert u'[..|op'|] == op' && u'[|op'| + 1..] == repo';
  }
}
