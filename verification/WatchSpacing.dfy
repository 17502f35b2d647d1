/** The scan loop beside the workers: how soon the same item can be sent out again. */
module WatchSpacing {
  import opened Wrappers
  import opened WatchStore

  /** One pass of the loop: what is still to be sent, and whether the first of it has been
      sent but not yet put off. */
  datatype Poller = Idle | Sending(queue: seq<Entry>, sent: bool)

  /** sentAt is when each item was last sent out; settled are the items whose next check has
      been written since, missed those the store refused to put off and nothing has written
      since, and vouched those that were settled when the present pass scanned. */
  datatype State = State(rows: Rows, clock: int, poller: Poller, sentAt: map<string, int>, settled: set<string>,
                         missed: set<string>, vouched: set<string>)

  /** The row is new or written, and its next check lies its backoff after the moment the
      writer read the clock; so at least the initial backoff. */
  ghost predicate Writes(before: Rows, after: Rows, key: string, stamp: int) {
    && key in after && after == before[key := after[key]]
    && after[key].Key() == key
    && INITIAL <= after[key].backoff <= MAXIMUM
    && after[key].nextCheck == stamp + after[key].backoff
  }

  /** The calls of the store that write a row: it is started over, added, reset, or increased
      from a backoff read some time before. */
  datatype Call =
    | Enroll(kind: string, repo: string, number: int, githubID: nat)
    | EnrollIfAbsent(kind: string, repo: string, number: int, githubID: nat)
    | Reset(key: string, observedAt: int)
    | Increase(key: string, read: int)

  predicate CanWrite(rows: Rows, call: Call) {
    match call
    case Enroll(_, _, _, _) => true
    case EnrollIfAbsent(kind, _, _, id) => KeyOf(kind, id) !in rows
    case Reset(key, _) => key in rows
    case Increase(key, read) => key in rows && INITIAL <= read <= MAXIMUM
  }

  function KeyOfCall(call: Call): string {
    match call
    case Enroll(kind, _, _, id) => KeyOf(kind, id)
    case EnrollIfAbsent(kind, _, _, id) => KeyOf(kind, id)
    case Reset(key, _) => key
    case Increase(key, _) => key
  }

  function RowsAfter(rows: Rows, call: Call, now: int): Rows {
    match call
    case Enroll(kind, repo, number, id) => EnrollRows(rows, kind, repo, number, id, now)
    case EnrollIfAbsent(kind, repo, number, id) => EnrollAbsentRows(rows, kind, repo, number, id, now)
    case Reset(key, observedAt) => ResetRows(rows, key, observedAt, now)
    case Increase(key, read) => IncreaseRows(rows, key, read, now)
  }

  /** Each such call, made when it can, writes its row as stated above. */
  lemma CallsWrite(rows: Rows, call: Call, now: int)
    requires Sound(rows) && CanWrite(rows, call)
    ensures Writes(rows, RowsAfter(rows, call, now), KeyOfCall(call), now)
  {
    var after := RowsAfter(rows, call, now);
    assert after == rows[KeyOfCall(call) := after[KeyOfCall(call)]];
  }

  /** Made when it cannot, it changes nothing. */
  lemma OtherCallsChangeNothing(rows: Rows, call: Call, now: int)
    requires !CanWrite(rows, call) && (call.Increase? ==> INITIAL <= call.read <= MAXIMUM)
    ensures RowsAfter(rows, call, now) == rows
  {
  }

  /** A write lands at most lag after its writer read the clock; it may come at any point of
      the loop. */
  ghost predicate WorkerWrites(s: State, s': State, call: Call, stamp: int, lag: nat) {
    && s.clock - lag <= stamp && stamp <= s.clock
    && CanWrite(s.rows, call)
    && var key := KeyOfCall(call);
    s' == s.(rows := RowsAfter(s.rows, call, stamp), settled := s.settled + {key}, missed := s.missed - {key})
  }

  /** A row is deleted, or the stale ones are evicted. */
  ghost predicate Drops(s: State, s': State, key: string) {
    s' == s.(rows := DeleteRows(s.rows, key))
  }

  ghost predicate Evicts(s: State, s': State, now: int, prs: Option<Prs>) {
    s' == s.(rows := EvictRows(s.rows, now, prs))
  }

  ghost predicate Waits(s: State, s': State) {
    s'.clock >= s.clock && s' == s.(clock := s'.clock)
  }

  /** The scan takes exactly the rows due by the moment it read the clock. */
  ghost predicate Scans(s: State, s': State, stamp: int) {
    && s.poller.Idle? && stamp <= s.clock && s'.poller.Sending? && !s'.poller.sent
    && DueRows(s.rows, stamp, s'.poller.queue)
    && s' == s.(poller := s'.poller, vouched := s.settled)
  }

  ghost predicate Publishes(s: State, s': State) {
    && s.poller.Sending? && !s.poller.sent && s.poller.queue != []
    && var key := s.poller.queue[0].Key();
    s' == s.(poller := s.poller.(sent := true), sentAt := s.sentAt[key := s.clock], settled := s.settled - {key},
             missed := s.missed - {key})
  }

  ghost predicate FailsToPublish(s: State, s': State) {
    && s.poller.Sending? && !s.poller.sent && s.poller.queue != []
    && s' == s.(poller := Sending(s.poller.queue[1..], false))
  }

  /** Putting off what was sent; up tells whether the store took it. The clock is read after
      the item was sent. */
  ghost predicate Defers(s: State, s': State, stamp: int, up: bool) {
    && s.poller.Sending? && s.poller.sent && s.poller.queue != []
    && var e := s.poller.queue[0];
    && e.Key() in s.sentAt && s.sentAt[e.Key()] <= stamp <= s.clock
    && s' == s.(poller := Sending(s.poller.queue[1..], false),
             rows := if up then DeferRows(s.rows, e.Key(), e.backoff, stamp) else s.rows,
             settled := if up && e.Key() in s.rows then s.settled + {e.Key()} else s.settled,
             missed := if up || e.Key() in s.settled then s.missed else s.missed + {e.Key()})
  }

  ghost predicate Finishes(s: State, s': State) {
    s.poller.Sending? && s.poller.queue == [] && s' == s.(poller := Idle)
  }

  ghost predicate Step(s: State, s': State, lag: nat) {
    || (exists call, stamp :: WorkerWrites(s, s', call, stamp, lag))
    || (exists key :: Drops(s, s', key))
    || (exists now, prs :: Evicts(s, s', now, prs))
    || Waits(s, s')
    || (exists stamp :: Scans(s, s', stamp))
    || Publishes(s, s')
    || FailsToPublish(s, s')
    || (exists stamp, up :: Defers(s, s', stamp, up))
    || Finishes(s, s')
  }

  ghost predicate Init(s: State) {
    Sound(s.rows) && s.poller.Idle? && s.sentAt == map[] && s.settled == {} && s.missed == {} && s.vouched == {}
  }

  /** A settled item is not due before its wait is over. */
  ghost predicate SettledWait(s: State, lag: nat) {
    forall k :: k in s.sentAt && k in s.rows && k in s.settled ==> s.rows[k].nextCheck >= s.sentAt[k] + INITIAL - lag
  }

  /** What is queued was due when scanned; what of it was settled has waited. */
  ghost predicate QueueWaited(s: State, lag: nat) {
    s.poller.Sending? ==>
      && DistinctKeys(s.poller.queue)
      && (forall i :: 0 <= i < |s.poller.queue| ==> INITIAL <= s.poller.queue[i].backoff <= MAXIMUM)
      && (forall i :: (if s.poller.sent then 1 else 0) <= i < |s.poller.queue| ==>
          Waited(s, s.poller.queue[i].Key(), lag))
      && (s.poller.sent ==> s.poller.queue != [])
  }

  ghost predicate Waited(s: State, k: string, lag: nat) {
    k in s.sentAt && k in s.vouched ==> s.sentAt[k] + INITIAL - lag <= s.clock
  }

  predicate Pending(s: State, k: string) {
    s.poller.Sending? && s.poller.sent && s.poller.queue != [] && s.poller.queue[0].Key() == k
  }

  /** An item that was sent and is still there has been settled, or missed, or is being sent. */
  ghost predicate Accounted(s: State) {
    forall k :: k in s.sentAt && k in s.rows ==> k in s.settled || k in s.missed || Pending(s, k)
  }

  /** What was missed is neither settled nor being sent. */
  ghost predicate MissedAreUnsettled(s: State) {
    s.missed !! s.settled && forall k :: Pending(s, k) ==> k !in s.missed
  }

  ghost predicate Inv(s: State, lag: nat) {
    && Sound(s.rows)
    && (forall k :: k in s.sentAt ==> s.sentAt[k] <= s.clock)
    && SettledWait(s, lag)
    && QueueWaited(s, lag)
    && Accounted(s)
    && MissedAreUnsettled(s)
  }

  lemma WriteKeeps(s: State, s': State, call: Call, stamp: int, lag: nat)
    requires Inv(s, lag) && WorkerWrites(s, s', call, stamp, lag)
    ensures Inv(s', lag)
  {
    var key := KeyOfCall(call);
    CallsWrite(s.rows, call, stamp);
    assert s'.rows == s.rows[key := s'.rows[key]];
    forall k | k in s'.sentAt && k in s'.rows && k in s'.settled
      ensures s'.rows[k].nextCheck >= s'.sentAt[k] + INITIAL - lag {
      if k == key {
        assert s.sentAt[k] <= s.clock;
      }
    }
    QueueKeeps(s, s', lag);
  }

  /** The queue's claims are about its items, when they were sent and which were vouched for. */
  lemma QueueKeeps(s: State, s': State, lag: nat)
    requires QueueWaited(s, lag)
    requires s'.poller == s.poller && s'.sentAt == s.sentAt && s'.vouched == s.vouched && s'.clock >= s.clock
    ensures QueueWaited(s', lag)
  {
    if s.poller.Sending? {
      forall i | (if s.poller.sent then 1 else 0) <= i < |s.poller.queue|
        ensures Waited(s', s.poller.queue[i].Key(), lag) {
        assert Waited(s, s.poller.queue[i].Key(), lag);
      }
    }
  }

  lemma DropKeeps(s: State, s': State, key: string, lag: nat)
    requires Inv(s, lag) && Drops(s, s', key)
    ensures Inv(s', lag)
  {
    QueueKeeps(s, s', lag);
  }

  lemma EvictKeeps(s: State, s': State, now: int, prs: Option<Prs>, lag: nat)
    requires Inv(s, lag) && Evicts(s, s', now, prs)
    ensures Inv(s', lag)
  {
    QueueKeeps(s, s', lag);
  }

  lemma WaitKeeps(s: State, s': State, lag: nat)
    requires Inv(s, lag) && Waits(s, s')
    ensures Inv(s', lag)
  {
    QueueKeeps(s, s', lag);
  }

  lemma ScanKeeps(s: State, s': State, stamp: int, lag: nat)
    requires Inv(s, lag) && Scans(s, s', stamp)
    ensures Inv(s', lag)
  {
    var queue := s'.poller.queue;
    forall i | 0 <= i < |queue| ensures INITIAL <= queue[i].backoff <= MAXIMUM && Waited(s', queue[i].Key(), lag) {
      assert queue[i] in queue;
    }
  }

  lemma PublishKeeps(s: State, s': State, lag: nat)
    requires Inv(s, lag) && Publishes(s, s')
    ensures Inv(s', lag)
  {
    var queue := s.poller.queue;
    forall i | 1 <= i < |queue| ensures Waited(s', queue[i].Key(), lag) {
      assert queue[0].Key() != queue[i].Key();
      assert Waited(s, queue[i].Key(), lag);
    }
  }

  lemma TailKeeps(s: State, s': State, lag: nat)
    requires QueueWaited(s, lag) && s.poller.Sending? && s.poller.queue != []
    requires s'.poller == Sending(s.poller.queue[1..], false)
    requires s'.sentAt == s.sentAt && s'.vouched == s.vouched && s'.clock == s.clock
    ensures QueueWaited(s', lag)
  {
    var queue, rest := s.poller.queue, s.poller.queue[1..];
    forall i | 0 <= i < |rest| ensures INITIAL <= rest[i].backoff <= MAXIMUM && Waited(s', rest[i].Key(), lag) {
      assert rest[i] == queue[i + 1];
      assert Waited(s, queue[i + 1].Key(), lag);
    }
  }

  lemma DeferKeeps(s: State, s': State, stamp: int, up: bool, lag: nat)
    requires Inv(s, lag) && Defers(s, s', stamp, up)
    ensures Inv(s', lag)
  {
    TailKeeps(s, s', lag);
    var e := s.poller.queue[0];
    assert INITIAL <= e.backoff;
  }

  lemma StepKeeps(s: State, s': State, lag: nat)
    requires Inv(s, lag) && Step(s, s', lag)
    ensures Inv(s', lag)
  {
    if call, stamp :| WorkerWrites(s, s', call, stamp, lag) {
      WriteKeeps(s, s', call, stamp, lag);
    } else if key :| Drops(s, s', key) {
      DropKeeps(s, s', key, lag);
    } else if now, prs :| Evicts(s, s', now, prs) {
      EvictKeeps(s, s', now, prs, lag);
    } else if Waits(s, s') {
      WaitKeeps(s, s', lag);
    } else if stamp :| Scans(s, s', stamp) {
      ScanKeeps(s, s', stamp, lag);
    } else if Publishes(s, s') {
      PublishKeeps(s, s', lag);
    } else if FailsToPublish(s, s') {
      TailKeeps(s, s', lag);
    } else if stamp, up :| Defers(s, s', stamp, up) {
      DeferKeeps(s, s', stamp, up, lag);
    }
  }

  ghost predicate IsRun(run: seq<State>, lag: nat) {
    run != [] && Init(run[0]) && forall i :: 0 <= i < |run| - 1 ==> Step(run[i], run[i + 1], lag)
  }

  lemma {:induction false} RunKeeps(run: seq<State>, lag: nat, i: nat)
    requires IsRun(run, lag) && i < |run|
    ensures Inv(run[i], lag)
  {
    if i > 0 {
      RunKeeps(run, lag, i - 1);
      assert Step(run[i - 1], run[i - 1 + 1], lag);
      StepKeeps(run[i - 1], run[i], lag);
    }
  }

  /** How long an item that was settled has to wait when writes lag by as much. */
  function WaitOf(lag: nat): nat {
    if lag <= INITIAL then INITIAL - lag else 0
  }

  /** If the first of the queue was sent before, and was settled when scanned, it was sent
      at least d ago. */
  predicate SentAgo(s: State, d: int) {
    s.poller.Sending? && s.poller.queue != [] &&
        var key := s.poller.queue[0].Key();
    (key in s.sentAt && key in s.vouched ==> s.clock - s.sentAt[key] >= d)
  }

  /** Over every run, an item is sent again no sooner than the initial backoff after it was
      last sent, less the time a write may lag behind its clock reading, provided it was
      settled when scanned: its row was put off, or written, after it was last sent. */
  lemma SpacedApart(run: seq<State>, lag: nat, i: nat)
    requires IsRun(run, lag) && i + 1 < |run| && Publishes(run[i], run[i + 1])
    ensures SentAgo(run[i], WaitOf(lag))
  {
    RunKeeps(run, lag, i);
    assert Waited(run[i], run[i].poller.queue[0].Key(), lag);
  }

  ghost predicate KeepsApart(run: seq<State>, d: int) {
    forall i :: 0 <= i < |run| - 1 && Publishes(run[i], run[i + 1]) ==> SentAgo(run[i], d)
  }

  /** So long and no longer: every run keeps a wait exactly if it is no longer than that. */
  lemma SpacingExactly(lag: nat, d: int)
    ensures (forall run :: IsRun(run, lag) ==> KeepsApart(run, d)) <==> d <= WaitOf(lag)
  {
    if d <= WaitOf(lag) {
      forall run | IsRun(run, lag) ensures KeepsApart(run, d) {
        forall i | 0 <= i < |run| - 1 && Publishes(run[i], run[i + 1]) ensures SentAgo(run[i], d) {
          SpacedApart(run, lag, i);
        }
      }
    } else {
      var run := BoundIsReached(lag);
      assert Publishes(run[7], run[7 + 1]) && !SentAgo(run[7], d);
    }
  }

  /** Of the items sent before, those sent out again without that promise are exactly those
      the store refused to put off, and whose rows nothing has written since. */
  lemma OnlyMissedAreUnsettled(run: seq<State>, lag: nat, i: nat, stamp: int, e: Entry)
    requires IsRun(run, lag) && i + 1 < |run| && Scans(run[i], run[i + 1], stamp)
    requires e in run[i + 1].poller.queue && e.Key() in run[i].sentAt
    ensures e.Key() !in run[i + 1].vouched <==> e.Key() in run[i].missed
  {
    RunKeeps(run, lag, i);
  }

  /** And for those it does fail: with one refusal the same item goes out twice at once. */
  lemma MissedIsSentAgain() returns (run: seq<State>)
    ensures IsRun(run, 0) && |run| == 7
    ensures Publishes(run[1], run[2]) && Publishes(run[5], run[6])
    ensures var key := run[5].poller.queue[0].Key();
      run[1].poller.queue[0].Key() == key && key in run[5].sentAt && run[5].clock == run[5].sentAt[key]
  {
    var e := Entry("pr", "r", 1, 1, 0, INITIAL, 0);
    var key := e.Key();
    var s0 := State.State(map[key := e], 0, Idle, map[], {}, {}, {});
    var s1 := s0.(poller := Sending([e], false));
    var s2 := s1.(poller := Sending([e], true), sentAt := map[key := 0]);
    var s3 := s2.(poller := Sending([], false), missed := {key});
    var s4 := s3.(poller := Idle);
    var s5 := s4.(poller := Sending([e], false));
    var s6 := s5.(poller := Sending([e], true), missed := {});
    run := [s0, s1, s2, s3, s4, s5, s6];
    assert Scans(s0, s1, 0);
    assert Publishes(s1, s2) by {
      assert s2.missed == s1.missed - {key} && s2.settled == s1.settled - {key};
    }
    assert Defers(s2, s3, 0, false) by {
      assert s2.poller.queue[1..] == [] && s3.missed == s2.missed + {key};
    }
    assert Finishes(s3, s4);
    assert Scans(s4, s5, 0);
    assert Publishes(s5, s6) by {
      assert s6.missed == s5.missed - {key} && s6.settled == s5.settled - {key};
    }
  }

  /** The bound is reached: a write that lags as long as it may brings the next sending
      forward by as much. */
  lemma BoundIsReached(lag: nat) returns (run: seq<State>)
    ensures IsRun(run, lag) && |run| == 9 && Publishes(run[7], run[8])
    ensures var s, key := run[7], run[7].poller.queue[0].Key();
      key in s.sentAt && key in s.vouched && s.clock - s.sentAt[key] == WaitOf(lag)
  {
    var e := Entry("pr", "r", 1, 1, 0, INITIAL, 0);
    var key := e.Key();
    var late := e.(nextCheck := WaitOf(lag));
    var s0 := State.State(map[key := e], 0, Idle, map[], {}, {}, {});
    var s1 := s0.(poller := Sending([e], false));
    var s2 := s1.(poller := Sending([e], true), sentAt := map[key := 0]);
    var s3 := s2.(poller := Sending([], false), rows := map[key := e.(nextCheck := INITIAL)], settled := {key});
    var s4 := s3.(rows := map[key := late]);
    var s5 := s4.(poller := Idle);
    var s6 := s5.(clock := WaitOf(lag));
    var s7 := s6.(poller := Sending([late], false), vouched := {key});
    var s8 := s7.(poller := Sending([late], true), sentAt := map[key := WaitOf(lag)], settled := {});
    run := [s0, s1, s2, s3, s4, s5, s6, s7, s8];
    FirstSending(s0, s1, s2, s3, e);
    LateWrite(s3, s4, e, late, lag);
    assert Finishes(s4, s5);
    assert Waits(s5, s6);
    SecondSending(s6, s7, s8, late);
  }

  lemma LateWrite(s3: State, s4: State, e: Entry, late: Entry, lag: nat)
    requires e.backoff == INITIAL && e.lastSeen == 0 && late == e.(nextCheck := WaitOf(lag))
    requires s3.clock == 0 && s3.settled == {e.Key()} && s3.missed == {} &&
            s3.rows == map[e.Key() := e.(nextCheck := INITIAL)]
    requires s4 == s3.(rows := map[e.Key() := late])
    ensures Step(s3, s4, lag)
  {
    var key := e.Key();
    var reset := Reset(key, 0);
    assert WorkerWrites(s3, s4, reset, WaitOf(lag) - INITIAL, lag) by {
      assert s3.rows[key].(backoff := INITIAL, nextCheck := WaitOf(lag) - INITIAL + INITIAL, lastSeen := 0) == late;
      assert s4.rows == s3.rows[key := late] && s4.settled == s3.settled + {key} && s4.missed == s3.missed - {key};
    }
  }

  lemma SecondSending(s6: State, s7: State, s8: State, late: Entry)
    requires s6.poller.Idle? && s6.rows == map[late.Key() := late] && s6.clock == late.nextCheck
    requires s6.settled == {late.Key()} && s6.missed == {} && s6.sentAt == map[late.Key() := 0]
    requires s7 == s6.(poller := Sending([late], false), vouched := {late.Key()})
    requires s8 == s7.(poller := Sending([late], true), sentAt := map[late.Key() := s6.clock], settled := {})
    ensures Scans(s6, s7, s6.clock) && Publishes(s7, s8)
  {
    var key := late.Key();
    assert Publishes(s7, s8) by {
      assert s8.missed == s7.missed - {key} && s8.settled == s7.settled - {key} &&
          s8.sentAt == s7.sentAt[key := s7.clock];
    }
  }

  lemma FirstSending(s0: State, s1: State, s2: State, s3: State, e: Entry)
    requires e.nextCheck == 0 && e.backoff == INITIAL
    requires s0 == State.State(map[e.Key() := e], 0, Idle, map[], {}, {}, {})
    requires s1 == s0.(poller := Sending([e], false))
    requires s2 == s1.(poller := Sending([e], true), sentAt := map[e.Key() := 0])
    requires s3 == s2.(poller := Sending([], false), rows := map[e.Key() := e.(nextCheck := INITIAL)],
                       settled := {e.Key()})
    ensures Scans(s0, s1, 0) && Publishes(s1, s2) && Defers(s2, s3, 0, true)
  {
    var key := e.Key();
    assert Publishes(s1, s2) by {
      assert s2.missed == s1.missed - {key} && s2.settled == s1.settled - {key} &&
          s2.sentAt == s1.sentAt[key := s1.clock];
    }
    assert Defers(s2, s3, 0, true) by {
      assert s2.poller.queue[1..] == [] && s3.settled == s2.settled + {key};
      assert s3.rows == s2.rows[key := s2.rows[key].(nextCheck := 0 + INITIAL)];
    }
  }
}
