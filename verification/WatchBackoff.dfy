/** How long an item waits after a run of unchanged checks, and what becomes of that when the
    halves of an increase are apart. */
module WatchBackoff {
  import opened WatchStore

  function Power(k: nat): nat {
    if k == 0 then 1 else 2 * Power(k - 1)
  }

  function Least(a: int, b: int): int {
    if a <= b then a else b
  }

  /** The promised backoff after k increases. */
  function AfterIncreases(k: nat): int {
    Least(15, Power(k)) * MINUTE
  }

  lemma {:induction false} PowerGrows(k: nat)
    ensures Power(k) >= 1 && (k >= 4 ==> Power(k) >= 16)
  {
    if k > 0 {
      PowerGrows(k - 1);
    }
  }

  lemma OneMoreIncrease(k: nat)
    ensures INITIAL <= AfterIncreases(k) <= MAXIMUM
    ensures Doubled(AfterIncreases(k)) == AfterIncreases(k + 1)
  {
    PowerGrows(k);
    PowerGrows(k + 1);
  }

  /** What happens to one row's backoff: it starts over, or a worker reads it, or a worker
      writes back the double of what it read. */
  datatype Event = Restart | Read(worker: nat) | WriteBack(worker: nat)

  datatype Row = Row(backoff: int, taken: map<nat, int>)

  function Next(row: Row, e: Event): Row {
    match e
    case Restart => row.(backoff := INITIAL)
    case Read(w) => row.(taken := row.taken[w := row.backoff])
    case WriteBack(w) => if w in row.taken then row.(backoff := Doubled(row.taken[w])) else row
  }

  function Run(row: Row, events: seq<Event>): Row {
    if events == [] then row else Next(Run(row, events[..|events| - 1]), events[|events| - 1])
  }

  /** Worker w's last read is not older than the last write. */
  predicate ReadIsFresh(events: seq<Event>, w: nat) {
    events != [] &&
    match events[|events| - 1]
    case Read(v) => v == w || ReadIsFresh(events[..|events| - 1], w)
    case _ => false
  }

  /** No write comes between a worker's read and its write. */
  predicate Undisturbed(events: seq<Event>) {
    events == [] ||
    (Undisturbed(events[..|events| - 1]) &&
     (events[|events| - 1].WriteBack? ==> ReadIsFresh(events[..|events| - 1], events[|events| - 1].worker)))
  }

  /** The increases since the last restart. */
  function Increases(events: seq<Event>): nat {
    if events == [] then 0
    else
      match events[|events| - 1]
      case Restart => 0
      case Read(_) => Increases(events[..|events| - 1])
      case WriteBack(_) => Increases(events[..|events| - 1]) + 1
  }

  lemma {:induction false} FreshReads(row: Row, events: seq<Event>, w: nat)
    requires ReadIsFresh(events, w)
    ensures w in Run(row, events).taken && Run(row, events).taken[w] == Run(row, events).backoff
  {
    if events[|events| - 1] != Read(w) {
      FreshReads(row, events[..|events| - 1], w);
    }
  }

  /** From a row at its initial backoff, k undisturbed increases since the last restart make
      it min(15, 2^k) minutes. */
  lemma {:induction false} BackoffAfterRun(row: Row, events: seq<Event>)
    requires row.backoff == INITIAL && Undisturbed(events)
    ensures Run(row, events).backoff == AfterIncreases(Increases(events))
    decreases |events|
  {
    if events != [] {
      var front, last := events[..|events| - 1], events[|events| - 1];
      BackoffAfterRun(row, front);
      if last.WriteBack? {
        FreshReads(row, front, last.worker);
        OneMoreIncrease(Increases(front));
      }
    }
  }

  ghost predicate Bounded(row: Row) {
    INITIAL <= row.backoff <= MAXIMUM && forall w :: w in row.taken ==> INITIAL <= row.taken[w] <= MAXIMUM
  }

  /** Disturbed or not, the backoff stays within its bounds. */
  lemma {:induction false} BackoffIsBounded(row: Row, events: seq<Event>)
    requires Bounded(row)
    ensures Bounded(Run(row, events))
    decreases |events|
  {
    if events != [] {
      BackoffIsBounded(row, events[..|events| - 1]);
    }
  }

  /** A restart that comes between the read and the write is lost: after it one increase
      makes sixteen minutes cut to fifteen, not two. */
  lemma RestartIsLost() returns (row: Row, events: seq<Event>)
    ensures Bounded(row) && !Undisturbed(events) && Increases(events) == 1
    ensures Run(row, events).backoff == MAXIMUM && AfterIncreases(1) == 2 * MINUTE
  {
    row, events := Row(8 * MINUTE, map[]), [Read(0), Restart, WriteBack(0)];
    assert events[..2] == [Read(0), Restart] && [Read(0), Restart][..1] == [Read(0)] && [Read(0)][..0] == [];
    assert Run(row, [Read(0)]) == row.(taken := map[0 := row.backoff]);
    assert Power(1) == 2 * Power(0);
  }

  /** Every worker that writes back has read. */
  predicate EachReads(row: Row, events: seq<Event>) {
    forall n :: 0 <= n < |events| && events[n].WriteBack? ==> events[n].worker in Run(row, events[..n]).taken
  }

  /** The write at n doubles what the row then holds: it was read before, or both are so
      large that the cap makes them alike. */
  predicate DoublesAt(row: Row, events: seq<Event>, n: nat)
    requires n < |events|
  {
    var now := Run(row, events[..n]);
    events[n].WriteBack? && events[n].worker in now.taken ==>
      var read := now.taken[events[n].worker];
      read == now.backoff || (2 * read >= MAXIMUM && 2 * now.backoff >= MAXIMUM)
  }

  /** The backoff is as promised after the first n events. */
  predicate AsPromised(row: Row, events: seq<Event>, n: nat)
    requires n <= |events|
  {
    Run(row, events[..n]).backoff == AfterIncreases(Increases(events[..n]))
  }

  lemma PromiseStep(row: Row, events: seq<Event>, n: nat)
    requires n < |events| && EachReads(row, events) && AsPromised(row, events, n)
    ensures AsPromised(row, events, n + 1) <==> DoublesAt(row, events, n)
  {
    assert events[..n + 1][..n] == events[..n] && events[..n + 1][n] == events[n];
    OneMoreIncrease(Increases(events[..n]));
  }

  lemma {:induction false} PromisedUpTo(row: Row, events: seq<Event>, n: nat)
    requires n <= |events| && EachReads(row, events) && row.backoff == INITIAL
    requires forall m :: 0 <= m < n ==> DoublesAt(row, events, m)
    ensures AsPromised(row, events, n)
  {
    if n > 0 {
      PromisedUpTo(row, events, n - 1);
      PromiseStep(row, events, n - 1);
    }
  }

  /** From a row at its initial backoff, the backoff is as promised all along exactly if every
      increase doubles what the row holds when it is written. */
  lemma BackoffIsPromisedExactly(row: Row, events: seq<Event>)
    requires row.backoff == INITIAL && EachReads(row, events)
    ensures (forall n :: 0 <= n <= |events| ==> AsPromised(row, events, n))
            <==> forall n :: 0 <= n < |events| ==> DoublesAt(row, events, n)
  {
    if forall n :: 0 <= n < |events| ==> DoublesAt(row, events, n) {
      forall n | 0 <= n <= |events| ensures AsPromised(row, events, n) {
        PromisedUpTo(row, events, n);
      }
    }
    if forall n :: 0 <= n <= |events| ==> AsPromised(row, events, n) {
      forall n | 0 <= n < |events| ensures DoublesAt(row, events, n) {
        PromiseStep(row, events, n);
      }
    }
  }

  /** What the store's calls do to the row under one key are these events. */
  lemma CallsAreEvents(rows: Rows, key: string, row: Row, w: nat, observedAt: int, now: int)
    requires key in rows && row.backoff == rows[key].backoff && w in row.taken
    ensures ResetRows(rows, key, observedAt, now)[key].backoff == Next(row, Restart).backoff
    ensures IncreaseRows(rows, key, row.taken[w], now)[key].backoff == Next(row, WriteBack(w)).backoff
    ensures Next(row, Read(w)).taken[w] == rows[key].backoff && Next(row, Read(w)).backoff == row.backoff
    ensures forall d :: DeferRows(rows, key, d, now)[key].backoff == row.backoff
  {
  }

  /** Enrolling starts the row over, and enrolling if absent leaves one that is there. */
  lemma EnrollingIsARestart(rows: Rows, kind: string, repo: string, number: int, githubID: nat, row: Row, now: int)
    requires KeyOf(kind, githubID) in rows && row.backoff == rows[KeyOf(kind, githubID)].backoff
    ensures var key := KeyOf(kind, githubID);
      && EnrollRows(rows, kind, repo, number, githubID, now)[key].backoff == Next(row, Restart).backoff
      && EnrollAbsentRows(rows, kind, repo, number, githubID, now)[key].backoff == row.backoff
  {
  }
}
