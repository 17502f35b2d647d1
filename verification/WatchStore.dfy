/** The table of watched items: when each is checked next, and how far apart checks are. */
module WatchStore {
  import opened Wrappers
  import opened Numbers

  /** Durations and instants are in nanoseconds. */
  const MINUTE := 60_000_000_000
  const INITIAL := MINUTE
  const MAXIMUM := 15 * MINUTE
  const EVICT_AFTER := 60 * MINUTE

  datatype Entry = Entry(kind: string, repo: string, number: int, githubID: nat, nextCheck: int, backoff: int,
                         lastSeen: int)
  {
    function Key(): string {
      KeyOf(kind, githubID)
    }
  }

  function KeyOf(kind: string, githubID: nat): string {
    kind + "." + Digits(githubID)
  }

  type Rows = map<string, Entry>

  function NewEntry(kind: string, repo: string, number: int, githubID: nat, now: int): Entry {
    Entry(kind, repo, number, githubID, now + INITIAL, INITIAL, now)
  }

  function Doubled(backoff: int): int {
    if backoff * 2 > MAXIMUM then MAXIMUM else backoff * 2
  }

  /** What the store knows of pull requests, if it has that table. */
  datatype Prs = Prs(open: set<nat>, notOpen: set<nat>)

  predicate Stale(e: Entry, now: int, prs: Option<Prs>) {
    match prs
    case None => e.lastSeen < now - EVICT_AFTER
    case Some(p) => e.kind == "pr" && (e.githubID in p.notOpen ||
                                       (e.lastSeen < now - EVICT_AFTER && e.githubID !in p.open))
  }

  /** What each call that the store takes makes of the rows, given when it read the clock. */
  function EnrollRows(rows: Rows, kind: string, repo: string, number: int, githubID: nat, now: int): Rows {
    rows[KeyOf(kind, githubID) := NewEntry(kind, repo, number, githubID, now)]
  }

  function EnrollAbsentRows(rows: Rows, kind: string, repo: string, number: int, githubID: nat, now: int): Rows {
    if KeyOf(kind, githubID) in rows then rows else EnrollRows(rows, kind, repo, number, githubID, now)
  }

  function ResetRows(rows: Rows, key: string, observedAt: int, now: int): Rows {
    if key !in rows then rows
    else rows[key := rows[key].(backoff := INITIAL, nextCheck := now + INITIAL, lastSeen := observedAt)]
  }

  /** read is the backoff the row held when it was read. */
  function IncreaseRows(rows: Rows, key: string, read: int, now: int): Rows {
    if key !in rows then rows
    else rows[key := rows[key].(backoff := Doubled(read), nextCheck := now + Doubled(read))]
  }

  function DeferRows(rows: Rows, key: string, d: int, now: int): Rows {
    if key !in rows then rows else rows[key := rows[key].(nextCheck := now + d)]
  }

  function DeleteRows(rows: Rows, key: string): Rows {
    rows - {key}
  }

  function EvictRows(rows: Rows, now: int, prs: Option<Prs>): Rows {
    map k | k in rows && !Stale(rows[k], now, prs) :: rows[k]
  }

  ghost predicate DistinctKeys(entries: seq<Entry>) {
    forall i, j :: 0 <= i < j < |entries| ==> entries[i].Key() != entries[j].Key()
  }

  /** The rows due by then, each once. */
  ghost predicate DueRows(rows: Rows, now: int, ready: seq<Entry>) {
    && DistinctKeys(ready)
    && forall e :: e in ready <==> e.Key() in rows && rows[e.Key()] == e && e.nextCheck <= now
  }

  /** Rows are filed under their keys, with backoffs within the bounds. */
  ghost predicate Sound(rows: Rows) {
    forall k :: k in rows ==> rows[k].Key() == k && INITIAL <= rows[k].backoff <= MAXIMUM
  }

  datatype Failure = NotFound | Unavailable

  class Store {
    var rows: Rows

    constructor ()
      ensures rows == map[] && Sound(rows)
    {
      rows := map[];
    }

    /** Starts an item over, or adds it. */
    method Enroll(kind: string, repo: string, number: int, githubID: nat, now: int, up: bool)
        returns (err: Option<Failure>)
      requires Sound(rows)
      modifies this
      ensures err == if up then None else Some(Unavailable)
      ensures rows == if up then EnrollRows(old(rows), kind, repo, number, githubID, now) else old(rows)
      ensures Sound(rows)
    {
      if !up {
        return Some(Unavailable);
      }
      var key := KeyOf(kind, githubID);
      if key in rows {
        KeysAreDistinct(kind, githubID, rows[key].kind, rows[key].githubID);
        rows := rows[key := rows[key].(repo := repo, number := number, nextCheck := now + INITIAL,
                                       backoff := INITIAL, lastSeen := now)];
      } else {
        rows := rows[key := NewEntry(kind, repo, number, githubID, now)];
      }
      return None;
    }

    /** Adds an item that is not there yet, and leaves one that is. */
    method EnrollIfAbsent(kind: string, repo: string, number: int, githubID: nat, now: int, up: bool)
        returns (added: bool, err: Option<Failure>)
      modifies this
      ensures err == if up then None else Some(Unavailable)
      ensures added <==> up && KeyOf(kind, githubID) !in old(rows)
      ensures rows == if up then EnrollAbsentRows(old(rows), kind, repo, number, githubID, now) else old(rows)
      ensures Sound(old(rows)) ==> Sound(rows)
    {
      if !up {
        return false, Some(Unavailable);
      }
      var key := KeyOf(kind, githubID);
      if key in rows {
        return false, None;
      }
      rows := rows[key := NewEntry(kind, repo, number, githubID, now)];
      return true, None;
    }

    method Get(key: string, up: bool) returns (r: Option<Entry>, err: Option<Failure>)
      ensures r == if up && key in rows then Some(rows[key]) else None
      ensures err == if !up then Some(Unavailable) else if key in rows then None else Some(NotFound)
    {
      if !up {
        return None, Some(Unavailable);
      }
      if key !in rows {
        return None, Some(NotFound);
      }
      return Some(rows[key]), None;
    }

    method ResetBackoff(key: string, observedAt: int, now: int, up: bool) returns (err: Option<Failure>)
      modifies this
      ensures err == if !up then Some(Unavailable) else if key in old(rows) then None else Some(NotFound)
      ensures rows == if up then ResetRows(old(rows), key, observedAt, now) else old(rows)
      ensures Sound(old(rows)) ==> Sound(rows)
    {
      if !up {
        return Some(Unavailable);
      }
      if key !in rows {
        return Some(NotFound);
      }
      rows := rows[key := rows[key].(backoff := INITIAL, nextCheck := now + INITIAL, lastSeen := observedAt)];
      return None;
    }

    /** The second half of an increase: writes the doubled backoff that was read before,
        to whatever row there is by now. */
    method WriteIncrease(key: string, read: Entry, now: int, up: bool) returns (err: Option<Failure>)
      modifies this
      ensures err == if up then None else Some(Unavailable)
      ensures rows == if up then IncreaseRows(old(rows), key, read.backoff, now) else old(rows)
      ensures Sound(old(rows)) && INITIAL <= read.backoff <= MAXIMUM ==> Sound(rows)
    {
      if !up {
        return Some(Unavailable);
      }
      var backoff := read.backoff * 2;
      if backoff > MAXIMUM {
        backoff := MAXIMUM;
      }
      if key in rows {
        rows := rows[key := rows[key].(backoff := backoff, nextCheck := now + backoff)];
      }
      return None;
    }

    /** An increase with nothing in between its two halves. */
    method IncreaseBackoff(key: string, now: int, up: bool, stillUp: bool) returns (err: Option<Failure>)
      modifies this
      ensures err == if !up then Some(Unavailable) else if key !in old(rows) then Some(NotFound)
              else if stillUp then None else Some(Unavailable)
      ensures rows == if err.None? then IncreaseRows(old(rows), key, old(rows)[key].backoff, now) else old(rows)
      ensures Sound(old(rows)) ==> Sound(rows)
    {
      var read;
      read, err := Get(key, up);
      if err.Some? {
        return;
      }
      err := WriteIncrease(key, read.value, now, stillUp);
    }

    /** Puts off the next check, and leaves the backoff. */
    method Defer(key: string, d: int, now: int, up: bool) returns (err: Option<Failure>)
      modifies this
      ensures err == if up then None else Some(Unavailable)
      ensures rows == if up then DeferRows(old(rows), key, d, now) else old(rows)
      ensures Sound(old(rows)) ==> Sound(rows)
    {
      if !up {
        return Some(Unavailable);
      }
      if key in rows {
        rows := rows[key := rows[key].(nextCheck := now + d)];
      }
      return None;
    }

    method Delete(key: string, up: bool) returns (err: Option<Failure>)
      modifies this
      ensures err == if up then None else Some(Unavailable)
      ensures rows == if up then DeleteRows(old(rows), key) else old(rows)
      ensures Sound(old(rows)) ==> Sound(rows)
    {
      if !up {
        return Some(Unavailable);
      }
      rows := rows - {key};
      return None;
    }

    /** The rows that are due, each once, in no promised order. */
    method ScanReady(now: int, up: bool) returns (ready: seq<Entry>, err: Option<Failure>)
      requires Sound(rows)
      ensures err == if up then None else Some(Unavailable)
      ensures if up then DueRows(rows, now, ready) else ready == []
    {
      ready := [];
      if !up {
        return [], Some(Unavailable);
      }
      var rest := rows.Keys;
      while rest != {}
        invariant rest <= rows.Keys
        invariant forall e :: e in ready <==>
                e.Key() in rows && e.Key() !in rest && rows[e.Key()] == e && e.nextCheck <= now
        invariant DistinctKeys(ready)
        decreases rest
      {
        var k :| k in rest;
        if rows[k].nextCheck <= now {
          ready := ready + [rows[k]];
        }
        rest := rest - {k};
      }
      return ready, None;
    }

    /** Drops exactly the stale rows. A row whose pull request is recorded open, and never
        otherwise, is not dropped for its age. */
    method EvictStale(now: int, prs: Option<Prs>, up: bool) returns (n: nat, err: Option<Failure>)
      modifies this
      ensures err == if up then None else Some(Unavailable)
      ensures rows == if up then EvictRows(old(rows), now, prs) else old(rows)
      ensures n == |old(rows)| - |rows|
      ensures Sound(old(rows)) ==> Sound(rows)
    {
      if !up {
        return 0, Some(Unavailable);
      }
      var before := rows;
      rows := map k | k in before && !Stale(before[k], now, prs) :: before[k];
      SubsetIsSmaller(rows.Keys, before.Keys);
      n := |before| - |rows|;
      return n, None;
    }
  }

  lemma DotsAlign(kind: string, digits: string, kind': string, digits': string)
    requires AllDigits(digits) && |kind| < |kind'|
    ensures kind + "." + digits != kind' + "." + digits'
  {
    var at, k, k' := |kind'|, kind + "." + digits, kind' + "." + digits';
    assert k'[at] == '.';
    assert at < |k| ==> k[at] == digits[at - |kind| - 1] && IsDigit(k[at]);
  }

  lemma PartsOfKey(kind: string, digits: string)
    ensures (kind + "." + digits)[..|kind|] == kind && (kind + "." + digits)[|kind| + 1..] == digits
  {
  }

  /** Items of another kind or number have another key. */
  lemma KeysAreDistinct(kind: string, id: nat, kind': string, id': nat)
    ensures KeyOf(kind, id) == KeyOf(kind', id') ==> kind == kind' && id == id'
  {
    var d, d' := Digits(id), Digits(id');
    if |kind| < |kind'| {
      DotsAlign(kind, d, kind', d');
    } else if |kind'| < |kind| {
      DotsAlign(kind', d', kind, d);
    } else {
      PartsOfKey(kind, d);
      PartsOfKey(kind', d');
      DecimalOfDigits(id);
      DecimalOfDigits(id');
    }
  }

  lemma {:induction false} SubsetIsSmaller<T>(a: set<T>, b: set<T>)
    requires a <= b
    ensures |a| <= |b|
  {
    if a != {} {
      var x :| x in a;
      SubsetIsSmaller(a - {x}, b - {x});
    }
  }

  /** What stays: without a table of pull requests the rows that changed in the last hour; else
      the rows that are no pull request's, and those whose pull request is not recorded as
      closed and changed in the last hour or is recorded open. They stay as they are. */
  lemma EvictedExactly(rows: Rows, now: int, prs: Option<Prs>, k: string)
    ensures var kept := EvictRows(rows, now, prs);
      && (k in kept ==> k in rows && kept[k] == rows[k])
      && (k in rows ==>
            var recent := rows[k].lastSeen + 60 * MINUTE >= now;
            (k in kept <==>
             if prs.None? then recent
             else
               || rows[k].kind != "pr"
               || (rows[k].githubID !in prs.value.notOpen && (recent || rows[k].githubID in prs.value.open))))
  {
  }

  lemma OpenIsNotDroppedForAge(e: Entry, now: int, p: Prs)
    requires e.githubID in p.open && e.githubID !in p.notOpen
    ensures !Stale(e, now, Some(p))
  {
  }
}
