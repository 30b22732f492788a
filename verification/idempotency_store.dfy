/** src/infrastructure/database/idempotency/prisma-idempotency.store.ts */
module IdempotencyStore {
  import opened Wrappers

  datatype State = InProgress | Completed

  /** A row of `idempotency_records`; `response` is None when the stored body is null. */
  datatype Row = Row(fingerprint: string, owner: string, state: State, response: Option<string>, expiresAt: int)

  /** The table. Key, tenant and principal are unique together, the latter two being fixed sentinels. */
  type Table = map<string, Row>

  datatype ReserveResult = Reserved(owner: string) | Existing(record: Row)

  /** The row of `key` unless it has expired. */
  function FindActive(rows: Table, key: string, now: int): Option<Row> {
    if key in rows && rows[key].expiresAt > now then Some(rows[key]) else None
  }

  /** `tryReserve`, which reads the clock twice: to look for an active row, then for the new expiry. */
  function Reserve(rows: Table, key: string, fingerprint: string, owner: string, ttl: int, now: int, later: int)
    : (Table, ReserveResult)
  {
    match FindActive(rows, key, now)
    case Some(row) => (rows, Existing(row))
    case None => (rows[key := Row(fingerprint, owner, InProgress, None, later + ttl)], Reserved(owner))
  }

  predicate OwnedInProgress(rows: Table, key: string, owner: string) {
    key in rows && rows[key].owner == owner && rows[key].state == InProgress
  }

  function Complete(rows: Table, key: string, owner: string, response: Option<string>, ttl: int, now: int): Table {
    if OwnedInProgress(rows, key, owner)
    then rows[key := rows[key].(state := Completed, response := response, expiresAt := now + ttl)]
    else rows
  }

  function Release(rows: Table, key: string, owner: string): Table {
    if OwnedInProgress(rows, key, owner) then rows - {key} else rows
  }

  /** The time that `n` polling intervals take. */
  ghost function Intervals(n: int, interval: int): int {
    n * interval
  }

  lemma IntervalsAddUp(n: int, interval: int)
    ensures Intervals(n + 1, interval) == Intervals(n, interval) + interval
    ensures Intervals(0, interval) == 0
  {
  }

  // ----- The store -----------------------------------------------------------------------------

  class PrismaIdempotencyStore {
    var rows: Table
    var now: int
    const pollIntervalMs: int

    constructor (pollIntervalMs: int)
      requires pollIntervalMs > 0
      ensures rows == map[] && this.pollIntervalMs == pollIntervalMs
    {
      this.pollIntervalMs := pollIntervalMs;
      rows := map[];
      now := 0;
    }

    /** Reading the clock, which never goes back. */
    method Clock() returns (t: int)
      modifies this`now
      ensures t == now >= old(now)
    {
      t :| t >= now;
      now := t;
    }

    /** Sleeping: the clock moves on by at least `ms` and other clients may do anything to the table. */
    method Sleep(ms: int)
      requires ms >= 0
      modifies this`now, this`rows
      ensures now >= old(now) + ms
    {
      var wake :| wake >= now + ms;
      now := wake;
      rows := *;
    }

    method TryReserve(key: string, fingerprint: string, ownerToken: string, ttlMilliseconds: int)
      returns (r: ReserveResult, ghost t1: int, ghost t2: int)
      modifies this
      ensures old(now) <= t1 <= t2 <= now
      ensures (rows, r) == Reserve(old(rows), key, fingerprint, ownerToken, ttlMilliseconds, t1, t2)
      ensures r.Reserved? <==> key !in old(rows) || old(rows)[key].expiresAt <= t1
      ensures r.Reserved? ==>
                && r.owner == ownerToken
                && rows == old(rows)[key := Row(fingerprint, ownerToken, InProgress, None, t2 + ttlMilliseconds)]
      ensures r.Existing? ==> rows == old(rows) && r.record == rows[key]
    {
      var time := Clock();
      t1, t2 := time, time;
      var existing := FindActive(rows, key, time);
      if existing.Some? {
        return Existing(existing.value), t1, t2;
      }
      time := Clock();
      t2 := time;
      rows := rows[key := Row(fingerprint, ownerToken, InProgress, None, time + ttlMilliseconds)];
      return Reserved(ownerToken), t1, t2;
    }

    method CompleteReservation(key: string, ownerToken: string, response: Option<string>, ttlMilliseconds: int)
      modifies this
      ensures now >= old(now)
      ensures rows == Complete(old(rows), key, ownerToken, response, ttlMilliseconds, now)
      ensures var owned := key in old(rows) && old(rows)[key].owner == ownerToken && old(rows)[key].state == InProgress;
              rows == if !owned then old(rows)
                      else old(rows)[key := Row(old(rows)[key].fingerprint, ownerToken, Completed, response,
                                                now + ttlMilliseconds)]
    {
      if key !in rows || rows[key].owner != ownerToken || rows[key].state != InProgress {
        return;
      }
      var time := Clock();
      rows := rows[key := rows[key].(state := Completed, response := response, expiresAt := time + ttlMilliseconds)];
    }

    method ReleaseReservation(key: string, ownerToken: string)
      modifies this`rows
      ensures rows == Release(old(rows), key, ownerToken)
      ensures var owned := key in old(rows) && old(rows)[key].owner == ownerToken && old(rows)[key].state == InProgress;
              rows == if owned then old(rows) - {key} else old(rows)
    {
      if key in rows && rows[key].owner == ownerToken && rows[key].state == InProgress {
        rows := rows - {key};
      }
    }

    method Get(key: string) returns (record: Option<Row>)
      modifies this`now
      ensures now >= old(now) && record == FindActive(rows, key, now)
      ensures record.Some? <==> key in rows && rows[key].expiresAt > now
      ensures record.Some? ==> record.value == rows[key]
    {
      var time := Clock();
      record := FindActive(rows, key, time);
    }

    /**
     * Polls until the record is gone or completed, or the deadline has passed. It never asks to sleep
     * beyond the deadline and polls at most `timeoutMs / pollIntervalMs + 2` times.
     */
    method WaitForCompletion(key: string, timeoutMs: int)
      returns (record: Option<Row>, ghost deadline: int, ghost polls: nat, ghost wake: int)
      requires pollIntervalMs > 0
      modifies this
      ensures deadline >= old(now) + timeoutMs
      ensures record.Some? && record.value.state == InProgress ==> now >= deadline
      ensures record.None? ==> key !in rows || rows[key].expiresAt <= now
      ensures record.Some? ==> key in rows && record.value == rows[key]
      ensures record.Some? && record.value.state == Completed ==> record.value.expiresAt > now
      ensures wake <= deadline || polls == 1
      ensures polls == 1 || Intervals(polls - 2, pollIntervalMs) < timeoutMs
    {
      hide Intervals, FindActive;
      IntervalsAddUp(-1, pollIntervalMs);
      var start := Clock();
      var limit := start + timeoutMs;
      deadline, polls, wake := limit, 0, start;
      while true
        invariant now >= start && polls >= 0
        invariant polls > 0 ==> wake <= limit && now >= wake
        invariant polls > 0 ==> Intervals(polls - 1, pollIntervalMs) < timeoutMs
        invariant now >= start + Intervals(polls, pollIntervalMs) || (polls > 0 && now >= limit)
        decreases if now <= limit then limit - now + 1 else 0
      {
        IntervalsAddUp(polls, pollIntervalMs);
        record := Get(key);
        polls := polls + 1;
        if record.None? || record.value.state == Completed {
          return;
        }
        var time := Clock();
        var remaining := limit - time;
        if remaining <= 0 {
          return;
        }
        var ms := if pollIntervalMs < remaining then pollIntervalMs else remaining;
        wake := time + ms;
        Sleep(ms);
      }
    }
  }

  // ----- All clients together ------------------------------------------------------------------

  /** What became of a reservation that was granted to an owner token. */
  datatype Fate = Held | Answered(response: Option<string>) | Released

  datatype Reservation = Reservation(key: string, deadline: int, fate: Fate)

  /** The table, the clock, and every reservation granted so far, by owner token. */
  datatype System = System(rows: Table, now: int, granted: map<string, Reservation>)

  /** What a client can do. `pause` is the time the clock moves on within the step. */
  datatype Action =
    | Wait(pause: nat)
    | ReserveStep(key: string, fingerprint: string, owner: string, ttl: int, pause: nat)
    | CompleteStep(key: string, owner: string, response: Option<string>, ttl: int)
    | ReleaseStep(key: string, owner: string)

  /** Owner tokens offered for reservation have never been granted before. */
  predicate Enabled(s: System, a: Action) {
    a.ReserveStep? ==> a.owner !in s.granted
  }

  function Next(s: System, a: Action): System
    requires Enabled(s, a)
  {
    match a
    case Wait(pause) => s.(now := s.now + pause)
    case ReserveStep(key, fingerprint, owner, ttl, pause) =>
      var (rows, r) := Reserve(s.rows, key, fingerprint, owner, ttl, s.now, s.now + pause);
      System(rows, s.now + pause,
             if r.Reserved? then s.granted[owner := Reservation(key, s.now + pause + ttl, Held)] else s.granted)
    case CompleteStep(key, owner, response, ttl) =>
      System(Complete(s.rows, key, owner, response, ttl, s.now), s.now,
             if OwnedInProgress(s.rows, key, owner) && owner in s.granted
             then s.granted[owner := s.granted[owner].(fate := Answered(response))] else s.granted)
    case ReleaseStep(key, owner) =>
      System(Release(s.rows, key, owner), s.now,
             if OwnedInProgress(s.rows, key, owner) && owner in s.granted
             then s.granted[owner := s.granted[owner].(fate := Released)] else s.granted)
  }

  ghost predicate IsRun(s: System, actions: seq<Action>, t: System)
    decreases |actions|
  {
    if actions == [] then s == t
    else Enabled(s, actions[0]) && IsRun(Next(s, actions[0]), actions[1..], t)
  }

  function Initial(now: int): System {
    System(map[], now, map[])
  }

  /**
   * Table and reservations agree: a row is in progress or answered for the token that reserved it, and
   * a held reservation that has not expired is in the table.
   */
  ghost predicate Consistent(s: System) {
    && (forall key :: key in s.rows ==>
          var row := s.rows[key];
          && row.owner in s.granted && s.granted[row.owner].key == key
          && (row.state == InProgress ==>
                s.granted[row.owner].fate == Held && s.granted[row.owner].deadline == row.expiresAt)
          && (row.state == Completed ==> s.granted[row.owner].fate == Answered(row.response)))
    && (forall owner :: owner in s.granted && s.granted[owner].fate == Held && s.granted[owner].deadline > s.now ==>
          OwnedInProgress(s.rows, s.granted[owner].key, owner))
  }

  lemma StepConsistent(s: System, a: Action)
    requires Consistent(s) && Enabled(s, a)
    ensures Consistent(Next(s, a))
  {
  }

  lemma {:induction false} RunConsistent(s: System, actions: seq<Action>, t: System)
    requires Consistent(s) && IsRun(s, actions, t)
    ensures Consistent(t) && s.now <= t.now
    decreases |actions|
  {
    if actions != [] {
      StepConsistent(s, actions[0]);
      RunConsistent(Next(s, actions[0]), actions[1..], t);
    }
  }

  /** `owner` was granted a reservation of `key` that it neither completed nor released nor let expire. */
  predicate Holds(s: System, owner: string, key: string) {
    owner in s.granted && s.granted[owner].key == key && s.granted[owner].fate == Held &&
    s.granted[owner].deadline > s.now
  }

  /** Over every run a key has at most one unexpired holder. */
  lemma OneHolder(now: int, actions: seq<Action>, s: System, key: string, a: string, b: string)
    requires IsRun(Initial(now), actions, s)
    requires Holds(s, a, key) && Holds(s, b, key)
    ensures a == b
  {
    RunConsistent(Initial(now), actions, s);
  }

  /** The holder's answer is never lost: completing before the deadline stores the response. */
  lemma HolderCompletes(now: int, actions: seq<Action>, s: System, key: string, owner: string,
                        response: Option<string>, ttl: int)
    requires IsRun(Initial(now), actions, s) && Holds(s, owner, key)
    ensures var t := Next(s, CompleteStep(key, owner, response, ttl));
            && key in t.rows && t.rows[key].state == Completed && t.rows[key].owner == owner
            && t.rows[key].response == response && t.rows[key].expiresAt == s.now + ttl
  {
    RunConsistent(Initial(now), actions, s);
  }

  /** While a reservation is held and unexpired, no other token obtains the key. */
  lemma HolderBlocksOthers(now: int, actions: seq<Action>, s: System, key: string, owner: string, a: Action)
    requires IsRun(Initial(now), actions, s) && Holds(s, owner, key)
    requires a.ReserveStep? && a.key == key && Enabled(s, a)
    ensures Next(s, a).rows == s.rows && Next(s, a).granted == s.granted
  {
    RunConsistent(Initial(now), actions, s);
  }

  /** Completing or releasing takes effect exactly for the owner of the key's in-progress row. */
  lemma OthersChangeNothing(rows: Table, key: string, owner: string, response: Option<string>, ttl: int, now: int)
    ensures Complete(rows, key, owner, response, ttl, now) != rows <==> OwnedInProgress(rows, key, owner)
    ensures Release(rows, key, owner) != rows <==> OwnedInProgress(rows, key, owner)
    ensures forall k :: k in rows && k != key ==>
              && k in Complete(rows, key, owner, response, ttl, now) && k in Release(rows, key, owner)
              && Complete(rows, key, owner, response, ttl, now)[k] == rows[k] == Release(rows, key, owner)[k]
  {
    if OwnedInProgress(rows, key, owner) {
      assert Complete(rows, key, owner, response, ttl, now)[key].state == Completed;
      assert key !in Release(rows, key, owner);
    }
  }

  /** A completed record does not change over any run that ends before it expires. */
  lemma {:induction false} AnswerStable(s: System, actions: seq<Action>, t: System, key: string)
    requires Consistent(s) && IsRun(s, actions, t)
    requires key in s.rows && s.rows[key].state == Completed && s.rows[key].expiresAt > t.now
    ensures key in t.rows && t.rows[key] == s.rows[key]
    ensures FindActive(t.rows, key, t.now) == Some(s.rows[key])
    decreases |actions|
  {
    if actions != [] {
      StepConsistent(s, actions[0]);
      RunConsistent(Next(s, actions[0]), actions[1..], t);
      AnswerStable(Next(s, actions[0]), actions[1..], t, key);
    }
  }

  /** What became of a reservation is final: a token answers at most once, or releases, never both. */
  lemma {:induction false} FateFinal(s: System, actions: seq<Action>, t: System, owner: string)
    requires Consistent(s) && IsRun(s, actions, t)
    requires owner in s.granted && s.granted[owner].fate != Held
    ensures owner in t.granted && t.granted[owner] == s.granted[owner]
    decreases |actions|
  {
    if actions != [] {
      StepConsistent(s, actions[0]);
      FateFinal(Next(s, actions[0]), actions[1..], t, owner);
    }
  }

  /** A reservation is granted exactly when no row of its key is left to expire, whatever the state of that row. */
  lemma GrantedExactly(s: System, a: Action)
    requires Enabled(s, a) && a.ReserveStep?
    ensures var t := Next(s, a); var deadline := s.now + a.pause + a.ttl;
            && t.now == s.now + a.pause
            && (a.owner in t.granted <==> a.key !in s.rows || s.rows[a.key].expiresAt <= s.now)
            && (if a.owner in t.granted
                then && t.rows == s.rows[a.key := Row(a.fingerprint, a.owner, InProgress, None, deadline)]
                     && t.granted == s.granted[a.owner := Reservation(a.key, deadline, Held)]
                else t.rows == s.rows && t.granted == s.granted)
  {
  }

  /** Nothing of `key` has been granted between `s` and `t`. */
  predicate NoneGranted(s: System, t: System, key: string) {
    forall owner :: owner in t.granted && owner !in s.granted ==> t.granted[owner].key != key
  }

  lemma {:induction false} GrantedKept(s: System, actions: seq<Action>, t: System)
    requires IsRun(s, actions, t)
    ensures forall owner :: owner in s.granted ==>
              owner in t.granted && t.granted[owner].key == s.granted[owner].key
    decreases |actions|
  {
    if actions != [] {
      GrantedKept(Next(s, actions[0]), actions[1..], t);
    }
  }

  lemma {:induction false} CompletedKept(s: System, actions: seq<Action>, t: System, key: string)
    requires IsRun(s, actions, t) && NoneGranted(s, t, key)
    requires key in s.rows && s.rows[key].state == Completed
    ensures key in t.rows && t.rows[key] == s.rows[key]
    decreases |actions|
  {
    if actions != [] {
      var a := actions[0];
      GrantedKept(s, [a], Next(s, a)) by { assert IsRun(s, [a], Next(s, a)); }
      GrantedKept(Next(s, a), actions[1..], t);
      CompletedKept(Next(s, a), actions[1..], t, key);
    }
  }

  /**
   * A completed record is served until it expires; from then on it is served no more, and the next reservation
   * of its key is granted.
   */
  lemma ExpiredGivesWay(s: System, actions: seq<Action>, t: System, a: Action)
    requires IsRun(s, actions, t) && a.ReserveStep? && Enabled(t, a) && NoneGranted(s, t, a.key)
    requires a.key in s.rows && s.rows[a.key].state == Completed
    ensures FindActive(t.rows, a.key, t.now) == if t.now < s.rows[a.key].expiresAt then Some(s.rows[a.key]) else None
    ensures a.owner in Next(t, a).granted <==> s.rows[a.key].expiresAt <= t.now
  {
    CompletedKept(s, actions, t, a.key);
  }

  // ----- Between the two statements of `complete` ----------------------------------------------

  /** The update that `complete` ends with, by the id of the row that it has found. */
  function UpdatedRow(rows: Table, key: string, response: Option<string>, ttl: int, now: int): Table
    requires key in rows
  {
    rows[key := rows[key].(state := Completed, response := response, expiresAt := now + ttl)]
  }

  /**
   * If the table changes between the look-up and the update, `complete` still does what it does as one step
   * exactly when its owner's row is still in progress, or already reads like that.
   */
  lemma LateUpdateExactly(rows: Table, key: string, owner: string, response: Option<string>, ttl: int, now: int)
    requires key in rows
    ensures UpdatedRow(rows, key, response, ttl, now) == Complete(rows, key, owner, response, ttl, now) <==>
            OwnedInProgress(rows, key, owner) || rows == UpdatedRow(rows, key, response, ttl, now)
  {
  }

  /** When the reservation had expired and another client took the row over in between, that client's is completed. */
  lemma LateUpdateHitsOther(rows: Table, key: string, owner: string, other: string, fingerprint: string,
                            response: Option<string>, ttl: int, now: int)
    requires OwnedInProgress(rows, key, owner) && rows[key].expiresAt <= now && other != owner
    ensures var (taken, r) := Reserve(rows, key, fingerprint, other, ttl, now, now);
            && r == Reserved(other) && key in taken
            && UpdatedRow(taken, key, response, ttl, now)[key] ==
               Row(fingerprint, other, Completed, response, now + ttl)
            && Complete(taken, key, owner, response, ttl, now) == taken
  {
  }
}
