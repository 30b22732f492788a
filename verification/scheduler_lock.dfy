/** src/platform/scheduling/in-memory-scheduler-lock.ts */
module SchedulerLock {
  import opened Wrappers
  import opened Text

  datatype LockEntry = LockEntry(token: string, expiresAt: int)

  type Locks = map<string, LockEntry>

  datatype LockError = EmptyKey | TtlNotPositive | LockTableFull

  /** The entries that have not expired. */
  function Live(locks: Locks, now: int): (live: Locks)
    ensures live.Keys <= locks.Keys && |live| <= |locks|
  {
    var live := map key | key in locks && locks[key].expiresAt > now :: locks[key];
    SubsetSize(live.Keys, locks.Keys);
    live
  }

  lemma LiveOutlives(locks: Locks)
    ensures forall time {:trigger Live(locks, time)} ::
              Live(locks, time).Keys == set k | k in locks && Outlives(locks, k, time)
  {
  }

  /** The key has an entry that expires after `time`. */
  predicate Outlives(locks: Locks, key: string, time: int) {
    key in locks && locks[key].expiresAt > time
  }

  lemma {:induction false} SubsetSize(a: set<string>, b: set<string>)
    requires a <= b
    ensures |a| <= |b|
  {
    assert |b - a| == |b| - |a|;
  }

  /**
   * `acquire`, whose three readings of the clock are `t1 <= t2 <= t3`: to purge, to look at the entry
   * that is left, and for the new expiry.
   */
  function Acquire(locks: Locks, maxEntries: nat, key: string, ttlMs: int, t1: int, t2: int, t3: int, token: string)
    : (Locks, Result<Option<string>, LockError>)
  {
    if Trim(key) == "" then (locks, Failure(EmptyKey))
    else if ttlMs <= 0 then (locks, Failure(TtlNotPositive))
    else
      var live := Live(locks, t1);
      if key in live && live[key].expiresAt > t2 then (live, Success(None))
      else if key !in live && |live| >= maxEntries then (live, Failure(LockTableFull))
      else (live[key := LockEntry(token, t3 + ttlMs)], Success(Some(token)))
  }

  function Release(locks: Locks, key: string, token: string): (Locks, bool) {
    if key in locks && locks[key].token == token then (locks - {key}, true) else (locks, false)
  }

  /** `renew`, which reads the clock to look at the entry and again for the new expiry. */
  function Renew(locks: Locks, key: string, token: string, ttlMs: int, t1: int, t2: int)
    : (Locks, Result<bool, LockError>)
  {
    if ttlMs <= 0 then (locks, Failure(TtlNotPositive))
    else if key !in locks || locks[key].token != token then (locks, Success(false))
    else if locks[key].expiresAt <= t1 then (locks - {key}, Success(false))
    else (locks[key := LockEntry(token, t2 + ttlMs)], Success(true))
  }

  class InMemorySchedulerLock {
    var locks: Locks
    var now: int
    const maxEntries: nat

    constructor (maxEntries: nat)
      requires maxEntries > 0
      ensures locks == map[] && this.maxEntries == maxEntries
    {
      this.maxEntries := maxEntries;
      locks := map[];
      now := 0;
    }

    /** Reading the clock, which never goes back. */
    method Clock() returns (t: int)
      modifies this`now
      ensures t == now >= old(now)
    {
      t :| t >= now;
      now := t;
    }

    method PurgeExpired() returns (t: int)
      modifies this
      ensures t == now >= old(now) && locks == Live(old(locks), t)
      ensures forall key :: key in locks <==> Outlives(old(locks), key, t)
      ensures forall key :: key in locks ==> locks[key] == old(locks)[key]
    {
      t := Clock();
      var pending := locks.Keys;
      while pending != {}
        invariant pending <= locks.Keys <= old(locks).Keys && now == t
        invariant forall key :: key in old(locks) ==>
                    (key in locks <==> key in pending || old(locks)[key].expiresAt > t)
        invariant forall key :: key in locks ==> locks[key] == old(locks)[key]
        decreases pending
      {
        var key :| key in pending;
        if locks[key].expiresAt <= t {
          locks := locks - {key};
        }
        pending := pending - {key};
      }
    }

    /** `newToken` is what the token factory returns. */
    method AcquireLock(key: string, ttlMs: int, newToken: string)
      returns (r: Result<Option<string>, LockError>, ghost t1: int, ghost t2: int, ghost t3: int)
      modifies this
      ensures old(now) <= t1 <= t2 <= t3 <= now
      ensures (locks, r) == Acquire(old(locks), maxEntries, key, ttlMs, t1, t2, t3, newToken)
      ensures (forall i :: 0 <= i < |key| ==> IsSpace(key[i])) ==> r == Failure(EmptyKey)
      ensures (exists i :: 0 <= i < |key| && !IsSpace(key[i])) ==>
                r == if ttlMs <= 0 then Failure(TtlNotPositive)
                     else if Outlives(old(locks), key, t2) then Success(None)
                     else if !Outlives(old(locks), key, t1) &&
                             |set k | k in old(locks) && Outlives(old(locks), k, t1)| >= maxEntries
                     then Failure(LockTableFull)
                     else Success(Some(newToken))
      ensures r == Failure(EmptyKey) || r == Failure(TtlNotPositive) ==> locks == old(locks)
      ensures r.Success? || r.error == LockTableFull ==> forall k :: k != key || r == Success(None) ==>
                && (k in locks <==> Outlives(old(locks), k, t1))
                && (k in locks ==> locks[k] == old(locks)[k])
      ensures r == Failure(LockTableFull) ==> key !in locks
      ensures r == Success(Some(newToken)) ==> key in locks && locks[key] == LockEntry(newToken, t3 + ttlMs)
    {
      hide Trim, IsSpace;
      BlankExactly(key);
      LiveOutlives(locks);
      t1, t2, t3 := now, now, now;
      if Trim(key) == "" {
        return Failure(EmptyKey), t1, t2, t3;
      }
      if ttlMs <= 0 {
        return Failure(TtlNotPositive), t1, t2, t3;
      }
      var time := PurgeExpired();
      t1, t2, t3 := time, time, time;
      if key in locks {
        time := Clock();
        t2, t3 := time, time;
        if locks[key].expiresAt > time {
          return Success(None), t1, t2, t3;
        }
      } else if |locks| >= maxEntries {
        return Failure(LockTableFull), t1, t2, t3;
      }
      time := Clock();
      t3 := time;
      locks := locks[key := LockEntry(newToken, time + ttlMs)];
      return Success(Some(newToken)), t1, t2, t3;
    }

    method ReleaseLock(key: string, token: string) returns (released: bool)
      modifies this`locks
      ensures (locks, released) == Release(old(locks), key, token)
      ensures released <==> key in old(locks) && old(locks)[key].token == token
      ensures locks == if released then old(locks) - {key} else old(locks)
    {
      if key !in locks || locks[key].token != token {
        return false;
      }
      locks := locks - {key};
      return true;
    }

    method RenewLock(key: string, token: string, ttlMs: int)
      returns (r: Result<bool, LockError>, ghost t1: int, ghost t2: int)
      modifies this
      ensures old(now) <= t1 <= t2 <= now
      ensures (locks, r) == Renew(old(locks), key, token, ttlMs, t1, t2)
      ensures r.Failure? <==> ttlMs <= 0
      ensures r.Failure? ==> r.error == TtlNotPositive && locks == old(locks)
      ensures r == Success(true) <==>
              ttlMs > 0 && Outlives(old(locks), key, t1) && old(locks)[key].token == token
      ensures r == Success(true) ==> locks == old(locks)[key := LockEntry(token, t2 + ttlMs)]
      ensures r == Success(false) ==>
                locks == if key in old(locks) && old(locks)[key].token == token then old(locks) - {key} else old(locks)
    {
      t1, t2 := now, now;
      if ttlMs <= 0 {
        return Failure(TtlNotPositive), t1, t2;
      }
      if key !in locks || locks[key].token != token {
        return Success(false), t1, t2;
      }
      var time := Clock();
      t1, t2 := time, time;
      if locks[key].expiresAt <= time {
        locks := locks - {key};
        return Success(false), t1, t2;
      }
      time := Clock();
      t2 := time;
      locks := locks[key := LockEntry(token, time + ttlMs)];
      return Success(true), t1, t2;
    }
  }

  lemma AcquireBounded(locks: Locks, maxEntries: nat, key: string, ttlMs: int, t1: int, t2: int, t3: int, token: string)
    requires |locks| <= maxEntries
    ensures |Acquire(locks, maxEntries, key, ttlMs, t1, t2, t3, token).0| <= maxEntries
  {
    hide Live, Trim;
    PutSize(Live(locks, t1), key, LockEntry(token, t3 + ttlMs));
  }

  lemma ReleaseBounded(locks: Locks, key: string, token: string)
    ensures |Release(locks, key, token).0| <= |locks|
  {
    SubsetSize((locks - {key}).Keys, locks.Keys);
  }

  lemma RenewBounded(locks: Locks, key: string, token: string, ttlMs: int, t1: int, t2: int)
    ensures |Renew(locks, key, token, ttlMs, t1, t2).0| <= |locks|
  {
    SubsetSize((locks - {key}).Keys, locks.Keys);
    PutSize(locks, key, LockEntry(token, t2 + ttlMs));
  }

  /** No call makes the table exceed its bound. */
  lemma TableBounded(locks: Locks, maxEntries: nat, key: string, ttlMs: int, t1: int, t2: int, t3: int, token: string)
    requires |locks| <= maxEntries
    ensures |Acquire(locks, maxEntries, key, ttlMs, t1, t2, t3, token).0| <= maxEntries
    ensures |Release(locks, key, token).0| <= maxEntries
    ensures |Renew(locks, key, token, ttlMs, t1, t2).0| <= maxEntries
  {
    hide Acquire, Release, Renew;
    AcquireBounded(locks, maxEntries, key, ttlMs, t1, t2, t3, token);
    ReleaseBounded(locks, key, token);
    RenewBounded(locks, key, token, ttlMs, t1, t2);
  }

  lemma PutSize(locks: Locks, key: string, entry: LockEntry)
    ensures |locks[key := entry]| == |locks| + if key in locks then 0 else 1
  {
    assert locks[key := entry].Keys == locks.Keys + {key};
  }
}
