/**
 * `runTask` of src/platform/scheduling/scheduler.service.ts: several runs, in any number of processes,
 * interleaved at their suspension points over one shared lock.
 */
module SchedulerRuns {
  import opened Wrappers
  import opened SchedulerLock

  /** Where the handler of a granted run is. Its `finally` part clears the renewal timer, then releases. */
  datatype Phase = Granted | Running | Releasing | Finished

  /** The one renewal chain of a run: no timer, timer pending, call under way, or call answered. */
  datatype Renewal = NoTimer | Armed | InFlight | Answered(renewed: bool)

  /** A run that was granted the lock; `leaseUntil` is the expiry the lock last promised it. */
  datatype Run = Run(key: string, token: string, ttlMs: int, leaseUntil: int, phase: Phase, renewal: Renewal)

  type RunId = nat

  /** `tokens` are those given out so far. */
  datatype System = System(locks: Locks, now: int, maxEntries: nat, runs: map<RunId, Run>, tokens: set<string>)

  /** The steps; a `pause` is time that passes within one. */
  datatype Action =
    | Wait(pause: nat)
    | AcquireStep(id: RunId, key: string, ttlMs: int, token: string, pause: nat, pause2: nat)
    | Begin(id: RunId)
    | TimerFires(id: RunId)
    | RenewExecutes(id: RunId, pause: nat)
    | RenewFails(id: RunId)
    | RenewReturns(id: RunId)
    | HandlerSettles(id: RunId)
    | ReleaseExecutes(id: RunId)
    | ReleaseFails(id: RunId)

  /** A run identifier and a token are never given out twice. */
  predicate Fresh(s: System, id: RunId, token: string) {
    id !in s.runs && token !in s.tokens
  }

  predicate Enabled(s: System, a: Action) {
    match a
    case Wait(_) => true
    case AcquireStep(id, _, ttlMs, token, _, _) => Fresh(s, id, token) && ttlMs > 0
    case Begin(id) => id in s.runs && s.runs[id].phase == Granted
    case TimerFires(id) => id in s.runs && s.runs[id].renewal == Armed
    case RenewExecutes(id, _) => id in s.runs && s.runs[id].renewal == InFlight
    case RenewFails(id) => id in s.runs && s.runs[id].renewal == InFlight
    case RenewReturns(id) => id in s.runs && s.runs[id].renewal.Answered?
    case HandlerSettles(id) => id in s.runs && s.runs[id].phase == Running
    case ReleaseExecutes(id) => id in s.runs && s.runs[id].phase == Releasing
    case ReleaseFails(id) => id in s.runs && s.runs[id].phase == Releasing
  }

  function WithRun(s: System, id: RunId, run: Run): System {
    s.(runs := s.runs[id := run])
  }

  function Next(s: System, a: Action): System
    requires Enabled(s, a)
  {
    match a
    case Wait(pause) => s.(now := s.now + pause)
    case AcquireStep(id, key, ttlMs, token, pause, pause2) =>
      var t2, t3 := s.now + pause, s.now + pause + pause2;
      var (locks, r) := Acquire(s.locks, s.maxEntries, key, ttlMs, s.now, t2, t3, token);
      System(locks, t3, s.maxEntries,
             if r.Success? && r.value.Some?
             then s.runs[id := Run(key, token, ttlMs, t3 + ttlMs, Granted, NoTimer)]
             else s.runs,
             s.tokens + {token})
    case Begin(id) => WithRun(s, id, s.runs[id].(phase := Running, renewal := Armed))
    case TimerFires(id) => WithRun(s, id, s.runs[id].(renewal := InFlight))
    case RenewExecutes(id, pause) =>
      var run := s.runs[id];
      var (locks, r) := Renew(s.locks, run.key, run.token, run.ttlMs, s.now, s.now + pause);
      var renewed := r.Success? && r.value;
      System(locks, s.now + pause, s.maxEntries,
             s.runs[id := run.(renewal := Answered(renewed),
                               leaseUntil := if renewed then s.now + pause + run.ttlMs else run.leaseUntil)],
             s.tokens)
    case RenewFails(id) => WithRun(s, id, s.runs[id].(renewal := NoTimer))
    case RenewReturns(id) =>
      WithRun(s, id, s.runs[id].(renewal := if s.runs[id].renewal.renewed then Armed else NoTimer))
    case HandlerSettles(id) =>
      WithRun(s, id, s.runs[id].(phase := Releasing,
                                 renewal := if s.runs[id].renewal == Armed then NoTimer else s.runs[id].renewal))
    case ReleaseExecutes(id) =>
      WithRun(s, id, s.runs[id].(phase := Finished)).(locks := Release(s.locks, s.runs[id].key, s.runs[id].token).0)
    case ReleaseFails(id) => WithRun(s, id, s.runs[id].(phase := Finished))
  }

  ghost predicate IsTrace(s: System, actions: seq<Action>, t: System)
    decreases |actions|
  {
    if actions == [] then s == t
    else Enabled(s, actions[0]) && IsTrace(Next(s, actions[0]), actions[1..], t)
  }

  function Initial(now: int, maxEntries: nat): System {
    System(map[], now, maxEntries, map[], {})
  }

  // ----- Invariant -----------------------------------------------------------------------------

  predicate HasEntry(s: System, id: RunId)
    requires id in s.runs
  {
    s.runs[id].key in s.locks && s.locks[s.runs[id].key].token == s.runs[id].token
  }

  /** Run `id` has not finished, and the expiry it was last promised has not passed. */
  predicate HoldsLease(s: System, id: RunId) {
    id in s.runs && s.runs[id].phase != Finished && s.runs[id].leaseUntil > s.now
  }

  /** Tokens are unique, and lock entries and leases agree. */
  ghost predicate Leased(s: System) {
    && |s.locks| <= s.maxEntries
    && (forall key :: key in s.locks ==> s.locks[key].token in s.tokens)
    && (forall id :: id in s.runs ==> s.runs[id].token in s.tokens && s.runs[id].ttlMs > 0)
    && (forall a, b :: a in s.runs && b in s.runs && a != b ==> s.runs[a].token != s.runs[b].token)
    && (forall id, key :: id in s.runs && key in s.locks && s.locks[key].token == s.runs[id].token ==>
          key == s.runs[id].key && s.locks[key].expiresAt == s.runs[id].leaseUntil)
    && (forall id :: HoldsLease(s, id) ==> HasEntry(s, id))
  }

  /** The run an action belongs to, if any. */
  function Actor(a: Action): Option<RunId> {
    match a
    case Wait(_) => None
    case _ => Some(a.id)
  }

  /** `locks` has entries of `s.locks` only, except at `put`, and all those that outlive `until`. */
  ghost predicate KeepsEntries(s: System, locks: Locks, put: set<string>, until: int) {
    && (forall key :: key in locks && key !in put ==> key in s.locks && locks[key] == s.locks[key])
    && (forall key :: key in s.locks && s.locks[key].expiresAt > until ==> key in locks && locks[key] == s.locks[key])
  }

  /** The same runs, some of which may have moved on, with the leases they had. */
  ghost predicate SameLeases(s: System, t: System) {
    && t.runs.Keys == s.runs.Keys && s.tokens <= t.tokens && t.maxEntries == s.maxEntries && s.now <= t.now
    && forall id :: id in s.runs ==>
         && t.runs[id].key == s.runs[id].key && t.runs[id].token == s.runs[id].token
         && t.runs[id].ttlMs == s.runs[id].ttlMs && t.runs[id].leaseUntil == s.runs[id].leaseUntil
         && (s.runs[id].phase == Finished ==> t.runs[id].phase == Finished)
  }

  /** Steps that at most drop expired entries keep the invariant. */
  lemma ExpiryConsistent(s: System, t: System)
    requires Leased(s) && SameLeases(s, t) && KeepsEntries(s, t.locks, {}, t.now) && |t.locks| <= s.maxEntries
    ensures Leased(t)
  {
    forall id | HoldsLease(t, id)
      ensures HasEntry(t, id)
    {
      assert HoldsLease(s, id) && HasEntry(s, id);
    }
  }

  lemma AcquireKeepsEntries(s: System, key: string, ttlMs: int, t2: int, t3: int, token: string)
    requires s.now <= t2 && ttlMs > 0
    ensures var (locks, r) := Acquire(s.locks, s.maxEntries, key, ttlMs, s.now, t2, t3, token);
            && (r == Success(Some(token)) ==> KeepsEntries(s, locks, {key}, t2) && key in locks &&
                                              locks[key] == LockEntry(token, t3 + ttlMs))
            && ((r.Success? && r.value.Some?) ==> r == Success(Some(token)))
            && (r != Success(Some(token)) ==> KeepsEntries(s, locks, {}, t2))
  {
  }

  lemma GrantConsistent(s: System, t: System, id: RunId, run: Run, until: int)
    requires Leased(s) && Fresh(s, id, run.token) && s.now <= until <= t.now
    requires t.maxEntries == s.maxEntries && |t.locks| <= s.maxEntries
    requires t.runs == s.runs[id := run] && t.tokens == s.tokens + {run.token}
    requires run.key in t.locks && t.locks[run.key] == LockEntry(run.token, run.leaseUntil) && run.ttlMs > 0
    requires KeepsEntries(s, t.locks, {run.key}, until)
    ensures Leased(t)
  {
    forall r | HoldsLease(t, r)
      ensures HasEntry(t, r)
    {
      if r != id {
        assert HoldsLease(s, r) && HasEntry(s, r);
      }
    }
  }

  lemma ConsistentBounds(s: System)
    requires Leased(s)
    ensures |s.locks| <= s.maxEntries && forall id :: id in s.runs ==> s.runs[id].ttlMs > 0
  {
  }

  lemma AcquireConsistent(s: System, a: Action)
    requires Leased(s) && Enabled(s, a) && a.AcquireStep?
    ensures Leased(Next(s, a))
  {
    hide Acquire, KeepsEntries, Renew, Release, HasEntry, HoldsLease, Leased;
    ConsistentBounds(s);
    var t2, t3 := s.now + a.pause, s.now + a.pause + a.pause2;
    AcquireBounded(s.locks, s.maxEntries, a.key, a.ttlMs, s.now, t2, t3, a.token);
    AcquireKeepsEntries(s, a.key, a.ttlMs, t2, t3, a.token);
    var t := Next(s, a);
    if Acquire(s.locks, s.maxEntries, a.key, a.ttlMs, s.now, t2, t3, a.token).1 == Success(Some(a.token)) {
      GrantConsistent(s, t, a.id, t.runs[a.id], t2);
    } else {
      ExpiredEntriesKept(s, t, t2);
      ExpiryConsistent(s, t);
    }
  }

  lemma ExpiredEntriesKept(s: System, t: System, until: int)
    requires KeepsEntries(s, t.locks, {}, until) && until <= t.now
    ensures KeepsEntries(s, t.locks, {}, t.now)
  {
  }

  lemma RenewalConsistent(s: System, t: System, id: RunId, run: Run)
    requires Leased(s) && id in s.runs && HasEntry(s, id) && s.now <= t.now
    requires run.key == s.runs[id].key && run.token == s.runs[id].token && run.ttlMs == s.runs[id].ttlMs
    requires t == System(s.locks[run.key := LockEntry(run.token, run.leaseUntil)], t.now, s.maxEntries,
                         s.runs[id := run], s.tokens)
    ensures Leased(t)
  {
    PutSize(s.locks, run.key, LockEntry(run.token, run.leaseUntil));
    forall r | HoldsLease(t, r)
      ensures HasEntry(t, r)
    {
      if r != id {
        assert HoldsLease(s, r) && HasEntry(s, r);
      }
    }
  }

  /** A renewal extends the run's own entry or at most drops one that has expired. */
  lemma RenewKeepsEntries(s: System, run: Run, later: int)
    requires s.now <= later && run.ttlMs > 0
    ensures var (locks, r) := Renew(s.locks, run.key, run.token, run.ttlMs, s.now, later);
            if r == Success(true) then
              && run.key in s.locks && s.locks[run.key].token == run.token
              && locks == s.locks[run.key := LockEntry(run.token, later + run.ttlMs)]
            else KeepsEntries(s, locks, {}, later)
  {
  }

  lemma RenewConsistent(s: System, a: Action)
    requires Leased(s) && Enabled(s, a) && a.RenewExecutes?
    ensures Leased(Next(s, a))
  {
    hide Acquire, Release, Renew, KeepsEntries, Leased;
    ConsistentBounds(s);
    var run, t := s.runs[a.id], Next(s, a);
    RenewBounded(s.locks, run.key, run.token, run.ttlMs, s.now, s.now + a.pause);
    RenewKeepsEntries(s, run, s.now + a.pause);
    if t.runs[a.id].renewal == Answered(true) {
      RenewalConsistent(s, t, a.id, t.runs[a.id]);
    } else {
      ExpiryConsistent(s, t);
    }
  }

  /** A release drops the run's own entry only. */
  lemma ReleaseKeepsOthers(locks: Locks, key: string, token: string, other: string)
    ensures var after := Release(locks, key, token).0;
            && (other in after ==> other in locks && after[other] == locks[other])
            && (other in locks && locks[other].token != token ==> other in after)
  {
  }

  /** A finished run may take its entry along. */
  lemma FinishConsistent(s: System, t: System, id: RunId)
    requires Leased(s) && id in s.runs && |t.locks| <= |s.locks|
    requires t == s.(locks := t.locks, runs := s.runs[id := s.runs[id].(phase := Finished)])
    requires forall key :: key in t.locks ==> key in s.locks && t.locks[key] == s.locks[key]
    requires forall key :: key in s.locks && s.locks[key].token != s.runs[id].token ==> key in t.locks
    ensures Leased(t)
  {
    forall r | HoldsLease(t, r)
      ensures HasEntry(t, r)
    {
      assert HoldsLease(s, r) && HasEntry(s, r);
    }
  }

  lemma ReleaseConsistent(s: System, a: Action)
    requires Leased(s) && Enabled(s, a) && a.ReleaseExecutes?
    ensures Leased(Next(s, a))
  {
    hide Acquire, Renew, Release, Leased;
    var run, t := s.runs[a.id], Next(s, a);
    ReleaseBounded(s.locks, run.key, run.token);
    forall key
      ensures key in t.locks ==> key in s.locks && t.locks[key] == s.locks[key]
      ensures key in s.locks && s.locks[key].token != run.token ==> key in t.locks
    {
      ReleaseKeepsOthers(s.locks, run.key, run.token, key);
    }
    FinishConsistent(s, t, a.id);
  }

  lemma LocalStepKeeps(s: System, a: Action)
    requires Enabled(s, a) && !a.AcquireStep? && !a.RenewExecutes? && !a.ReleaseExecutes?
    ensures SameLeases(s, Next(s, a)) && Next(s, a).locks == s.locks
  {
  }

  lemma LocalStep(s: System, a: Action)
    requires Leased(s) && Enabled(s, a) && !a.AcquireStep? && !a.RenewExecutes? && !a.ReleaseExecutes?
    ensures Leased(Next(s, a))
  {
    hide Next, SameLeases;
    LocalStepKeeps(s, a);
    ExpiryConsistent(s, Next(s, a));
  }

  /** A granted run that has not begun has no renewal yet. */
  predicate Idle(s: System, id: RunId) {
    id in s.runs && (s.runs[id].phase == Granted ==> s.runs[id].renewal == NoTimer)
  }

  ghost predicate Consistent(s: System) {
    Leased(s) && forall id :: id in s.runs ==> Idle(s, id)
  }

  lemma StepIdle(s: System, a: Action)
    requires Enabled(s, a) && forall id :: id in s.runs ==> Idle(s, id)
    ensures forall id :: id in Next(s, a).runs ==> Idle(Next(s, a), id)
  {
    hide Acquire, Release, Renew;
  }

  lemma StepConsistent(s: System, a: Action)
    requires Consistent(s) && Enabled(s, a)
    ensures Consistent(Next(s, a))
  {
    hide Leased, Next;
    StepIdle(s, a);
    if a.AcquireStep? {
      AcquireConsistent(s, a);
    } else if a.RenewExecutes? {
      RenewConsistent(s, a);
    } else if a.ReleaseExecutes? {
      ReleaseConsistent(s, a);
    } else {
      LocalStep(s, a);
    }
  }

  lemma {:induction false} TraceConsistent(s: System, actions: seq<Action>, t: System)
    requires Consistent(s) && IsTrace(s, actions, t)
    ensures Consistent(t) && s.now <= t.now
    decreases |actions|
  {
    if actions != [] {
      StepConsistent(s, actions[0]);
      TraceConsistent(Next(s, actions[0]), actions[1..], t);
    }
  }

  // ----- Results -------------------------------------------------------------------------------

  /**
   * In every interleaving at most one run per key holds an unexpired lease, and the lock table stays
   * within its bound.
   */
  lemma MutualExclusion(now: int, maxEntries: nat, actions: seq<Action>, s: System, a: RunId, b: RunId)
    requires IsTrace(Initial(now, maxEntries), actions, s)
    ensures |s.locks| <= maxEntries
    ensures HoldsLease(s, a) && HoldsLease(s, b) && s.runs[a].key == s.runs[b].key ==> a == b
  {
    TraceConsistent(Initial(now, maxEntries), actions, s);
    SameBound(Initial(now, maxEntries), actions, s);
  }

  lemma {:induction false} SameBound(s: System, actions: seq<Action>, t: System)
    requires IsTrace(s, actions, t)
    ensures t.maxEntries == s.maxEntries
    decreases |actions|
  {
    if actions != [] {
      SameBound(Next(s, actions[0]), actions[1..], t);
    }
  }

  /** Handlers of one task overlap only when at most one of them is within its lease. */
  lemma OverlapNeedsExpiry(now: int, maxEntries: nat, actions: seq<Action>, s: System, a: RunId, b: RunId)
    requires IsTrace(Initial(now, maxEntries), actions, s)
    requires a in s.runs && b in s.runs && a != b && s.runs[a].key == s.runs[b].key
    requires s.runs[a].phase == Running && s.runs[b].phase == Running
    ensures s.runs[a].leaseUntil <= s.now || s.runs[b].leaseUntil <= s.now
  {
    MutualExclusion(now, maxEntries, actions, s, a, b);
  }

  lemma UnexpiredEntryKept(s: System, a: Action, key: string)
    requires Enabled(s, a) && key in s.locks && s.locks[key].expiresAt > Next(s, a).now
    requires Actor(a).Some? && a.id in s.runs ==> s.runs[a.id].token != s.locks[key].token
    ensures key in Next(s, a).locks && Next(s, a).locks[key] == s.locks[key]
  {
  }

  lemma OtherRunsKept(s: System, a: Action, id: RunId)
    requires Enabled(s, a) && Actor(a) != Some(id) && id in s.runs
    ensures id in Next(s, a).runs && Next(s, a).runs[id] == s.runs[id]
  {
  }

  /**
   * No step of another run, however late, removes the lease entry of a run or moves its expiry before
   * the lease is over.
   */
  lemma OthersKeepLease(s: System, a: Action, holder: RunId)
    requires Consistent(s) && Enabled(s, a) && Actor(a) != Some(holder)
    requires HoldsLease(s, holder) && HoldsLease(Next(s, a), holder)
    ensures var t := Next(s, a); var key := s.runs[holder].key;
            key in s.locks && key in t.locks && t.locks[key] == s.locks[key] && t.runs[holder] == s.runs[holder]
  {
    hide Next;
    assert HasEntry(s, holder);
    OtherRunsKept(s, a, holder);
    UnexpiredEntryKept(s, a, s.runs[holder].key);
  }

  /** The lock no longer has an entry of this run. */
  predicate Lost(s: System, id: RunId) {
    id in s.runs && !HasEntry(s, id)
  }

  lemma ReleasedIsLost(s: System, id: RunId)
    requires Consistent(s) && Enabled(s, ReleaseExecutes(id))
    ensures Lost(Next(s, ReleaseExecutes(id)), id)
  {
  }

  lemma SupersededIsLost(s: System, a: Action, id: RunId)
    requires Consistent(s) && Enabled(s, a) && a.AcquireStep? && id in s.runs && a.key == s.runs[id].key
    requires a.id in Next(s, a).runs
    ensures Lost(Next(s, a), id)
  {
  }

  predicate IsRenewalStep(a: Action, id: RunId) {
    (a.Begin? || a.TimerFires? || a.RenewExecutes? || a.RenewFails? || a.RenewReturns?) && a.id == id
  }

  function RenewalSteps(actions: seq<Action>, id: RunId): nat {
    if actions == [] then 0 else (if IsRenewalStep(actions[0], id) then 1 else 0) + RenewalSteps(actions[1..], id)
  }

  /** How many renewal steps a run that has lost its entry can still take. */
  function StepsLeft(run: Run): nat {
    (if run.phase == Granted then 4 else 0) +
    match run.renewal
    case NoTimer => 0
    case Answered(renewed) => if renewed then 4 else 1
    case InFlight => 2
    case Armed => 3
  }

  /** Where an entry comes from: it was there, or it has just been granted. */
  lemma EntrySource(s: System, a: Action, key: string)
    requires Enabled(s, a)
    ensures key in Next(s, a).locks ==>
              || (key in s.locks && Next(s, a).locks[key].token == s.locks[key].token)
              || (a.AcquireStep? && Next(s, a).locks[key].token == a.token)
  {
  }

  /** No step changes the key or token of a run. */
  lemma SameIdentity(s: System, a: Action, id: RunId)
    requires Enabled(s, a) && id in s.runs
    ensures id in Next(s, a).runs
    ensures Next(s, a).runs[id].key == s.runs[id].key && Next(s, a).runs[id].token == s.runs[id].token
  {
  }

  lemma LostStaysLost(s: System, a: Action, id: RunId)
    requires Consistent(s) && Enabled(s, a) && Lost(s, id)
    ensures Lost(Next(s, a), id)
  {
    hide Next;
    SameIdentity(s, a, id);
    EntrySource(s, a, s.runs[id].key);
  }

  /** The run's entry is gone or has expired. */
  predicate Dead(s: System, id: RunId) {
    id in s.runs && (!HasEntry(s, id) || s.locks[s.runs[id].key].expiresAt <= s.now)
  }

  /** The run has finished and its renewal chain, too, is over or ends with the answer it has got. */
  predicate Stopped(s: System, id: RunId) {
    id in s.runs && s.runs[id].phase == Finished && s.runs[id].renewal in {NoTimer, Answered(false)}
  }

  predicate Ending(s: System, id: RunId) {
    Dead(s, id) || Stopped(s, id)
  }

  /** An expired entry is never extended. */
  lemma ExpiredStays(s: System, a: Action, key: string)
    requires Enabled(s, a) && key in s.locks && s.locks[key].expiresAt <= s.now
    requires a.AcquireStep? ==> a.token != s.locks[key].token
    ensures key in Next(s, a).locks && Next(s, a).locks[key].token == s.locks[key].token ==>
              Next(s, a).locks[key].expiresAt <= Next(s, a).now
  {
  }

  lemma DeadStaysDead(s: System, a: Action, id: RunId)
    requires Consistent(s) && Enabled(s, a) && Dead(s, id)
    ensures Dead(Next(s, a), id)
  {
    hide Next;
    SameIdentity(s, a, id);
    if HasEntry(s, id) {
      ExpiredStays(s, a, s.runs[id].key);
    } else {
      LostStaysLost(s, a, id);
    }
  }

  lemma StoppedStays(s: System, a: Action, id: RunId)
    requires Enabled(s, a) && Stopped(s, id)
    ensures Stopped(Next(s, a), id)
  {
    hide Acquire, Release, Renew;
  }

  lemma EndingStepsDown(s: System, a: Action, id: RunId)
    requires Idle(s, id) && Enabled(s, a) && Ending(s, id)
    ensures Idle(Next(s, a), id)
    ensures StepsLeft(Next(s, a).runs[id]) + (if IsRenewalStep(a, id) then 1 else 0) <= StepsLeft(s.runs[id])
  {
    hide Acquire, Release;
  }

  /**
   * Once a run has lost its entry, by releasing it or to the next holder, or has let it expire, it never
   * gets it back, and its renewal chain ends after at most four more steps.
   */
  lemma {:induction false} RenewalDiesOut(s: System, actions: seq<Action>, t: System, id: RunId)
    requires Consistent(s) && IsTrace(s, actions, t) && Ending(s, id)
    ensures Ending(t, id) && (Dead(s, id) ==> Dead(t, id))
    ensures RenewalSteps(actions, id) + StepsLeft(t.runs[id]) <= StepsLeft(s.runs[id]) <= 4
    decreases |actions|
  {
    hide Next, Leased, HasEntry;
    assert Idle(s, id);
    if actions != [] {
      StepConsistent(s, actions[0]);
      if Dead(s, id) {
        DeadStaysDead(s, actions[0], id);
      } else {
        StoppedStays(s, actions[0], id);
      }
      EndingStepsDown(s, actions[0], id);
      RenewalDiesOut(Next(s, actions[0]), actions[1..], t, id);
    }
  }

  // ----- When the renewals of a finished run go on ---------------------------------------------

  /** A finished run within its lease whose renewal chain has not been told to end. */
  predicate Zombie(s: System, id: RunId) {
    && id in s.runs && s.runs[id].phase == Finished
    && s.runs[id].renewal in {Armed, InFlight, Answered(true)}
    && HasEntry(s, id) && s.locks[s.runs[id].key].expiresAt > s.now
  }

  /** Some interleaving has `n` more renewal steps of the run. */
  ghost predicate CanRenew(s: System, id: RunId, n: nat) {
    exists actions, t :: IsTrace(s, actions, t) && RenewalSteps(actions, id) >= n
  }

  /** The next step of the chain, if it comes before the lease is over, leaves the run as it is. */
  lemma ZombieStep(s: System, id: RunId) returns (a: Action)
    requires Consistent(s) && Zombie(s, id)
    ensures Enabled(s, a) && IsRenewalStep(a, id) && Zombie(Next(s, a), id)
  {
    ConsistentBounds(s);
    a := match s.runs[id].renewal
         case Armed => TimerFires(id)
         case InFlight => RenewExecutes(id, 0)
         case _ => RenewReturns(id);
  }

  lemma {:induction false} ZombieGoesOn(s: System, id: RunId, n: nat) returns (actions: seq<Action>, t: System)
    requires Consistent(s) && Zombie(s, id)
    ensures IsTrace(s, actions, t) && RenewalSteps(actions, id) == n && Zombie(t, id)
    decreases n
  {
    hide Consistent, Next, Zombie;
    if n == 0 {
      return [], s;
    }
    var a := ZombieStep(s, id);
    StepConsistent(s, a);
    var rest;
    rest, t := ZombieGoesOn(Next(s, a), id, n - 1);
    actions := [a] + rest;
    assert actions[1..] == rest;
  }

  /**
   * A finished run can go on renewing, for more than four steps or for ever, exactly when it is within its
   * lease and its chain is armed, under way or was answered with success.
   */
  lemma RenewsOnExactly(s: System, id: RunId)
    requires Consistent(s) && id in s.runs && s.runs[id].phase == Finished
    ensures CanRenew(s, id, 5) <==> Zombie(s, id)
    ensures (forall n: nat :: CanRenew(s, id, n)) <==> Zombie(s, id)
  {
    hide Consistent, HasEntry;
    if Zombie(s, id) {
      forall n: nat
        ensures CanRenew(s, id, n)
      {
        var actions, t := ZombieGoesOn(s, id, n);
      }
    } else {
      var renewal := s.runs[id].renewal;
      assert renewal.Answered? ==> renewal == Answered(renewal.renewed);
      assert Ending(s, id);
      forall actions, t | IsTrace(s, actions, t)
        ensures RenewalSteps(actions, id) <= 4
      {
        RenewalDiesOut(s, actions, t, id);
      }
      assert !CanRenew(s, id, 5);
    }
  }

  /** A release that succeeds ends the chain, whatever it was about to do. */
  lemma ReleaseEndsChain(s: System, id: RunId)
    requires Consistent(s) && Enabled(s, ReleaseExecutes(id))
    ensures !CanRenew(Next(s, ReleaseExecutes(id)), id, 5)
  {
    hide Consistent;
    StepConsistent(s, ReleaseExecutes(id));
    ReleasedIsLost(s, id);
    RenewsOnExactly(Next(s, ReleaseExecutes(id)), id);
  }

  /** One that fails lets it go on exactly when the run is within its lease and the chain has not ended. */
  lemma FailedReleaseRenewsOn(s: System, id: RunId)
    requires Consistent(s) && Enabled(s, ReleaseFails(id))
    ensures (forall n: nat :: CanRenew(Next(s, ReleaseFails(id)), id, n)) <==>
            HoldsLease(s, id) && s.runs[id].renewal in {Armed, InFlight, Answered(true)}
  {
    StepConsistent(s, ReleaseFails(id));
    RenewsOnExactly(Next(s, ReleaseFails(id)), id);
  }
}
