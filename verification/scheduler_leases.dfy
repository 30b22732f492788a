/** When a run is granted the lock, and what its renewals obtain, in terms of the lock table alone. */
module SchedulerLeases {
  import opened Wrappers
  import opened Text
  import opened SchedulerLock
  import opened SchedulerRuns

  predicate Blank(key: string) {
    forall i :: 0 <= i < |key| ==> IsSpace(key[i])
  }

  /** The number of entries that expire after `time`. */
  function Outliving(locks: Locks, time: int): nat {
    |set key | key in locks && Outlives(locks, key, time)|
  }

  /**
   * An acquire of a key without an unexpired entry is granted whenever the table has room, or an entry of
   * that key to overwrite; whatever else is held does not matter.
   */
  lemma GrantedExactly(s: System, a: Action)
    requires Enabled(s, a) && a.AcquireStep?
    ensures var locks, t := s.locks, Next(s, a);
            && (a.id in t.runs <==>
                && !Blank(a.key) && !Outlives(locks, a.key, s.now + a.pause)
                && (Outlives(locks, a.key, s.now) || Outliving(locks, s.now) < s.maxEntries))
            && t.now == s.now + a.pause + a.pause2
            && t.runs == if a.id !in t.runs then s.runs
                         else s.runs[a.id := Run(a.key, a.token, a.ttlMs, t.now + a.ttlMs, Granted, NoTimer)]
  {
    hide Trim;
    BlankExactly(a.key);
    LiveOutlives(s.locks);
  }

  /** A grant puts the entry of the run in place and drops what has expired; a refusal only drops. */
  lemma GrantedEntries(s: System, a: Action, key: string)
    requires Enabled(s, a) && a.AcquireStep? && !Blank(a.key)
    ensures var t := Next(s, a);
            if a.id in t.runs && key == a.key
            then key in t.locks && t.locks[key] == LockEntry(a.token, t.now + a.ttlMs)
            else && (key in t.locks <==> Outlives(s.locks, key, s.now))
                 && (key in t.locks ==> t.locks[key] == s.locks[key])
  {
    hide Trim;
    BlankExactly(a.key);
  }

  lemma LeaseEntry(s: System, id: RunId)
    requires Consistent(s) && id in s.runs
    ensures HoldsLease(s, id) ==> HasEntry(s, id)
    ensures HasEntry(s, id) ==> s.locks[s.runs[id].key].expiresAt == s.runs[id].leaseUntil
    ensures s.runs[id].ttlMs > 0
  {
  }

  /** A renewal of an unfinished run succeeds exactly when it comes within the lease, which it then prolongs. */
  lemma RenewedExactly(s: System, id: RunId, pause: nat)
    requires Consistent(s) && Enabled(s, RenewExecutes(id, pause)) && s.runs[id].phase != Finished
    ensures var run, t := s.runs[id], Next(s, RenewExecutes(id, pause));
            if run.leaseUntil > s.now
            then && t.runs[id] == run.(renewal := Answered(true), leaseUntil := t.now + run.ttlMs)
                 && t.locks == s.locks[run.key := LockEntry(run.token, t.now + run.ttlMs)]
            else t.runs[id] == run.(renewal := Answered(false)) && Lost(t, id)
  {
    hide Consistent, Acquire, Release;
    LeaseEntry(s, id);
  }

  /** One round of the renewal chain: the timer fires, the lock renews, the answer sets the timer again. */
  function Round(id: RunId, wait: nat, pause: nat): seq<Action> {
    [Wait(wait), TimerFires(id), RenewExecutes(id, pause), RenewReturns(id)]
  }

  lemma TraceFrom(s: System, a: Action, actions: seq<Action>, t: System, id: RunId)
    requires Enabled(s, a) && IsTrace(Next(s, a), actions, t)
    ensures IsTrace(s, [a] + actions, t)
    ensures RenewalSteps([a] + actions, id) == (if IsRenewalStep(a, id) then 1 else 0) + RenewalSteps(actions, id)
  {
    hide Enabled, Next;
    assert ([a] + actions)[1..] == actions;
  }

  lemma WaitingConsistent(s: System, id: RunId, wait: nat)
    requires Consistent(s) && HoldsLease(s, id) && s.runs[id].renewal == Armed
    ensures var t := Next(Next(s, Wait(wait)), TimerFires(id));
            && Consistent(t) && t.now == s.now + wait && t.runs == s.runs[id := s.runs[id].(renewal := InFlight)]
  {
    hide Consistent;
    StepConsistent(s, Wait(wait));
    StepConsistent(Next(s, Wait(wait)), TimerFires(id));
  }

  /** A round that reaches the lock within the lease leaves the run with a whole new one and the timer set. */
  lemma RoundKeepsLease(s: System, id: RunId, wait: nat, pause: nat) returns (t: System)
    requires Consistent(s) && HoldsLease(s, id) && s.runs[id].renewal == Armed
    requires s.now + wait < s.runs[id].leaseUntil
    ensures id in t.runs
    ensures IsTrace(s, Round(id, wait, pause), t) && RenewalSteps(Round(id, wait, pause), id) == 3
    ensures t.now == s.now + wait + pause && t.runs[id] == s.runs[id].(leaseUntil := t.now + s.runs[id].ttlMs)
    ensures HoldsLease(t, id) && Consistent(t)
  {
    hide Consistent, HasEntry, Renew;
    LeaseEntry(s, id);
    WaitingConsistent(s, id, wait);
    var fired := Next(Next(s, Wait(wait)), TimerFires(id));
    RenewedExactly(fired, id, pause);
    StepConsistent(fired, RenewExecutes(id, pause));
    var renewed := Next(fired, RenewExecutes(id, pause));
    StepConsistent(renewed, RenewReturns(id));
    t := Next(renewed, RenewReturns(id));
    TraceFrom(renewed, RenewReturns(id), [], t, id);
    TraceFrom(fired, RenewExecutes(id, pause), [RenewReturns(id)], t, id);
    TraceFrom(Next(s, Wait(wait)), TimerFires(id), [RenewExecutes(id, pause), RenewReturns(id)], t, id);
    TraceFrom(s, Wait(wait), Round(id, wait, pause)[1..], t, id);
    assert Round(id, wait, pause) == [Wait(wait)] + Round(id, wait, pause)[1..];
    assert [RenewExecutes(id, pause)] + [RenewReturns(id)] == [RenewExecutes(id, pause), RenewReturns(id)];
    assert [RenewReturns(id)] + [] == [RenewReturns(id)];
  }

  /** A run that begins sets its renewal timer, and stays within the lease it was granted. */
  lemma BeginsArmed(s: System, id: RunId)
    requires Enabled(s, Begin(id))
    ensures Next(s, Begin(id)).runs[id] == s.runs[id].(phase := Running, renewal := Armed)
    ensures HoldsLease(Next(s, Begin(id)), id) <==> HoldsLease(s, id)
  {
  }

  predicate Cleared(s: System, id: RunId) {
    id in s.runs && s.runs[id].phase in {Releasing, Finished} && s.runs[id].renewal == NoTimer
  }

  lemma ClearedStays(s: System, a: Action, id: RunId)
    requires Enabled(s, a) && Cleared(s, id)
    ensures Cleared(Next(s, a), id) && !IsRenewalStep(a, id)
  {
    hide Acquire, Release, Renew;
  }

  lemma {:induction false} ClearedForGood(s: System, actions: seq<Action>, t: System, id: RunId)
    requires IsTrace(s, actions, t) && Cleared(s, id)
    ensures RenewalSteps(actions, id) == 0
    decreases |actions|
  {
    hide Cleared, Next;
    if actions != [] {
      ClearedStays(s, actions[0], id);
      ClearedForGood(Next(s, actions[0]), actions[1..], t, id);
    }
  }

  /** A handler that settles while the timer is set, or with no timer, ends the renewals at once. */
  lemma SettlingClears(s: System, id: RunId, actions: seq<Action>, t: System)
    requires Enabled(s, HandlerSettles(id)) && s.runs[id].renewal in {Armed, NoTimer}
    requires IsTrace(Next(s, HandlerSettles(id)), actions, t)
    ensures RenewalSteps(actions, id) == 0
  {
    ClearedForGood(Next(s, HandlerSettles(id)), actions, t, id);
  }

  /** A release that succeeds frees the key of the run, and touches no other. */
  lemma ReleaseFrees(s: System, id: RunId)
    requires Consistent(s) && Enabled(s, ReleaseExecutes(id))
    ensures var t := Next(s, ReleaseExecutes(id));
            && t.locks == (if HasEntry(s, id) then s.locks - {s.runs[id].key} else s.locks)
            && t.runs == s.runs[id := s.runs[id].(phase := Finished)] && t.now == s.now
  {
  }
}
