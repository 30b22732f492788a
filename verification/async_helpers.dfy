/** `mapConcurrent` of src/shared/helpers/async.helpers.ts */
module AsyncHelpers {
  import opened Wrappers

  /** A worker between its suspension points: about to look at the cursor, or awaiting a mapper call. */
  datatype Worker = Ready | Awaiting(index: nat) | Returned | Rejected(index: nat) {
    predicate Settled() {
      Returned? || Rejected?
    }

    /** The index whose mapper call this worker made and whose result it has not stored. */
    predicate Owes(i: nat) {
      (Awaiting? || Rejected?) && index == i
    }

    function Weight(): nat {
      match this
      case Ready => 1
      case Awaiting(_) => 2
      case _ => 0
    }
  }

  function Min(a: int, b: int): int {
    if a < b then a else b
  }

  function Weights(workers: seq<Worker>): nat {
    if workers == [] then 0 else workers[0].Weight() + Weights(workers[1..])
  }

  lemma {:induction false} WeightsUpdated(workers: seq<Worker>, w: nat, next: Worker)
    requires w < |workers|
    ensures Weights(workers[w := next]) == Weights(workers) - workers[w].Weight() + next.Weight()
  {
    var updated := workers[w := next];
    if w == 0 {
      assert updated[1..] == workers[1..];
    } else {
      assert updated[1..] == workers[1..][w - 1 := next];
      WeightsUpdated(workers[1..], w - 1, next);
    }
  }

  /** The mapper calls in flight. */
  function InFlight(workers: seq<Worker>): (n: nat)
    ensures n <= |workers|
  {
    if workers == [] then 0 else (if workers[0].Awaiting? then 1 else 0) + InFlight(workers[1..])
  }

  /** Some worker claimed index `i` and has not stored its result. */
  ghost predicate Owed(workers: seq<Worker>, i: nat) {
    exists w :: 0 <= w < |workers| && workers[w].Owes(i)
  }

  /** The effect on who owes what of one worker changing from `before[w]` to `after[w]`. */
  lemma OwedUpdated(before: seq<Worker>, after: seq<Worker>, w: nat, i: nat)
    requires w < |before| == |after| && after == before[w := after[w]]
    ensures Owed(after, i) <==> after[w].Owes(i) || exists v :: 0 <= v < |before| && v != w && before[v].Owes(i)
    ensures Owed(before, i) <==> before[w].Owes(i) || exists v :: 0 <= v < |before| && v != w && before[v].Owes(i)
  {
    if Owed(after, i) && !after[w].Owes(i) {
      var v :| 0 <= v < |after| && after[v].Owes(i);
      assert before[v].Owes(i);
    }
    if v :| 0 <= v < |before| && v != w && before[v].Owes(i) {
      assert after[v].Owes(i);
    }
  }

  /** The workers of one call, sharing the cursor and the output. */
  class Pool<T, U(==)> {
    const items: seq<T>
    const mapper: (T, nat) -> U
    var cursor: nat
    var output: seq<Option<U>>
    var workers: seq<Worker>
    ghost var claims: seq<nat>

    function Result(i: nat): U
      requires i < |items|
    {
      mapper(items[i], i)
    }

    /**
     * The indices below the cursor have been claimed, each once and in order; each has its result
     * stored or is owed by exactly one worker; a worker has returned only after the last claim.
     */
    ghost predicate Valid()
      reads this
    {
      && cursor <= |items| == |output|
      && |claims| == cursor && (forall i :: 0 <= i < cursor ==> claims[i] == i)
      && (forall i: nat :: i < cursor ==>
            if Owed(workers, i) then output[i].None? else output[i] == Some(Result(i)))
      && (forall i: nat :: cursor <= i < |items| ==> output[i].None?)
      && (forall w :: 0 <= w < |workers| ==> match workers[w]
            case Awaiting(i) => i < cursor
            case Rejected(i) => i < cursor
            case Returned => cursor == |items|
            case Ready => true)
      && (forall v, w :: 0 <= v < w < |workers| && (workers[w].Awaiting? || workers[w].Rejected?) ==>
            !workers[v].Owes(workers[w].index))
    }

    constructor (items: seq<T>, limit: int, mapper: (T, nat) -> U)
      requires limit >= 1
      ensures Valid() && this.items == items && this.mapper == mapper
      ensures |workers| == Min(limit, |items|) && forall w :: 0 <= w < |workers| ==> workers[w].Ready?
    {
      this.items, this.mapper := items, mapper;
      cursor, claims := 0, [];
      output := seq(|items|, _ => None);
      workers := seq(Min(limit, |items|), _ => Ready);
    }

    /** A worker looks at the cursor: it claims the next index and calls the mapper, or returns. */
    method Resume(w: nat)
      requires Valid() && w < |workers| && workers[w].Ready?
      modifies this`cursor, this`workers, this`claims
      ensures Valid()
      ensures old(cursor) < |items| ==>
                && workers == old(workers)[w := Awaiting(old(cursor))]
                && cursor == old(cursor) + 1 && claims == old(claims) + [old(cursor)]
      ensures old(cursor) == |items| ==>
                workers == old(workers)[w := Returned] && cursor == old(cursor) && claims == old(claims)
    {
      if cursor < |items| {
        var index := cursor;
        cursor := cursor + 1;
        claims := claims + [index];
        workers := workers[w := Awaiting(index)];
        forall i: nat
          ensures Owed(workers, i) <==> old(Owed(workers, i)) || i == index
        {
          OwedUpdated(old(workers), workers, w, i);
        }
      } else {
        workers := workers[w := Returned];
        forall i: nat
          ensures Owed(workers, i) <==> old(Owed(workers, i))
        {
          OwedUpdated(old(workers), workers, w, i);
        }
      }
    }

    /** The mapper call a worker awaits is fulfilled. */
    method Fulfil(w: nat)
      requires Valid() && w < |workers| && workers[w].Awaiting?
      modifies this`output, this`workers
      ensures Valid()
      ensures workers == old(workers)[w := Ready]
      ensures output == old(output)[old(workers)[w].index := Some(Result(old(workers)[w].index))]
    {
      var index := workers[w].index;
      output := output[index := Some(Result(index))];
      workers := workers[w := Ready];
      forall i: nat
        ensures Owed(workers, i) <==> old(Owed(workers, i)) && i != index
      {
        OwedUpdated(old(workers), workers, w, i);
      }
    }

    /** ... or rejected, which ends the worker. */
    method Reject(w: nat)
      requires Valid() && w < |workers| && workers[w].Awaiting?
      modifies this`workers
      ensures Valid()
      ensures workers == old(workers)[w := Rejected(old(workers)[w].index)]
    {
      workers := workers[w := Rejected(workers[w].index)];
      forall i: nat
        ensures Owed(workers, i) <==> old(Owed(workers, i))
      {
        OwedUpdated(old(workers), workers, w, i);
      }
    }

    /** How many more steps the workers can take. */
    ghost function Budget(): int
      reads this
    {
      2 * (|items| - cursor) + Weights(workers)
    }

    /** Any one step of an unsettled worker. */
    method Step(w: nat) returns (rejected: bool)
      requires Valid() && w < |workers| && !workers[w].Settled()
      modifies this
      ensures Valid() && |workers| == |old(workers)| && Budget() < old(Budget())
      ensures workers[w].Rejected? <==> rejected
      ensures forall v :: 0 <= v < |workers| && v != w ==> workers[v] == old(workers)[v]
    {
      WeightsUpdated(workers, w, Returned);
      WeightsUpdated(workers, w, Awaiting(cursor));
      WeightsUpdated(workers, w, Ready);
      rejected := false;
      if workers[w].Ready? {
        Resume(w);
      } else {
        WeightsUpdated(workers, w, Rejected(workers[w].index));
        rejected := *;
        if rejected {
          Reject(w);
        } else {
          Fulfil(w);
        }
      }
    }

    /** Once every worker has returned, the output is the mapped list. */
    lemma Complete()
      requires Valid() && |workers| > 0 && forall w :: 0 <= w < |workers| ==> workers[w].Returned?
      ensures cursor == |items| && forall i :: 0 <= i < |items| ==> output[i] == Some(Result(i))
    {
      assert workers[0].Returned?;
    }
  }

  datatype MapError = BadLimit | MapperRejected

  function Mapped<T, U>(items: seq<T>, mapper: (T, nat) -> U): seq<U> {
    seq(|items|, i requires 0 <= i < |items| => mapper(items[i], i))
  }

  /** One worker has moved, or none. */
  ghost predicate OneMoved(before: seq<Worker>, after: seq<Worker>) {
    |before| == |after| && exists w :: 0 <= w < |before| && after == before[w := after[w]]
  }

  predicate AllSettled(workers: seq<Worker>) {
    forall w :: 0 <= w < |workers| ==> workers[w].Settled()
  }

  /** The states the workers pass through, one step at a time: all ready at first, all settled in the end. */
  ghost predicate IsSchedule(states: seq<seq<Worker>>) {
    && states != []
    && (forall w :: 0 <= w < |states[0]| ==> states[0][w].Ready?)
    && (forall k :: 0 <= k < |states| - 1 ==> OneMoved(states[k], states[k + 1]))
  }

  /**
   * Runs the pool to the end under any scheduling, any mapper call being allowed to reject. Without a
   * rejection the result is the sequential map, in input order. At no time are there more than `limit` calls
   * in flight.
   */
  method MapConcurrent<T, U(==)>(items: seq<T>, limit: int, mapper: (T, nat) -> U)
    returns (r: Result<seq<U>, MapError>, ghost claims: seq<nat>, rejections: nat, ghost states: seq<seq<Worker>>)
    ensures r == Failure(BadLimit) <==> limit < 1
    ensures r == Failure(MapperRejected) <==> limit >= 1 && rejections > 0
    ensures r.Success? ==> r.value == Mapped(items, mapper) && |claims| == |items|
    ensures forall i :: 0 <= i < |claims| ==> claims[i] == i
    ensures limit >= 1 ==> states != [] && IsSchedule(states) && AllSettled(states[|states| - 1])
    ensures forall k :: 0 <= k < |states| ==> InFlight(states[k]) <= limit
  {
    hide IsSchedule, OneMoved, InFlight, Weights;
    rejections, claims, states := 0, [], [];
    if limit < 1 {
      return Failure(BadLimit), claims, rejections, states;
    }
    var pool := new Pool(items, limit, mapper);
    states := [pool.workers];
    ScheduleBegun(pool.workers);
    while exists w :: 0 <= w < |pool.workers| && !pool.workers[w].Settled()
      invariant pool.Valid() && pool.items == items && pool.mapper == mapper
      invariant |pool.workers| == Min(limit, |items|)
      invariant states != [] && IsSchedule(states) && states[|states| - 1] == pool.workers
      invariant forall k :: 0 <= k < |states| ==> InFlight(states[k]) <= limit
      invariant rejections > 0 <==> exists w :: 0 <= w < |pool.workers| && pool.workers[w].Rejected?
      invariant fresh(pool)
      decreases pool.Budget()
    {
      var w :| 0 <= w < |pool.workers| && !pool.workers[w].Settled();
      ghost var before := pool.workers;
      var rejected := pool.Step(w);
      if rejected {
        rejections := rejections + 1;
      }
      RejectionSeen(before, pool.workers, w);
      assert pool.workers == before[w := pool.workers[w]];
      ScheduleNext(states, pool.workers, w);
      states := states + [pool.workers];
    }
    claims := pool.claims;
    if rejections > 0 {
      return Failure(MapperRejected), claims, rejections, states;
    }
    if |items| > 0 {
      assert forall v :: 0 <= v < |pool.workers| ==> pool.workers[v].Settled();
      pool.Complete();
    }
    var output := pool.output;
    var values := seq(|output|, i requires 0 <= i < |output| && output[i].Some? => output[i].value);
    return Success(values), claims, rejections, states;
  }

  lemma ScheduleBegun(workers: seq<Worker>)
    requires forall w :: 0 <= w < |workers| ==> workers[w].Ready?
    ensures IsSchedule([workers])
  {
  }

  lemma ScheduleNext(states: seq<seq<Worker>>, next: seq<Worker>, w: nat)
    requires states != [] && IsSchedule(states) && w < |next| == |states[|states| - 1]|
    requires next == states[|states| - 1][w := next[w]]
    ensures IsSchedule(states + [next])
  {
    assert OneMoved(states[|states| - 1], next);
    var all := states + [next];
    forall k | 0 <= k < |all| - 1
      ensures OneMoved(all[k], all[k + 1])
    {
      if k < |states| - 1 {
        assert all[k + 1] == states[k + 1];
      }
    }
  }

  lemma RejectionSeen(before: seq<Worker>, after: seq<Worker>, w: nat)
    requires w < |before| == |after| && after == before[w := after[w]] && !before[w].Rejected?
    ensures (exists v :: 0 <= v < |after| && after[v].Rejected?) <==>
            after[w].Rejected? || exists v :: 0 <= v < |before| && before[v].Rejected?
  {
    if v :| 0 <= v < |before| && before[v].Rejected? {
      assert after[v].Rejected?;
    }
    if v :| 0 <= v < |after| && after[v].Rejected? {
      assert v == w || before[v].Rejected?;
    }
  }
}
