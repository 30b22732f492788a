/**
 * Acknowledgement, retry and dead-lettering of src/infrastructure/messaging/base-broker.adapter.ts over
 * a driver that delivers each published copy once and never redelivers, with nobody subscribed to the
 * dead-letter topic. Handlers may do anything, at any time, also after they have timed out.
 */
module BrokerAdapter {
  import opened Wrappers
  import opened Totals

  datatype Options = Options(maxRetries: Option<nat>, deadLetterTopic: Option<string>, ackTimeoutMs: Option<int>) {
    function RetryLimit(): nat {
      if maxRetries.Some? then maxRetries.value else 3
    }

    function DeadTopic(topic: string): string {
      if deadLetterTopic.Some? then deadLetterTopic.value else topic + ".dead-letter"
    }
  }

  /** A copy of the message that was published as number `origin`. */
  datatype Copy = Copy(origin: nat, topic: string, attempt: nat)

  /** Where `dispatch` is: racing handler against timeout, about to settle the message, or done. */
  datatype Loop = Racing | Succeeded | Failed | Closed

  /** What settling a delivery has come to; a rejection first nacks, then publishes when it is to be retried. */
  datatype Settling = Open | Acked | Rejecting(retry: bool) | Rejected(retry: bool)

  datatype DriverCall = AckCall | NackCall

  /** A delivery being dispatched; `calls` are the settlements the driver has seen. */
  datatype Delivery = Delivery(copy: Copy, handlerLive: bool, loop: Loop, settled: bool, settling: Settling,
                               calls: seq<DriverCall>)
  {
    /** `message.ack()` */
    function Ack(): Delivery {
      if settled then this else this.(settled := true, settling := Acked, calls := calls + [AckCall])
    }

    /** `message.nack(retry)` up to the publication of the next copy. */
    function Nack(retry: bool): Delivery {
      if settled then this
      else this.(settled := true, settling := Rejecting(retry), calls := calls + [NackCall])
    }

    ghost predicate Valid() {
      && (settled <==> settling != Open) && |calls| == (if settled then 1 else 0)
      && (loop == Racing ==> handlerLive) && (loop == Closed ==> settled)
    }

    /** The delivery still answers for its message: it has not passed it on to a new copy. */
    predicate Answers() {
      settling != Rejected(true)
    }
  }

  datatype System = System(queue: seq<Copy>, deliveries: seq<Delivery>, dead: seq<Copy>, published: nat)

  datatype Action =
    | Publish(topic: string)
    | Deliver(i: nat)
    | HandlerAcks(d: nat)
    | HandlerNacks(d: nat, retry: bool)
    | HandlerReturns(d: nat)
    | HandlerThrows(d: nat)
    | TimesOut(d: nat)
    | LoopAcks(d: nat)
    | LoopNacks(d: nat)
    | FinishReject(d: nat)

  predicate Enabled(o: Options, s: System, a: Action) {
    match a
    case Publish(_) => true
    case Deliver(i) => i < |s.queue|
    case HandlerAcks(d) => d < |s.deliveries| && s.deliveries[d].handlerLive
    case HandlerNacks(d, _) => d < |s.deliveries| && s.deliveries[d].handlerLive
    case HandlerReturns(d) => d < |s.deliveries| && s.deliveries[d].handlerLive
    case HandlerThrows(d) => d < |s.deliveries| && s.deliveries[d].handlerLive
    case TimesOut(d) => d < |s.deliveries| && s.deliveries[d].loop == Racing && o.ackTimeoutMs.Some?
    case LoopAcks(d) => d < |s.deliveries| && s.deliveries[d].loop == Succeeded
    case LoopNacks(d) => d < |s.deliveries| && s.deliveries[d].loop == Failed
    case FinishReject(d) => d < |s.deliveries| && s.deliveries[d].settling.Rejecting?
  }

  /** What a step on a delivery makes of it. */
  function Dispatched(d: Delivery, a: Action): Delivery {
    match a
    case HandlerAcks(_) => d.Ack()
    case HandlerNacks(_, retry) => d.Nack(retry)
    case HandlerReturns(_) => d.(handlerLive := false, loop := if d.loop == Racing then Succeeded else d.loop)
    case HandlerThrows(_) => d.(handlerLive := false, loop := if d.loop == Racing then Failed else d.loop)
    case TimesOut(_) => d.(loop := Failed)
    case LoopAcks(_) => d.Ack().(loop := Closed)
    case LoopNacks(_) => d.Nack(true).(loop := Closed)
    case FinishReject(_) => if d.settling.Rejecting? then d.(settling := Rejected(d.settling.retry)) else d
    case _ => d
  }

  /** The copy that is published again for a message to be retried, if attempts are left ... */
  function Retried(o: Options, copy: Copy): seq<Copy> {
    if copy.attempt + 1 <= o.RetryLimit() then [copy.(attempt := copy.attempt + 1)] else []
  }

  /** ... and otherwise the one for the dead-letter topic. */
  function GivenUp(o: Options, copy: Copy): seq<Copy> {
    if copy.attempt + 1 <= o.RetryLimit() then []
    else [copy.(attempt := copy.attempt + 1, topic := o.DeadTopic(copy.topic))]
  }

  function Next(o: Options, s: System, a: Action): System
    requires Enabled(o, s, a)
  {
    match a
    case Publish(topic) => s.(queue := s.queue + [Copy(s.published, topic, 0)], published := s.published + 1)
    case Deliver(i) =>
      s.(queue := s.queue[..i] + s.queue[i + 1..],
         deliveries := s.deliveries + [Delivery(s.queue[i], true, Racing, false, Open, [])])
    case FinishReject(n) =>
      var d := s.deliveries[n];
      var t := s.(deliveries := s.deliveries[n := Dispatched(d, a)]);
      if !d.settling.retry then t
      else t.(queue := t.queue + Retried(o, d.copy), dead := t.dead + GivenUp(o, d.copy))
    case _ => s.(deliveries := s.deliveries[a.d := Dispatched(s.deliveries[a.d], a)])
  }

  /** The broker behind the driver: what is queued for delivery, and what nobody subscribes to. */
  class Driver {
    var queue: seq<Copy>
    var dead: seq<Copy>

    constructor ()
      ensures queue == dead == []
    {
      queue, dead := [], [];
    }
  }

  /** One call of `dispatch`: the delivery, the flag that the message's closures share, and its progress. */
  class Dispatch {
    const options: Options
    const copy: Copy
    var handlerLive: bool
    var loop: Loop
    var settled: bool
    var settling: Settling
    var calls: seq<DriverCall>

    function Value(): Delivery
      reads this
    {
      Delivery(copy, handlerLive, loop, settled, settling, calls)
    }

    constructor (options: Options, copy: Copy)
      ensures Value() == Delivery(copy, true, Racing, false, Open, []) && Value().Valid() && this.options == options
    {
      this.options, this.copy := options, copy;
      handlerLive, loop, settled, settling, calls := true, Racing, false, Open, [];
    }

    /** `message.ack()` */
    method MessageAck()
      modifies this
      ensures Value() == old(Value()).Ack()
    {
      if settled {
        return;
      }
      settled := true;
      calls := calls + [AckCall];
      settling := Acked;
    }

    /** `message.nack(retry)`, as far as the answer of `delivery.nack(false)` is awaited. */
    method MessageNack(retry: bool)
      modifies this
      ensures Value() == old(Value()).Nack(retry)
    {
      if settled {
        return;
      }
      settled := true;
      calls := calls + [NackCall];
      settling := Rejecting(retry);
    }

    /** The rest of `reject`. */
    method FinishRejection(driver: Driver)
      requires settling.Rejecting?
      modifies this, driver
      ensures Value() == old(Value()).(settling := Rejected(old(settling).retry))
      ensures driver.queue == old(driver.queue) + if old(settling).retry then Retried(options, copy) else []
      ensures driver.dead == old(driver.dead) + if old(settling).retry then GivenUp(options, copy) else []
    {
      var retry := settling.retry;
      settling := Rejected(retry);
      if !retry {
        return;
      }
      var nextAttempt := copy.attempt + 1;
      if nextAttempt <= options.RetryLimit() {
        driver.queue := driver.queue + [Copy(copy.origin, copy.topic, nextAttempt)];
        return;
      }
      driver.dead := driver.dead + [Copy(copy.origin, options.DeadTopic(copy.topic), nextAttempt)];
    }

    /** The handler returns or throws, in time or after the race was lost to the timeout. */
    method HandlerEnds(threw: bool)
      requires handlerLive
      modifies this
      ensures Value() == Dispatched(old(Value()), if threw then HandlerThrows(0) else HandlerReturns(0))
    {
      handlerLive := false;
      if loop == Racing {
        loop := if threw then Failed else Succeeded;
      }
    }

    /** The timeout wins the race; the handler goes on. */
    method TimeOut()
      requires loop == Racing && options.ackTimeoutMs.Some?
      modifies this
      ensures Value() == Dispatched(old(Value()), TimesOut(0))
    {
      loop := Failed;
    }

    /** What `dispatch` does after the race: ack, or nack with retry. */
    method Conclude()
      requires loop == Succeeded || loop == Failed
      modifies this
      ensures Value() == if old(loop) == Succeeded then old(Value()).Ack().(loop := Closed)
                         else old(Value()).Nack(true).(loop := Closed)
    {
      if loop == Succeeded {
        MessageAck();
      } else {
        MessageNack(true);
      }
      loop := Closed;
    }
  }

  ghost predicate IsTrace(o: Options, s: System, actions: seq<Action>, t: System)
    decreases |actions|
  {
    if actions == [] then s == t
    else Enabled(o, s, actions[0]) && IsTrace(o, Next(o, s, actions[0]), actions[1..], t)
  }

  const INITIAL := System([], [], [], 0)

  // ----- Counting ------------------------------------------------------------------------------

  function CopyOf(m: nat): Copy -> int {
    (c: Copy) => if c.origin == m then 1 else 0
  }

  function AttemptsOf(m: nat): Copy -> int {
    (c: Copy) => if c.origin == m then c.attempt else 0
  }

  function HandlingOf(m: nat): Delivery -> int {
    (d: Delivery) => if d.copy.origin == m then 1 else 0
  }

  function AnswerFor(m: nat): Delivery -> int {
    (d: Delivery) => if d.copy.origin == m && d.Answers() then 1 else 0
  }

  function AnswerAttempts(m: nat): Delivery -> int {
    (d: Delivery) => if d.copy.origin == m && d.Answers() then d.copy.attempt + 1 else 0
  }

  function UnsettledOf(m: nat): Delivery -> int {
    (d: Delivery) => if d.copy.origin == m && !d.settled then 1 else 0
  }

  /** How often message `m` has been handed to a handler. */
  function Handled(s: System, m: nat): int {
    Sum(s.deliveries, HandlingOf(m))
  }

  /** The places that answer for message `m`: queued, in the hands of a delivery, or dead-lettered. */
  function Places(s: System, m: nat): int {
    Sum(s.queue, CopyOf(m)) + Sum(s.deliveries, AnswerFor(m)) + Sum(s.dead, CopyOf(m))
  }

  function Attempts(s: System, m: nat): int {
    Sum(s.queue, AttemptsOf(m)) + Sum(s.deliveries, AnswerAttempts(m)) + Sum(s.dead, AttemptsOf(m))
  }

  /** The copies of `m` the broker holds: queued, or delivered and not yet acked or nacked. */
  function LiveCopies(s: System, m: nat): int {
    Sum(s.queue, CopyOf(m)) + Sum(s.deliveries, UnsettledOf(m))
  }

  ghost predicate Balanced(s: System, m: nat) {
    && Places(s, m) == (if m < s.published then 1 else 0)
    && Attempts(s, m) == Handled(s, m)
  }

  ghost predicate Consistent(o: Options, s: System) {
    && (forall d :: d in s.deliveries ==> d.Valid() && d.copy.attempt <= o.RetryLimit())
    && (forall c :: c in s.queue ==> c.attempt <= o.RetryLimit())
    && (forall c :: c in s.dead ==> c.attempt == o.RetryLimit() + 1)
    && (forall m: nat :: Balanced(s, m))
  }

  /** A step that only changes one delivery, leaving it in charge of its message. */
  lemma DispatchBalanced(s: System, n: nat, d: Delivery, m: nat)
    requires n < |s.deliveries| && d.copy == s.deliveries[n].copy && d.Answers() == s.deliveries[n].Answers()
    requires Balanced(s, m)
    ensures Balanced(s.(deliveries := s.deliveries[n := d]), m)
  {
    SumUpdated(s.deliveries, n, d, HandlingOf(m));
    SumUpdated(s.deliveries, n, d, AnswerFor(m));
    SumUpdated(s.deliveries, n, d, AnswerAttempts(m));
  }

  lemma PublishBalanced(o: Options, s: System, a: Action, m: nat)
    requires Enabled(o, s, a) && a.Publish? && Balanced(s, m)
    ensures Balanced(Next(o, s, a), m)
  {
    hide Sum;
    var c := Copy(s.published, a.topic, 0);
    SumAppended(s.queue, c, CopyOf(m));
    SumAppended(s.queue, c, AttemptsOf(m));
  }

  lemma DeliverBalanced(o: Options, s: System, a: Action, m: nat)
    requires Enabled(o, s, a) && a.Deliver? && Balanced(s, m)
    ensures Balanced(Next(o, s, a), m)
  {
    hide Sum;
    var d := Delivery(s.queue[a.i], true, Racing, false, Open, []);
    SumRemoved(s.queue, a.i, CopyOf(m));
    SumRemoved(s.queue, a.i, AttemptsOf(m));
    SumAppended(s.deliveries, d, HandlingOf(m));
    SumAppended(s.deliveries, d, AnswerFor(m));
    SumAppended(s.deliveries, d, AnswerAttempts(m));
  }

  /** A delivery hands its message on to a next copy, which no longer is its business. */
  lemma HandOverBalanced(s: System, n: nat, e: Delivery, next: Copy, m: nat)
    requires n < |s.deliveries| && e == s.deliveries[n].(settling := Rejected(true)) && s.deliveries[n].Answers()
    requires next.origin == e.copy.origin && next.attempt == e.copy.attempt + 1 && Balanced(s, m)
    ensures Balanced(s.(deliveries := s.deliveries[n := e], queue := s.queue + [next]), m)
    ensures Balanced(s.(deliveries := s.deliveries[n := e], dead := s.dead + [next]), m)
  {
    hide Sum;
    SumUpdated(s.deliveries, n, e, HandlingOf(m));
    SumUpdated(s.deliveries, n, e, AnswerFor(m));
    SumUpdated(s.deliveries, n, e, AnswerAttempts(m));
    SumAppended(s.queue, next, CopyOf(m));
    SumAppended(s.queue, next, AttemptsOf(m));
    SumAppended(s.dead, next, CopyOf(m));
    SumAppended(s.dead, next, AttemptsOf(m));
  }

  lemma RejectBalanced(o: Options, s: System, a: Action, m: nat)
    requires Enabled(o, s, a) && a.FinishReject? && Balanced(s, m)
    ensures Balanced(Next(o, s, a), m)
  {
    hide Balanced;
    var d := s.deliveries[a.d];
    if !d.settling.retry {
      DispatchBalanced(s, a.d, Dispatched(d, a), m);
    } else {
      var next := d.copy.(attempt := d.copy.attempt + 1);
      HandOverBalanced(s, a.d, Dispatched(d, a), next, m);
      HandOverBalanced(s, a.d, Dispatched(d, a), next.(topic := o.DeadTopic(next.topic)), m);
      assert s.queue + [] == s.queue && s.dead + [] == s.dead;
    }
  }

  lemma StepBalanced(o: Options, s: System, a: Action, m: nat)
    requires Enabled(o, s, a) && Balanced(s, m)
    requires forall d :: d in s.deliveries ==> d.Valid()
    ensures Balanced(Next(o, s, a), m)
  {
    match a
    case Publish(_) => PublishBalanced(o, s, a, m);
    case Deliver(_) => DeliverBalanced(o, s, a, m);
    case FinishReject(_) => RejectBalanced(o, s, a, m);
    case _ =>
      assert s.deliveries[a.d] in s.deliveries;
      DispatchBalanced(s, a.d, Dispatched(s.deliveries[a.d], a), m);
  }

  lemma StepConsistent(o: Options, s: System, a: Action)
    requires Consistent(o, s) && Enabled(o, s, a)
    ensures Consistent(o, Next(o, s, a))
  {
    forall m: nat
      ensures Balanced(Next(o, s, a), m)
    {
      StepBalanced(o, s, a, m);
    }
    hide Balanced;
    if a.Deliver? {
      assert s.queue[a.i] in s.queue;
    } else if !a.Publish? {
      assert s.deliveries[a.d] in s.deliveries;
    }
  }

  lemma {:induction false} TraceConsistent(o: Options, s: System, actions: seq<Action>, t: System)
    requires Consistent(o, s) && IsTrace(o, s, actions, t)
    ensures Consistent(o, t)
    decreases |actions|
  {
    hide Balanced;
    if actions != [] {
      StepConsistent(o, s, actions[0]);
      TraceConsistent(o, Next(o, s, actions[0]), actions[1..], t);
    }
  }

  lemma Reachable(o: Options, actions: seq<Action>, s: System)
    requires IsTrace(o, INITIAL, actions, s)
    ensures Consistent(o, s)
  {
    assert forall m: nat :: Balanced(INITIAL, m);
    TraceConsistent(o, INITIAL, actions, s);
  }

  // ----- Results -------------------------------------------------------------------------------

  /** Once a message is settled and the race decided, whatever its handler still does goes unnoticed. */
  lemma LateHandlerUnnoticed(d: Delivery, a: Action)
    requires d.settled && d.loop != Racing
    requires a.HandlerAcks? || a.HandlerNacks? || a.HandlerReturns? || a.HandlerThrows?
    ensures Dispatched(d, a) == d.(handlerLive := Dispatched(d, a).handlerLive)
  {
  }

  /** A delivery reaches the driver as one ack or nack: never two, and one when its dispatch is done. */
  lemma SettledOnce(o: Options, actions: seq<Action>, s: System, n: nat)
    requires IsTrace(o, INITIAL, actions, s) && n < |s.deliveries|
    ensures |s.deliveries[n].calls| <= 1
    ensures s.deliveries[n].loop == Closed ==> |s.deliveries[n].calls| == 1
  {
    Reachable(o, actions, s);
    assert s.deliveries[n] in s.deliveries;
  }

  /** What the driver has seen of a delivery it never sees differently. */
  lemma SettlementFinal(o: Options, s: System, a: Action, n: nat)
    requires Enabled(o, s, a) && n < |s.deliveries| && s.deliveries[n].settled
    ensures n < |Next(o, s, a).deliveries| && Next(o, s, a).deliveries[n].settled
    ensures Next(o, s, a).deliveries[n].calls == s.deliveries[n].calls
  {
  }

  /** A delivery that is not settled answers for its message. */
  lemma UnsettledAnswer(o: Options, s: System, m: nat)
    requires Consistent(o, s)
    ensures Sum(s.deliveries, UnsettledOf(m)) <= Sum(s.deliveries, AnswerFor(m))
  {
    hide Sum, Balanced;
    forall i | 0 <= i < |s.deliveries|
      ensures UnsettledOf(m)(s.deliveries[i]) <= AnswerFor(m)(s.deliveries[i])
    {
      assert s.deliveries[i] in s.deliveries;
    }
    SumMonotone(s.deliveries, UnsettledOf(m), AnswerFor(m));
  }

  /** Every published message is in exactly one place, and the broker never holds two copies of it. */
  lemma OnePlace(o: Options, actions: seq<Action>, s: System, m: nat)
    requires IsTrace(o, INITIAL, actions, s)
    ensures Places(s, m) == (if m < s.published then 1 else 0) && 0 <= LiveCopies(s, m) <= 1
    ensures LiveCopies(s, m) == 0 ==> Sum(s.queue, CopyOf(m)) == Sum(s.deliveries, UnsettledOf(m)) == 0
  {
    hide Sum, IsTrace;
    Reachable(o, actions, s);
    assert Balanced(s, m);
    CountsNonNegative(s, m);
    UnsettledAnswer(o, s, m);
  }

  lemma CountsNonNegative(s: System, m: nat)
    ensures Sum(s.queue, CopyOf(m)) >= 0 && Sum(s.queue, AttemptsOf(m)) >= 0 && Sum(s.dead, CopyOf(m)) >= 0
    ensures Sum(s.deliveries, AnswerFor(m)) >= 0 && Sum(s.deliveries, AnswerAttempts(m)) >= 0
    ensures Sum(s.deliveries, UnsettledOf(m)) >= 0
    ensures forall i :: 0 <= i < |s.deliveries| ==> Sum(s.deliveries, AnswerFor(m)) >= AnswerFor(m)(s.deliveries[i])
  {
    SumNonNegative(s.queue, CopyOf(m));
    SumNonNegative(s.queue, AttemptsOf(m));
    SumNonNegative(s.dead, CopyOf(m));
    SumNonNegative(s.deliveries, AnswerFor(m));
    SumNonNegative(s.deliveries, AnswerAttempts(m));
    SumNonNegative(s.deliveries, UnsettledOf(m));
  }

  /** The handling counts that the places of a message account for. */
  lemma AttemptBounds(o: Options, s: System, m: nat)
    requires Consistent(o, s)
    ensures Sum(s.queue, AttemptsOf(m)) <= o.RetryLimit() * Sum(s.queue, CopyOf(m))
    ensures Sum(s.deliveries, AnswerAttempts(m)) <= (o.RetryLimit() + 1) * Sum(s.deliveries, AnswerFor(m))
    ensures Sum(s.dead, AttemptsOf(m)) == (o.RetryLimit() + 1) * Sum(s.dead, CopyOf(m))
  {
    var limit := o.RetryLimit();
    hide Balanced;
    assert forall i :: 0 <= i < |s.queue| ==> s.queue[i] in s.queue;
    assert forall i :: 0 <= i < |s.deliveries| ==> s.deliveries[i] in s.deliveries;
    assert forall i :: 0 <= i < |s.dead| ==> s.dead[i] in s.dead;
    SumBounded(s.queue, CopyOf(m), AttemptsOf(m), limit);
    SumBounded(s.deliveries, AnswerFor(m), AnswerAttempts(m), limit + 1);
    SumScaled(s.dead, CopyOf(m), AttemptsOf(m), limit + 1);
  }

  /** One message in `q`, `a` or `d`, with the handlings that these places stand for. */
  lemma PlacesBoundHandlings(limit: nat, q: int, a: int, d: int, inQueue: int, inHand: int, inDead: int)
    requires q >= 0 && a >= 0 && d >= 0 && q + a + d <= 1
    requires 0 <= inQueue <= limit * q && 0 <= inHand <= (limit + 1) * a && inDead == (limit + 1) * d
    ensures inQueue + inHand + inDead <= limit + 1
    ensures d > 0 ==> inQueue + inHand + inDead == limit + 1
  {
    assert q == 0 || q == 1;
    assert a == 0 || a == 1;
    assert d == 0 || d == 1;
  }

  /** Whatever the handlers do, no message is handled more than `maxRetries + 1` times. */
  lemma HandledBounded(o: Options, actions: seq<Action>, s: System, m: nat)
    requires IsTrace(o, INITIAL, actions, s)
    ensures Handled(s, m) <= o.RetryLimit() + 1
    ensures Sum(s.dead, CopyOf(m)) > 0 ==> Handled(s, m) == o.RetryLimit() + 1
  {
    hide Sum, CopyOf, AttemptsOf, AnswerFor, AnswerAttempts, HandlingOf, IsTrace, Options.RetryLimit;
    Reachable(o, actions, s);
    assert Balanced(s, m);
    CountsNonNegative(s, m);
    AttemptBounds(o, s, m);
    PlacesBoundHandlings(o.RetryLimit(),
                         Sum(s.queue, CopyOf(m)), Sum(s.deliveries, AnswerFor(m)), Sum(s.dead, CopyOf(m)),
                         Sum(s.queue, AttemptsOf(m)), Sum(s.deliveries, AnswerAttempts(m)), Sum(s.dead, AttemptsOf(m)));
  }

  /** A dead-lettered message has been handled exactly `maxRetries + 1` times, and is dead-lettered once. */
  lemma DeadLettered(o: Options, actions: seq<Action>, s: System, m: nat)
    requires IsTrace(o, INITIAL, actions, s)
    requires Sum(s.dead, CopyOf(m)) > 0
    ensures Sum(s.dead, CopyOf(m)) == 1 && Handled(s, m) == o.RetryLimit() + 1 && LiveCopies(s, m) == 0
  {
    hide Sum, CopyOf, Consistent, IsTrace, Options.RetryLimit, Handled;
    HandledBounded(o, actions, s, m);
    OnePlace(o, actions, s, m);
    CountsNonNegative(s, m);
    Reachable(o, actions, s);
    UnsettledAnswer(o, s, m);
  }

  /** Message `m` waits for nothing: it is not queued and every dispatch of it is over. */
  ghost predicate Quiet(s: System, m: nat) {
    && (forall c :: c in s.queue ==> c.origin != m)
    && (forall d :: d in s.deliveries && d.copy.origin == m ==> d.loop == Closed && !d.settling.Rejecting?)
  }

  /** No handling of `m` was acked, and none was nacked without retry. */
  ghost predicate AlwaysFailed(s: System, m: nat) {
    forall d :: d in s.deliveries && d.copy.origin == m ==> d.settling != Acked && d.settling != Rejected(false)
  }

  /**
   * Once all is quiet about a published message, it is in the dead-letter topic, exactly once and after
   * exactly `maxRetries + 1` handlings, if every handling of it failed, and otherwise it is not.
   */
  lemma AlwaysFailingIsDeadLettered(o: Options, actions: seq<Action>, s: System, m: nat)
    requires IsTrace(o, INITIAL, actions, s) && m < s.published && Quiet(s, m)
    ensures Sum(s.dead, CopyOf(m)) == if AlwaysFailed(s, m) then 1 else 0
    ensures AlwaysFailed(s, m) ==> Handled(s, m) == o.RetryLimit() + 1
  {
    Reachable(o, actions, s);
    assert Balanced(s, m);
    CountsNonNegative(s, m);
    var none := (c: Copy) => 0;
    assert forall i :: 0 <= i < |s.queue| ==> s.queue[i] in s.queue;
    SumScaled(s.queue, none, CopyOf(m), 0);
    if AlwaysFailed(s, m) {
      forall i | 0 <= i < |s.deliveries|
        ensures AnswerFor(m)(s.deliveries[i]) == 0
      {
        assert s.deliveries[i] in s.deliveries;
      }
      SumScaled(s.deliveries, HandlingOf(m), AnswerFor(m), 0);
      DeadLettered(o, actions, s, m);
    } else {
      var d :| d in s.deliveries && d.copy.origin == m && (d.settling == Acked || d.settling == Rejected(false));
      var i :| 0 <= i < |s.deliveries| && s.deliveries[i] == d;
      assert AnswerFor(m)(s.deliveries[i]) == 1;
    }
  }

  // ----- All becomes quiet ---------------------------------------------------------------------

  /** How far a delivery has come; no step takes it back, and five is the end. */
  function Progress(d: Delivery): (n: nat)
    ensures n <= 5
  {
    (if d.handlerLive then 0 else 1) +
    (match d.loop
     case Racing => 0
     case Closed => 2
     case _ => 1) +
    (match d.settling
     case Open => 0
     case Rejected(_) => 2
     case _ => 1)
  }

  function WorkOf(m: nat): Delivery -> int {
    (d: Delivery) => if d.copy.origin == m then 1 + Progress(d) else 0
  }

  function Work(s: System, m: nat): int {
    Sum(s.deliveries, WorkOf(m))
  }

  /** The step does something about message `m`, other than settling anew what is settled. */
  predicate Effective(s: System, a: Action, m: nat) {
    match a
    case Publish(_) => false
    case Deliver(i) => i < |s.queue| && s.queue[i].origin == m
    case _ =>
      && a.d < |s.deliveries| && s.deliveries[a.d].copy.origin == m
      && Dispatched(s.deliveries[a.d], a) != s.deliveries[a.d]
  }

  lemma ProgressMade(o: Options, s: System, a: Action)
    requires Enabled(o, s, a) && !a.Publish? && !a.Deliver? && s.deliveries[a.d].Valid()
    ensures var d := s.deliveries[a.d]; var e := Dispatched(d, a);
            e.copy == d.copy && Progress(e) >= Progress(d) + if e != d then 1 else 0
  {
  }

  lemma WorkGrows(o: Options, s: System, a: Action, m: nat)
    requires Consistent(o, s) && Enabled(o, s, a)
    ensures Work(Next(o, s, a), m) >= Work(s, m) + if Effective(s, a, m) then 1 else 0
  {
    hide Sum, Progress, Dispatched, Balanced;
    match a
    case Publish(_) =>
    case Deliver(i) =>
      SumAppended(s.deliveries, Delivery(s.queue[i], true, Racing, false, Open, []), WorkOf(m));
    case _ =>
      assert s.deliveries[a.d] in s.deliveries;
      ProgressMade(o, s, a);
      SumUpdated(s.deliveries, a.d, Dispatched(s.deliveries[a.d], a), WorkOf(m));
  }

  /** How many steps of the trace do something about message `m`. */
  ghost function EffectiveSteps(o: Options, s: System, actions: seq<Action>, m: nat): nat
    decreases |actions|
  {
    if actions == [] || !Enabled(o, s, actions[0]) then 0
    else (if Effective(s, actions[0], m) then 1 else 0) + EffectiveSteps(o, Next(o, s, actions[0]), actions[1..], m)
  }

  lemma {:induction false} WorkDone(o: Options, s: System, actions: seq<Action>, t: System, m: nat)
    requires Consistent(o, s) && IsTrace(o, s, actions, t)
    ensures Work(s, m) + EffectiveSteps(o, s, actions, m) <= Work(t, m)
    decreases |actions|
  {
    hide Work, Next, Effective, Consistent;
    if actions != [] {
      StepConsistent(o, s, actions[0]);
      WorkGrows(o, s, actions[0], m);
      WorkDone(o, Next(o, s, actions[0]), actions[1..], t, m);
    }
  }

  /** In every interleaving the steps about one message are bounded, whatever its handlers do. */
  lemma StepsBounded(o: Options, actions: seq<Action>, s: System, m: nat)
    requires IsTrace(o, INITIAL, actions, s)
    ensures EffectiveSteps(o, INITIAL, actions, m) <= 6 * (o.RetryLimit() + 1)
  {
    hide Options.RetryLimit, EffectiveSteps, Balanced;
    Reachable(o, [], INITIAL);
    WorkDone(o, INITIAL, actions, s, m);
    HandledBounded(o, actions, s, m);
    assert forall i :: 0 <= i < |s.deliveries| ==> WorkOf(m)(s.deliveries[i]) <= 6 * HandlingOf(m)(s.deliveries[i]);
    SumBounded(s.deliveries, HandlingOf(m), WorkOf(m), 6);
  }

  /** ... and as long as all is not quiet about it there is such a step to take, so in the end it is. */
  lemma NotQuietMoves(o: Options, actions: seq<Action>, s: System, m: nat) returns (a: Action)
    requires IsTrace(o, INITIAL, actions, s) && !Quiet(s, m)
    ensures Enabled(o, s, a) && Effective(s, a, m)
  {
    hide IsTrace, Balanced;
    Reachable(o, actions, s);
    if c :| c in s.queue && c.origin == m {
      var i :| 0 <= i < |s.queue| && s.queue[i] == c;
      return Deliver(i);
    }
    var d :| d in s.deliveries && d.copy.origin == m && (d.loop != Closed || d.settling.Rejecting?);
    var n :| 0 <= n < |s.deliveries| && s.deliveries[n] == d;
    a := if d.settling.Rejecting? then FinishReject(n)
         else if d.loop == Racing then HandlerThrows(n)
         else if d.loop == Succeeded then LoopAcks(n)
         else LoopNacks(n);
  }
}
