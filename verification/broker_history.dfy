/** The state of the broker against what its publishers and handlers did, read off the list of actions. */
module BrokerHistory {
  import opened Wrappers
  import opened Totals
  import opened BrokerAdapter

  // ----- What happened -------------------------------------------------------------------------

  predicate About(a: Action, n: nat) {
    !a.Publish? && !a.Deliver? && a.d == n
  }

  /** How the race of delivery `n` went: whether its handler returned in time, or threw or timed out. */
  function Race(actions: seq<Action>, n: nat): Option<bool> {
    if actions == [] then None
    else
      var race := Race(actions[..|actions| - 1], n);
      var last := actions[|actions| - 1];
      if race.Some? then race
      else if last == HandlerReturns(n) then Some(true)
      else if last == HandlerThrows(n) || last == TimesOut(n) then Some(false)
      else None
  }

  datatype Answer = Ack | Nack(retry: bool)

  /** The first settlement of delivery `n`, by its handler or by `dispatch`. */
  function FirstAnswer(actions: seq<Action>, n: nat): Option<Answer> {
    if actions == [] then None
    else
      var answer := FirstAnswer(actions[..|actions| - 1], n);
      var last := actions[|actions| - 1];
      if answer.Some? then answer
      else if last == HandlerAcks(n) || last == LoopAcks(n) then Some(Ack)
      else if last == LoopNacks(n) then Some(Nack(true))
      else if last.HandlerNacks? && last.d == n then Some(Nack(last.retry))
      else None
  }

  predicate Ended(actions: seq<Action>, n: nat) {
    HandlerReturns(n) in actions || HandlerThrows(n) in actions
  }

  predicate Concluded(actions: seq<Action>, n: nat) {
    LoopAcks(n) in actions || LoopNacks(n) in actions
  }

  predicate HandlerSettled(actions: seq<Action>, n: nat) {
    HandlerAcks(n) in actions || HandlerNacks(n, true) in actions || HandlerNacks(n, false) in actions
  }

  /** The topics of the published messages, in order. */
  function Topics(actions: seq<Action>): seq<string> {
    if actions == [] then []
    else
      var last := actions[|actions| - 1];
      Topics(actions[..|actions| - 1]) + if last.Publish? then [last.topic] else []
  }

  // ----- One delivery --------------------------------------------------------------------------

  /** Delivery `n` is where the actions have brought it. */
  predicate Follows(d: Delivery, actions: seq<Action>, n: nat) {
    && (d.handlerLive <==> !Ended(actions, n))
    && d.loop == (if Concluded(actions, n) then Closed
                  else match Race(actions, n)
                       case None => Racing
                       case Some(inTime) => if inTime then Succeeded else Failed)
    && (LoopAcks(n) in actions ==> Race(actions, n) == Some(true))
    && (LoopNacks(n) in actions ==> Race(actions, n) == Some(false))
    && (Concluded(actions, n) ==> d.settled)
    && (d.settled <==> FirstAnswer(actions, n).Some?)
    && (match FirstAnswer(actions, n)
        case None => d.settling == Open && d.calls == []
        case Some(Ack) => d.settling == Acked && d.calls == [AckCall]
        case Some(Nack(retry)) =>
          && d.settling == (if FinishReject(n) in actions then Rejected(retry) else Rejecting(retry))
          && d.calls == [NackCall])
  }

  /** What an action may do to a delivery, given that it may happen. */
  predicate Allowed(d: Delivery, a: Action) {
    match a
    case HandlerAcks(_) => d.handlerLive
    case HandlerNacks(_, _) => d.handlerLive
    case HandlerReturns(_) => d.handlerLive
    case HandlerThrows(_) => d.handlerLive
    case TimesOut(_) => d.loop == Racing
    case LoopAcks(_) => d.loop == Succeeded
    case LoopNacks(_) => d.loop == Failed
    case FinishReject(_) => d.settling.Rejecting?
    case _ => true
  }

  lemma InExtended(actions: seq<Action>, a: Action)
    ensures forall b :: b in actions + [a] <==> b in actions || b == a
    ensures (actions + [a])[..|actions|] == actions
  {
  }

  lemma FollowsStep(d: Delivery, a: Action, actions: seq<Action>, n: nat)
    requires Follows(d, actions, n) && About(a, n) && Allowed(d, a)
    requires FinishReject(n) in actions ==> d.settling.Rejected?
    ensures Follows(Dispatched(d, a), actions + [a], n)
    ensures FinishReject(n) in actions + [a] ==> Dispatched(d, a).settling.Rejected?
  {
    InExtended(actions, a);
  }

  lemma FollowsOther(d: Delivery, a: Action, actions: seq<Action>, n: nat)
    requires Follows(d, actions, n) && !About(a, n)
    ensures Follows(d, actions + [a], n)
  {
    InExtended(actions, a);
  }

  lemma {:induction false} UntouchedStarts(copy: Copy, actions: seq<Action>, n: nat)
    requires forall a :: a in actions ==> !About(a, n)
    ensures Follows(Delivery(copy, true, Racing, false, Open, []), actions, n)
  {
    if actions != [] {
      var init, last := actions[..|actions| - 1], actions[|actions| - 1];
      assert actions == init + [last];
      UntouchedStarts(copy, init, n);
      FollowsOther(Delivery(copy, true, Racing, false, Open, []), last, init, n);
    }
  }

  // ----- The whole state -----------------------------------------------------------------------

  predicate Delivered(d: Delivery, actions: seq<Action>, n: nat) {
    Follows(d, actions, n) && (FinishReject(n) in actions ==> d.settling.Rejected?)
  }

  /** The copy was published under the topic that it has, or that it had before it was dead-lettered. */
  predicate Labelled(c: Copy, topics: seq<string>, topicOf: string -> string) {
    c.origin < |topics| && c.topic == topicOf(topics[c.origin])
  }

  function SameTopic(): string -> string {
    (topic: string) => topic
  }

  function DeadTopics(o: Options): string -> string {
    (topic: string) => if o.deadLetterTopic.Some? then o.deadLetterTopic.value else topic + ".dead-letter"
  }

  ghost predicate TopicsKept(o: Options, s: System, topics: seq<string>) {
    && |topics| == s.published
    && (forall c :: c in s.queue ==> Labelled(c, topics, SameTopic()))
    && (forall d :: d in s.deliveries ==> Labelled(d.copy, topics, SameTopic()))
    && (forall c :: c in s.dead ==> Labelled(c, topics, DeadTopics(o)))
  }

  ghost predicate History(actions: seq<Action>, s: System) {
    && (forall n: nat :: n < |s.deliveries| ==> Delivered(s.deliveries[n], actions, n))
    && (forall n: nat, a :: n >= |s.deliveries| && a in actions ==> !About(a, n))
  }

  lemma DispatchedHistory(o: Options, s: System, a: Action, actions: seq<Action>)
    requires History(actions, s) && Enabled(o, s, a) && !a.Publish? && !a.Deliver?
    ensures History(actions + [a], Next(o, s, a))
  {
    hide Follows, Dispatched;
    var t := Next(o, s, a);
    InExtended(actions, a);
    forall n: nat | n < |t.deliveries|
      ensures Delivered(t.deliveries[n], actions + [a], n)
    {
      assert Delivered(s.deliveries[n], actions, n);
      if n == a.d {
        FollowsStep(s.deliveries[n], a, actions, n);
      } else {
        FollowsOther(s.deliveries[n], a, actions, n);
      }
    }
  }

  lemma StepHistory(o: Options, s: System, a: Action, actions: seq<Action>)
    requires History(actions, s) && Enabled(o, s, a)
    ensures History(actions + [a], Next(o, s, a))
  {
    hide Follows;
    if !a.Publish? && !a.Deliver? {
      DispatchedHistory(o, s, a, actions);
      return;
    }
    InExtended(actions, a);
    var t := Next(o, s, a);
    forall n: nat | n < |t.deliveries|
      ensures Delivered(t.deliveries[n], actions + [a], n)
    {
      if n < |s.deliveries| {
        assert Delivered(s.deliveries[n], actions, n);
      } else {
        UntouchedStarts(t.deliveries[n].copy, actions, n);
      }
      FollowsOther(t.deliveries[n], a, actions, n);
    }
  }

  lemma LabelledLonger(c: Copy, topics: seq<string>, more: seq<string>, topicOf: string -> string)
    requires Labelled(c, topics, topicOf)
    ensures Labelled(c, topics + more, topicOf)
  {
  }

  lemma StepTopics(o: Options, s: System, a: Action, topics: seq<string>)
    requires TopicsKept(o, s, topics) && Enabled(o, s, a)
    ensures TopicsKept(o, Next(o, s, a), topics + if a.Publish? then [a.topic] else [])
  {
    match a
    case Publish(topic) =>
      forall c: Copy, f: string -> string | Labelled(c, topics, f)
        ensures Labelled(c, topics + [topic], f)
      {
        LabelledLonger(c, topics, [topic], f);
      }
    case Deliver(i) =>
      assert topics + [] == topics;
      assert s.queue[i] in s.queue;
    case _ =>
      assert topics + [] == topics;
      assert s.deliveries[a.d] in s.deliveries;
  }

  lemma {:induction false} TraceHistory(o: Options, s: System, done: seq<Action>, actions: seq<Action>, t: System)
    requires History(done, s) && TopicsKept(o, s, Topics(done)) && IsTrace(o, s, actions, t)
    ensures History(done + actions, t) && TopicsKept(o, t, Topics(done + actions))
    decreases |actions|
  {
    hide History, TopicsKept, Next, Enabled;
    if actions == [] {
      assert done + actions == done;
    } else {
      var a := actions[0];
      StepHistory(o, s, a, done);
      StepTopics(o, s, a, Topics(done));
      assert (done + [a])[..|done|] == done;
      TraceHistory(o, Next(o, s, a), done + [a], actions[1..], t);
      assert done + [a] + actions[1..] == done + actions;
    }
  }

  lemma ReachedHistory(o: Options, actions: seq<Action>, s: System)
    requires IsTrace(o, INITIAL, actions, s)
    ensures History(actions, s) && TopicsKept(o, s, Topics(actions))
  {
    hide IsTrace;
    TraceHistory(o, INITIAL, [], actions, s);
    assert [] + actions == actions;
  }

  // ----- Results -------------------------------------------------------------------------------

  /** The driver sees the first settlement of a delivery, as the call it was, and nothing else. */
  lemma CallsFollowAnswer(o: Options, actions: seq<Action>, s: System, n: nat)
    requires IsTrace(o, INITIAL, actions, s) && n < |s.deliveries|
    ensures var d := s.deliveries[n];
            && d.calls == (match FirstAnswer(actions, n)
                           case None => []
                           case Some(Ack) => [AckCall]
                           case Some(Nack(_)) => [NackCall])
            && (d.settling == Acked <==> d.calls == [AckCall])
            && (d.settling.Rejecting? || d.settling.Rejected? <==> d.calls == [NackCall])
  {
    hide IsTrace;
    ReachedHistory(o, actions, s);
    assert Delivered(s.deliveries[n], actions, n);
  }

  /** What can happen to a delivery is decided by what has happened. */
  lemma EnabledExactly(o: Options, actions: seq<Action>, s: System, n: nat, retry: bool)
    requires IsTrace(o, INITIAL, actions, s) && n < |s.deliveries|
    ensures var running := HandlerReturns(n) !in actions && HandlerThrows(n) !in actions;
            && (Enabled(o, s, HandlerAcks(n)) <==> running) && (Enabled(o, s, HandlerNacks(n, retry)) <==> running)
            && (Enabled(o, s, HandlerReturns(n)) <==> running) && (Enabled(o, s, HandlerThrows(n)) <==> running)
    ensures Enabled(o, s, TimesOut(n)) <==> o.ackTimeoutMs.Some? && Race(actions, n).None?
    ensures Enabled(o, s, LoopAcks(n)) <==> Race(actions, n) == Some(true) && LoopAcks(n) !in actions
    ensures Enabled(o, s, LoopNacks(n)) <==> Race(actions, n) == Some(false) && LoopNacks(n) !in actions
    ensures Enabled(o, s, FinishReject(n)) <==>
            && (FirstAnswer(actions, n) == Some(Nack(true)) || FirstAnswer(actions, n) == Some(Nack(false)))
            && FinishReject(n) !in actions
  {
    hide IsTrace;
    ReachedHistory(o, actions, s);
    assert Delivered(s.deliveries[n], actions, n);
  }

  lemma {:induction false} AnswerGiven(actions: seq<Action>, n: nat)
    ensures match FirstAnswer(actions, n)
            case None => !HandlerSettled(actions, n) && !Concluded(actions, n)
            case Some(Ack) => HandlerAcks(n) in actions || LoopAcks(n) in actions
            case Some(Nack(retry)) => HandlerNacks(n, retry) in actions || (retry && LoopNacks(n) in actions)
  {
    if actions != [] {
      var init, last := actions[..|actions| - 1], actions[|actions| - 1];
      assert actions == init + [last];
      AnswerGiven(init, n);
      InExtended(init, last);
    }
  }

  /**
   * A handler that leaves the settlement to `dispatch`: its message is acked if it returned in time, and
   * nacked to be retried if it threw or timed out.
   */
  lemma DispatchSettles(o: Options, actions: seq<Action>, s: System, n: nat)
    requires IsTrace(o, INITIAL, actions, s) && n < |s.deliveries| && s.deliveries[n].loop == Closed
    requires HandlerAcks(n) !in actions && HandlerNacks(n, true) !in actions && HandlerNacks(n, false) !in actions
    ensures Race(actions, n).Some?
    ensures s.deliveries[n].calls == if Race(actions, n).value then [AckCall] else [NackCall]
    ensures FirstAnswer(actions, n) == if Race(actions, n).value then Some(Ack) else Some(Nack(true))
  {
    hide IsTrace;
    ReachedHistory(o, actions, s);
    assert Delivered(s.deliveries[n], actions, n);
    AnswerGiven(actions, n);
  }

  predicate FirstNacked(s: System, actions: seq<Action>, m: nat, n: nat)
    requires n < |s.deliveries|
  {
    s.deliveries[n].copy.origin == m ==> FirstAnswer(actions, n) == Some(Nack(true))
  }

  lemma FirstNackedSettling(o: Options, actions: seq<Action>, s: System, m: nat, n: nat)
    requires IsTrace(o, INITIAL, actions, s) && Quiet(s, m) && n < |s.deliveries| && s.deliveries[n].copy.origin == m
    ensures FirstAnswer(actions, n) == Some(Nack(true)) <==>
            s.deliveries[n].settling != Acked && s.deliveries[n].settling != Rejected(false)
  {
    hide IsTrace, Race;
    ReachedHistory(o, actions, s);
    assert s.deliveries[n] in s.deliveries && Delivered(s.deliveries[n], actions, n);
  }

  lemma FirstNackedIsFailed(o: Options, actions: seq<Action>, s: System, m: nat)
    requires IsTrace(o, INITIAL, actions, s) && Quiet(s, m)
    ensures AlwaysFailed(s, m) <==> forall n: nat :: n < |s.deliveries| ==> FirstNacked(s, actions, m, n)
  {
    hide IsTrace, FirstAnswer, Quiet;
    forall n: nat | n < |s.deliveries| && s.deliveries[n].copy.origin == m
      ensures s.deliveries[n] in s.deliveries
      ensures FirstAnswer(actions, n) == Some(Nack(true)) <==>
              s.deliveries[n].settling != Acked && s.deliveries[n].settling != Rejected(false)
    {
      FirstNackedSettling(o, actions, s, m, n);
    }
    if forall n: nat :: n < |s.deliveries| ==> FirstNacked(s, actions, m, n) {
      forall d | d in s.deliveries && d.copy.origin == m
        ensures d.settling != Acked && d.settling != Rejected(false)
      {
        var n: nat :| n < |s.deliveries| && s.deliveries[n] == d;
        assert FirstNacked(s, actions, m, n);
      }
    }
  }

  /**
   * Once all is quiet about a published message, it is in the dead-letter topic, once and after
   * `maxRetries + 1` handlings, if each of its deliveries was first of all nacked to be retried; else it is not.
   */
  lemma DeadLetteredExactly(o: Options, actions: seq<Action>, s: System, m: nat)
    requires IsTrace(o, INITIAL, actions, s) && m < s.published && Quiet(s, m)
    ensures var retried := forall n: nat :: n < |s.deliveries| ==> FirstNacked(s, actions, m, n);
            && Sum(s.dead, CopyOf(m)) == (if retried then 1 else 0)
            && (retried ==> Handled(s, m) == (if o.maxRetries.Some? then o.maxRetries.value else 3) + 1)
  {
    hide IsTrace, AlwaysFailed, Quiet, Sum;
    FirstNackedIsFailed(o, actions, s, m);
    AlwaysFailingIsDeadLettered(o, actions, s, m);
  }

  /** If delivery `n` is of message `m`, its handler threw or timed out and did not settle the message itself. */
  predicate HandlerFailed(s: System, actions: seq<Action>, m: nat, n: nat)
    requires n < |s.deliveries|
  {
    s.deliveries[n].copy.origin == m ==> Race(actions, n) == Some(false) && !HandlerSettled(actions, n)
  }

  /** A message whose handlers always throw or time out ends in the dead-letter topic, once, after all attempts. */
  lemma FailingHandlersDeadLetter(o: Options, actions: seq<Action>, s: System, m: nat)
    requires IsTrace(o, INITIAL, actions, s) && m < s.published && Quiet(s, m)
    requires forall n: nat :: n < |s.deliveries| ==> HandlerFailed(s, actions, m, n)
    ensures Sum(s.dead, CopyOf(m)) == 1
    ensures Handled(s, m) == (if o.maxRetries.Some? then o.maxRetries.value else 3) + 1
  {
    hide IsTrace, Sum, Race, FirstAnswer;
    forall n: nat | n < |s.deliveries|
      ensures FirstNacked(s, actions, m, n)
    {
      if s.deliveries[n].copy.origin == m {
        assert s.deliveries[n] in s.deliveries && HandlerFailed(s, actions, m, n);
        DispatchSettles(o, actions, s, n);
      }
    }
    DeadLetteredExactly(o, actions, s, m);
  }

  /** A message one of whose handlers returned in time without settling it is not dead-lettered. */
  lemma ReturningHandlerIsFinal(o: Options, actions: seq<Action>, s: System, n: nat)
    requires IsTrace(o, INITIAL, actions, s) && n < |s.deliveries|
    requires Race(actions, n) == Some(true) && !HandlerSettled(actions, n)
    requires Quiet(s, s.deliveries[n].copy.origin)
    ensures Sum(s.dead, CopyOf(s.deliveries[n].copy.origin)) == 0
  {
    hide IsTrace, Sum, Race, FirstAnswer, TopicsKept, Follows;
    var m := s.deliveries[n].copy.origin;
    ReachedHistory(o, actions, s);
    PublishedOrigin(o, actions, s, n);
    assert s.deliveries[n] in s.deliveries;
    DispatchSettles(o, actions, s, n);
    assert !FirstNacked(s, actions, m, n);
    DeadLetteredExactly(o, actions, s, m);
  }

  lemma PublishedOrigin(o: Options, actions: seq<Action>, s: System, n: nat)
    requires IsTrace(o, INITIAL, actions, s) && n < |s.deliveries|
    ensures s.deliveries[n].copy.origin < s.published
  {
    hide IsTrace;
    ReachedHistory(o, actions, s);
    assert s.deliveries[n] in s.deliveries;
  }

  /** A message is handled under the topic it was published to, and dead-lettered under the one this names. */
  lemma TopicsFollow(o: Options, actions: seq<Action>, s: System)
    requires IsTrace(o, INITIAL, actions, s)
    ensures |Topics(actions)| == s.published
    ensures forall n: nat :: n < |s.deliveries| ==>
              var c := s.deliveries[n].copy; c.origin < s.published && c.topic == Topics(actions)[c.origin]
    ensures forall i: nat :: i < |s.dead| ==>
              var c := s.dead[i];
              c.origin < s.published &&
              c.topic == if o.deadLetterTopic.Some? then o.deadLetterTopic.value
                         else Topics(actions)[c.origin] + ".dead-letter"
  {
    hide IsTrace;
    ReachedHistory(o, actions, s);
    assert forall n: nat :: n < |s.deliveries| ==> s.deliveries[n] in s.deliveries;
    assert forall i: nat :: i < |s.dead| ==> s.dead[i] in s.dead;
  }
}
