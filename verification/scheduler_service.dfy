/** Registration, timers, counters and the failure buffer of src/platform/scheduling/scheduler.service.ts */
module SchedulerServices {
  import opened Wrappers
  import Text
  import Cron
  import Search

  type Handle = nat

  datatype Schedule =
    | CronTask(expression: Option<string>)
    | IntervalTask(intervalMs: Option<int>)
    | OnceTask(runAt: Option<Cron.Date>)

  datatype Task = Task(id: string, schedule: Schedule, enabled: bool, lockTtlMs: Option<int>,
                       lockRenewIntervalMs: Option<int>)

  datatype TaskState = TaskState(task: Task, timer: Option<Handle>, completed: bool) {
    /** Whether `start` sets a timer for the task. */
    predicate Startable() {
      !completed && task.enabled
    }
  }

  datatype ServiceError =
    | EmptyId
    | TtlNotPositive
    | RenewIntervalNotPositive
    | IntervalNotPositive
    | NoRunAt
    | NoExpression
    | BadExpression
    | AlreadyRegistered
    | NoNextRun

  /** How a run ended: without the lock, or with its handler returning or throwing. */
  datatype Ending = SkippedRun | ExecutedRun | FailedRun(error: string)

  predicate NotPositive(n: Option<int>) {
    n.Some? && n.value <= 0
  }

  /** What `validateTask` throws, if anything. */
  function TaskError(task: Task): Option<ServiceError> {
    if Text.Trim(task.id) == "" then Some(EmptyId)
    else if NotPositive(task.lockTtlMs) then Some(TtlNotPositive)
    else if NotPositive(task.lockRenewIntervalMs) then Some(RenewIntervalNotPositive)
    else match task.schedule
      case IntervalTask(ms) => if ms.None? || ms.value <= 0 then Some(IntervalNotPositive) else None
      case OnceTask(at) => if at.None? || at.value.Invalid? then Some(NoRunAt) else None
      case CronTask(expression) =>
        if expression.None? then Some(NoExpression)
        else if !Cron.Accepts(expression.value) then Some(BadExpression) else None
  }

  method ValidateTask(task: Task) returns (r: Option<ServiceError>)
    ensures r == TaskError(task)
    ensures r == Some(EmptyId) <==> forall i :: 0 <= i < |task.id| ==> Text.IsSpace(task.id[i])
    ensures r != Some(EmptyId) ==>
              (r == Some(TtlNotPositive) <==> task.lockTtlMs.Some? && task.lockTtlMs.value <= 0)
    ensures r != Some(EmptyId) && r != Some(TtlNotPositive) ==>
              (r == Some(RenewIntervalNotPositive) <==>
               task.lockRenewIntervalMs.Some? && task.lockRenewIntervalMs.value <= 0)
    ensures r !in {Some(EmptyId), Some(TtlNotPositive), Some(RenewIntervalNotPositive)} ==>
              match task.schedule
              case IntervalTask(ms) =>
                r == if ms.Some? && ms.value > 0 then None else Some(IntervalNotPositive)
              case OnceTask(runAt) =>
                r == if runAt.Some? && runAt.value.At? then None else Some(NoRunAt)
              case CronTask(expression) =>
                && (r == Some(NoExpression) <==> expression.None?)
                && (r.None? <==> expression.Some? && Cron.Accepts(expression.value))
                && (r.Some? ==> r.value in {NoExpression, BadExpression})
  {
    hide Text.Trim, Cron.Accepts;
    Text.BlankExactly(task.id);
    if Text.Trim(task.id) == "" {
      return Some(EmptyId);
    }
    if NotPositive(task.lockTtlMs) {
      return Some(TtlNotPositive);
    }
    if NotPositive(task.lockRenewIntervalMs) {
      return Some(RenewIntervalNotPositive);
    }
    match task.schedule {
      case IntervalTask(ms) =>
        if ms.None? || ms.value <= 0 {
          return Some(IntervalNotPositive);
        }
      case OnceTask(runAt) =>
        if runAt.None? || runAt.value.Invalid? {
          return Some(NoRunAt);
        }
      case CronTask(expression) =>
        if expression.None? {
          return Some(NoExpression);
        }
        var parser := Cron.Parse(expression.value);
        if parser.Failure? {
          return Some(BadExpression);
        }
    }
    return None;
  }

  /** Whether `computeDelay` returns: the cron expression of the task, if it has one, has a next run. */
  ghost predicate HasNextRun(task: Task, now: Cron.Date)
    requires TaskError(task).None? && now.Valid() && now.At?
  {
    task.schedule.CronTask? ==>
      !Cron.ParserOf(task.schedule.expression.value).NoMatch(Cron.CronParser.FirstMinute(now),
                                                             Cron.CronParser.Window(now))
  }

  /** A timer set for the task at time `now` is due at `due`. */
  ghost predicate IsDue(task: Task, now: Cron.Date, due: int)
    requires TaskError(task).None? && now.Valid() && now.At?
  {
    match task.schedule
    case OnceTask(runAt) => due == if runAt.value.ms < now.ms then now.ms else runAt.value.ms
    case IntervalTask(ms) => due == now.ms + ms.value
    case CronTask(expression) => NextMinute(Cron.ParserOf(expression.value), now, due)
  }

  /** `due` is the first matching minute after `now` within the window of the search. */
  ghost predicate NextMinute(p: Cron.CronParser, now: Cron.Date, due: int)
    requires now.Valid() && now.At?
  {
    exists m :: due == 60_000 * m &&
      Search.Least(p.MatchesMinute, Cron.CronParser.FirstMinute(now), Cron.CronParser.Window(now), m)
  }

  method ComputeDelay(task: Task, now: Cron.Date) returns (r: Result<int, ServiceError>)
    requires TaskError(task).None? && now.Valid() && now.At?
    ensures r.Success? <==> HasNextRun(task, now)
    ensures r.Failure? ==> r.error == NoNextRun
    ensures r.Success? ==> r.value >= 0 && (task.schedule.CronTask? ==> r.value > 0)
    ensures r.Success? ==> IsDue(task, now, now.ms + r.value)
  {
    hide Text.Trim, Cron.Accepts, Cron.CronParser.MatchesMinute, Cron.CronParser.Window;
    match task.schedule {
      case OnceTask(runAt) =>
        return Success(if runAt.value.ms > now.ms then runAt.value.ms - now.ms else 0);
      case IntervalTask(ms) =>
        return Success(ms.value);
      case CronTask(expression) =>
        var parser := Cron.Parse(expression.value);
        var next := parser.value.NextRun(now);
        if next.Failure? {
          return Failure(NoNextRun);
        }
        return Success(next.value.ms - now.ms);
    }
  }

  /**
   * A satisfiable expression that restricts no day of the week has a next run at every time from which the
   * search stays within the range of Date.
   */
  lemma SatisfiableHasNextRun(task: Task, now: Cron.Date)
    requires TaskError(task).None? && now.Valid() && now.At? && task.schedule.CronTask?
    requires var p := Cron.ParserOf(task.schedule.expression.value);
             p.Valid() && Cron.AnyWeekDay(p) && Cron.Satisfiable(p)
    ensures Cron.CronParser.Window(now) == Cron.SEARCH_LIMIT ==> HasNextRun(task, now)
  {
    hide Text.Trim, Cron.Accepts, Cron.CronParser.Valid, Cron.AnyWeekDay, Cron.Satisfiable, Cron.CronParser.Window;
    if Cron.CronParser.Window(now) == Cron.SEARCH_LIMIT {
      Cron.SatisfiableRuns(Cron.ParserOf(task.schedule.expression.value), now);
    }
  }

  ghost predicate AllValid(tasks: map<string, TaskState>) {
    forall id :: id in tasks ==> TaskError(tasks[id].task).None?
  }

  // ----- Timers and runs under way -------------------------------------------------------------

  /** The task states, the timers set and not yet fired, and the runs under way, by task id. */
  datatype Board = Board(tasks: map<string, TaskState>, running: bool, timers: map<Handle, string>,
                         inFlight: multiset<string>, nextHandle: Handle)
  {
    ghost predicate WellFormed() {
      && (forall h :: h in timers ==> h < nextHandle && timers[h] in tasks)
      && (forall id :: id in inFlight ==> id in tasks)
      && (forall id :: id in tasks && tasks[id].timer.Some? ==>
            running && tasks[id].timer.value in timers && timers[tasks[id].timer.value] == id)
    }

    /** Every timer is the one its task's state remembers, and stands alone: no run of it is under way. */
    ghost predicate OneChainEach() {
      && (forall h :: h in timers && timers[h] in tasks ==>
            tasks[timers[h]].timer == Some(h) && inFlight[timers[h]] == 0)
      && (forall id :: id in tasks ==> inFlight[id] <= 1)
    }

    /** A new timer is set; an older handle of the task, if any, is forgotten. */
    function Scheduled(id: string): Board
      requires id in tasks
    {
      this.(tasks := tasks[id := tasks[id].(timer := Some(nextHandle))],
            timers := timers[nextHandle := id], nextHandle := nextHandle + 1)
    }

    function Fired(handle: Handle): Board
      requires handle in timers && timers[handle] in tasks
    {
      var id := timers[handle];
      this.(tasks := tasks[id := tasks[id].(timer := None)], timers := timers - {handle},
            inFlight := inFlight + multiset{id})
    }

    /** A run is over; `delayed` tells whether the next delay can be computed. */
    function Ended(id: string, delayed: bool): Board
      requires id in tasks
    {
      var settled := this.(inFlight := inFlight - multiset{id});
      if tasks[id].task.schedule.OnceTask? then settled.(tasks := tasks[id := tasks[id].(completed := true)])
      else if running && delayed then settled.Scheduled(id)
      else settled
    }

    /** A run is over because `acquire` was rejected: nothing else happens. */
    function Rejected(id: string): Board {
      this.(inFlight := inFlight - multiset{id})
    }

    function Registered(task: Task, delayed: bool): Board {
      var added := this.(tasks := tasks[task.id := TaskState(task, None, false)]);
      if running && task.enabled && delayed then added.Scheduled(task.id) else added
    }

    function Stopped(): Board {
      this.(running := false,
            tasks := map id | id in tasks :: tasks[id].(timer := None),
            timers := map h | h in timers && !(timers[h] in tasks && tasks[timers[h]].timer == Some(h)) :: timers[h])
    }

    /**
     * `b` is this board, running, with one new timer for each startable task of `visited`. The handles
     * depend on the order in which the tasks are visited.
     */
    ghost predicate StartsOn(b: Board, visited: set<string>) {
      && b.running && b.inFlight == inFlight && b.tasks.Keys == tasks.Keys
      && (forall h :: h in timers ==> h in b.timers && b.timers[h] == timers[h])
      && (forall h :: h in b.timers && h !in timers ==> b.timers[h] in tasks && b.tasks[b.timers[h]].timer == Some(h))
      && (forall id :: id in tasks ==>
            && b.tasks[id] == tasks[id].(timer := b.tasks[id].timer)
            && (b.tasks[id].timer.Some? <==> tasks[id].Startable() && id in visited))
      && (forall id :: id in tasks && b.tasks[id].timer.Some? ==> b.tasks[id].timer.value !in timers)
    }

    ghost predicate StartsAs(b: Board) {
      StartsOn(b, tasks.Keys)
    }
  }

  /** What firing, a run's end, registering and stopping leave, field by field. */
  lemma BoardFields(b: Board, id: string, task: Task, delayed: bool, handle: Handle)
    requires b.WellFormed() && id in b.inFlight && task.id !in b.tasks && handle in b.timers
    ensures var c, fired := b.Fired(handle), b.timers[handle];
            && c.running == b.running && c.timers == b.timers - {handle} && c.inFlight == b.inFlight + multiset{fired}
            && c.tasks == b.tasks[fired := TaskState(b.tasks[fired].task, None, b.tasks[fired].completed)]
    ensures var c, once := b.Ended(id, delayed), b.tasks[id].task.schedule.OnceTask?;
            && c.running == b.running && c.inFlight == b.inFlight - multiset{id}
            && (if !once && b.running && delayed
                then c.timers.Keys > b.timers.Keys && forall h :: h in c.timers && h !in b.timers ==>
                       && c.timers == b.timers[h := id]
                       && c.tasks == b.tasks[id := TaskState(b.tasks[id].task, Some(h), b.tasks[id].completed)]
                else && c.timers == b.timers
                     && c.tasks == b.tasks[id := TaskState(b.tasks[id].task, b.tasks[id].timer,
                                                           b.tasks[id].completed || once)])
    ensures var c := b.Registered(task, delayed);
            && c.running == b.running && c.inFlight == b.inFlight
            && (if b.running && task.enabled && delayed
                then c.timers.Keys > b.timers.Keys && forall h :: h in c.timers && h !in b.timers ==>
                       && c.timers == b.timers[h := task.id]
                       && c.tasks == b.tasks[task.id := TaskState(task, Some(h), false)]
                else c.timers == b.timers && c.tasks == b.tasks[task.id := TaskState(task, None, false)])
  {
    var scheduled := b.timers[b.nextHandle := id];
    assert b.nextHandle in scheduled && b.nextHandle !in b.timers;
    assert b.nextHandle in b.timers[b.nextHandle := task.id];
    assert b.tasks[id := b.tasks[id]] == b.tasks;
  }

  /** Stopping clears the timer that each task remembers, and no other. */
  lemma StoppedFields(b: Board)
    requires b.WellFormed()
    ensures var c := b.Stopped();
            && !c.running && c.inFlight == b.inFlight && c.tasks.Keys == b.tasks.Keys
            && (forall id :: id in c.tasks ==> c.tasks[id] == TaskState(b.tasks[id].task, None, b.tasks[id].completed))
            && (forall h :: h in c.timers ==> h in b.timers && c.timers[h] == b.timers[h])
            && (forall h :: h in b.timers ==> (h !in c.timers <==> b.tasks[b.timers[h]].timer == Some(h)))
  {
  }

  /** Starting gives exactly the enabled tasks of those visited that are not completed a timer of their own. */
  lemma StartedFields(b: Board, c: Board, visited: set<string>)
    requires b.WellFormed() && !b.running && b.StartsOn(c, visited) && c.WellFormed()
    ensures forall id :: id in b.tasks ==>
              && id in c.tasks && c.tasks[id].task == b.tasks[id].task && c.tasks[id].completed == b.tasks[id].completed
              && ((exists h :: h in c.timers && h !in b.timers && c.timers[h] == id) <==>
                  id in visited && b.tasks[id].task.enabled && !b.tasks[id].completed)
    ensures forall g, h :: g in c.timers && h in c.timers && g !in b.timers && h !in b.timers && g != h ==>
              c.timers[g] != c.timers[h]
  {
    forall id | id in b.tasks && id in visited && b.tasks[id].task.enabled && !b.tasks[id].completed
      ensures exists h :: h in c.timers && h !in b.timers && c.timers[h] == id
    {
      assert c.tasks[id].timer.value in c.timers;
    }
  }

  lemma FiredKeeps(b: Board, handle: Handle)
    requires b.WellFormed() && handle in b.timers
    ensures b.Fired(handle).WellFormed() && (b.OneChainEach() ==> b.Fired(handle).OneChainEach())
  {
  }

  lemma ScheduledKeeps(b: Board, id: string)
    requires b.WellFormed() && id in b.tasks && b.running
    ensures b.Scheduled(id).WellFormed()
    ensures b.OneChainEach() && b.inFlight[id] == 0 && (forall h :: h in b.timers ==> b.timers[h] != id) ==>
              b.Scheduled(id).OneChainEach()
  {
  }

  lemma EndedKeeps(b: Board, id: string, delayed: bool)
    requires b.WellFormed() && id in b.inFlight
    ensures b.Ended(id, delayed).WellFormed() && (b.OneChainEach() ==> b.Ended(id, delayed).OneChainEach())
  {
    var settled := b.(inFlight := b.inFlight - multiset{id});
    assert settled.WellFormed();
    if !b.tasks[id].task.schedule.OnceTask? && b.running && delayed {
      ScheduledKeeps(settled, id);
    }
  }

  lemma RejectedKeeps(b: Board, id: string)
    requires b.WellFormed() && id in b.inFlight
    ensures b.Rejected(id).WellFormed() && (b.OneChainEach() ==> b.Rejected(id).OneChainEach())
  {
  }

  lemma RegisteredKeeps(b: Board, task: Task, delayed: bool)
    requires b.WellFormed() && task.id !in b.tasks
    ensures b.Registered(task, delayed).WellFormed()
    ensures b.OneChainEach() ==> b.Registered(task, delayed).OneChainEach()
  {
    var added := b.(tasks := b.tasks[task.id := TaskState(task, None, false)]);
    assert task.id !in b.inFlight;
    assert b.OneChainEach() ==> added.OneChainEach();
    if b.running && task.enabled && delayed {
      ScheduledKeeps(added, task.id);
    }
  }

  /** Stopping clears the remembered timers: with one chain per task that is every timer. */
  lemma StoppedKeeps(b: Board)
    requires b.WellFormed()
    ensures b.Stopped().WellFormed()
    ensures b.OneChainEach() ==> b.Stopped().OneChainEach() && b.Stopped().timers == map[]
  {
  }

  /** Starting keeps one chain per task exactly when no startable task that is visited has a run under way. */
  lemma StartKeeps(b: Board, c: Board, visited: set<string>)
    requires b.WellFormed() && !b.running && b.OneChainEach() && b.StartsOn(c, visited) && c.WellFormed()
    ensures c.OneChainEach() <==>
            forall id :: id in b.tasks && b.tasks[id].Startable() && id in visited ==> b.inFlight[id] == 0
  {
    if c.OneChainEach() {
      forall id | id in b.tasks && b.tasks[id].Startable() && id in visited
        ensures b.inFlight[id] == 0
      {
        assert c.tasks[id].timer.value in c.timers;
      }
    }
  }

  // ----- No task is dropped --------------------------------------------------------------------

  /** The task has a timer or a run under way. */
  ghost predicate Served(b: Board, id: string) {
    b.inFlight[id] > 0 || exists h :: h in b.timers && b.timers[h] == id
  }

  /** A running service will run every enabled task again that is not completed. */
  ghost predicate Serves(b: Board) {
    b.running ==> forall id :: id in b.tasks && b.tasks[id].Startable() ==> Served(b, id)
  }

  datatype Event =
    | Registers(task: Task, delayed: bool)
    | Starts(visited: set<string>)
    | Stops
    | Fires(handle: Handle)
    | Ends(id: string, delayed: bool)
    | Rejects(id: string)

  ghost predicate Step(b: Board, e: Event, c: Board) {
    match e
    case Registers(task, delayed) => task.id !in b.tasks && c == b.Registered(task, delayed)
    case Starts(visited) => !b.running && b.StartsOn(c, visited) && c.WellFormed()
    case Stops => b.running && c == b.Stopped()
    case Fires(handle) => handle in b.timers && b.timers[handle] in b.tasks && c == b.Fired(handle)
    case Ends(id, delayed) => id in b.inFlight && id in b.tasks && c == b.Ended(id, delayed)
    case Rejects(id) => id in b.inFlight && id in b.tasks && c == b.Rejected(id)
  }

  /** The run that ends is all there is of the task. */
  ghost predicate OnlyRun(b: Board, id: string) {
    b.inFlight[id] == 1 && forall h :: h in b.timers ==> b.timers[h] != id
  }

  /**
   * The steps that drop a task: no delay could be computed for it, when it was registered or visited or at
   * the end of its only run, or the lock rejected its only run.
   */
  ghost predicate Drops(b: Board, e: Event) {
    match e
    case Registers(task, delayed) => b.running && task.enabled && !delayed
    case Starts(visited) => exists id :: id in b.tasks && b.tasks[id].Startable() && id !in visited && !Served(b, id)
    case Ends(id, delayed) =>
      && id in b.tasks && b.running && b.tasks[id].Startable() && !b.tasks[id].task.schedule.OnceTask?
      && !delayed && OnlyRun(b, id)
    case Rejects(id) => id in b.tasks && b.running && b.tasks[id].Startable() && OnlyRun(b, id)
    case _ => false
  }

  lemma StepWellFormed(b: Board, e: Event, c: Board)
    requires b.WellFormed() && Step(b, e, c)
    ensures c.WellFormed()
  {
    hide Board.WellFormed, Board.StartsOn, Board.Stopped, Board.Registered, Board.Ended, Board.Rejected, Board.Fired;
    match e
    case Registers(task, delayed) => RegisteredKeeps(b, task, delayed);
    case Starts(_) =>
    case Stops => StoppedKeeps(b);
    case Fires(handle) => FiredKeeps(b, handle);
    case Ends(id, delayed) => EndedKeeps(b, id, delayed);
    case Rejects(id) => RejectedKeeps(b, id);
  }

  lemma OtherServed(b: Board, c: Board, id: string)
    requires Served(b, id) && c.inFlight[id] >= b.inFlight[id]
    requires forall h :: h in b.timers && b.timers[h] == id ==> h in c.timers && c.timers[h] == id
    ensures Served(c, id)
  {
  }

  lemma ScheduledServes(b: Board, id: string, other: string)
    requires b.WellFormed() && id in b.tasks
    ensures Served(b.Scheduled(id), other) <==> Served(b, other) || other == id
  {
    var c := b.Scheduled(id);
    assert b.nextHandle !in b.timers;
    assert c.timers[b.nextHandle] == id;
    if Served(b, other) {
      OtherServed(b, c, other);
    }
  }

  lemma RegisterServes(b: Board, task: Task, delayed: bool)
    requires b.WellFormed() && Serves(b) && task.id !in b.tasks
    ensures Serves(b.Registered(task, delayed)) <==> !Drops(b, Registers(task, delayed))
  {
    var added := b.(tasks := b.tasks[task.id := TaskState(task, None, false)]);
    var c := b.Registered(task, delayed);
    assert !Served(b, task.id);
    if b.running {
      forall id | id in c.tasks
        ensures Served(c, id) <==> Served(b, id) || (id == task.id && task.enabled && delayed)
      {
        if task.enabled && delayed {
          ScheduledServes(added, task.id, id);
        }
      }
    }
  }

  lemma StartServes(b: Board, c: Board, visited: set<string>)
    requires b.WellFormed() && !b.running && b.StartsOn(c, visited) && c.WellFormed()
    ensures Serves(c) <==> !Drops(b, Starts(visited))
  {
    forall id | id in b.tasks && b.tasks[id].Startable()
      ensures Served(c, id) <==> Served(b, id) || id in visited
    {
      if id in visited {
        assert c.timers[c.tasks[id].timer.value] == id;
      } else if Served(b, id) {
        OtherServed(b, c, id);
      }
    }
  }

  lemma FireServes(b: Board, handle: Handle)
    requires b.WellFormed() && Serves(b) && handle in b.timers
    ensures Serves(b.Fired(handle))
  {
    var c := b.Fired(handle);
    if b.running {
      forall id | id in c.tasks && c.tasks[id].Startable()
        ensures Served(c, id)
      {
        if id != b.timers[handle] {
          OtherServed(b, c, id);
        }
      }
    }
  }

  /** Without its run a task is still served by another run or a timer, if it has one. */
  lemma RunTaken(b: Board, id: string, other: string)
    requires id in b.inFlight && Served(b, other)
    ensures Served(b.Rejected(id), other) <==> other != id || !OnlyRun(b, id)
  {
    if other != id {
      OtherServed(b, b.Rejected(id), other);
    }
  }

  lemma RejectServes(b: Board, id: string)
    requires b.WellFormed() && Serves(b) && id in b.inFlight
    ensures Serves(b.Rejected(id)) <==> !Drops(b, Rejects(id))
  {
    if b.running {
      forall other | other in b.tasks && b.tasks[other].Startable()
        ensures Served(b.Rejected(id), other) <==> other != id || !OnlyRun(b, id)
      {
        RunTaken(b, id, other);
      }
    }
  }

  lemma EndServes(b: Board, id: string, delayed: bool)
    requires b.WellFormed() && Serves(b) && id in b.inFlight
    ensures Serves(b.Ended(id, delayed)) <==> !Drops(b, Ends(id, delayed))
  {
    hide OnlyRun;
    if b.running {
      var settled, c := b.Rejected(id), b.Ended(id, delayed);
      RejectedKeeps(b, id);
      forall other | other in b.tasks && b.tasks[other].Startable()
        ensures Served(settled, other) <==> other != id || !OnlyRun(b, id)
      {
        RunTaken(b, id, other);
      }
      if b.tasks[id].task.schedule.OnceTask? {
        forall other ensures Served(c, other) <==> Served(settled, other) {
        }
      } else if delayed {
        forall other ensures Served(c, other) <==> Served(settled, other) || other == id {
          ScheduledServes(settled, id, other);
        }
      }
    }
  }

  /** A step keeps every task served exactly when it is not one of those that drop a task. */
  lemma ServesExactly(b: Board, e: Event, c: Board)
    requires b.WellFormed() && Serves(b) && Step(b, e, c)
    ensures Serves(c) <==> !Drops(b, e)
  {
    match e
    case Registers(task, delayed) => RegisterServes(b, task, delayed);
    case Starts(visited) => StartServes(b, c, visited);
    case Stops =>
    case Fires(handle) => FireServes(b, handle);
    case Ends(id, delayed) => EndServes(b, id, delayed);
    case Rejects(id) => RejectServes(b, id);
  }

  /** With one chain per task, a rejected `acquire` drops every task that it meets in a running service. */
  lemma RejectionDrops(b: Board, id: string)
    requires b.WellFormed() && b.OneChainEach() && id in b.inFlight
    ensures Drops(b, Rejects(id)) <==> b.running && b.tasks[id].Startable()
  {
  }

  /** A run of the service: `states[i + 1]` comes from `states[i]` by event `i`. */
  ghost predicate IsHistory(states: seq<Board>, events: seq<Event>) {
    |states| == |events| + 1 && forall i :: 0 <= i < |events| ==> Step(states[i], events[i], states[i + 1])
  }

  /** Over any history without such a step every task stays served. */
  lemma {:induction false} HistoryServes(states: seq<Board>, events: seq<Event>, n: nat)
    requires IsHistory(states, events) && n <= |events|
    requires states[0].WellFormed() && Serves(states[0])
    requires forall i :: 0 <= i < n ==> !Drops(states[i], events[i])
    ensures states[n].WellFormed() && Serves(states[n])
  {
    if n > 0 {
      HistoryServes(states, events, n - 1);
      assert Step(states[n - 1], events[n - 1], states[n - 1 + 1]);
      StepWellFormed(states[n - 1], events[n - 1], states[n]);
      ServesExactly(states[n - 1], events[n - 1], states[n]);
    }
  }

  /** The steps that give a task a second chain: a start that visits one with a run under way. */
  ghost predicate Doubles(b: Board, e: Event) {
    e.Starts? && exists id :: id in b.tasks && b.tasks[id].Startable() && id in e.visited && b.inFlight[id] > 0
  }

  /** A step keeps one chain per task exactly when it is not one of those. */
  lemma OneChainExactly(b: Board, e: Event, c: Board)
    requires b.WellFormed() && b.OneChainEach() && Step(b, e, c)
    ensures c.OneChainEach() <==> !Doubles(b, e)
  {
    hide Board.WellFormed, Board.StartsOn, Board.Stopped, Board.Registered, Board.Ended, Board.Rejected, Board.Fired;
    hide Board.OneChainEach;
    match e
    case Registers(task, delayed) => RegisteredKeeps(b, task, delayed);
    case Starts(visited) => StartKeeps(b, c, visited);
    case Stops => StoppedKeeps(b);
    case Fires(handle) => FiredKeeps(b, handle);
    case Ends(id, delayed) => EndedKeeps(b, id, delayed);
    case Rejects(id) => RejectedKeeps(b, id);
  }

  /** Over any history without such a step every task has one chain, and a stop leaves no timer. */
  lemma {:induction false} HistoryOneChain(states: seq<Board>, events: seq<Event>, n: nat)
    requires IsHistory(states, events) && n <= |events|
    requires states[0].WellFormed() && states[0].OneChainEach()
    requires forall i :: 0 <= i < n ==> !Doubles(states[i], events[i])
    ensures states[n].WellFormed() && states[n].OneChainEach()
    ensures n > 0 && events[n - 1].Stops? ==> states[n].timers == map[]
  {
    if n > 0 {
      HistoryOneChain(states, events, n - 1);
      assert Step(states[n - 1], events[n - 1], states[n - 1 + 1]);
      StepWellFormed(states[n - 1], events[n - 1], states[n]);
      OneChainExactly(states[n - 1], events[n - 1], states[n]);
      if events[n - 1].Stops? {
        StoppedKeeps(states[n - 1]);
      }
    }
  }

  // ----- The service ---------------------------------------------------------------------------

  /** The last `n` elements. */
  function Last<T>(s: seq<T>, n: nat): seq<T> {
    if |s| <= n then s else s[|s| - n..]
  }

  /** They are the end of the sequence: as many as asked for, or all if there are fewer. */
  lemma LastMeaning<T>(s: seq<T>, n: nat, i: nat)
    ensures |Last(s, n)| <= n && |Last(s, n)| <= |s| && (|Last(s, n)| < n ==> Last(s, n) == s)
    ensures i < |Last(s, n)| ==> Last(s, n)[|Last(s, n)| - 1 - i] == s[|s| - 1 - i]
  {
  }

  ghost predicate ValidClock(clock: string -> Cron.Date) {
    forall id :: clock(id).Valid() && clock(id).At?
  }

  /** The registered tasks, each once. */
  ghost predicate Ordered(order: seq<string>, tasks: map<string, TaskState>) {
    && (forall i, j :: 0 <= i < j < |order| ==> order[i] != order[j])
    && (forall id :: id in order <==> id in tasks)
  }

  ghost function Visited(order: seq<string>, k: nat): set<string>
    requires k <= |order|
  {
    set i | 0 <= i < k :: order[i]
  }

  lemma OrderedNext(order: seq<string>, before: map<string, TaskState>, after: map<string, TaskState>, id: string)
    requires Ordered(order, before) && id !in before && after.Keys == before.Keys + {id}
    ensures Ordered(order + [id], after)
  {
  }

  lemma SameKeysOrdered(order: seq<string>, before: map<string, TaskState>, after: map<string, TaskState>)
    requires Ordered(order, before) && after.Keys == before.Keys
    ensures Ordered(order, after)
  {
  }

  lemma VisitedNext(order: seq<string>, k: nat, tasks: map<string, TaskState>)
    requires Ordered(order, tasks) && k < |order|
    ensures order[k] in tasks && order[k] !in Visited(order, k)
    ensures Visited(order, k + 1) == Visited(order, k) + {order[k]}
  {
    assert order[k] in order;
  }

  /** The startable tasks of `visited` have a next run at the time the clock shows for them. */
  ghost predicate Delayed(tasks: map<string, TaskState>, visited: set<string>, clock: string -> Cron.Date)
    requires AllValid(tasks) && ValidClock(clock)
  {
    forall id :: id in visited && id in tasks && tasks[id].Startable() ==> HasNextRun(tasks[id].task, clock(id))
  }

  ghost predicate CannotDelay(tasks: map<string, TaskState>, id: string, clock: string -> Cron.Date)
    requires AllValid(tasks) && ValidClock(clock)
  {
    id in tasks && tasks[id].Startable() && !HasNextRun(tasks[id].task, clock(id))
  }

  lemma NoneVisited(order: seq<string>, tasks: map<string, TaskState>, clock: string -> Cron.Date)
    requires AllValid(tasks) && ValidClock(clock)
    ensures Visited(order, 0) == {} && Delayed(tasks, {}, clock)
  {
  }

  lemma DelayedNext(tasks: map<string, TaskState>, visited: set<string>, clock: string -> Cron.Date, id: string)
    requires AllValid(tasks) && ValidClock(clock) && id in tasks
    requires Delayed(tasks, visited, clock)
    ensures tasks[id].Startable() ==>
              if HasNextRun(tasks[id].task, clock(id)) then Delayed(tasks, visited + {id}, clock)
              else CannotDelay(tasks, id, clock)
    ensures !tasks[id].Startable() ==> Delayed(tasks, visited + {id}, clock)
  {
    hide HasNextRun, TaskError;
  }

  /** Setting a timer changes nothing about the tasks themselves. */
  lemma DelayedKept(b: Board, tasks: map<string, TaskState>, visited: set<string>, clock: string -> Cron.Date,
                    id: string)
    requires AllValid(b.tasks) && AllValid(tasks) && ValidClock(clock) && id in b.tasks
    requires tasks == b.tasks || tasks == b.Scheduled(id).tasks
    ensures Delayed(b.tasks, visited, clock) <==> Delayed(tasks, visited, clock)
    ensures Delayed(b.tasks, visited + {id}, clock) <==> Delayed(tasks, visited + {id}, clock)
    ensures CannotDelay(b.tasks, id, clock) <==> CannotDelay(tasks, id, clock)
  {
    hide HasNextRun, TaskError;
  }

  /** The timers set since `before` are due as `clock` tells for their tasks, the others as they were. */
  ghost predicate SetDue(before: map<Handle, int>, dueAt: map<Handle, int>, timers: map<Handle, string>,
                         tasks: map<string, TaskState>, clock: string -> Cron.Date)
    requires AllValid(tasks) && ValidClock(clock)
  {
    forall h :: h in timers ==>
      && h in dueAt
      && if h in before then dueAt[h] == before[h]
         else timers[h] in tasks && IsDue(tasks[timers[h]].task, clock(timers[h]), dueAt[h])
  }

  ghost predicate HandlesUsed(dueAt: map<Handle, int>, timers: map<Handle, string>, nextHandle: Handle) {
    dueAt.Keys == timers.Keys && Below(dueAt, nextHandle)
  }

  ghost predicate Below(dueAt: map<Handle, int>, handle: Handle) {
    forall h :: h in dueAt ==> h < handle
  }

  lemma HandleUsedUp(dueAt: map<Handle, int>, timers: map<Handle, string>, nextHandle: Handle, handle: Handle)
    requires HandlesUsed(dueAt, timers, nextHandle)
    ensures HandlesUsed(dueAt - {handle}, timers - {handle}, nextHandle)
  {
  }

  lemma SetDueKept(dueAt: map<Handle, int>, timers: map<Handle, string>, nextHandle: Handle,
                   tasks: map<string, TaskState>, clock: string -> Cron.Date)
    requires AllValid(tasks) && ValidClock(clock) && HandlesUsed(dueAt, timers, nextHandle)
    ensures SetDue(dueAt, dueAt, timers, tasks, clock) && Below(dueAt, nextHandle)
  {
    hide IsDue, AllValid;
  }

  lemma SetDueNext(before: map<Handle, int>, dueAt: map<Handle, int>, timers: map<Handle, string>,
                   tasks: map<string, TaskState>, clock: string -> Cron.Date, id: string, handle: Handle, due: int)
    requires AllValid(tasks) && ValidClock(clock) && id in tasks && HandlesUsed(dueAt, timers, handle)
    requires SetDue(before, dueAt, timers, tasks, clock) && Below(before, handle)
    requires IsDue(tasks[id].task, clock(id), due)
    ensures var scheduled := tasks[id := tasks[id].(timer := Some(handle))];
            AllValid(scheduled) && SetDue(before, dueAt[handle := due], timers[handle := id], scheduled, clock)
    ensures HandlesUsed(dueAt[handle := due], timers[handle := id], handle + 1) && Below(before, handle + 1)
  {
    hide IsDue, TaskError;
  }

  lemma AllVisited(order: seq<string>, tasks: map<string, TaskState>)
    requires Ordered(order, tasks)
    ensures Visited(order, |order|) == tasks.Keys
  {
    forall id | id in tasks
      ensures id in Visited(order, |order|)
    {
      assert id in order;
    }
    forall id | id in Visited(order, |order|)
      ensures id in tasks
    {
      assert id in order;
    }
  }

  class SchedulerService {
    var tasks: map<string, TaskState>
    var order: seq<string> // the Map's insertion order
    var running: bool
    var executed: nat
    var failed: nat
    var skipped: nat
    var failures: seq<(string, string)>
    const maxFailures: nat
    ghost var allFailures: seq<(string, string)>

    // The environment: timers that are set and not yet fired, and runs under way, by task id.
    var timers: map<Handle, string>
    var dueAt: map<Handle, int> // when the timers are due
    var inFlight: multiset<string>
    var nextHandle: Handle

    ghost function State(): Board
      reads this
    {
      Board(tasks, running, timers, inFlight, nextHandle)
    }

    ghost predicate Registry()
      reads this
    {
      AllValid(tasks) && Ordered(order, tasks) && HandlesUsed(dueAt, timers, nextHandle)
    }

    constructor (maxFailures: nat)
      requires maxFailures > 0
      ensures Registry()
      ensures State().WellFormed() && State().OneChainEach() && State() == Board(map[], false, map[], multiset{}, 0)
      ensures this.maxFailures == maxFailures && failures == allFailures == [] && executed == failed == skipped == 0
    {
      this.maxFailures, order := maxFailures, [];
      tasks, running, executed, failed, skipped, failures, allFailures := map[], false, 0, 0, 0, [], [];
      timers, dueAt, inFlight, nextHandle := map[], map[], multiset{}, 0;
    }

    /** `clock` is what the clock shows when a task is scheduled. */
    method Schedule(id: string, clock: string -> Cron.Date, ghost before: map<Handle, int>)
      returns (r: Option<ServiceError>)
      requires id in tasks && Registry() && ValidClock(clock)
      requires SetDue(before, dueAt, timers, tasks, clock) && Below(before, nextHandle)
      modifies this`tasks, this`timers, this`dueAt, this`nextHandle
      ensures Registry()
      ensures r == if HasNextRun(old(tasks[id].task), clock(id)) then None else Some(NoNextRun)
      ensures State() == if r.None? then old(State()).Scheduled(id) else old(State())
      ensures SetDue(before, dueAt, timers, tasks, clock) && Below(before, nextHandle)
    {
      hide TaskError, HasNextRun, Ordered, IsDue, HandlesUsed, SetDue, Below;
      var delay := ComputeDelay(tasks[id].task, clock(id));
      if delay.Failure? {
        return Some(delay.error);
      }
      var handle := nextHandle;
      nextHandle := nextHandle + 1;
      timers := timers[handle := id];
      dueAt := dueAt[handle := clock(id).ms + delay.value];
      SetDueNext(before, old(dueAt), old(timers), tasks, clock, id, handle, dueAt[handle]);
      tasks := tasks[id := tasks[id].(timer := Some(handle))];
      SameKeysOrdered(order, old(tasks), tasks);
      return None;
    }

    /** A task whose delay cannot be computed stays registered, without a timer. */
    method Register(task: Task, clock: string -> Cron.Date) returns (r: Option<ServiceError>)
      requires State().WellFormed() && Registry() && ValidClock(clock)
      modifies this`tasks, this`order, this`timers, this`dueAt, this`nextHandle
      ensures Registry()
      ensures order == if task.id in old(tasks) || TaskError(task).Some? then old(order) else old(order) + [task.id]
      ensures var refused := TaskError(task).Some? || task.id in old(tasks);
              && (refused ==>
                    && r == (if TaskError(task).Some? then TaskError(task) else Some(AlreadyRegistered))
                    && State() == old(State()))
              && (!refused ==>
                    && (r == if running && task.enabled && !HasNextRun(task, clock(task.id)) then Some(NoNextRun)
                             else None)
                    && State() == old(State()).Registered(task, HasNextRun(task, clock(task.id))))
      ensures SetDue(old(dueAt), dueAt, timers, tasks, clock)
    {
      hide HasNextRun, TaskError, Ordered, IsDue;
      var invalid := ValidateTask(task);
      if invalid.Some? {
        return invalid;
      }
      if task.id in tasks {
        return Some(AlreadyRegistered);
      }
      tasks := tasks[task.id := TaskState(task, None, false)];
      OrderedNext(order, old(tasks), tasks, task.id);
      order := order + [task.id];
      r := None;
      if running && task.enabled {
        r := Schedule(task.id, clock, dueAt);
      }
    }

    /**
     * Visits the tasks in the order of their registration. The first delay that cannot be computed ends the
     * start; the tasks not yet visited get no timer.
     */
    method Start(clock: string -> Cron.Date) returns (r: Option<ServiceError>, ghost visited: set<string>)
      requires State().WellFormed() && Registry() && ValidClock(clock)
      modifies this`tasks, this`running, this`timers, this`dueAt, this`nextHandle
      ensures State().WellFormed() && Registry()
      ensures old(running) ==> r.None? && State() == old(State())
      ensures !old(running) ==>
                && old(State()).StartsOn(State(), visited)
                && Delayed(tasks, visited, clock)
                && (r.None? ==> visited == tasks.Keys)
                && (r.Some? ==>
                      && r == Some(NoNextRun)
                      && exists k :: 0 <= k < |order| && visited == Visited(order, k) &&
                           CannotDelay(tasks, order[k], clock))
      ensures SetDue(old(dueAt), dueAt, timers, tasks, clock)
    {
      hide HasNextRun, TaskError, Starting, Board.StartsOn, Board.WellFormed, Ordered, Visited, AllValid, Delayed;
      hide CannotDelay, Board.Scheduled, SetDue, HandlesUsed, Below, IsDue, ValidClock;
      visited := {};
      SetDueKept(dueAt, timers, nextHandle, tasks, clock);
      if running {
        return None, visited;
      }
      running := true;
      ghost var before := old(State());
      StartingBegun(before, State());
      NoneVisited(order, tasks, clock);
      ghost var pending := tasks.Keys;
      for i := 0 to |order|
        invariant State().WellFormed() && Registry() && tasks.Keys == before.tasks.Keys
        invariant Starting(before, State(), pending) && pending == tasks.Keys - visited
        invariant visited == Visited(order, i) && visited <= tasks.Keys
        invariant Delayed(tasks, visited, clock)
        invariant SetDue(old(dueAt), dueAt, timers, tasks, clock) && Below(old(dueAt), nextHandle)
      {
        var id := order[i];
        ghost var now := State();
        VisitedNext(order, i, tasks);
        DelayedNext(tasks, visited, clock, id);
        StartingStep(before, State(), pending, id);
        StartingStops(before, State(), pending, visited);
        if !tasks[id].completed && tasks[id].task.enabled {
          var failure := Schedule(id, clock, old(dueAt));
          DelayedKept(now, tasks, visited, clock, id);
          if failure.Some? {
            return failure, visited;
          }
        }
        pending := pending - {id};
        visited := visited + {id};
      }
      StartingStops(before, State(), pending, visited);
      AllVisited(order, tasks);
      return None, visited;
    }

    method Stop()
      requires State().WellFormed() && Registry()
      modifies this`tasks, this`running, this`timers, this`dueAt
      ensures Registry()
      ensures State() == if old(running) then old(State()).Stopped() else old(State())
      ensures forall h :: h in timers ==> h in old(dueAt) && dueAt[h] == old(dueAt)[h]
    {
      hide Stopping, Board.WellFormed, Board.Stopped, TaskError, Ordered;
      if !running {
        return;
      }
      running := false;
      ghost var before := old(State());
      var pending := tasks.Keys;
      StoppingBegun(before);
      while pending != {}
        invariant !running && pending <= tasks.Keys && inFlight == before.inFlight && nextHandle == before.nextHandle
        invariant Stopping(before, tasks, timers, pending) && AllValid(tasks) && tasks.Keys == before.tasks.Keys
        invariant dueAt.Keys == timers.Keys && forall h :: h in dueAt ==> h in old(dueAt) && dueAt[h] == old(dueAt)[h]
        decreases pending
      {
        var id :| id in pending;
        StoppingStep(before, tasks, timers, pending, id);
        if tasks[id].timer.Some? {
          timers := timers - {tasks[id].timer.value};
          dueAt := dueAt - {tasks[id].timer.value};
          tasks := tasks[id := tasks[id].(timer := None)];
        }
        pending := pending - {id};
      }
      StoppingDone(before, tasks, timers, State());
      SameKeysOrdered(order, old(tasks), tasks);
    }

    /** A timer fires: the run of its task gets under way. */
    method TimerFires(handle: Handle)
      requires State().WellFormed() && Registry() && handle in timers
      modifies this`tasks, this`timers, this`dueAt, this`inFlight
      ensures Registry()
      ensures State() == old(State()).Fired(handle)
      ensures dueAt == old(dueAt) - {handle}
    {
      hide Ordered, TaskError, HandlesUsed, Board.WellFormed;
      TimerIsKnown(State(), handle);
      HandleUsedUp(dueAt, timers, nextHandle, handle);
      var id := timers[handle];
      timers := timers - {handle};
      dueAt := dueAt - {handle};
      tasks := tasks[id := tasks[id].(timer := None)];
      SameKeysOrdered(order, old(tasks), tasks);
      inFlight := inFlight + multiset{id};
    }

    /** `acquire` was rejected, which `runTask` does not catch: the run is over, and nothing else happens. */
    method AcquireRejected(id: string)
      requires State().WellFormed() && Registry() && id in inFlight && BufferValid()
      modifies this`inFlight
      ensures Registry() && BufferValid()
      ensures State() == old(State()).Rejected(id)
    {
      inFlight := inFlight - multiset{id};
    }

    /** Any other run ends: it is counted, a failure is recorded, and the task is completed or set again. */
    method RunEnds(id: string, ending: Ending, clock: string -> Cron.Date) returns (r: Option<ServiceError>)
      requires State().WellFormed() && Registry() && id in inFlight && BufferValid() && ValidClock(clock)
      modifies this
      ensures Registry() && BufferValid()
      ensures id in old(tasks)
      ensures r == if old(running) && !old(tasks)[id].task.schedule.OnceTask? &&
                      !HasNextRun(old(tasks)[id].task, clock(id)) then Some(NoNextRun) else None
      ensures State() == old(State()).Ended(id, HasNextRun(old(tasks)[id].task, clock(id)))
      ensures executed == old(executed) + (if ending.ExecutedRun? then 1 else 0)
      ensures failed == old(failed) + (if ending.FailedRun? then 1 else 0)
      ensures skipped == old(skipped) + (if ending.SkippedRun? then 1 else 0)
      ensures allFailures == old(allFailures) + if ending.FailedRun? then [(id, ending.error)] else []
      ensures SetDue(old(dueAt), dueAt, timers, tasks, clock)
    {
      hide IsDue, Last, Board.WellFormed, HasNextRun, TaskError, Board.Ended, AllValid, Ordered, SetDue, HandlesUsed;
      hide SchedulerService.Registry, SchedulerService.BufferValid, ValidClock;
      UnderWayIsKnown(State(), id);
      Tally(id, ending);
      r := AfterRun(id, clock);
    }

    /** A run is counted as what it was, and the error of one that failed is recorded. */
    method Tally(id: string, ending: Ending)
      requires BufferValid() && Registry()
      modifies this`executed, this`failed, this`skipped, this`failures, this`allFailures
      ensures BufferValid() && Registry()
      ensures executed == old(executed) + (if ending.ExecutedRun? then 1 else 0)
      ensures failed == old(failed) + (if ending.FailedRun? then 1 else 0)
      ensures skipped == old(skipped) + (if ending.SkippedRun? then 1 else 0)
      ensures allFailures == old(allFailures) + if ending.FailedRun? then [(id, ending.error)] else []
    {
      match ending {
        case SkippedRun => skipped := skipped + 1;
        case ExecutedRun => executed := executed + 1;
        case FailedRun(error) =>
          failed := failed + 1;
          RecordFailure((id, error));
      }
    }

    /** The end of `runTask`: a once task is completed, any other is set again while the service runs. */
    method AfterRun(id: string, clock: string -> Cron.Date) returns (r: Option<ServiceError>)
      requires id in tasks && Registry() && ValidClock(clock) && BufferValid()
      modifies this`tasks, this`timers, this`dueAt, this`nextHandle, this`inFlight
      ensures Registry() && BufferValid()
      ensures r == if running && !old(tasks)[id].task.schedule.OnceTask? && !HasNextRun(old(tasks)[id].task, clock(id))
                   then Some(NoNextRun) else None
      ensures State() == old(State()).Ended(id, HasNextRun(old(tasks)[id].task, clock(id)))
      ensures inFlight == old(inFlight) - multiset{id} && SetDue(old(dueAt), dueAt, timers, tasks, clock)
    {
      hide HasNextRun, TaskError, Ordered, IsDue;
      r := None;
      inFlight := inFlight - multiset{id};
      if tasks[id].task.schedule.OnceTask? {
        tasks := tasks[id := tasks[id].(completed := true)];
        SameKeysOrdered(order, old(tasks), tasks);
      } else if running {
        r := Schedule(id, clock, dueAt);
      }
    }

    /** The buffer holds the most recent failures, at most `maxFailures` of them. */
    ghost predicate BufferValid()
      reads this
    {
      maxFailures > 0 && failures == Last(allFailures, maxFailures)
    }

    /** The buffer keeps the most recent failures, dropping the oldest. */
    method RecordFailure(failure: (string, string))
      requires BufferValid()
      modifies this`failures, this`allFailures
      ensures BufferValid() && allFailures == old(allFailures) + [failure]
    {
      if |failures| >= maxFailures {
        failures := failures[1..];
      }
      failures := failures + [failure];
      allFailures := allFailures + [failure];
    }
  }

  /** `b` is a state in the middle of starting from `before`: the tasks of `pending` are still to be visited. */
  ghost predicate Starting(before: Board, b: Board, pending: set<string>) {
    && b.running && b.inFlight == before.inFlight && b.tasks.Keys == before.tasks.Keys
    && before.nextHandle <= b.nextHandle && (forall h :: h in before.timers ==> h < before.nextHandle)
    && (forall h :: h in before.timers ==> h in b.timers && b.timers[h] == before.timers[h])
    && (forall h :: h in b.timers && h !in before.timers ==>
          b.timers[h] in b.tasks && b.timers[h] !in pending && b.tasks[b.timers[h]].timer == Some(h))
    && (forall id :: id in b.tasks ==>
          && b.tasks[id] == before.tasks[id].(timer := b.tasks[id].timer)
          && (b.tasks[id].timer.Some? <==> id !in pending && before.tasks[id].Startable()))
    && (forall id :: id in b.tasks && b.tasks[id].timer.Some? ==> b.tasks[id].timer.value >= before.nextHandle)
  }

  lemma StartingBegun(before: Board, b: Board)
    requires before.WellFormed() && !before.running && b == before.(running := true)
    ensures b.WellFormed() && Starting(before, b, b.tasks.Keys)
  {
  }

  lemma StartingStops(before: Board, b: Board, pending: set<string>, visited: set<string>)
    requires Starting(before, b, pending) && visited == b.tasks.Keys - pending
    ensures before.StartsOn(b, visited)
  {
  }

  lemma StartingSkips(before: Board, b: Board, pending: set<string>, id: string)
    requires Starting(before, b, pending) && id in pending && id in b.tasks && !b.tasks[id].Startable()
    ensures Starting(before, b, pending - {id})
  {
  }

  lemma StartingSets(before: Board, b: Board, pending: set<string>, id: string)
    requires Starting(before, b, pending) && id in pending && id in b.tasks && b.tasks[id].Startable()
    ensures Starting(before, b.Scheduled(id), pending - {id})
  {
    var c := b.Scheduled(id);
    assert b.nextHandle !in before.timers;
    forall h | h in c.timers && h !in before.timers
      ensures c.timers[h] in c.tasks && c.timers[h] !in pending - {id} && c.tasks[c.timers[h]].timer == Some(h)
    {
      if h != b.nextHandle {
        assert c.timers[h] == b.timers[h] && b.timers[h] != id;
      }
    }
  }

  lemma StartingStep(before: Board, b: Board, pending: set<string>, id: string)
    requires Starting(before, b, pending) && b.WellFormed() && id in pending && id in b.tasks
    ensures var c := if b.tasks[id].Startable() then b.Scheduled(id) else b;
            c.WellFormed() && Starting(before, c, pending - {id})
  {
    if b.tasks[id].Startable() {
      ScheduledKeeps(b, id);
      StartingSets(before, b, pending, id);
    } else {
      StartingSkips(before, b, pending, id);
    }
  }

  /** `tasks` and `timers` in the middle of stopping. */
  ghost predicate Stopping(before: Board, tasks: map<string, TaskState>, timers: map<Handle, string>,
                           pending: set<string>)
  {
    && before.WellFormed() && tasks.Keys == before.tasks.Keys
    && (forall id :: id in tasks ==>
          tasks[id] == if id in pending then before.tasks[id] else before.tasks[id].(timer := None))
    && (forall h :: h in timers <==>
          h in before.timers && (before.timers[h] in pending || before.tasks[before.timers[h]].timer != Some(h)))
    && (forall h :: h in timers ==> timers[h] == before.timers[h])
  }

  lemma StoppingBegun(before: Board)
    requires before.WellFormed()
    ensures Stopping(before, before.tasks, before.timers, before.tasks.Keys)
  {
  }

  lemma StoppingDone(before: Board, tasks: map<string, TaskState>, timers: map<Handle, string>, after: Board)
    requires Stopping(before, tasks, timers, {})
    requires after == before.(running := false, tasks := tasks, timers := timers)
    ensures after == before.Stopped()
  {
    assert timers == before.Stopped().timers && tasks == before.Stopped().tasks;
  }

  lemma TimerIsKnown(b: Board, handle: Handle)
    requires b.WellFormed() && handle in b.timers
    ensures b.timers[handle] in b.tasks
  {
  }

  lemma UnderWayIsKnown(b: Board, id: string)
    requires b.WellFormed() && id in b.inFlight
    ensures id in b.tasks
  {
  }

  lemma StoppingStep(before: Board, tasks: map<string, TaskState>, timers: map<Handle, string>, pending: set<string>,
                     id: string)
    requires Stopping(before, tasks, timers, pending) && id in pending && id in tasks
    ensures if tasks[id].timer.Some?
            then Stopping(before, tasks[id := tasks[id].(timer := None)], timers - {tasks[id].timer.value},
                          pending - {id})
            else Stopping(before, tasks, timers, pending - {id})
  {
  }

  /**
   * Stopping and starting again while a run is under way leaves an interval task with two chains, and the
   * next stop then leaves a timer behind, which will run the task of a stopped service.
   */
  lemma RestartDuringRun(b: Board, id: string, h: Handle, c: Board)
    requires b.WellFormed() && b.running && b.OneChainEach() && h in b.timers && b.timers[h] == id
    requires !b.tasks[id].task.schedule.OnceTask? && b.tasks[id].Startable()
    requires b.Fired(h).Stopped().StartsAs(c) && c.WellFormed()
    ensures var d := c.Ended(id, true).Stopped();
            !d.running && exists leaked :: leaked in d.timers && d.timers[leaked] == id
  {
    var stopped := b.Fired(h).Stopped();
    FiredKeeps(b, h);
    StoppedKeeps(b.Fired(h));
    var leaked := c.tasks[id].timer.value;
    var e := c.Ended(id, true);
    assert e.tasks[id].timer == Some(c.nextHandle) && leaked < c.nextHandle;
    assert leaked in e.Stopped().timers;
  }
}
