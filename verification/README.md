# Verified models of the platform's cores

A Dafny 4.11 project that models the parts of the repository where a mistake costs money, messages or
mutual exclusion, and proves what they are for. `dafny verify dfyconfig.toml` checks all of it.

| file | models |
|---|---|
| `cron_parser.dfy`, `calendar.dfy`, `search.dfy` | the cron parser and its minute-by-minute search, over the UTC calendar of section 21.4.1 of ECMA-262 |
| `cron_rules.dfy`, `calendar_rules.dfy` | what written expressions and civil dates mean, by rules of their own |
| `journal.dfy`, `posting_rules.dfy`, `posting_meaning.dfy`, `journal_persistence.dfy`, `books.dfy`, `ledger.dfy`, `financial_reports.dfy` | double-entry accounting, from posting rules to reports |
| `object_graph.dfy`, `value_object.dfy`, `value_object_clone.dfy` | value objects over a heap in which sharing and cycles are visible |
| `object_utils.dfy` | `flatten` and `unflatten` |
| `scheduler_lock.dfy`, `scheduler_runs.dfy`, `scheduler_leases.dfy` | the lease lock, and task runs interleaved over it |
| `scheduler_service.dfy`, `scheduler_timing.dfy` | the timers of the service, and when they are due |
| `broker_adapter.dfy`, `broker_history.dfy` | acknowledgement, retry and dead-lettering, and what of it follows from what the handlers did |
| `idempotency_store.dfy` | reserve, complete, release and wait |
| `async_helpers.dfy` | `mapConcurrent` |
| `money.dfy`, `csv_row_reader.dfy` | exact allocation, decimal strings and quoted CSV lines |
| `text.dfy`, `totals.dfy`, `wrappers.dfy` | the string operations used, sums over sequences, results |

What the source does step by step is a method with loops, or a class with the fields the source
updates, specified by a function of the old state; what is promised is then proved about that
function. Protocols are state machines whose actions are the pieces of code between two suspension
points, except that a database transaction and a method of the idempotency store are one action each,
and their results hold for every interleaving. A clock is a number that never goes back;
each reading of it is a value of its own. Tokens and run identifiers are fresh. Exceptions are
`Result` or `Outcome` values.

## What the proofs bring to light

- The search limit of `nextRun` is enough for every satisfiable expression without a weekday
  restriction: the longest Gregorian gap is 2921 days. From a start within eight years of the end of the range
  of Date the search can leave that range before it finds a match, and the error is then the one for an
  invalid Date.
- `ValueObject.equals` compares the values of the props in key order and leaves out the keys and the kind
  of the props. Its documentation calls it structural, which it is for records exactly when the two key lists
  are the same or differ in length. Two value objects over dates always compare as equal, and so do an
  array of one primitive and that primitive.
- `structuralEqual` holds between any Date and a record without keys. It is therefore not transitive;
  it is transitive through a value exactly when that value holds no empty record.
- The copy that a value object keeps is frozen throughout exactly when no date can be reached in it; its
  class comment promises it without that condition.
- An own key `__proto__`, as `JSON.parse` makes it, runs the accessor of `Object.prototype` when it is
  assigned. `flatten` silently loses an entry of that key, and `unflatten` then has nothing to refuse. A
  value object loses the entry as well and, when it holds an object, gives the kept copy that object's frozen
  copy for its prototype; a later key that this makes read-only is refused with a TypeError, so that no value
  object of `{"__proto__":{"x":1},"x":2}` can be made.
- `Money.allocate` hands the leftover to the first parts; its comment calls this largest-remainder style. It
  is exactly when each of these parts has a remainder at least as large as each of the others: 10 in the
  ratio 1 : 2 becomes 4 and 6, and a part of ratio zero can receive a unit.
- `SchedulerService`: stopping and starting again while a run of a task is under way leaves that task
  with two timer chains, and the next stop then clears only one of their timers. Starting is safe
  exactly when no startable task has a run under way.
- `runTask` awaits `acquire` outside any `try`. When the lock rejects it, as a full in-memory table does, the
  run is not counted and the task is never set again while the service runs. The same happens to a cron task
  without a next run; met by `start`, it also leaves all later tasks without a timer.
- `runTask`: when the release fails within the lease and a renewal is pending, under way or answered with
  success, the finished run can go on renewing for ever and so hold the lock. A release that succeeds
  always ends the chain.
- `reversePosted` and `postDraft` test the status of the journal before their transaction and not in it. Two
  reversals with different keys that both pass the test take the entry's amounts back twice, and two requests to
  post a draft apply its lines twice, after which the stored balance holds them twice and the general ledger once. The trial
  balance and the accounting equation do not notice: they hold over every run.
- An escrow release after a payment whose purpose is neither ORDER nor RIDE takes money out of an
  escrow account that the payment never paid into.

## Model

| member | source | states |
|---|---|---|
| `Cron.AddRange` | src/platform/scheduling/cron.parser.ts:117-127 | adds to the set exactly the normalised values start, start + step, … up to end |
| `Cron.AddItem` | src/platform/scheduling/cron.parser.ts:67-115 | each of the four item forms adds the values it stands for; any other item, a zero step, a value out of range or a reversed range is the error named, and adds nothing |
| `Cron.ParseField` | src/platform/scheduling/cron.parser.ts:59-65 | the union of what the items of the list stand for, or the error of the first bad one |
| `Cron.FieldAccepted` | src/platform/scheduling/cron.parser.ts:59-115 | a field is accepted exactly when each of its items is |
| `Cron.FieldMeaning` | src/platform/scheduling/cron.parser.ts:59-127 | an accepted field holds a value exactly when one of its items stands for it |
| `Cron.FieldProper` | src/platform/scheduling/cron.parser.ts:67-139 | an accepted field is not empty, holds only values of its range, and never 7 for Sunday |
| `Cron.StarIsUnrestricted` | src/platform/scheduling/cron.parser.ts:72-81 | `*` allows every value of the range (Sunday as 0 only) |
| `Cron.Parse` | src/platform/scheduling/cron.parser.ts:22-30 | an expression is accepted exactly when it has five fields and each is accepted; its sets are those of the fields |
| `Cron.CronParser.Matches` | src/platform/scheduling/cron.parser.ts:32-42 | an invalid Date is an error; otherwise all five UTC fields must be in their sets (day of month AND day of week) |
| `Cron.CronParser.NextRun` | src/platform/scheduling/cron.parser.ts:44-57 | the least whole minute strictly after the start that matches, within the search window; an error exactly when no minute of the window matches, and which one: no run, or the end of the range of Date |
| `Cron.MatchWithinLimit` | src/platform/scheduling/cron.parser.ts:44-57 | with any day of the week allowed and some allowed date possible, each window of 8 * 366 days holds a match |
| `Cron.MatchMeansSatisfiable` | src/platform/scheduling/cron.parser.ts:32-42 | a match shows that some allowed month has some allowed day |
| `Cron.SearchLimitSuffices` | src/platform/scheduling/cron.parser.ts:44-57 | with any day of the week allowed the search window from any start holds a match if and only if some allowed month has some allowed day |
| `Cron.NextRunOfSatisfiable` | src/platform/scheduling/cron.parser.ts:44-57 | from every start such an expression makes `nextRun` fail only where the range of Date cuts the search window short, and then with the error for an invalid Date |
| `Cron.NextRuns` | src/platform/scheduling/cron.parser.ts:44-57 | calling `nextRun` again and again, each time from the last run, lists every matching minute up to the last one in order, none skipped, none repeated, also where the search window is cut short |
| `CronRules.RangeItem` | src/platform/scheduling/cron.parser.ts:97-108 | `a-b` holds exactly the normalised values from a to b; refused when one of the two is out of range, then when a exceeds b |
| `CronRules.StepItem` | src/platform/scheduling/cron.parser.ts:82-96 | `*/n` holds exactly every n-th value from the least of the range; refused when n is zero |
| `CronRules.StarItem` | src/platform/scheduling/cron.parser.ts:72-81 | `*` holds exactly the normalised values of the range |
| `CronRules.SingleItem` | src/platform/scheduling/cron.parser.ts:112-114 | `n` holds exactly that value; refused when out of range |
| `CronRules.OtherItem` | src/platform/scheduling/cron.parser.ts:109-111 | an item of none of the four forms is refused as invalid |
| `CronRules.PlaceValue` | src/platform/scheduling/cron.parser.ts:112 | numerals are read by place value in base ten |
| `CronRules.ListOfItems` | src/platform/scheduling/cron.parser.ts:59-65 | a list holds what its items hold one by one, and is refused with the error of its first bad item |
| `CronRules.ExpressionMeaning` | src/platform/scheduling/cron.parser.ts:23-29 | words in any spacing are an expression exactly when there are five and each is a field, for 0–59, 0–23, 1–31, 1–12 and 0–7 with 7 as Sunday, in this order |
| `CronRules.StarIsAnyWeekDay` | src/platform/scheduling/cron.parser.ts:72-81 | a star in the fifth field allows exactly the seven days of the week |
| `CronRules.MatchesMeaning` | src/platform/scheduling/cron.parser.ts:32-42 | the moment with a given UTC date and time matches if and only if its minute, hour, date, month and Gregorian day of the week are all in the fields' sets |
| `CronRules.RunMeaning` | src/platform/scheduling/cron.parser.ts:44-57 | the run found is a matching minute after the start and at most 8 * 366 days later, with no matching minute in between |
| `CronRules.NoRunMeaning` | src/platform/scheduling/cron.parser.ts:44-57 | the search fails if and only if no minute of that time that a Date can hold matches |
| `CalendarRules.MonthLengths` | src/platform/scheduling/cron.parser.ts:37-38 | the months are as long as those of the Gregorian calendar |
| `CalendarRules.Epoch` | src/platform/scheduling/cron.parser.ts:34-40 | day 0 is Thursday, 1 January 1970 |
| `CalendarRules.NextDay` | src/platform/scheduling/cron.parser.ts:34-40 | each day is followed by the next weekday and by the next date of the month, or the first of the next month |
| `CalendarRules.WeekDayOfDate` | src/platform/scheduling/cron.parser.ts:39 | the weekday of every date is the one a rule on year, month and date gives |
| `Calendar.FieldsOfDayNumber` | src/platform/scheduling/cron.parser.ts:34-40 | the UTC fields of a valid civil date's day number are that date |
| `Calendar.DayNumberOfFields` | src/platform/scheduling/cron.parser.ts:34-40 | every day number is that of its own fields, which form a valid date |
| `Calendar.FebruaryGap` | src/platform/scheduling/cron.parser.ts:49 | within 2921 days after any day there is a 29 February |
| `Calendar.FebruaryGapIsLongest` | src/platform/scheduling/cron.parser.ts:49 | and the gap of 2921 days is attained around each century year that is not leap |
| `Calendar.DateGap` | src/platform/scheduling/cron.parser.ts:49 | within 2921 days after any day every date that some year has occurs |
| `ValueObjects.AssertSupportedProps` | src/core/domain/value-object.ts:10-39 | accepts exactly when no path from the value meets an unsupported object, closes a cycle or enters an ancestor; leaves the ancestors as found; the error is one that some path shows |
| `ValueObjects.OffendingIsNotClean` | src/core/domain/value-object.ts:20-27 | a path that ends in an unsupported object or closes a cycle excludes acceptance |
| `ValueObjects.StructuralEqual` | src/core/domain/value-object.ts:72-112 | on accepted values with valid dates the memoised comparison equals memo-free equality of the unfolded trees |
| `ValueObjects.ArraysEqual` | src/core/domain/value-object.ts:95-112 | the same for two arrays, item by item |
| `ValueObjects.RecordsEqual` | src/core/domain/value-object.ts:98-112 | the same for two keyed objects: equally many own keys, each found on the other side with an equal value |
| `ValueObjects.KeyedSame` | src/core/domain/value-object.ts:98-112 | two keyed objects are equal exactly when their key sets are and their values are, key by key |
| `ValueObjects.SameTreeReflexive` | src/core/domain/value-object.ts:72-112 | structural equality is reflexive, dates being valid (an Invalid Date equals nothing but itself, so not its copy) |
| `ValueObjects.SameTreeSymmetric` | src/core/domain/value-object.ts:72-112 | and symmetric |
| `ValueObjects.SameTreeIsEquality` | src/core/domain/value-object.ts:72-112 | without dates it is equality of the unfolded trees, so an equivalence |
| `ValueObjects.TransitiveExactly` | src/core/domain/value-object.ts:80-102 | with dates it is transitive through a value if and only if that value holds no empty record |
| `ValueObjects.Equals` | src/core/domain/value-object.ts:139-163 | same class, and equality components pairwise structurally equal |
| `ValueObjects.EqualsIsStructural` | src/core/domain/value-object.ts:136-174 | for records with the same key list that is structural equality of the props |
| `ValueObjects.StructuralExactly` | src/core/domain/value-object.ts:136-174 | for props of any two kinds (primitive, date, array of a length, record of a key list) `equals` is structural equality whatever they hold if and only if the numbers of components differ, or both are primitives, or arrays, or records of the same key list, or a date and a record without keys |
| `ValueObjects.DatesAlwaysEqual` | src/core/domain/value-object.ts:169-174 | value objects over two dates always compare as equal |
| `ValueObjects.ItemEqualsItsArray` | src/core/domain/value-object.ts:169-174 | props that are an array of one primitive compare as equal to that primitive |
| `FreezeClone.DeepFreezeClone` | src/core/domain/value-object.ts:41-70 | it throws if and only if some reachable record has a key refused; otherwise the copy unfolds to the tree without the `__proto__` entries that assignment loses, is made of new objects, frozen except dates (these valid), and no existing object changes; sharing goes through a sound memo |
| `FreezeClone.CloneArray` | src/core/domain/value-object.ts:55-62 | the same for an array that is filled in place after it was memoised |
| `FreezeClone.CloneRecord` | src/core/domain/value-object.ts:63-69 | the same for a record: `copy[key] = …` runs an inherited `__proto__` accessor and throws at a key that the prototype then in force makes read-only |
| `FreezeClone.KeptProps` | src/core/domain/value-object.ts:129-134 | there is a copy if and only if no reachable record has a key refused; it shares no object with anything that existed; it has the structure of the props, for structural equality and as a tree, their dates being valid, if and only if in addition no reachable record loses a `__proto__` entry; an object of it is frozen if and only if it is no date, so all of it exactly when no date can be reached |
| `ObjectGraph.RefusedExactly` | src/core/domain/value-object.ts:63-69 | nothing is lost and nothing refused if and only if no reachable record has its own `__proto__` under the accessor or a key that it inherits read-only |
| `ObjectGraph.CannotAssign` | src/core/domain/value-object.ts:63-69 | an object that inherits from a frozen copy cannot assign the names of the copy's own properties, nor those that copy inherits; under an array these are its indices and length |
| `ObjectGraph.RecordProto` | src/core/domain/value-object.ts:63-69 | what a copied record passes on as a prototype: the keys it has kept and what it inherits after its `__proto__` entry |
| `FreezeClone.ExactCopy` | src/core/domain/value-object.ts:63-69 | a copy made by assignment has the tree of the original if and only if every reachable object can be copied so |
| `FreezeClone.ProtoEntryLost` | src/core/domain/value-object.ts:64-67 | of the accepted props `JSON.parse('{"__proto__":1}')` an empty record is kept |
| `FreezeClone.ProtoEntryRefuses` | src/core/domain/value-object.ts:64-69 | in `{"__proto__":{"x":1},"x":2}`, which is accepted, exactly the key `x` is refused |
| `FreezeClone.RefusedProps` | src/core/domain/value-object.ts:129-134 | no value object of these props is made: the copy throws at `x` |
| `ObjectGraph.StripExact` | src/core/domain/value-object.ts:63-69 | dropping the entries that assignment loses leaves the tree as it is if and only if no reachable record has one |
| `SchedulerLock.InMemorySchedulerLock.PurgeExpired` | src/platform/scheduling/in-memory-scheduler-lock.ts:89-96 | removes exactly the expired entries |
| `SchedulerLock.InMemorySchedulerLock.AcquireLock` | src/platform/scheduling/in-memory-scheduler-lock.ts:36-60 | none exactly when the own entry is unexpired at the second reading, table full exactly when no own entry is left and `maxEntries` entries outlive the first; otherwise the new token with expiry reading + TTL; every other key keeps its entry exactly when that outlives the first reading; blank keys and other TTLs are errors that change nothing |
| `SchedulerLock.InMemorySchedulerLock.ReleaseLock` | src/platform/scheduling/in-memory-scheduler-lock.ts:62-69 | removes the entry only if it has the token |
| `SchedulerLock.InMemorySchedulerLock.RenewLock` | src/platform/scheduling/in-memory-scheduler-lock.ts:71-87 | extends the entry only if it has the token and has not expired; an expired one is dropped |
| `SchedulerLock.TableBounded` | src/platform/scheduling/in-memory-scheduler-lock.ts:36-96 | no call makes the table exceed `maxEntries` |
| `SchedulerRuns.StepConsistent` | src/platform/scheduling/scheduler.service.ts:117-171 | each step of any run, at any suspension point, keeps the invariant that ties runs, tokens and lock entries together |
| `SchedulerRuns.TraceConsistent` | src/platform/scheduling/scheduler.service.ts:117-171 | so does every interleaving, and the clock never goes back |
| `SchedulerRuns.MutualExclusion` | src/platform/scheduling/scheduler.service.ts:117-171 | at most one run per lock key holds an unexpired lease, and the table stays within its bound |
| `SchedulerRuns.OverlapNeedsExpiry` | src/platform/scheduling/scheduler.service.ts:146-165 | two handlers of a task run at once only if the lease of one is over |
| `SchedulerRuns.OthersKeepLease` | src/platform/scheduling/scheduler.service.ts:117-171 | no step of another run, however late, removes a lease entry or changes its expiry |
| `SchedulerRuns.ReleasedIsLost` | src/platform/scheduling/scheduler.service.ts:157-164 | a release takes the run's entry away |
| `SchedulerRuns.SupersededIsLost` | src/platform/scheduling/scheduler.service.ts:117-124 | so does a grant to another run |
| `SchedulerRuns.LostStaysLost` | src/platform/scheduling/scheduler.service.ts:134-145 | a lost entry never comes back |
| `SchedulerRuns.DeadStaysDead` | src/platform/scheduling/scheduler.service.ts:134-145 | nor is one that has expired ever extended |
| `SchedulerRuns.RenewalDiesOut` | src/platform/scheduling/scheduler.service.ts:134-146 | the renewal chain of a run whose entry is lost or expired ends after at most four more steps |
| `SchedulerRuns.RenewsOnExactly` | src/platform/scheduling/scheduler.service.ts:134-164 | a finished run can go on renewing, for more than four steps and then for ever, if and only if it is within its lease and its chain is armed, under way or answered with success |
| `SchedulerRuns.ReleaseEndsChain` | src/platform/scheduling/scheduler.service.ts:157-164 | a release that succeeds always ends the chain |
| `SchedulerRuns.FailedReleaseRenewsOn` | src/platform/scheduling/scheduler.service.ts:157-164 | one that fails lets the chain go on for ever if and only if the run is within its lease and the chain has not ended |
| `SchedulerLeases.GrantedExactly` | src/platform/scheduling/scheduler.service.ts:117-124 | an acquire of a key without an unexpired entry is granted whenever there is room or an own entry to overwrite, whatever else is held, and refused otherwise |
| `SchedulerLeases.GrantedEntries` | src/platform/scheduling/in-memory-scheduler-lock.ts:46-59 | a grant puts the run's entry in place with the expiry the run is promised; of the other entries exactly the expired ones go |
| `SchedulerLeases.BeginsArmed` | src/platform/scheduling/scheduler.service.ts:134-146 | a run that begins sets its renewal timer and stays within the lease it was granted |
| `SchedulerLeases.RenewedExactly` | src/platform/scheduling/scheduler.service.ts:137-144 | a renewal of an unfinished run succeeds exactly when it reaches the lock within the lease, which it then prolongs |
| `SchedulerLeases.RoundKeepsLease` | src/platform/scheduling/scheduler.service.ts:134-145 | a round of timer, renewal and answer within the lease leaves a whole new lease and the timer set again |
| `SchedulerLeases.SettlingClears` | src/platform/scheduling/scheduler.service.ts:128-133 | a handler that settles while the renewal timer is set ends the renewals at once, over every continuation |
| `SchedulerLeases.ReleaseFrees` | src/platform/scheduling/scheduler.service.ts:157-164 | a release takes away the run's own entry and no other |
| `SchedulerServices.ComputeDelay` | src/platform/scheduling/scheduler.service.ts:180-191 | now + delay is the first matching minute after now for a cron task, the later of now and `runAt` for a once task, and now + `intervalMs` for an interval task; it fails exactly for a cron task without a next run |
| `SchedulerTiming.DueMeaning` | src/platform/scheduling/scheduler.service.ts:180-191 | what due means: an interval after now; `runAt`, or now if that is past; the first matching minute after now, with none in between |
| `SchedulerServices.SchedulerService.Schedule` | src/platform/scheduling/scheduler.service.ts:109-115 | sets one new timer for the task, due at the time its delay gives, and leaves all others as they were |
| `SchedulerServices.SatisfiableHasNextRun` | src/platform/scheduling/scheduler.service.ts:180-191 | a satisfiable expression without a weekday restriction has one at every time from which the whole search window lies in the range of Date |
| `SchedulerServices.ValidateTask` | src/platform/scheduling/scheduler.service.ts:193-230 | the error `validateTask` throws, in its order |
| `SchedulerServices.SchedulerService.Register` | src/platform/scheduling/scheduler.service.ts:57-67 | the errors of `validateTask` (193-230) in its order, then a known id are refused; otherwise the task is added and, in a running service, its timer set, or it stays without one when no delay can be computed |
| `SchedulerServices.SchedulerService.Start` | src/platform/scheduling/scheduler.service.ts:69-79 | sets one new timer, due as its delay gives, for each startable task in the order of registration, up to the first whose delay cannot be computed: that error, and no timer for it and those after it |
| `SchedulerServices.SchedulerService.Stop` | src/platform/scheduling/scheduler.service.ts:81-92 | clears each timer that a task remembers, and no other |
| `SchedulerServices.SchedulerService.TimerFires` | src/platform/scheduling/scheduler.service.ts:109-115 | the timer is gone and a run of its task is under way |
| `SchedulerServices.SchedulerService.RunEnds` | src/platform/scheduling/scheduler.service.ts:117-171 | a run that was skipped, returned or threw is counted once as that, a failure is recorded, and its task is completed or set again |
| `SchedulerServices.SchedulerService.AcquireRejected` | src/platform/scheduling/scheduler.service.ts:121 | when `acquire` is rejected nothing is counted, recorded or set: the run is just over |
| `SchedulerServices.SchedulerService.AfterRun` | src/platform/scheduling/scheduler.service.ts:166-170 | what is done with the task at the end of a run, including a delay that cannot be computed |
| `SchedulerServices.SchedulerService.RecordFailure` | src/platform/scheduling/scheduler.service.ts:173-178 | the buffer is always the last `maxFailures` failures |
| `SchedulerServices.LastMeaning` | src/platform/scheduling/scheduler.service.ts:173-178 | they are the most recent ones, in order, and none is dropped while there is room |
| `SchedulerServices.FiredKeeps` | src/platform/scheduling/scheduler.service.ts:109-115 | firing keeps one chain per task |
| `SchedulerServices.EndedKeeps` | src/platform/scheduling/scheduler.service.ts:166-170 | the end of a run keeps one chain per task |
| `SchedulerServices.RejectedKeeps` | src/platform/scheduling/scheduler.service.ts:117-121 | so does a run whose `acquire` is rejected |
| `SchedulerServices.RegisteredKeeps` | src/platform/scheduling/scheduler.service.ts:57-67 | registering keeps one chain per task |
| `SchedulerServices.StartedFields` | src/platform/scheduling/scheduler.service.ts:69-79 | of the visited tasks exactly those enabled and not completed get a new timer, each one of its own |
| `SchedulerServices.StoppedFields` | src/platform/scheduling/scheduler.service.ts:81-92 | stopping clears exactly the timers that tasks remember |
| `SchedulerServices.BoardFields` | src/platform/scheduling/scheduler.service.ts:109-171 | what firing, the end of a run and registering leave, field by field: a once task is completed, another set again only while running, a disabled task never set |
| `SchedulerServices.StoppedKeeps` | src/platform/scheduling/scheduler.service.ts:81-92 | with one chain per task stopping leaves no timer at all |
| `SchedulerServices.StartKeeps` | src/platform/scheduling/scheduler.service.ts:69-79 | starting keeps one chain per task if and only if no startable task that it visits has a run under way |
| `SchedulerServices.RestartDuringRun` | src/platform/scheduling/scheduler.service.ts:69-92 | stop and start during a run leave two chains, and the next stop then leaks a timer |
| `SchedulerServices.ServesExactly` | src/platform/scheduling/scheduler.service.ts:57-171 | every enabled, uncompleted task of a running service keeps having a timer or a run under way if and only if the step is not one that drops a task: a delay that cannot be computed, or a rejected `acquire` of its only run |
| `SchedulerServices.RejectionDrops` | src/platform/scheduling/scheduler.service.ts:117-121 | with one chain per task a rejected `acquire` drops every task it meets in a running service |
| `SchedulerServices.HistoryServes` | src/platform/scheduling/scheduler.service.ts:57-171 | over every history without such a step no task is dropped |
| `SchedulerServices.OneChainExactly` | src/platform/scheduling/scheduler.service.ts:57-171 | a step keeps one chain per task if and only if it is no start that visits a task with a run under way |
| `SchedulerServices.HistoryOneChain` | src/platform/scheduling/scheduler.service.ts:57-171 | over every history without such a start each task has one chain, and a stop leaves no timer |
| `Journal.JournalDraft.AddDebit` | src/modules/accounting/domain/journal.ts:50-64 | appends a debit line, or refuses a non-positive amount or blank account code and appends nothing |
| `Journal.JournalDraft.AddCredit` | src/modules/accounting/domain/journal.ts:66-80 | the same for a credit line |
| `Journal.JournalDraft.AssertBalanced` | src/modules/accounting/domain/journal.ts:98-114 | passes exactly when there are lines, both sides total the same and every line has exactly one side; otherwise the first of the three errors that applies |
| `Journal.MirroredNet` | src/modules/accounting/domain/journal.ts:86-92 | lines with the sides swapped net to the opposite on every account |
| `PostingRules.ResolvePayment` | src/modules/accounting/domain/posting-rules.ts:46-106 | succeeds exactly when the amount and all hinted allocations are positive and these sum to at most the amount, with the error named; the draft holds the lines of the rule |
| `PostingRules.ResolveRefund` | src/modules/accounting/domain/posting-rules.ts:124-176 | the same for the refund |
| `PostingRules.ResolveEscrowRelease` | src/modules/accounting/domain/posting-rules.ts:184-215 | Dr escrow / Cr payable for a positive amount, balanced |
| `PostingRules.ResolveSettlementPayout` | src/modules/accounting/domain/posting-rules.ts:229-251 | Dr payable / Cr payout clearing for a positive amount, balanced |
| `PostingRules.AcceptedBalances` | src/modules/accounting/domain/posting-rules.ts:46-176 | an accepted payment or refund is balanced and totals exactly the amount on both sides |
| `PostingMeaning.ChartOfAccounts` | src/modules/accounting/domain/posting-rules.ts:23-39 | the code of the account of every purpose and beneficiary |
| `PostingMeaning.PostableExactly` | src/modules/accounting/domain/posting-rules.ts:46-109 | accepted exactly when the amount and every allocation that names an account are positive and these sum to at most the amount, and otherwise which error |
| `PostingMeaning.NetOfAnyPayment` | src/modules/accounting/domain/posting-rules.ts:46-112 | what each account holds after a payment with any allocations: cash the amount, each named account its allocations, the purpose's account the rest |
| `PostingRules.RefundUndoesPayment` | src/modules/accounting/domain/posting-rules.ts:46-176 | a payment and the refund of the same input net to zero on every account |
| `PostingRules.CyclePosition` | src/modules/accounting/domain/posting-rules.ts:23-251 | what each account holds after a payment and any releases and payouts |
| `PostingRules.EscrowCycleCloses` | src/modules/accounting/domain/posting-rules.ts:23-251 | releasing an un-hinted payment in full and paying out what was released, in any parts and order, leaves Dr platform cash / Cr payout clearing and nothing else if and only if the purpose is ORDER or RIDE |
| `JournalPersistence.MapsEveryLine` | src/modules/accounting/use-cases/journal-persistence.util.ts:122-148 | every line keeps its place and amounts and gets its account, or the first unresolved code is reported |
| `JournalPersistence.BalanceTable.ApplyBalanceIncrements` | src/modules/accounting/use-cases/journal-persistence.util.ts:65-120 | each touched account's row moves by the sums of its lines, keeps its currency and gets the closing balance of its type; every other row stays |
| `JournalPersistence.AppliedAt` | src/modules/accounting/use-cases/journal-persistence.util.ts:65-120 | what the table holds afterwards under any key |
| `JournalPersistence.RowAfter` | src/modules/accounting/use-cases/journal-persistence.util.ts:87-119 | both totals of a touched row grow by the sums of its lines, its balance is theirs in the normal direction of the account, and its currency stays |
| `JournalPersistence.GroupingIsOneByOne` | src/modules/accounting/use-cases/journal-persistence.util.ts:71-86 | grouping per account ends in the balances of writing the lines one by one |
| `JournalPersistence.AnyOrder` | src/modules/accounting/use-cases/journal-persistence.util.ts:71-86 | in any order of the lines |
| `Ledgers.JournalService.PostDraftLines` | src/modules/accounting/use-cases/journal.service.ts:443-476 | a composite step: the check that the resolvers (src/modules/accounting/domain/posting-rules.ts:104) and `createDraft` (line 129) make of a draft, then these lines; it posts exactly the drafts that are balanced and whose codes resolve, and a refused draft changes nothing |
| `Ledgers.JournalService.CreateDraft` | src/modules/accounting/use-cases/journal.service.ts:93-198 | keeps exactly the drafts that are balanced and whose codes resolve |
| `Ledgers.JournalService.RequestPost` | src/modules/accounting/use-cases/journal.service.ts:200-217 | what `postDraft` tests before its transaction: an unknown draft and one whose entry is voided are refused, a posted one is answered with its entry, any other goes on |
| `Ledgers.JournalService.CommitPost` | src/modules/accounting/use-cases/journal.service.ts:219-254 | its transaction: the lines are applied and the status set, whatever the status is by then |
| `Ledgers.JournalService.RequestReversal` | src/modules/accounting/use-cases/journal.service.ts:280-320 | what `reversePosted` tests before its transaction: a used key or a voided entry is answered with the reversal there is, a posted entry goes on; where no entry is reversed twice it fails exactly for a blank key, or for an unknown entry with a new one |
| `Ledgers.JournalService.CommitReversal` | src/modules/accounting/use-cases/journal.service.ts:322-424 | its transaction: a key used by then changes nothing, otherwise the swapped lines are posted and the entry voided, whatever its status is by then |
| `Ledgers.ReversedOnceExactly` | src/modules/accounting/use-cases/journal.service.ts:200-424 | a step keeps every entry reversed at most once, and voided exactly if reversed, if and only if it is no commit that finds its entry voided: a reversal with a new key of an entry voided since its check, or a draft posted again after the reversal of its entry |
| `Ledgers.OnceEachExactly` | src/modules/accounting/use-cases/journal.service.ts:200-254 | a step keeps the journal listing exactly what was applied to the balances if and only if it does not post a draft that was posted since its check |
| `Ledgers.RunInTime` | src/modules/accounting/use-cases/journal.service.ts:200-476 | over every run without such late commits both hold |
| `Ledgers.RunKeysOnce` | src/modules/accounting/use-cases/journal.service.ts:285-327 | over every run, late commits included, no two reversals have the same key |
| `Ledgers.TwoReversals` | src/modules/accounting/use-cases/journal.service.ts:280-424 | two requests with different keys that both pass their checks before the first commits reverse the entry twice and take its effect on every balance back twice |
| `Ledgers.TwoPosts` | src/modules/accounting/use-cases/journal.service.ts:200-254 | two requests to post a draft that do so apply its lines twice, while the journal's own lines give them once |
| `Ledgers.PostKeeps` | src/modules/accounting/use-cases/journal.service.ts:443-476 | a posting keeps each stored row equal to the totals of what was applied |
| `Ledgers.StepKeeps` | src/modules/accounting/use-cases/journal.service.ts:93-476 | so does every other step: keeping a draft, the check and the commit of its posting, of a reversal |
| `Ledgers.RunRecorded` | src/modules/accounting/use-cases/journal.service.ts:93-476 | so does every run, in any periods and with any interleaving of checks and commits |
| `Ledgers.PostMovesBalance` | src/modules/accounting/use-cases/journal.service.ts:443-476 | a posting moves each closing balance by what its draft nets to on that account |
| `Ledgers.CommitTakesBack` | src/modules/accounting/use-cases/journal.service.ts:322-424 | a reversal that is posted in a period takes back there what the entry had added to every balance |
| `Ledgers.RefundRestoresBalances` | src/modules/accounting/domain/posting-rules.ts:46-176 | posting a payment and its refund leaves every stored closing balance as it was |
| `Ledgers.CycleRestoresBalances` | src/modules/accounting/domain/posting-rules.ts:179-251 | posting a whole escrow cycle leaves every closing balance but those of cash and payout clearing as it was |
| `FinancialReports.GeneralLedger` | src/modules/accounting/use-cases/financial-reports.service.ts:86-144 | a blank or unknown code is refused; the running balance after each line is the sum of the signed amounts so far |
| `FinancialReports.RunningEndsAtJournal` | src/modules/accounting/use-cases/financial-reports.service.ts:112-131 | in whatever order an account's lines are listed, the last running balance is what the journal's lines give |
| `FinancialReports.RunningEndsAtClosing` | src/modules/accounting/use-cases/financial-reports.service.ts:112-131 | where the journal lists exactly what was applied, in whatever order an account's lines are listed, the last running balance is its stored closing balance |
| `FinancialReports.RowTotals` | src/modules/accounting/use-cases/financial-reports.service.ts:54-84 | the rows of a period sum to the amounts applied in it |
| `FinancialReports.TrialBalanceBalances` | src/modules/accounting/use-cases/financial-reports.service.ts:54-84 | after every run, late commits included, the trial balance of each period is balanced, at the total of all debits applied |
| `FinancialReports.SectionsSplit` | src/modules/accounting/use-cases/financial-reports.service.ts:146-214 | the five sections hold the signed closing balances of all rows |
| `FinancialReports.FiveTotals` | src/modules/accounting/use-cases/financial-reports.service.ts:146-214 | each of the five totals, and net income, sums the closing balances of its own account type over all rows |
| `FinancialReports.AccountingEquation` | src/modules/accounting/use-cases/financial-reports.service.ts:146-214 | after every run, late commits included, assets = liabilities + equity + net income, in each period |
| `ObjectUtils.Flatten` | src/shared/utils/object.utils.ts:190-214 | every leaf and empty record under its joined path and nothing else, if and only if no entry would have the key `__proto__`; that one entry is lost |
| `ObjectUtils.LosesAtTop` | src/shared/utils/object.utils.ts:205-208 | with a separator that does not occur in `__proto__` that is an entry at the top that is not descended into |
| `ObjectUtils.Visit` | src/shared/utils/object.utils.ts:195-211 | the assignments one visit makes, of which the one under `__proto__` makes no property |
| `ObjectUtils.JoinInjective` | src/shared/utils/object.utils.ts:205 | distinct paths of non-empty, separator-free keys never collide |
| `ObjectUtils.InsertPath` | src/shared/utils/object.utils.ts:222-231 | walking the cursor amounts to inserting along the path; an unsafe key anywhere is refused |
| `ObjectUtils.InsertReads` | src/shared/utils/object.utils.ts:223-231 | after an insertion the item is at its path and a record at each place on the way, replacing what is none; everything else reads as before |
| `ObjectUtils.Unflatten` | src/shared/utils/object.utils.ts:216-234 | inserts all entries, or reports an unsafe path |
| `ObjectUtils.PruneGrows` | src/shared/utils/object.utils.ts:222-231 | inserting one entry of the flat form adds exactly that path of the original |
| `ObjectUtils.FlattenRoundTrip` | src/shared/utils/object.utils.ts:190-234 | unflattening the output of flatten, in any order of its properties: refused if a path it has is unsafe, otherwise the part of the record that it describes; the record itself, empty records included, if and only if no key is unsafe and no entry was lost |
| `ObjectUtils.ProtoLost` | src/shared/utils/object.utils.ts:205-208 | the record `JSON.parse('{"__proto__":1}')` is not refused and comes back empty |
| `BrokerAdapter.Dispatch.MessageAck` | src/infrastructure/messaging/base-broker.adapter.ts:101-105 | the first settlement of a delivery is one ack; afterwards it changes nothing |
| `BrokerAdapter.Dispatch.MessageNack` | src/infrastructure/messaging/base-broker.adapter.ts:106-110 | the same for a nack |
| `BrokerAdapter.Dispatch.FinishRejection` | src/infrastructure/messaging/base-broker.adapter.ts:144-161 | publishes the next attempt, or past `maxRetries` the dead letter, only when a retry was asked for |
| `BrokerAdapter.LateHandlerUnnoticed` | src/infrastructure/messaging/base-broker.adapter.ts:94-142 | once a message is settled and the race decided, whatever its handler still does changes neither what the driver has seen nor the dispatch |
| `BrokerAdapter.Dispatch.HandlerEnds` | src/infrastructure/messaging/base-broker.adapter.ts:112-118 | the first to end the race decides it; a handler that ends later decides nothing |
| `BrokerAdapter.Dispatch.TimeOut` | src/infrastructure/messaging/base-broker.adapter.ts:121-142 | a timeout fails the race while the handler goes on |
| `BrokerAdapter.Dispatch.Conclude` | src/infrastructure/messaging/base-broker.adapter.ts:112-118 | after the race the message is acked, or nacked with retry |
| `BrokerAdapter.StepConsistent` | src/infrastructure/messaging/base-broker.adapter.ts:90-161 | each step of handlers, timeouts, dispatch and driver keeps every message in one place and its handlings counted |
| `BrokerAdapter.SettledOnce` | src/infrastructure/messaging/base-broker.adapter.ts:90-119 | a delivery reaches the driver as at most one ack or nack, and as exactly one when its dispatch is done, also with late handlers |
| `BrokerAdapter.SettlementFinal` | src/infrastructure/messaging/base-broker.adapter.ts:94-111 | what the driver has seen of a delivery never changes |
| `BrokerAdapter.OnePlace` | src/infrastructure/messaging/base-broker.adapter.ts:144-161 | a published message is in exactly one place: queued, with one delivery, or dead-lettered; never two live copies |
| `BrokerAdapter.HandledBounded` | src/infrastructure/messaging/base-broker.adapter.ts:144-161 | no message is handled more than `maxRetries + 1` times |
| `BrokerAdapter.DeadLettered` | src/infrastructure/messaging/base-broker.adapter.ts:151-160 | a dead-lettered message was handled exactly `maxRetries + 1` times, is dead-lettered once and has no live copy |
| `BrokerAdapter.AlwaysFailingIsDeadLettered` | src/infrastructure/messaging/base-broker.adapter.ts:90-161 | once all is quiet a message is in the dead-letter topic, exactly once, if and only if every handling of it failed |
| `BrokerAdapter.StepsBounded` | src/infrastructure/messaging/base-broker.adapter.ts:90-161 | in every interleaving at most 6 * (maxRetries + 1) steps do something about one message |
| `BrokerAdapter.NotQuietMoves` | src/infrastructure/messaging/base-broker.adapter.ts:90-161 | while all is not quiet about a message there is such a step to take |
| `BrokerHistory.CallsFollowAnswer` | src/infrastructure/messaging/base-broker.adapter.ts:94-111 | in every reachable state the driver has seen one ack exactly when the message is acked, one nack exactly when it is rejected, as its first settlement was |
| `BrokerHistory.EnabledExactly` | src/infrastructure/messaging/base-broker.adapter.ts:90-161 | what can happen to a delivery is decided by what has happened to it |
| `BrokerHistory.DispatchSettles` | src/infrastructure/messaging/base-broker.adapter.ts:112-118 | a handler that settles nothing itself: its message is acked if it returned in time, and nacked with retry if it threw or timed out |
| `BrokerHistory.DeadLetteredExactly` | src/infrastructure/messaging/base-broker.adapter.ts:90-161 | once all is quiet a message is dead-lettered, once and after all attempts, if and only if each of its deliveries was first of all nacked with retry |
| `BrokerHistory.FailingHandlersDeadLetter` | src/infrastructure/messaging/base-broker.adapter.ts:90-161 | a message whose handlers always throw or time out is dead-lettered once, after `maxRetries + 1` handlings, 4 by default |
| `BrokerHistory.ReturningHandlerIsFinal` | src/infrastructure/messaging/base-broker.adapter.ts:112-114 | a message one of whose handlers returned in time is not dead-lettered |
| `BrokerHistory.TopicsFollow` | src/infrastructure/messaging/base-broker.adapter.ts:144-161 | a message is always handled under its own topic and dead-lettered under the configured one, or its own with `.dead-letter` |
| `IdempotencyStore.PrismaIdempotencyStore.TryReserve` | src/infrastructure/database/idempotency/prisma-idempotency.store.ts:127-187 | reserves exactly when no row of the key expires after the first reading, whatever its state; the row then holds this fingerprint and owner, in progress until the second reading + TTL; otherwise the row is returned and nothing changes |
| `IdempotencyStore.PrismaIdempotencyStore.CompleteReservation` | src/infrastructure/database/idempotency/prisma-idempotency.store.ts:189-211 | stores the response only for the owner of the key's in-progress row |
| `IdempotencyStore.PrismaIdempotencyStore.ReleaseReservation` | src/infrastructure/database/idempotency/prisma-idempotency.store.ts:213-224 | deletes only the owner's in-progress row |
| `IdempotencyStore.PrismaIdempotencyStore.Get` | src/infrastructure/database/idempotency/prisma-idempotency.store.ts:226-232 | a record exactly when the row exists and expires after now |
| `IdempotencyStore.PrismaIdempotencyStore.WaitForCompletion` | src/infrastructure/database/idempotency/prisma-idempotency.store.ts:234-250 | ends whatever others do to the table if sleeping advances the clock; an unfinished record is returned only at the deadline, which no sleep asks to pass |
| `IdempotencyStore.RunConsistent` | src/infrastructure/database/idempotency/prisma-idempotency.store.ts:127-224 | table and reservations agree after every run |
| `IdempotencyStore.OneHolder` | src/infrastructure/database/idempotency/prisma-idempotency.store.ts:127-187 | a key has at most one unexpired holder |
| `IdempotencyStore.HolderCompletes` | src/infrastructure/database/idempotency/prisma-idempotency.store.ts:189-211 | the holder's completion is never lost |
| `IdempotencyStore.HolderBlocksOthers` | src/infrastructure/database/idempotency/prisma-idempotency.store.ts:127-187 | while a reservation is held nobody else obtains the key |
| `IdempotencyStore.OthersChangeNothing` | src/infrastructure/database/idempotency/prisma-idempotency.store.ts:189-224 | completing or releasing changes the table if and only if it is done by the owner of the in-progress row, and then only that row |
| `IdempotencyStore.LateUpdateExactly` | src/infrastructure/database/idempotency/prisma-idempotency.store.ts:195-210 | if the table changes between the look-up and the update of `complete`, the update does what the whole does as one step if and only if the owner's row is still in progress or already reads like that |
| `IdempotencyStore.LateUpdateHitsOther` | src/infrastructure/database/idempotency/prisma-idempotency.store.ts:195-210 | when another client has taken the expired row over in between, that client's reservation is completed |
| `IdempotencyStore.AnswerStable` | src/infrastructure/database/idempotency/prisma-idempotency.store.ts:189-224 | a completed record does not change over any run that ends before it expires |
| `IdempotencyStore.GrantedExactly` | src/infrastructure/database/idempotency/prisma-idempotency.store.ts:127-187 | in every state a reservation is granted if and only if no row of its key is left to expire, and what table and reservations then hold |
| `IdempotencyStore.ExpiredGivesWay` | src/infrastructure/database/idempotency/prisma-idempotency.store.ts:127-187 | over every run: a completed record is served until it expires; from then on it is not, and the next reservation of its key is granted |
| `IdempotencyStore.FateFinal` | src/infrastructure/database/idempotency/prisma-idempotency.store.ts:189-224 | a token answers at most once, or releases, never both |
| `AsyncHelpers.Pool.Resume` | src/shared/helpers/async.helpers.ts:158-162 | a worker claims the next index, or returns when there is none |
| `AsyncHelpers.Pool.Fulfil` | src/shared/helpers/async.helpers.ts:162 | the result is stored at the claimed index |
| `AsyncHelpers.Pool.Reject` | src/shared/helpers/async.helpers.ts:162 | a rejection ends the worker |
| `AsyncHelpers.Pool.Step` | src/shared/helpers/async.helpers.ts:158-164 | every step keeps the pool's invariant and uses up its budget |
| `AsyncHelpers.Pool.Complete` | src/shared/helpers/async.helpers.ts:165-168 | when all workers have returned every output is stored |
| `AsyncHelpers.MapConcurrent` | src/shared/helpers/async.helpers.ts:149-169 | under any scheduling each index is claimed exactly once, at every state the workers pass through at most `limit` calls are in flight, and without a rejection the output is the sequential map in input order |
| `Moneys.Of` | src/shared/money/money.ts:18-37 | accepts exactly safe amounts, three-capital currencies and non-negative digit counts |
| `Moneys.OfMeaning` | src/shared/money/money.ts:18-37 | what is tested, in which order, with which error, and that the money is what was given |
| `Moneys.ParsedExactly` | src/shared/money/money.ts:49-56 | a string parses as a decimal if and only if it is that decimal written out |
| `Moneys.FromDecimalStringAccepts` | src/shared/money/money.ts:44-65 | a string is accepted if and only if, trimmed, it is a decimal written out that fits the digits and the safe range, and the currency is valid |
| `Moneys.FromDecimalStringMeaning` | src/shared/money/money.ts:44-65 | an accepted string denotes exactly amount / 10^digits |
| `Moneys.DecimalRoundTrip` | src/shared/money/money.ts:44-65 | parsing what `toDecimalString` prints gives the money back, for every amount and digit count |
| `Moneys.DecimalOfMoney` | src/shared/money/money.ts:174-185 | the printed digits are those of the amount, with exactly the digit count after the point |
| `Moneys.Allocate` | src/shared/money/money.ts:138-171 | fails exactly for empty, negative or zero-sum ratios; otherwise the parts sum to the amount with its sign, each the floor of its exact share or one unit more |
| `Moneys.HandOut` | src/shared/money/money.ts:160-163 | the leftover goes one unit at a time to the first parts |
| `Moneys.LeftoverBounds` | src/shared/money/money.ts:155-159 | the leftover is smaller than the number of parts |
| `Moneys.ZeroRatioPart` | src/shared/money/money.ts:160-163 | a part of ratio zero receives a unit if and only if it is among the first `leftover` parts |
| `Moneys.LargestRemainderExactly` | src/shared/money/money.ts:133-163 | the units go to the largest remainders, as the comment says, if and only if each of the first `leftover` parts has a remainder at least as large as each of the others |
| `Moneys.TenInThirds` | src/shared/money/money.ts:155-163 | 10 in the ratio 1 : 2 becomes 4 and 6 instead of 3 and 7 |
| `Moneys.UnitForNothing` | src/shared/money/money.ts:155-163 | 1 in the ratio 0 : 1 : 1 goes to the part of ratio zero |
| `CsvRowReader.ParseCsvLine` | src/platform/imports/csv-row-reader.ts:22-50 | the character loop computes the recursive reading of the line |
| `CsvRowReader.ReadQuoted` | src/platform/imports/csv-row-reader.ts:28-38 | inside quotes an escaped cell is read back up to its closing quote |
| `CsvRowReader.ReadWritten` | src/platform/imports/csv-row-reader.ts:22-50 | reading undoes writing for all cells, quoted or plain, and every delimiter of one code unit but the quote |
| `CsvRowReader.UnusableDelimiter` | src/platform/imports/csv-row-reader.ts:41-46 | with any other delimiter, one outside the basic plane included, no line is ever split |

## Left out

- NestJS modules, controllers, guards, DTOs, configuration, health, metrics and logging: wiring without an algorithm.
- Prisma, Redis, Kafka, NATS, RabbitMQ and storage drivers: a table, a lock or a queue stands for them.
- Cryptography, random identifiers and tokens: tokens are parameters, fresh where the source generates them.
- Numbers that are not finite or not whole: time values, times to live and allocation ratios are integers.
- Moneys.Allocate: does not model the rounding of the floating-point product and quotient; the arithmetic is exact, and negative zero is zero.
- Moneys.FromDecimalStringAccepts: reads digits exactly, where `Number` rounds an amount of more than 2^53; such an amount is unsafe and refused either way.
- Map, Set, RegExp and Buffer are one unsupported kind of object; symbol keys, getters and sparse arrays are not modelled.
- Structural equality is stated for accepted values, the only ones a value object keeps; on cyclic values the memo makes the answer depend on the order of comparison.
- Invalid dates: a DateNode is a valid date. Of an Invalid Date the copy is not structurally equal to it, though the same object is equal to itself.
- FreezeClone.CloneRecord: of what a record inherits only the `__proto__` accessor and the names that cannot be assigned are modelled; other inherited accessors are not.
- ValueObjects.StructuralEqual: does not model records that inherit from a date, which `instanceof` takes for one; a copy with a date under `__proto__` is such a record.
- ObjectUtils.Visit: works on trees, so the rejection of cyclic records has no counterpart; an item that is not a plain record is an opaque leaf, whose own accessors or frozen properties are not modelled should it become a prototype under `__proto__`.
- ObjectUtils.InsertPath: the moving cursor is a path into the output value, so aliasing between the output and the items is not visible.
- IdempotencyStore.PrismaIdempotencyStore.TryReserve: is one atomic step, so the branch after a unique-constraint violation, which needs a concurrent transaction, is not modelled.
- IdempotencyStore.PrismaIdempotencyStore.CompleteReservation: is one atomic step in the runs, as is the release, though each is a look-up and a later statement; what can come in between for completions is in LateUpdateExactly.
- SchedulerServices.ComputeDelay: the accuracy of timers is not modelled; a timer may fire at any time after it is set.
- A completeness claim for cron expressions with a restricted day of the week: such an expression can pause for more than eight years, and the search then fails by design.
- CSV: the line reader, the header row and the column count.
- Broker: connection, subscriptions, recovery, and driver calls that fail; the driver never redelivers and nobody subscribes to the dead-letter topic.
- Ledgers.JournalService.PostDraftLines: entry numbers, audit records and the status of the period are not modelled.
- Ledgers.JournalService.CommitPost: a transaction is one step, isolated from all others; this holds for every Commit and for the posting of lines. Two transactions that run at the same time could read the same balance row, or the same key as new.
- Ledgers.JournalService.CommitReversal: the text of a reversal's memo is not modelled, nor an external reference of another entry that happens to look like a reversal key.
- FinancialReports: formatting, names, exports and the reports on commission, settlement, payables, receivables and wallets.
- FinancialReports.GeneralLedger: the query for an account's lines is a parameter; that it lists the lines of POSTED and VOIDED entries, in any order, is what RunningEndsAtClosing assumes of it.
- Other array, string and date helpers, quotas, archiving, soft deletion and approval workflows: they would only add easy members.
