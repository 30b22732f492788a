/** When the timers of the scheduler are due, without naming the search for the next run. */
module SchedulerTiming {
  import opened Wrappers
  import opened SchedulerServices
  import Text
  import Cron
  import CronRules
  import Search

  /**
   * An interval task is due its interval after now, a once task at `runAt` or at once if that is past, and a
   * cron task at the first matching minute after now.
   */
  lemma DueMeaning(task: Task, now: Cron.Date, due: int)
    requires TaskError(task).None? && now.Valid() && now.At?
    ensures task.schedule.IntervalTask? ==>
              (IsDue(task, now, due) <==> due - now.ms == task.schedule.intervalMs.value)
    ensures task.schedule.OnceTask? ==>
              (IsDue(task, now, due) <==>
               && due >= now.ms && due >= task.schedule.runAt.value.ms
               && (due == now.ms || due == task.schedule.runAt.value.ms))
    ensures task.schedule.CronTask? ==>
              (IsDue(task, now, due) <==> FirstMatch(Cron.ParserOf(task.schedule.expression.value), now, due))
  {
    hide Text.Trim, Cron.Accepts, FirstMatch, NextMinute;
    if task.schedule.CronTask? {
      FirstMatchExactly(Cron.ParserOf(task.schedule.expression.value), now, due);
    }
  }

  /** `due` is a whole minute after `now` that matches, and none in between does. */
  ghost predicate FirstMatch(p: Cron.CronParser, now: Cron.Date, due: int)
    requires now.At?
  {
    exists m :: due == 60_000 * m && CronRules.Searched(now, m) && p.MatchesMinute(m) &&
      forall k :: now.ms < 60_000 * k < due ==> !p.MatchesMinute(k)
  }

  lemma FirstMatchExactly(p: Cron.CronParser, now: Cron.Date, due: int)
    requires now.Valid() && now.At?
    ensures NextMinute(p, now, due) <==> FirstMatch(p, now, due)
  {
    hide Cron.CronParser.MatchesMinute, CronRules.Searched, Cron.CronParser.Window, Cron.CronParser.FirstMinute;
    forall m
      ensures Search.Least(p.MatchesMinute, Cron.CronParser.FirstMinute(now), Cron.CronParser.Window(now), m) <==>
              && CronRules.Searched(now, m) && p.MatchesMinute(m)
              && forall k :: now.ms < 60_000 * k < 60_000 * m ==> !p.MatchesMinute(k)
    {
      CronRules.RunMeaning(p, now, m);
    }
  }
}
