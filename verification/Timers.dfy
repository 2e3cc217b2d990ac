/** AlarmTimerUtils (services/core/ability/alarm/src/alarm_timer_utils.cpp) over the system time service,
    and the random offsets of services/core/ability/utils/include/time_utils.h. */
module Timers {

  const ONE_MINUTE_SECONDS := 60
  const ONE_HOUR_MINUTES := 60
  const ONE_HOUR_SECONDS := 3600
  const FIVE_MINUTES_SECONDS := 300
  const ONE_DAY_SECOND := 86400
  const DEFAULT_UPGRADE_TIME := -1

  /** The timers of one owner: started ones with their trigger times, those that were created but could
      not be started, and how many were created. Timer ids start at 1. */
  datatype TimerTable = TimerTable(live: map<nat, int>, unstarted: set<nat>, made: nat)

  /** What happens inside one RegisterAlarm: the clock it reads and the time service's answers. */
  datatype AlarmEnv = AlarmEnv(now: int, created: bool, started: bool)

  ghost predicate AlarmWorks(time: int, env: AlarmEnv) {
    env.now < time && env.created && env.started
  }

  function Alarm(t: TimerTable, time: int, env: AlarmEnv): (r: (TimerTable, nat))
    ensures r.1 > 0 <==> AlarmWorks(time, env)
    ensures r.0.live == if r.1 > 0 then t.live[r.1 := time] else t.live
    ensures r.1 > 0 ==> t.made < r.1 <= r.0.made
  {
    if env.now >= time || !env.created then (t, 0)
    else if !env.started then (t.(unstarted := t.unstarted + {t.made + 1}, made := t.made + 1), 0)
    else (t.(live := t.live[t.made + 1 := time], made := t.made + 1), t.made + 1)
  }

  /** Every id that was handed out is at most made. */
  ghost predicate Fresh(t: TimerTable) {
    forall id | id in t.live :: 0 < id <= t.made
  }

  /** TimeUtils::GetRandTime(min, max): min is not added, and max - 1 is not reached unless min is 0. */
  predicate IsDraw(r: int, min: int, max: int) {
    if max < min then r == min else 0 <= r < max - min
  }

  lemma {:induction false} SubsetSize(a: set<nat>, b: set<nat>)
    requires a <= b
    ensures |a| <= |b|
  {
    if a != {} {
      var x :| x in a;
      SubsetSize(a - {x}, b - {x});
    }
  }

  class TimeService {
    var table: TimerTable

    constructor ()
      ensures table == TimerTable(map[], {}, 0)
    {
      table := TimerTable(map[], {}, 0);
    }

    method RegisterAlarm(time: int, env: AlarmEnv) returns (timerId: nat)
      modifies this
      ensures (table, timerId) == Alarm(old(table), time, env)
    {
      if env.now >= time {
        return 0;
      }
      timerId := RegisterTimer(time, env);
    }

    method RegisterTimer(time: int, env: AlarmEnv) returns (timerId: nat)
      requires env.now < time
      modifies this
      ensures (table, timerId) == Alarm(old(table), time, env)
    {
      if !env.created {
        return 0;
      }
      timerId := table.made + 1;
      if !env.started {
        table := table.(unstarted := table.unstarted + {timerId}, made := timerId);
        return 0;
      }
      table := table.(live := table.live[timerId := time], made := timerId);
    }

    method UnregisterAlarm(timerId: nat)
      modifies this
      ensures table == old(table).(live := old(table).live - {timerId})
    {
      table := table.(live := table.live - {timerId});
    }
  }
}
