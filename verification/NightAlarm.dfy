/** The night-upgrade alarm: services/firmware/alarm/src/night_upgrade_alarm_manager.cpp and the key order
    of its header. Local time is a fixed offset from UTC. */
module NightAlarm {
  import opened Common
  import opened Timers

  const HOUR_TWO := 2
  const HOUR_THREE := 3

  // ---------- Local time ----------

  /** A broken-down local time; day counts days, the year and month are not needed. */
  datatype Tm = Tm(day: int, hour: int, min: int, sec: int)

  function MkTime(tm: Tm, offset: int): int {
    tm.day * ONE_DAY_SECOND + tm.hour * 3600 + tm.min * 60 + tm.sec - offset
  }

  function LocalTime(t: int, offset: int): (tm: Tm)
    ensures 0 <= tm.hour < 24 && 0 <= tm.min < 60 && 0 <= tm.sec < 60
    ensures MkTime(tm, offset) == t
  {
    var s := (t + offset) % ONE_DAY_SECOND;
    Tm((t + offset) / ONE_DAY_SECOND, s / 3600, s % 3600 / 60, s % 60)
  }

  lemma LocalOfMkTime(tm: Tm, offset: int)
    requires 0 <= tm.hour < 24 && 0 <= tm.min < 60 && 0 <= tm.sec < 60
    ensures LocalTime(MkTime(tm, offset), offset) == tm
  {
    var inDay := tm.hour * 3600 + tm.min * 60 + tm.sec;
    assert (tm.day * ONE_DAY_SECOND + inDay) / ONE_DAY_SECOND == tm.day;
    assert (tm.day * ONE_DAY_SECOND + inDay) % ONE_DAY_SECOND == inDay;
    assert inDay / 3600 == tm.hour && inDay % 3600 == tm.min * 60 + tm.sec;
  }

  /** The hour in which the upgrade is planned for a given local hour of the clock. */
  function PlannedHour(hour: int): int {
    if hour == HOUR_TWO then HOUR_THREE else HOUR_TWO
  }

  /** time is the first moment after now at which the local clock shows the planned hour, the drawn
      minute and the second that now shows. */
  ghost predicate IsPlanned(time: int, now: int, offset: int, minute: int) {
    && now < time <= now + ONE_DAY_SECOND
    && LocalTime(time, offset).hour == PlannedHour(LocalTime(now, offset).hour)
    && LocalTime(time, offset).min == minute
    && LocalTime(time, offset).sec == LocalTime(now, offset).sec
  }

  lemma PlannedUnique(a: int, b: int, now: int, offset: int, minute: int)
    requires IsPlanned(a, now, offset, minute) && IsPlanned(b, now, offset, minute)
    ensures a == b
  {
    assert a - b == (LocalTime(a, offset).day - LocalTime(b, offset).day) * ONE_DAY_SECOND;
  }

  /** A planned time lies at most 86340 seconds ahead. */
  lemma {:induction false} PlannedBound(time: int, now: int, offset: int, minute: int)
    requires IsPlanned(time, now, offset, minute)
    ensures time <= now + 86340
    ensures LocalTime(time, offset).hour in {2, 3}
  {
    var a, b := LocalTime(time, offset), LocalTime(now, offset);
    assert time - now == (a.day - b.day) * ONE_DAY_SECOND + (a.hour - b.hour) * 3600 + (a.min - b.min) * 60;
  }

  // ---------- Tasks and their order ----------

  datatype Info = Info(priority: int, isNeedReboot: bool)

  type Callback = nat

  /** CompareClass: tasks without reboot first, then by priority, lowest number first. */
  predicate Less(a: Info, b: Info) {
    if a.isNeedReboot == b.isNeedReboot then a.priority < b.priority else !a.isNeedReboot
  }

  /** CompareClass is a strict total order, so std::map keeps one entry for each pair. */
  lemma LessIsStrictTotalOrder(a: Info, b: Info, c: Info)
    ensures !Less(a, a)
    ensures Less(a, b) && Less(b, c) ==> Less(a, c)
    ensures a == b || Less(a, b) || Less(b, a)
    ensures !(Less(a, b) && Less(b, a))
  {
    if a.isNeedReboot == b.isNeedReboot && a.priority == b.priority {
      assert a == b;
    }
  }

  ghost predicate IsLeast(k: Info, keys: set<Info>) {
    k in keys && forall j | j in keys :: j == k || Less(k, j)
  }

  lemma {:induction false} HasLeast(keys: set<Info>) returns (k: Info)
    requires keys != {}
    ensures IsLeast(k, keys)
    decreases |keys|
  {
    k :| k in keys;
    var rest := keys - {k};
    if rest != {} {
      var m := HasLeast(rest);
      if Less(m, k) {
        assert forall j | j in keys :: j == k || j in rest;
        k := m;
      } else {
        forall j | j in rest ensures Less(k, j) {
          LessIsStrictTotalOrder(k, m, j);
        }
      }
    }
  }

  ghost predicate StrictlySorted(s: seq<Info>) {
    forall i, j | 0 <= i < j < |s| :: Less(s[i], s[j])
  }

  /** The tasks that one night runs, in order: all that need no reboot by priority, then of those that do
      only the best one. */
  ghost predicate IsDispatch(keys: set<Info>, ran: seq<Info>) {
    && StrictlySorted(ran)
    && (forall k | k in ran :: k in keys)
    && (forall k | k in keys && !k.isNeedReboot :: k in ran)
    && (forall k, j | k in ran && k.isNeedReboot && j in keys && j.isNeedReboot :: k.priority <= j.priority)
    && ((exists k | k in keys :: k.isNeedReboot) ==> ran != [] && ran[|ran| - 1].isNeedReboot)
  }

  lemma Tail(s: seq<Info>, k: Info)
    requires StrictlySorted(s) && s != []
    ensures k in s[1..] <==> k in s && k != s[0]
  {
    assert s == [s[0]] + s[1..];
  }

  lemma {:induction false} SortedUnique(a: seq<Info>, b: seq<Info>)
    requires StrictlySorted(a) && StrictlySorted(b) && forall k :: k in a <==> k in b
    ensures a == b
    decreases |a|
  {
    assert a != [] ==> a[0] in a;
    assert b != [] ==> b[0] in b;
    if a != [] {
      assert a[0] == b[0];
      forall k ensures k in a[1..] <==> k in b[1..] {
        Tail(a, k);
        Tail(b, k);
      }
      SortedUnique(a[1..], b[1..]);
      assert a == [a[0]] + a[1..] && b == [b[0]] + b[1..];
    }
  }

  /** The description leaves no choice. */
  lemma DispatchUnique(keys: set<Info>, a: seq<Info>, b: seq<Info>)
    requires IsDispatch(keys, a) && IsDispatch(keys, b)
    ensures a == b
  {
    forall k ensures k in a <==> k in b {
    }
    SortedUnique(a, b);
  }

  // ---------- The state ----------

  /** nightUpgradeAlarmMap_, nightUpgradeTime_, nightTimerId_ and the time service; waiting counts the handlers
      of expired timers that have not got the lock yet. */
  datatype Night = Night(tasks: map<Info, Callback>, time: int, timerId: nat, timers: TimerTable, waiting: nat)

  /** The clock, localtime's result and the random minute at one registration, and what RegisterAlarm
      meets; offset is the time zone. */
  datatype Env = Env(now: int, hasLocal: bool, offset: int, minute: int, alarm: AlarmEnv)

  predicate IllegalTime(time: int, now: int) {
    time == DEFAULT_UPGRADE_TIME || time < now || time - now > ONE_DAY_SECOND
  }

  predicate IsRegistered(s: Night, info: Info) {
    info in s.tasks && s.timerId > 0
  }

  function Disarm(s: Night): Night {
    s.(time := DEFAULT_UPGRADE_TIME, timerId := 0,
       timers := if s.timerId > 0 then s.timers.(live := s.timers.live - {s.timerId}) else s.timers)
  }

  /** The time that CalculateUpgradeTime returns; 0 without a local time. */
  function UpgradeTime(env: Env): (time: int)
    requires IsDraw(env.minute, 0, ONE_HOUR_MINUTES)
    ensures env.hasLocal ==> IsPlanned(time, env.now, env.offset, env.minute)
    ensures !env.hasLocal ==> time == 0
  {
    if !env.hasLocal then 0 else
      var tm := LocalTime(env.now, env.offset);
      var planned := Tm(if tm.hour <= HOUR_TWO then tm.day else tm.day + 1, PlannedHour(tm.hour), env.minute, tm.sec);
      LocalOfMkTime(planned, env.offset);
      MkTime(planned, env.offset)
  }

  function Arm(s: Night, env: Env): Night
    requires IsDraw(env.minute, 0, ONE_HOUR_MINUTES)
  {
    if !IllegalTime(s.time, env.now) then s else
      var time := UpgradeTime(env);
      var (timers, timerId) := Alarm(Disarm(s).timers, time, env.alarm);
      Night(s.tasks, time, timerId, timers, s.waiting)
  }

  function Register(s: Night, info: Info, cb: Callback, env: Env): Night
    requires IsDraw(env.minute, 0, ONE_HOUR_MINUTES)
  {
    Arm(if IsRegistered(s, info) then s else s.(tasks := s.tasks[info := cb]), env)
  }

  /** The first key with this priority in map order: the one without reboot, if it is there. */
  function FirstWith(tasks: map<Info, Callback>, priority: int): set<Info> {
    if Info(priority, false) in tasks then {Info(priority, false)}
    else if Info(priority, true) in tasks then {Info(priority, true)}
    else {}
  }

  function Unregister(s: Night, priority: int): Night {
    var tasks := s.tasks - FirstWith(s.tasks, priority);
    if tasks == map[] then Disarm(s.(tasks := tasks)) else s.(tasks := tasks)
  }

  /** The alarm goes off: the time service drops the timer, and its callback waits for the lock. */
  function Expire(s: Night, id: nat): Night {
    s.(timers := s.timers.(live := s.timers.live - {id}), waiting := s.waiting + 1)
  }

  /** A waiting callback gets the lock. */
  function Handle(s: Night): Night
    requires s.waiting > 0
  {
    s.(time := DEFAULT_UPGRADE_TIME, timerId := 0, waiting := s.waiting - 1)
  }

  const EMPTY := Night(map[], DEFAULT_UPGRADE_TIME, 0, TimerTable(map[], {}, 0), 0)

  datatype Step =
    | RegisterStep(info: Info, cb: Callback, env: Env)
    | UnregisterStep(priority: int)
    | ExpireStep(id: nat)
    | HandleStep

  ghost predicate Enabled(s: Night, step: Step) {
    match step
    case RegisterStep(_, _, env) => IsDraw(env.minute, 0, ONE_HOUR_MINUTES)
    case UnregisterStep(_) => true
    case ExpireStep(id) => id in s.timers.live
    case HandleStep => s.waiting > 0
  }

  function Apply(s: Night, step: Step): Night
    requires Enabled(s, step)
  {
    match step
    case RegisterStep(info, cb, env) => Register(s, info, cb, env)
    case UnregisterStep(priority) => Unregister(s, priority)
    case ExpireStep(id) => Expire(s, id)
    case HandleStep => Handle(s)
  }

  ghost predicate Leads(s: Night, steps: seq<Step>, t: Night)
    decreases |steps|
  {
    if steps == [] then s == t else Enabled(s, steps[0]) && Leads(Apply(s, steps[0]), steps[1..], t)
  }

  // ---------- The timers over runs ----------

  /** No timer besides the recorded one is live, and that one is set for the recorded time. */
  ghost predicate OneTimer(s: Night) {
    && Fresh(s.timers)
    && (s.timers.live == map[] || (s.timerId > 0 && s.timers.live == map[s.timerId := s.time]))
  }

  /** A handler that gets the lock when another timer is recorded and live. */
  ghost predicate IsLate(s: Night, step: Step) {
    step.HandleStep? && s.timerId in s.timers.live
  }

  /** A late handler, and nothing else, leaves a live timer unrecorded. */
  lemma OneTimerStep(s: Night, step: Step)
    requires OneTimer(s) && Enabled(s, step)
    ensures OneTimer(Apply(s, step)) <==> !IsLate(s, step)
  {
    if IsLate(s, step) {
      assert s.timerId in Apply(s, step).timers.live;
    }
  }

  function Expiries(steps: seq<Step>): nat {
    if steps == [] then 0 else (if steps[0].ExpireStep? then 1 else 0) + Expiries(steps[1..])
  }

  function Handlers(steps: seq<Step>): nat {
    if steps == [] then 0 else (if steps[0].HandleStep? then 1 else 0) + Handlers(steps[1..])
  }

  /** One handler runs for each expiry. */
  lemma {:induction false} HandledOnce(s: Night, steps: seq<Step>, t: Night)
    requires Leads(s, steps, t)
    ensures t.waiting + Handlers(steps) == s.waiting + Expiries(steps)
    decreases |steps|
  {
    if steps != [] {
      HandledOnce(Apply(s, steps[0]), steps[1..], t);
    }
  }

  lemma {:induction false} GoneStaysGone(s: Night, steps: seq<Step>, t: Night, id: nat)
    requires Leads(s, steps, t) && id <= s.timers.made && id !in s.timers.live
    ensures id !in t.timers.live
    decreases |steps|
  {
    if steps != [] {
      GoneStaysGone(Apply(s, steps[0]), steps[1..], t, id);
    }
  }

  /** A timer that has expired is not live again. */
  lemma ExpiredStaysGone(s: Night, id: nat, steps: seq<Step>, t: Night)
    requires Fresh(s.timers) && Enabled(s, ExpireStep(id)) && Leads(Apply(s, ExpireStep(id)), steps, t)
    ensures id !in t.timers.live
  {
    GoneStaysGone(Apply(s, ExpireStep(id)), steps, t, id);
  }

  ghost predicate AlwaysOneTimer(s: Night, steps: seq<Step>)
    decreases |steps|
  {
    OneTimer(s) && (steps != [] && Enabled(s, steps[0]) ==> AlwaysOneTimer(Apply(s, steps[0]), steps[1..]))
  }

  ghost predicate HasLate(s: Night, steps: seq<Step>)
    decreases |steps|
  {
    steps != [] && Enabled(s, steps[0]) && (IsLate(s, steps[0]) || HasLate(Apply(s, steps[0]), steps[1..]))
  }

  /** Over every run: at all times no timer besides the recorded one is live, exactly if no handler was late. */
  lemma {:induction false} TimersOverRuns(s: Night, steps: seq<Step>, t: Night)
    requires OneTimer(s) && Leads(s, steps, t)
    ensures AlwaysOneTimer(s, steps) <==> !HasLate(s, steps)
    ensures !HasLate(s, steps) ==> OneTimer(t)
    decreases |steps|
  {
    if steps != [] {
      OneTimerStep(s, steps[0]);
      if !IsLate(s, steps[0]) {
        TimersOverRuns(Apply(s, steps[0]), steps[1..], t);
      }
    }
  }

  ghost function LateCount(s: Night, steps: seq<Step>): nat
    decreases |steps|
  {
    if steps == [] || !Enabled(s, steps[0]) then 0
    else (if IsLate(s, steps[0]) then 1 else 0) + LateCount(Apply(s, steps[0]), steps[1..])
  }

  ghost function Unrecorded(s: Night): set<nat> {
    s.timers.live.Keys - {s.timerId}
  }

  lemma UnrecordedStep(s: Night, step: Step)
    requires Fresh(s.timers) && Enabled(s, step)
    ensures Fresh(Apply(s, step).timers)
    ensures Unrecorded(Apply(s, step)) <= Unrecorded(s) + if IsLate(s, step) then {s.timerId} else {}
  {
  }

  /** In every run there are at most as many live timers as late handlers, and the recorded one. */
  lemma {:induction false} LeaksBounded(s: Night, steps: seq<Step>, t: Night)
    requires Fresh(s.timers) && Leads(s, steps, t)
    ensures |Unrecorded(t)| <= |Unrecorded(s)| + LateCount(s, steps)
    decreases |steps|
  {
    if steps != [] {
      var next := Apply(s, steps[0]);
      UnrecordedStep(s, steps[0]);
      var bound := Unrecorded(s) + if IsLate(s, steps[0]) then {s.timerId} else {};
      SubsetSize(Unrecorded(next), bound);
      LeaksBounded(next, steps[1..], t);
    }
  }

  /** So from the start on at most one timer is live for each late handler, and one more. */
  lemma LiveBounded(steps: seq<Step>, t: Night)
    requires Leads(EMPTY, steps, t)
    ensures |t.timers.live| <= 1 + LateCount(EMPTY, steps)
  {
    LeaksBounded(EMPTY, steps, t);
    assert |t.timers.live| == |t.timers.live.Keys|;
    SubsetSize(t.timers.live.Keys, Unrecorded(t) + {t.timerId});
    assert Unrecorded(EMPTY) == {};
  }

  // ---------- Registrations over runs ----------

  ghost function UpgradeTimeOf(env: Env): int {
    if IsDraw(env.minute, 0, ONE_HOUR_MINUTES) then UpgradeTime(env) else 0
  }

  /** A registration that does not meet a failing alarm. */
  ghost predicate Reliable(step: Step) {
    step.RegisterStep? ==> AlarmWorks(UpgradeTimeOf(step.env), step.env.alarm)
  }

  lemma {:induction false} TimesHaveIds(s: Night, steps: seq<Step>, t: Night)
    requires Leads(s, steps, t) && forall step | step in steps :: Reliable(step)
    requires s.time != DEFAULT_UPGRADE_TIME ==> s.timerId > 0
    ensures t.time != DEFAULT_UPGRADE_TIME ==> t.timerId > 0
    decreases |steps|
  {
    if steps != [] {
      assert Reliable(steps[0]);
      TimesHaveIds(Apply(s, steps[0]), steps[1..], t);
    }
  }

  /** In every run without a failing alarm, late handlers included, a task that has just been registered is
      reported as registered. */
  lemma {:induction false} NightInvariant(steps: seq<Step>, t: Night, info: Info, cb: Callback, env: Env)
    requires Leads(EMPTY, steps, t) && IsDraw(env.minute, 0, ONE_HOUR_MINUTES)
    requires (forall step | step in steps :: Reliable(step)) && Reliable(RegisterStep(info, cb, env))
    ensures IsRegistered(Register(t, info, cb, env), info)
  {
    TimesHaveIds(EMPTY, steps, t);
  }

  /** In general a registration is reported exactly when a legal time with a timer was there, or a new
      alarm could be set. A failed alarm leaves a legal time without a timer, and then every later
      registration before that time goes unreported. */
  lemma RegisteredIff(s: Night, info: Info, cb: Callback, env: Env)
    requires IsDraw(env.minute, 0, ONE_HOUR_MINUTES)
    ensures IsRegistered(Register(s, info, cb, env), info)
            <==> if IllegalTime(s.time, env.now) then AlarmWorks(UpgradeTime(env), env.alarm) else s.timerId > 0
  {
  }

  /** A registration keeps a recorded time that lies within the next day, with its timer; otherwise it plans the next
      night, and if the alarm can be set, a timer for that is the only one. */
  lemma RegisterPlans(s: Night, info: Info, cb: Callback, env: Env)
    requires IsDraw(env.minute, 0, ONE_HOUR_MINUTES) && OneTimer(s)
    ensures var t := Register(s, info, cb, env);
            if s.time != DEFAULT_UPGRADE_TIME && env.now <= s.time <= env.now + ONE_DAY_SECOND
            then t == s.(tasks := t.tasks)
            else (if env.hasLocal then IsPlanned(t.time, env.now, env.offset, env.minute) else t.time == 0)
                 && t.timers.live == if AlarmWorks(t.time, env.alarm) then map[t.timerId := t.time] else map[]
  {
  }

  /** A registration with a local time leaves a legal time, so repeating it at the same clock value keeps
      the timer, whatever is drawn then. */
  lemma RepeatKeepsTimer(s: Night, a: Info, ca: Callback, ea: Env, b: Info, cb: Callback, eb: Env)
    requires IsDraw(ea.minute, 0, ONE_HOUR_MINUTES) && IsDraw(eb.minute, 0, ONE_HOUR_MINUTES)
    requires ea.hasLocal && eb.now == ea.now && ea.now >= DEFAULT_UPGRADE_TIME
    ensures var first := Register(s, a, ca, ea);
            var second := Register(first, b, cb, eb);
            second.time == first.time && second.timerId == first.timerId && second.timers == first.timers
  {
    if IllegalTime(s.time, ea.now) {
      PlannedBound(UpgradeTime(ea), ea.now, ea.offset, ea.minute);
    }
  }

  /** An unregister that empties the map leaves no alarm behind. */
  lemma UnregisterLast(s: Night, priority: int)
    requires OneTimer(s) && Unregister(s, priority).tasks == map[]
    ensures var t := Unregister(s, priority);
            t.timerId == 0 && t.time == DEFAULT_UPGRADE_TIME && t.timers.live == map[]
  {
  }

  /** The keys of the tasks with this priority. */
  ghost function WithPriority(s: Night, priority: int): set<Info> {
    set k | k in s.tasks && k.priority == priority
  }

  ghost function Entry(s: Night, info: Info): Option<Callback> {
    if info in s.tasks then Some(s.tasks[info]) else None
  }

  /** What a step leaves under a key: a registration writes its callback unless the task was reported registered,
      an unregister removes the first task of its priority in map order, and nothing else touches a task. */
  ghost function NextEntry(s: Night, step: Step, info: Info, entry: Option<Callback>): Option<Callback> {
    match step
    case RegisterStep(i, cb, _) => if i == info && (entry.None? || s.timerId == 0) then Some(cb) else entry
    case UnregisterStep(priority) =>
      if info.priority == priority && IsLeast(info, WithPriority(s, priority)) then None else entry
    case _ => entry
  }

  ghost function EntryAfter(s: Night, steps: seq<Step>, info: Info, entry: Option<Callback>): Option<Callback>
    decreases |steps|
  {
    if steps == [] || !Enabled(s, steps[0]) then entry
    else EntryAfter(Apply(s, steps[0]), steps[1..], info, NextEntry(s, steps[0], info, entry))
  }

  lemma LeastOfPriority(s: Night, priority: int, info: Info)
    ensures IsLeast(info, WithPriority(s, priority)) <==> info in FirstWith(s.tasks, priority)
  {
    var a, b := Info(priority, false), Info(priority, true);
    assert forall k | k in WithPriority(s, priority) :: k == a || k == b;
    assert a in WithPriority(s, priority) <==> a in s.tasks;
    assert b in WithPriority(s, priority) <==> b in s.tasks;
  }

  lemma EntryStep(s: Night, step: Step, info: Info)
    requires Enabled(s, step)
    ensures Entry(Apply(s, step), info) == NextEntry(s, step, info, Entry(s, info))
  {
    if step.UnregisterStep? {
      LeastOfPriority(s, step.priority, info);
    }
  }

  /** Over every run, each key holds what the registrations and unregisters of the run have left under it; alarms,
      handlers and the tasks of other keys make no difference. */
  lemma {:induction false} TasksOverRuns(s: Night, steps: seq<Step>, t: Night, info: Info)
    requires Leads(s, steps, t)
    ensures Entry(t, info) == EntryAfter(s, steps, info, Entry(s, info))
    decreases |steps|
  {
    if steps != [] {
      EntryStep(s, steps[0], info);
      TasksOverRuns(Apply(s, steps[0]), steps[1..], t, info);
    }
  }

  lemma Before(s: Night, step: Step, rest: seq<Step>, t: Night) returns (steps: seq<Step>)
    requires Enabled(s, step) && Leads(Apply(s, step), rest, t)
    ensures Leads(s, steps, t)
    ensures HasLate(s, steps) <==> IsLate(s, step) || HasLate(Apply(s, step), rest)
  {
    steps := [step] + rest;
    assert steps[1..] == rest;
  }

  lemma FirstNight(info: Info, cb: Callback, env: Env)
    requires env == Env(0, true, 0, 0, AlarmEnv(0, true, true))
    ensures Register(EMPTY, info, cb, env)
            == Night(map[info := cb], 7200, 1, TimerTable(map[1 := 7200], {}, 1), 0)
  {
  }

  lemma NextNight(tasks: map<Info, Callback>, timers: TimerTable, waiting: nat, info: Info, cb: Callback, env: Env)
    requires env == Env(7201, true, 0, 0, AlarmEnv(7201, true, true))
    requires tasks == map[info := cb] && timers == TimerTable(map[], {}, 1)
    ensures Register(Night(tasks, 7200, 1, timers, waiting), info, cb, env)
            == Night(tasks, 10801, 2, TimerTable(map[2 := 10801], {}, 2), waiting)
  {
  }

  lemma AfterLate(tasks: map<Info, Callback>, info: Info, cb: Callback, env: Env)
    requires env == Env(7201, true, 0, 0, AlarmEnv(7201, true, true)) && tasks == map[info := cb]
    ensures Register(Night(tasks, DEFAULT_UPGRADE_TIME, 0, TimerTable(map[2 := 10801], {}, 2), 0), info, cb, env)
            == Night(tasks, 10801, 3, TimerTable(map[2 := 10801, 3 := 10801], {}, 3), 0)
  {
  }

  /** A run in which a handler is late: the timer of 02:00 expires, before its handler gets the lock a second
      later a registration finds the time passed and sets the next timer, and the handler forgets that one.
      The registration after it makes a second live timer. */
  lemma LateHandlerLeaks(info: Info, cb: Callback) returns (steps: seq<Step>, t: Night)
    ensures Leads(EMPTY, steps, t) && HasLate(EMPTY, steps) && |t.timers.live| == 2
  {
    var early := Env(0, true, 0, 0, AlarmEnv(0, true, true));
    var later := Env(7201, true, 0, 0, AlarmEnv(7201, true, true));
    var tasks := map[info := cb];
    var s1 := Night(tasks, 7200, 1, TimerTable(map[1 := 7200], {}, 1), 0);
    var s2 := Night(tasks, 7200, 1, TimerTable(map[], {}, 1), 1);
    var s3 := Night(tasks, 10801, 2, TimerTable(map[2 := 10801], {}, 2), 1);
    var s4 := Night(tasks, DEFAULT_UPGRADE_TIME, 0, TimerTable(map[2 := 10801], {}, 2), 0);
    t := Night(tasks, 10801, 3, TimerTable(map[2 := 10801, 3 := 10801], {}, 3), 0);
    FirstNight(info, cb, early);
    NextNight(tasks, s2.timers, 1, info, cb, later);
    AfterLate(tasks, info, cb, later);
    steps := Before(s4, RegisterStep(info, cb, later), [], t);
    steps := Before(s3, HandleStep, steps, t);
    steps := Before(s2, RegisterStep(info, cb, later), steps, t);
    steps := Before(s1, ExpireStep(1), steps, t);
    steps := Before(EMPTY, RegisterStep(info, cb, early), steps, t);
    assert t.timers.live.Keys == {2, 3};
    assert |t.timers.live| == |t.timers.live.Keys|;
  }

  // ---------- The code ----------

  /** Each of these tasks is run with its own callback. */
  ghost predicate AreCalled(tasks: map<Info, Callback>, ran: seq<Info>, called: seq<Callback>) {
    |called| == |ran| && forall i | 0 <= i < |ran| :: ran[i] in tasks && called[i] == tasks[ran[i]]
  }

  lemma AlsoCalled(tasks: map<Info, Callback>, ran: seq<Info>, called: seq<Callback>, key: Info)
    requires AreCalled(tasks, ran, called) && key in tasks
    ensures AreCalled(tasks, ran + [key], called + [tasks[key]])
  {
  }

  class NightUpgradeAlarmManager {
    var alarmMap: map<Info, Callback>
    var nightUpgradeTime: int
    var nightTimerId: nat
    const service: TimeService
    /** Callbacks of expired timers that wait for nightUpgradeAlarmLock_. */
    ghost var waiting: nat

    ghost function View(): Night
      reads this, service
    {
      Night(alarmMap, nightUpgradeTime, nightTimerId, service.table, waiting)
    }

    constructor (service: TimeService)
      requires service.table == TimerTable(map[], {}, 0)
      ensures this.service == service && View() == EMPTY
    {
      this.service := service;
      alarmMap, nightUpgradeTime, nightTimerId, waiting := map[], DEFAULT_UPGRADE_TIME, 0, 0;
    }

    method RegisterNightUpgradeTask(info: Info, callback: Callback, env: Env)
      requires IsDraw(env.minute, 0, ONE_HOUR_MINUTES)
      modifies this, service
      ensures View() == Register(old(View()), info, callback, env)
    {
      if !(info in alarmMap && nightTimerId > 0) {
        alarmMap := alarmMap[info := callback];
      }
      InnerRegisterNightUpgradeEvent(env);
    }

    method InnerRegisterNightUpgradeEvent(env: Env)
      requires IsDraw(env.minute, 0, ONE_HOUR_MINUTES)
      modifies this, service
      ensures View() == Arm(old(View()), env)
    {
      if !IllegalTime(nightUpgradeTime, env.now) {
        return;
      }
      InnerUnregisterNightUpgradeEvent();
      nightUpgradeTime := CalculateUpgradeTime(env);
      if env.hasLocal {
        PlannedUnique(nightUpgradeTime, UpgradeTime(env), env.now, env.offset, env.minute);
      }
      nightTimerId := service.RegisterAlarm(nightUpgradeTime, env.alarm);
    }

    method InnerUnregisterNightUpgradeEvent()
      modifies this, service
      ensures View() == Disarm(old(View()))
    {
      if nightTimerId > 0 {
        service.UnregisterAlarm(nightTimerId);
      }
      nightTimerId := 0;
      nightUpgradeTime := DEFAULT_UPGRADE_TIME;
    }

    /** The time is always in the future, at most 86340 seconds ahead and between 2 and 4 o'clock. */
    method CalculateUpgradeTime(env: Env) returns (upgradeTime: int)
      requires IsDraw(env.minute, 0, ONE_HOUR_MINUTES)
      ensures env.hasLocal ==>
                && IsPlanned(upgradeTime, env.now, env.offset, env.minute)
                && env.now < upgradeTime <= env.now + 86340
                && LocalTime(upgradeTime, env.offset).hour == if LocalTime(env.now, env.offset).hour == 2 then 3 else 2
      ensures !env.hasLocal ==> upgradeTime == 0
    {
      if !env.hasLocal {
        return 0;
      }
      var tm := LocalTime(env.now, env.offset);
      if tm.hour < HOUR_TWO {
        tm := tm.(hour := HOUR_TWO, min := env.minute);
        upgradeTime := MkTime(tm, env.offset);
        LocalOfMkTime(tm, env.offset);
      } else if tm.hour < HOUR_THREE {
        tm := tm.(hour := HOUR_THREE, min := env.minute);
        upgradeTime := MkTime(tm, env.offset);
        LocalOfMkTime(tm, env.offset);
      } else {
        tm := tm.(hour := 0, min := 0);
        var zeroTime := MkTime(tm, env.offset);
        upgradeTime := zeroTime + ONE_DAY_SECOND + HOUR_TWO * ONE_HOUR_MINUTES * ONE_MINUTE_SECONDS
                       + env.minute * ONE_MINUTE_SECONDS;
        LocalOfMkTime(tm.(day := tm.day + 1, hour := HOUR_TWO, min := env.minute), env.offset);
      }
      PlannedBound(upgradeTime, env.now, env.offset, env.minute);
    }

    method UnregisterNightUpgradeTask(priority: int)
      modifies this, service
      ensures View() == Unregister(old(View()), priority)
    {
      if Info(priority, false) in alarmMap {
        alarmMap := alarmMap - {Info(priority, false)};
      } else if Info(priority, true) in alarmMap {
        alarmMap := alarmMap - {Info(priority, true)};
      }
      if alarmMap == map[] {
        InnerUnregisterNightUpgradeEvent();
      }
    }

    /** The time service drops timer id and starts its callback, which has yet to get the lock. */
    method TimerExpires(id: nat)
      requires id in service.table.live
      modifies service, this`waiting
      ensures View() == Expire(old(View()), id)
    {
      service.UnregisterAlarm(id);
      waiting := waiting + 1;
    }

    /** The callback of an expired timer, with the lock. */
    method HandleNightUpgradeAlarm() returns (ran: seq<Info>, called: seq<Callback>)
      requires waiting > 0
      modifies this
      ensures View() == Handle(old(View()))
      ensures IsDispatch(old(alarmMap).Keys, ran) && AreCalled(old(alarmMap), ran, called)
    {
      waiting := waiting - 1;
      nightUpgradeTime := DEFAULT_UPGRADE_TIME;
      nightTimerId := 0;
      if alarmMap == map[] {
        return [], [];
      }
      ran, called := HandleNightUpgrade(alarmMap);
    }

    /** Runs the callbacks in map order up to the first that reboots. */
    method HandleNightUpgrade(tasks: map<Info, Callback>) returns (ran: seq<Info>, called: seq<Callback>)
      ensures IsDispatch(tasks.Keys, ran) && AreCalled(tasks, ran, called)
    {
      ran, called := [], [];
      var todo := tasks.Keys;
      while todo != {}
        invariant todo <= tasks.Keys && StrictlySorted(ran) && AreCalled(tasks, ran, called)
        invariant forall k | k in ran :: k in tasks && !k.isNeedReboot
        invariant forall k | k in tasks :: k in todo || k in ran
        invariant forall i, k | 0 <= i < |ran| && k in todo :: Less(ran[i], k)
        decreases |todo|
      {
        ghost var least := HasLeast(todo);
        assert IsLeast(least, todo);
        var key :| key in todo && forall j | j in todo :: j == key || Less(key, j);
        AlsoCalled(tasks, ran, called, key);
        ran, called := ran + [key], called + [tasks[key]];
        if key.isNeedReboot {
          assert ran[|ran| - 1] == key;
          forall k | k in todo ensures k.isNeedReboot && key.priority <= k.priority {
            assert k == key || Less(key, k);
          }
          assert forall k | k in ran :: k == key || !k.isNeedReboot;
          return;
        }
        todo := todo - {key};
      }
    }
  }
}
