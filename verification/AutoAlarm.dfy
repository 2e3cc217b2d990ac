/** The auto-upgrade alarm: services/firmware/alarm/src/firmware_auto_upgrade_alarm_manager.cpp. */
module AutoAlarm {
  import opened Common
  import opened Timers

  const TIMER_AVAILABLE_INTERVAL := 10
  const RANDOM_OFF_PEAK_TIME := 1800
  const DURATION := 86400 // GetEffectiveAutoUpgradeDuration

  datatype RefreshType = VerifyRefresh | DurationRefresh | EventRefresh | RandRefresh | DelayTimeRefresh

  /** The saved time and retry flag in the preferences, autoTimerId_ and the time service. */
  datatype Auto = Auto(time: int, retry: bool, timerId: nat, timers: TimerTable)

  /** The clock that CalculateAutoUpgradeTime reads, its random draw, and what RegisterAlarm meets. */
  datatype Env = Env(now: int, draw: int, alarm: AlarmEnv)

  predicate FitsDraw(refresh: RefreshType, draw: int) {
    if refresh == DurationRefresh then IsDraw(draw, 0, ONE_HOUR_SECONDS)
    else IsDraw(draw, FIVE_MINUTES_SECONDS, ONE_HOUR_SECONDS)
  }

  /** An EVENT refresh keeps a time that lies ahead and was set within the last day. */
  predicate Current(time: int, now: int) {
    now < time && (if time != DEFAULT_UPGRADE_TIME then time - DURATION else 0) <= now
  }

  /** The time that a refresh aims at, and whether the retry flag is cleared. */
  function AimFrom(time: int, retry: bool, refresh: RefreshType, env: Env): (int, bool) {
    match refresh
    case DurationRefresh => (env.now + DURATION - RANDOM_OFF_PEAK_TIME + env.draw, false)
    case EventRefresh =>
      if !Current(time, env.now) then (env.now + TIMER_AVAILABLE_INTERVAL, true)
      else if retry then (env.now + env.draw, true)
      else (time, false)
    case RandRefresh => (env.now + env.draw, false)
    case _ => (time, false)
  }

  function Aim(s: Auto, refresh: RefreshType, env: Env): (int, bool) {
    AimFrom(s.time, s.retry, refresh, env)
  }

  function Drop(s: Auto): TimerTable {
    if s.timerId > 0 then s.timers.(live := s.timers.live - {s.timerId}) else s.timers
  }

  // ---------- One refresh at a time ----------

  /** A refresh that no other one overlaps. */
  function Refresh(s: Auto, refresh: RefreshType, env: Env): Auto {
    var (aim, cleared) := Aim(s, refresh, env);
    var retry := s.retry && !cleared;
    if s.time == aim && s.timerId > 0 then s.(retry := retry) else
      var (timers, timerId) := Alarm(Drop(s), aim, env.alarm);
      Auto(aim, retry, timerId, timers)
  }

  datatype Step =
    | RefreshStep(refresh: RefreshType, env: Env)
    | Fire(id: nat)   // the time service drops the timer; its callback leaves autoTimerId_ alone
    | AskRetry        // another component sets the retry flag
    | Cancel

  ghost predicate Enabled(s: Auto, step: Step) {
    match step
    case RefreshStep(refresh, env) => FitsDraw(refresh, env.draw)
    case Fire(id) => id in s.timers.live
    case _ => true
  }

  function Apply(s: Auto, step: Step): Auto {
    match step
    case RefreshStep(refresh, env) => Refresh(s, refresh, env)
    case Fire(id) => s.(timers := s.timers.(live := s.timers.live - {id}))
    case AskRetry => s.(retry := true)
    case Cancel => s.(timerId := 0, timers := Drop(s))
  }

  ghost predicate Leads(s: Auto, steps: seq<Step>, t: Auto)
    decreases |steps|
  {
    if steps == [] then s == t else Enabled(s, steps[0]) && Leads(Apply(s, steps[0]), steps[1..], t)
  }

  /** A live timer is the recorded one, and it is set for the saved time. */
  ghost predicate NoLeak(s: Auto) {
    && Fresh(s.timers)
    && (s.timers.live == map[] || (s.timerId > 0 && s.timers.live == map[s.timerId := s.time]))
  }

  /** As long as refreshes do not overlap, no timer besides the recorded one is live. */
  lemma {:induction false} NoLeakOverRuns(s: Auto, steps: seq<Step>, t: Auto)
    requires NoLeak(s) && Leads(s, steps, t)
    ensures NoLeak(t)
    decreases |steps|
  {
    if steps != [] {
      assert NoLeak(Apply(s, steps[0]));
      NoLeakOverRuns(Apply(s, steps[0]), steps[1..], t);
    }
  }

  /** After an EVENT refresh the saved time is due within a day, whatever was saved before, whether a
      retry was asked for and however the clock has jumped; and the retry flag is answered. */
  lemma EventBounds(s: Auto, env: Env)
    requires FitsDraw(EventRefresh, env.draw)
    ensures var t := Refresh(s, EventRefresh, env);
            env.now <= t.time <= env.now + ONE_DAY_SECOND && !t.retry
  {
  }

  /** The refresh has saved this time, and if the alarm could be set, its timer is the only one. */
  ghost predicate IsSet(t: Auto, time: int, env: Env) {
    t.time == time && (AlarmWorks(time, env.alarm) ==> t.timers.live == map[t.timerId := time])
  }

  /** An EVENT with a retry asked for is due within 55 minutes, and a new timer is set for that; one whose saved time
      has passed, or lies more than a day ahead, is due in 10 seconds; without either, all stays as it is. */
  lemma EventAnswersRetry(s: Auto, env: Env)
    requires NoLeak(s) && FitsDraw(EventRefresh, env.draw)
    ensures var t := Refresh(s, EventRefresh, env);
            && (s.retry ==> env.now <= t.time < env.now + 3300 && !t.retry)
            && (s.retry && Current(s.time, env.now) && s.time != env.now + env.draw
                ==> IsSet(t, env.now + env.draw, env))
            && (!Current(s.time, env.now) && s.time != env.now + 10 ==> IsSet(t, env.now + 10, env))
            && (!s.retry && Current(s.time, env.now) ==> t.time == s.time && (s.timerId > 0 ==> t == s))
  {
  }

  /** What the other refreshes aim at: a DURATION one at the next day, less half an hour, plus up to an hour; a RAND
      one within 55 minutes; a VERIFY or DELAY one at the saved time. None of them answers a retry. */
  lemma OtherRefreshes(s: Auto, refresh: RefreshType, env: Env)
    requires NoLeak(s) && FitsDraw(refresh, env.draw) && refresh != EventRefresh
    ensures var t := Refresh(s, refresh, env);
            && t.retry == s.retry
            && (refresh == DurationRefresh ==> env.now + 84600 <= t.time < env.now + 88200)
            && (refresh == RandRefresh ==> env.now <= t.time < env.now + 3300)
            && (refresh == DurationRefresh && s.time != env.now + 84600 + env.draw
                ==> IsSet(t, env.now + 84600 + env.draw, env))
            && (refresh == RandRefresh && s.time != env.now + env.draw ==> IsSet(t, env.now + env.draw, env))
            && (refresh == VerifyRefresh || refresh == DelayTimeRefresh
                ==> t.time == s.time && (s.timerId == 0 ==> IsSet(t, s.time, env)))
  {
  }

  /** A retry that has been asked for stands until an EVENT answers it. */
  lemma {:induction false} RetryStands(s: Auto, steps: seq<Step>, t: Auto)
    requires (s.retry || AskRetry in steps) && Leads(s, steps, t)
    requires forall step | step in steps && step.RefreshStep? :: step.refresh != EventRefresh
    ensures t.retry
    decreases |steps|
  {
    if steps != [] {
      assert steps[0] in steps;
      assert steps == [steps[0]] + steps[1..];
      RetryStands(Apply(s, steps[0]), steps[1..], t);
    }
  }

  /** A cancel leaves no timer. */
  lemma CancelClears(s: Auto, steps: seq<Step>, t: Auto)
    requires NoLeak(s) && Leads(s, steps, t)
    ensures Apply(t, Cancel).timerId == 0 && Apply(t, Cancel).timers.live == map[]
  {
    NoLeakOverRuns(s, steps, t);
  }

  /** A timer is recorded after a refresh exactly when the saved time did not move and one was recorded,
      or the new alarm could be set. */
  lemma TimerAfterRefresh(s: Auto, refresh: RefreshType, env: Env)
    ensures var aim := Aim(s, refresh, env).0;
            Refresh(s, refresh, env).timerId > 0
            <==> (s.time == aim && s.timerId > 0) || AlarmWorks(aim, env.alarm)
  {
  }

  /** A DURATION alarm armed at clock value armed with draw r survives a later EVENT with no retry asked
      for exactly in this window. */
  lemma DurationSurvives(s: Auto, armed: Env, event: Env)
    requires FitsDraw(DurationRefresh, armed.draw) && FitsDraw(EventRefresh, event.draw)
    requires armed.now >= 0 && !s.retry
    requires AlarmWorks(Aim(s, DurationRefresh, armed).0, armed.alarm)
    ensures var t := Refresh(s, DurationRefresh, armed);
            t.timerId > 0
            && (Refresh(t, EventRefresh, event) == t
                <==> armed.now - 1800 + armed.draw <= event.now < armed.now + 84600 + armed.draw)
  {
  }

  /** In every run without overlaps, the recorded timer is live after a refresh exactly when time and timer were
      kept and that timer has not fired, or when they were replaced and the new alarm could be set. */
  lemma RefreshedTimerLive(s: Auto, steps: seq<Step>, t: Auto, refresh: RefreshType, env: Env)
    requires NoLeak(s) && Leads(s, steps, t)
    ensures var aim := Aim(t, refresh, env).0;
            var u := Refresh(t, refresh, env);
            u.timerId in u.timers.live
            <==> if t.time == aim && t.timerId > 0 then t.timerId in t.timers.live else AlarmWorks(aim, env.alarm)
  {
    NoLeakOverRuns(s, steps, t);
  }

  /** A timer that has fired stays recorded. If the clock then jumps back, an EVENT takes it for active
      and leaves the device without a live timer. */
  lemma FiredTimerTakenForActive(s: Auto, env: Env)
    requires NoLeak(s) && s.timerId in s.timers.live && !s.retry && Current(s.time, env.now)
    ensures var fired := Apply(s, Fire(s.timerId));
            var t := Refresh(fired, EventRefresh, env);
            t.timerId > 0 && t.timers.live == map[]
  {
  }

  // ---------- Refreshes that overlap ----------

  /** Where a thread is in RegisterAutoUpgradeTime, which takes no lock: seen is the saved time that it has read.
      A thread of CancelAutoUpgradeAlarm has no aim. */
  datatype Pc =
    | Calculating(refresh: RefreshType, seen: int)
    | Comparing(seen: int, aim: int)
    | Saving(aim: int)
    | Testing(next: Option<int>)     // UnregisterAlarmTimer before its test of autoTimerId_
    | Destroying(next: Option<int>)  // ... before it reads the id again and destroys that timer
    | Zeroing(next: Option<int>)     // ... before it writes 0
    | Arming(aim: int)
    | Storing(id: nat)               // with the id of the new timer, or 0

  datatype Shared = Shared(auto: Auto, threads: map<nat, Pc>)

  datatype Move =
    | Begin(i: nat, refresh: RefreshType)  // reads the saved time
    | BeginCancel(i: nat)
    | Calculate(i: nat, env: Env)
    | Arm(i: nat, alarm: AlarmEnv)
    | Next(i: nat)                         // any other step of a thread
    | Expire(id: nat)
    | SetRetry

  ghost predicate CanMove(s: Shared, move: Move) {
    match move
    case Begin(i, _) => i !in s.threads
    case BeginCancel(i) => i !in s.threads
    case Calculate(i, env) =>
      i in s.threads && s.threads[i].Calculating? && FitsDraw(s.threads[i].refresh, env.draw)
    case Arm(i, _) => i in s.threads && s.threads[i].Arming?
    case Next(i) => i in s.threads && !s.threads[i].Calculating? && !s.threads[i].Arming?
    case Expire(id) => id in s.auto.timers.live
    case SetRetry => true
  }

  function Goto(s: Shared, i: nat, pc: Pc): Shared {
    s.(threads := s.threads[i := pc])
  }

  function Done(s: Shared, i: nat): Shared {
    s.(threads := s.threads - {i})
  }

  function Proceed(s: Shared, i: nat): Shared
    requires i in s.threads
  {
    match s.threads[i]
    case Comparing(seen, aim) =>
      if seen == aim && s.auto.timerId > 0 then Done(s, i) else Goto(s, i, Saving(aim))
    case Saving(aim) => Goto(s.(auto := s.auto.(time := aim)), i, Testing(Some(aim)))
    case Testing(next) => Goto(s, i, if s.auto.timerId > 0 then Destroying(next) else Zeroing(next))
    case Destroying(next) => Goto(s.(auto := s.auto.(timers := Drop(s.auto))), i, Zeroing(next))
    case Zeroing(next) =>
      var t := s.(auto := s.auto.(timerId := 0));
      if next.Some? then Goto(t, i, Arming(next.value)) else Done(t, i)
    case Storing(id) => Done(s.(auto := s.auto.(timerId := id)), i)
    case _ => s
  }

  function Make(s: Shared, move: Move): Shared
    requires CanMove(s, move)
  {
    match move
    case Begin(i, refresh) => Goto(s, i, Calculating(refresh, s.auto.time))
    case BeginCancel(i) => Goto(s, i, Testing(None))
    case Calculate(i, env) =>
      var pc := s.threads[i];
      var (aim, cleared) := AimFrom(pc.seen, s.auto.retry, pc.refresh, env);
      Goto(s.(auto := s.auto.(retry := s.auto.retry && !cleared)), i, Comparing(pc.seen, aim))
    case Arm(i, alarm) =>
      var (timers, id) := Alarm(s.auto.timers, s.threads[i].aim, alarm);
      Goto(s.(auto := s.auto.(timers := timers)), i, Storing(id))
    case Next(i) => Proceed(s, i)
    case Expire(id) =>
      s.(auto := s.auto.(timers := s.auto.timers.(live := s.auto.timers.live - {id})))
    case SetRetry => s.(auto := s.auto.(retry := true))
  }

  ghost predicate Moves(s: Shared, moves: seq<Move>, t: Shared)
    decreases |moves|
  {
    if moves == [] then s == t else CanMove(s, moves[0]) && Moves(Make(s, moves[0]), moves[1..], t)
  }

  /** A new object. */
  const NEW := Shared(Auto(DEFAULT_UPGRADE_TIME, false, 0, TimerTable(map[], {}, 0)), map[])

  // ---------- What overlaps keep ----------

  ghost predicate IsHeld(s: Shared, id: nat) {
    exists i | i in s.threads :: s.threads[i] == Storing(id)
  }

  /** The ids that threads are about to store are theirs alone. */
  ghost predicate Distinct(s: Shared) {
    && Fresh(s.auto.timers) && s.auto.timerId <= s.auto.timers.made
    && (forall i | i in s.threads && s.threads[i].Storing? ::
          s.threads[i].id <= s.auto.timers.made && (s.threads[i].id > 0 ==> s.threads[i].id != s.auto.timerId))
    && (forall i, j | i in s.threads && j in s.threads && s.threads[i].Storing? && s.threads[i].id > 0
                      && s.threads[i] == s.threads[j] :: i == j)
  }

  /** The live timers that are neither recorded nor about to be. */
  ghost function Lost(s: Shared): set<nat> {
    set id | id in s.auto.timers.live && id != s.auto.timerId && !IsHeld(s, id)
  }

  /** A write of autoTimerId_, 0 or an id, over the id of a live timer. */
  ghost predicate Overwrites(s: Shared, move: Move) {
    move.Next? && move.i in s.threads && (s.threads[move.i].Zeroing? || s.threads[move.i].Storing?)
    && s.auto.timerId in s.auto.timers.live
  }

  lemma DistinctArm(s: Shared, i: nat, alarm: AlarmEnv)
    requires Distinct(s) && CanMove(s, Arm(i, alarm))
    ensures Distinct(Make(s, Arm(i, alarm)))
  {
  }

  lemma DistinctOther(s: Shared, move: Move)
    requires Distinct(s) && CanMove(s, move) && !move.Next? && !move.Arm?
    ensures Distinct(Make(s, move))
  {
  }

  lemma DistinctMove(s: Shared, move: Move)
    requires Distinct(s) && CanMove(s, move)
    ensures Distinct(Make(s, move))
  {
    if move.Arm? {
      DistinctArm(s, move.i, move.alarm);
    } else if !move.Next? {
      DistinctOther(s, move);
    }
  }

  lemma HeldStays(s: Shared, move: Move, id: nat)
    requires Distinct(s) && CanMove(s, move) && IsHeld(s, id) && id > 0
    ensures IsHeld(Make(s, move), id) || Make(s, move).auto.timerId == id
  {
    var i :| i in s.threads && s.threads[i] == Storing(id);
    assert !(move.Next? && move.i == i) ==> i in Make(s, move).threads && Make(s, move).threads[i] == Storing(id);
  }

  lemma NewIsHeld(s: Shared, move: Move)
    requires CanMove(s, move)
    ensures forall id | id in Make(s, move).auto.timers.live && id !in s.auto.timers.live :: IsHeld(Make(s, move), id)
  {
    if move.Arm? {
      assert move.i in Make(s, move).threads;
    }
  }

  /** A live timer is newly lost exactly when its id is overwritten. */
  lemma LostMove(s: Shared, move: Move)
    requires Distinct(s) && CanMove(s, move)
    ensures Lost(Make(s, move)) <= Lost(s) + if Overwrites(s, move) then {s.auto.timerId} else {}
    ensures Overwrites(s, move) ==> s.auto.timerId in Lost(Make(s, move))
  {
    var t := Make(s, move);
    NewIsHeld(s, move);
    forall id | id in Lost(t) && !(Overwrites(s, move) && id == s.auto.timerId) ensures id in Lost(s) {
      if IsHeld(s, id) {
        HeldStays(s, move, id);
      }
    }
  }

  ghost predicate NeverLost(s: Shared, moves: seq<Move>)
    decreases |moves|
  {
    Lost(s) == {} && (moves != [] && CanMove(s, moves[0]) ==> NeverLost(Make(s, moves[0]), moves[1..]))
  }

  ghost function Overwritten(s: Shared, moves: seq<Move>): nat
    decreases |moves|
  {
    if moves == [] || !CanMove(s, moves[0]) then 0
    else (if Overwrites(s, moves[0]) then 1 else 0) + Overwritten(Make(s, moves[0]), moves[1..])
  }

  /** Over every interleaving: at all times each live timer is recorded or about to be, if and only if no write
      of autoTimerId_ met the id of a live timer. */
  lemma {:induction false} LostOverRuns(s: Shared, moves: seq<Move>, t: Shared)
    requires Distinct(s) && Lost(s) == {} && Moves(s, moves, t)
    ensures NeverLost(s, moves) <==> Overwritten(s, moves) == 0
    decreases |moves|
  {
    if moves != [] {
      DistinctMove(s, moves[0]);
      LostMove(s, moves[0]);
      if !Overwrites(s, moves[0]) {
        LostOverRuns(Make(s, moves[0]), moves[1..], t);
      }
    }
  }

  /** ... and there are never more lost timers than such writes. */
  lemma {:induction false} LostBounded(s: Shared, moves: seq<Move>, t: Shared)
    requires Distinct(s) && Moves(s, moves, t)
    ensures Distinct(t) && |Lost(t)| <= |Lost(s)| + Overwritten(s, moves)
    decreases |moves|
  {
    if moves != [] {
      var next := Make(s, moves[0]);
      DistinctMove(s, moves[0]);
      LostMove(s, moves[0]);
      SubsetSize(Lost(next), Lost(s) + if Overwrites(s, moves[0]) then {s.auto.timerId} else {});
      LostBounded(next, moves[1..], t);
    }
  }

  /** When all refreshes of a new object have returned, at most one timer is live for each overwrite, and one
      more. */
  lemma LiveBounded(moves: seq<Move>, t: Shared)
    requires Moves(NEW, moves, t) && t.threads == map[]
    ensures |t.auto.timers.live| <= 1 + Overwritten(NEW, moves)
  {
    LostBounded(NEW, moves, t);
    assert Lost(NEW) == {};
    assert forall id :: !IsHeld(t, id);
    assert |t.auto.timers.live| == |t.auto.timers.live.Keys|;
    SubsetSize(t.auto.timers.live.Keys, Lost(t) + {t.auto.timerId});
  }

  // ---------- Which timers are live ----------

  /** The timers that were armed in a run, and those that expired or were destroyed. */
  ghost function Armed(s: Shared, moves: seq<Move>): set<nat>
    decreases |moves|
  {
    if moves == [] || !CanMove(s, moves[0]) then {}
    else
      var next := Make(s, moves[0]);
      (next.auto.timers.live.Keys - s.auto.timers.live.Keys) + Armed(next, moves[1..])
  }

  ghost function GoneIn(s: Shared, move: Move): set<nat> {
    if move.Expire? then {move.id}
    else if move.Next? && move.i in s.threads && s.threads[move.i].Destroying? then {s.auto.timerId}
    else {}
  }

  ghost function Gone(s: Shared, moves: seq<Move>): set<nat>
    decreases |moves|
  {
    if moves == [] || !CanMove(s, moves[0]) then {}
    else GoneIn(s, moves[0]) + Gone(Make(s, moves[0]), moves[1..])
  }

  /** Ids that are recorded or about to be have been armed. */
  ghost predicate KnownIds(s: Shared, armed: set<nat>) {
    && (s.auto.timerId > 0 ==> s.auto.timerId in armed)
    && (forall i | i in s.threads && s.threads[i].Storing? && s.threads[i].id > 0 :: s.threads[i].id in armed)
    && (forall id | id in armed :: 0 < id <= s.auto.timers.made)
  }

  lemma ArmedMove(s: Shared, i: nat, alarm: AlarmEnv, armed: set<nat>)
    requires Distinct(s) && CanMove(s, Arm(i, alarm)) && KnownIds(s, armed)
    ensures var next := Make(s, Arm(i, alarm));
            KnownIds(next, armed + (next.auto.timers.live.Keys - s.auto.timers.live.Keys))
  {
    var next := Make(s, Arm(i, alarm));
    var id := next.threads[i].id;
    assert id > 0 ==> id in next.auto.timers.live && id !in s.auto.timers.live;
  }

  lemma AccountedMove(s: Shared, move: Move, armed: set<nat>, gone: set<nat>)
    requires Distinct(s) && CanMove(s, move) && KnownIds(s, armed)
    requires s.auto.timers.live.Keys == armed - gone && forall id | id in gone :: id <= s.auto.timers.made
    ensures var next := Make(s, move);
            var more := next.auto.timers.live.Keys - s.auto.timers.live.Keys;
            && KnownIds(next, armed + more)
            && next.auto.timers.live.Keys == (armed + more) - (gone + GoneIn(s, move))
            && forall id | id in gone + GoneIn(s, move) :: id <= next.auto.timers.made
  {
    if move.Arm? {
      ArmedMove(s, move.i, move.alarm, armed);
    }
  }

  lemma {:induction false} TimersAccounted(s: Shared, moves: seq<Move>, t: Shared, armed: set<nat>, gone: set<nat>)
    requires Distinct(s) && Moves(s, moves, t) && KnownIds(s, armed)
    requires s.auto.timers.live.Keys == armed - gone && forall id | id in gone :: id <= s.auto.timers.made
    ensures KnownIds(t, armed + Armed(s, moves))
    ensures t.auto.timers.live.Keys == (armed + Armed(s, moves)) - (gone + Gone(s, moves))
    decreases |moves|
  {
    if moves == [] {
      assert armed + Armed(s, moves) == armed && gone + Gone(s, moves) == gone;
    } else {
      var next := Make(s, moves[0]);
      var more := next.auto.timers.live.Keys - s.auto.timers.live.Keys;
      DistinctMove(s, moves[0]);
      AccountedMove(s, moves[0], armed, gone);
      TimersAccounted(next, moves[1..], t, armed + more, gone + GoneIn(s, moves[0]));
      assert armed + more + Armed(next, moves[1..]) == armed + Armed(s, moves);
      assert gone + GoneIn(s, moves[0]) + Gone(next, moves[1..]) == gone + Gone(s, moves);
    }
  }

  /** In every run of overlapping refreshes the recorded timer is live exactly when an id is recorded whose timer
      has neither expired nor been destroyed; and the live timers are all that were armed, less those. */
  lemma RecordedTimerLive(moves: seq<Move>, t: Shared)
    requires Moves(NEW, moves, t)
    ensures t.auto.timerId in t.auto.timers.live <==> t.auto.timerId > 0 && t.auto.timerId !in Gone(NEW, moves)
    ensures t.auto.timers.live.Keys == Armed(NEW, moves) - Gone(NEW, moves)
  {
    TimersAccounted(NEW, moves, t, {}, {});
    assert {} + Armed(NEW, moves) == Armed(NEW, moves) && {} + Gone(NEW, moves) == Gone(NEW, moves);
  }

  ghost predicate FailsToStart(s: Shared, move: Move) {
    move.Arm? && move.i in s.threads && s.threads[move.i].Arming? && move.alarm.now < s.threads[move.i].aim
    && move.alarm.created && !move.alarm.started
  }

  /** The alarms that were created and could not be started. */
  ghost function FailedStarts(s: Shared, moves: seq<Move>): nat
    decreases |moves|
  {
    if moves == [] || !CanMove(s, moves[0]) then 0
    else (if FailsToStart(s, moves[0]) then 1 else 0) + FailedStarts(Make(s, moves[0]), moves[1..])
  }

  /** Each of them leaves a timer that is never started and never destroyed. */
  lemma {:induction false} UnstartedGrow(s: Shared, moves: seq<Move>, t: Shared)
    requires Moves(s, moves, t) && forall id | id in s.auto.timers.unstarted :: id <= s.auto.timers.made
    ensures s.auto.timers.unstarted <= t.auto.timers.unstarted
    ensures |t.auto.timers.unstarted| == |s.auto.timers.unstarted| + FailedStarts(s, moves)
    decreases |moves|
  {
    if moves != [] {
      UnstartedGrow(Make(s, moves[0]), moves[1..], t);
    }
  }

  ghost predicate NoEvent(s: Shared) {
    forall i | i in s.threads && s.threads[i].Calculating? :: s.threads[i].refresh != EventRefresh
  }

  /** Also with overlaps, a retry that has been asked for stands until an EVENT answers it. */
  lemma {:induction false} RetryStandsInOverlaps(s: Shared, moves: seq<Move>, t: Shared)
    requires NoEvent(s) && (s.auto.retry || SetRetry in moves) && Moves(s, moves, t)
    requires forall move | move in moves && move.Begin? :: move.refresh != EventRefresh
    ensures t.auto.retry
    decreases |moves|
  {
    if moves != [] {
      assert moves[0] in moves;
      assert moves == [moves[0]] + moves[1..];
      RetryStandsInOverlaps(Make(s, moves[0]), moves[1..], t);
    }
  }

  // ---------- Runs ----------

  lemma {:induction false} MovesOn(s: Shared, a: seq<Move>, t: Shared, move: Move)
    requires Moves(s, a, t) && CanMove(t, move)
    ensures Moves(s, a + [move], Make(t, move))
    decreases |a|
  {
    if a != [] {
      assert (a + [move])[1..] == a[1..] + [move];
      MovesOn(Make(s, a[0]), a[1..], t, move);
    }
  }

  lemma Extend(s: Shared, moves: seq<Move>, t: Shared, move: Move) returns (more: seq<Move>, u: Shared)
    requires Moves(s, moves, t) && CanMove(t, move)
    ensures more == moves + [move] && u == Make(t, move) && Moves(s, more, u)
  {
    more, u := moves + [move], Make(t, move);
    MovesOn(s, moves, t, move);
  }

  /** Moves of thread i only, behind its calculation. */
  ghost predicate IsThread(i: nat, moves: seq<Move>, alarm: AlarmEnv) {
    forall k | 0 <= k < |moves| :: moves[k] == Next(i) || moves[k] == Arm(i, alarm)
  }

  /** A thread that nothing interrupts, up to its comparison. */
  lemma UpToComparing(s: Shared, p0: seq<Move>, t0: Shared, i: nat, refresh: RefreshType, env: Env)
    returns (p: seq<Move>, t: Shared)
    requires Moves(s, p0, t0) && i !in t0.threads && FitsDraw(refresh, env.draw)
    ensures Moves(s, p, t) && p == p0 + [Begin(i, refresh), Calculate(i, env)]
    ensures var (aim, cleared) := Aim(t0.auto, refresh, env);
            t == Goto(t0.(auto := t0.auto.(retry := t0.auto.retry && !cleared)), i, Comparing(t0.auto.time, aim))
  {
    p, t := Extend(s, p0, t0, Begin(i, refresh));
    p, t := Extend(s, p, t, Calculate(i, env));
    assert t.threads == t0.threads[i := t.threads[i]];
  }

  lemma UpToTesting(s: Shared, p0: seq<Move>, t0: Shared, i: nat, seen: int, aim: int)
    returns (p: seq<Move>, t: Shared)
    requires Moves(s, p0, t0) && i in t0.threads && t0.threads[i] == Comparing(seen, aim)
    requires seen != aim || t0.auto.timerId == 0
    ensures Moves(s, p, t) && p == p0 + [Next(i), Next(i)]
    ensures t == Goto(t0.(auto := t0.auto.(time := aim)), i, Testing(Some(aim)))
  {
    p, t := Extend(s, p0, t0, Next(i));
    p, t := Extend(s, p, t, Next(i));
    assert t.threads == t0.threads[i := t.threads[i]];
  }

  lemma UpToArming(s: Shared, p0: seq<Move>, t0: Shared, i: nat, aim: int) returns (p: seq<Move>, t: Shared)
    requires Moves(s, p0, t0) && i in t0.threads && t0.threads[i] == Testing(Some(aim))
    ensures Moves(s, p, t)
    ensures p == p0 + (if t0.auto.timerId > 0 then [Next(i), Next(i), Next(i)] else [Next(i), Next(i)])
    ensures t == Goto(t0.(auto := t0.auto.(timerId := 0, timers := Drop(t0.auto))), i, Arming(aim))
  {
    p, t := Extend(s, p0, t0, Next(i));
    if t0.auto.timerId > 0 {
      p, t := Extend(s, p, t, Next(i));
    }
    p, t := Extend(s, p, t, Next(i));
    assert t.threads == t0.threads[i := t.threads[i]];
  }

  /** ... and from there to its store, when it does not keep the timer. */
  lemma UpToStoring(s: Shared, p0: seq<Move>, t0: Shared, i: nat, seen: int, aim: int, alarm: AlarmEnv)
    returns (p: seq<Move>, t: Shared)
    requires Moves(s, p0, t0) && i in t0.threads && t0.threads[i] == Comparing(seen, aim)
    requires seen != aim || t0.auto.timerId == 0
    ensures Moves(s, p, t) && p0 <= p && IsThread(i, p[|p0|..], alarm)
    ensures var (timers, id) := Alarm(Drop(t0.auto), aim, alarm);
            t == Goto(t0.(auto := t0.auto.(time := aim, timerId := 0, timers := timers)), i, Storing(id))
  {
    p, t := UpToTesting(s, p0, t0, i, seen, aim);
    p, t := UpToArming(s, p, t, i, aim);
    assert p == p0 + p[|p0|..];
    p, t := Extend(s, p, t, Arm(i, alarm));
    assert t.threads == t0.threads[i := t.threads[i]];
  }

  /** A refresh that nothing interrupts is Refresh, wherever the other threads are: the moves are those of one
      thread. */
  lemma RefreshIsRun(s: Shared, i: nat, refresh: RefreshType, env: Env) returns (moves: seq<Move>, t: Shared)
    requires i !in s.threads && FitsDraw(refresh, env.draw)
    ensures Moves(s, moves, t) && t == s.(auto := Refresh(s.auto, refresh, env))
    ensures |moves| > 2 && moves[..2] == [Begin(i, refresh), Calculate(i, env)] && IsThread(i, moves[2..], env.alarm)
  {
    moves, t := UpToComparing(s, [], s, i, refresh, env);
    var (aim, _) := Aim(s.auto, refresh, env);
    if s.auto.time != aim || s.auto.timerId == 0 {
      moves, t := UpToStoring(s, moves, t, i, s.auto.time, aim, env.alarm);
    }
    moves, t := Extend(s, moves, t, Next(i));
    assert t.threads == s.threads;
  }

  /** And a cancel that nothing interrupts is Cancel. */
  lemma CancelIsRun(s: Shared, i: nat) returns (moves: seq<Move>, t: Shared)
    requires i !in s.threads
    ensures Moves(s, moves, t) && t == s.(auto := Apply(s.auto, Cancel))
    ensures moves != [] && moves[0] == BeginCancel(i) && forall k | 0 < k < |moves| :: moves[k] == Next(i)
  {
    moves, t := Extend(s, [], s, BeginCancel(i));
    moves, t := Extend(s, moves, t, Next(i));
    if s.auto.timerId > 0 {
      moves, t := Extend(s, moves, t, Next(i));
    }
    moves, t := Extend(s, moves, t, Next(i));
    assert t.threads == s.threads;
  }

  /** Two refreshes by events on a new object, as at the start of the process: both arm before the first stores,
      and the store of the second overwrites the id of a live timer. */
  lemma OverlapLeaks() returns (moves: seq<Move>, t: Shared)
    ensures Moves(NEW, moves, t) && t.threads == map[]
    ensures t.auto.timers.live == map[1 := 10, 2 := 10] && Lost(t) == {1}
  {
    var env := Env(0, 0, AlarmEnv(0, true, true));
    moves, t := UpToComparing(NEW, [], NEW, 0, EventRefresh, env);
    moves, t := UpToStoring(NEW, moves, t, 0, DEFAULT_UPGRADE_TIME, 10, env.alarm);
    moves, t := UpToComparing(NEW, moves, t, 1, EventRefresh, env);
    moves, t := UpToStoring(NEW, moves, t, 1, 10, 10, env.alarm);
    moves, t := Extend(NEW, moves, t, Next(0));
    moves, t := Extend(NEW, moves, t, Next(1));
  }

  // ---------- The code ----------

  class Preferences {
    var autoUpgradeTime: int
    var needRetry: bool
  }

  class FirmwareAutoUpgradeAlarmManager {
    var autoTimerId: nat
    const preferences: Preferences
    const service: TimeService

    ghost function View(): Auto
      reads this, preferences, service
    {
      Auto(preferences.autoUpgradeTime, preferences.needRetry, autoTimerId, service.table)
    }

    constructor (preferences: Preferences, service: TimeService)
      ensures this.preferences == preferences && this.service == service
      ensures View() == Auto(preferences.autoUpgradeTime, preferences.needRetry, 0, service.table)
    {
      this.preferences, this.service := preferences, service;
      autoTimerId := 0;
    }

    method RegisterAutoUpgradeTime(refresh: RefreshType, env: Env)
      requires FitsDraw(refresh, env.draw)
      modifies this, preferences, service
      ensures View() == Refresh(old(View()), refresh, env)
    {
      var autoUpgradeTime := preferences.autoUpgradeTime;
      var result := CalculateAutoUpgradeTime(refresh, autoUpgradeTime, DURATION, env);
      if autoUpgradeTime == result && autoTimerId > 0 {
        return;
      }
      preferences.autoUpgradeTime := result;
      CancelAutoUpgradeAlarm();
      autoTimerId := service.RegisterAlarm(result, env.alarm);
    }

    method CalculateAutoUpgradeTime(refresh: RefreshType, autoUpgradeTime: int, duration: int, env: Env)
      returns (result: int)
      requires duration == DURATION && autoUpgradeTime == preferences.autoUpgradeTime
      modifies preferences`needRetry
      ensures result == Aim(old(View()), refresh, env).0
      ensures preferences.needRetry == (old(preferences.needRetry) && !Aim(old(View()), refresh, env).1)
    {
      result := autoUpgradeTime;
      match refresh
      case DurationRefresh => result := env.now + duration - RANDOM_OFF_PEAK_TIME + env.draw;
      case EventRefresh => result := HandleNetChange(env.now, autoUpgradeTime, duration, env);
      case RandRefresh => result := env.now + env.draw;
      case _ =>
    }

    method HandleNetChange(currentTime: int, autoUpgradeTime: int, duration: int, env: Env) returns (result: int)
      requires duration == DURATION && currentTime == env.now && autoUpgradeTime == preferences.autoUpgradeTime
      modifies preferences`needRetry
      ensures result == Aim(old(View()), EventRefresh, env).0
      ensures preferences.needRetry == (old(preferences.needRetry) && !Aim(old(View()), EventRefresh, env).1)
    {
      var lastRegisterTime := if autoUpgradeTime != DEFAULT_UPGRADE_TIME then autoUpgradeTime - duration else 0;
      var isNeedRetry := preferences.needRetry;
      if currentTime >= autoUpgradeTime || currentTime < lastRegisterTime {
        preferences.needRetry := false;
        return currentTime + TIMER_AVAILABLE_INTERVAL;
      }
      if isNeedRetry {
        preferences.needRetry := false;
        return currentTime + env.draw;
      }
      return autoUpgradeTime;
    }

    method CancelAutoUpgradeAlarm()
      modifies this, service
      ensures View() == Apply(old(View()), Cancel)
    {
      if autoTimerId > 0 {
        service.UnregisterAlarm(autoTimerId);
      }
      autoTimerId := 0;
    }
  }
}
