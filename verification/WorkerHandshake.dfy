/** The wait, notify and join handshake of ProgressThread (services/engine/src/progress_thread.cpp) as a
    transition system: any number of threads call StartProgress, StopProgress and QuitDownloadThread,
    and one worker at a time runs ExecuteThreadFunc. A call that does not block inside its critical
    section is one step; QuitDownloadThread keeps the mutex while it joins, so it is two. */
module WorkerHandshake {

  datatype Owner = Nobody | Quitter | Worker

  /** Where the worker is. It holds the mutex at AtCheck; Asleep is waiting without a notification. */
  datatype Pc =
    | NoThread
    | AtLock
    | AtCheck
    | Asleep
    | Woken
    | Executing
    | Exiting
    | Done(byExit: bool)

  /** early: the worker was started before any QuitDownloadThread; quit: one has begun. */
  datatype State = State(owner: Owner, isWake: bool, isExit: bool, pc: Pc, early: bool, quit: bool)

  datatype Step =
    | Start                 // StartProgress
    | StartFails            // ... when no thread can be created
    | Stop                  // StopProgress
    | QuitBegin             // QuitDownloadThread up to join, or to its end without a worker
    | QuitJoin              // the rest of it
    | Lock                  // the worker gets the mutex, at first or after a wake-up
    | Wait
    | Spurious              // a wake-up without notification
    | Take                  // isWake_ is consumed
    | ExitSeen              // isExitThread_ is seen
    | Finish(again: bool)   // ProcessThreadExecute returns
    | ExitDone              // ProcessThreadExit returns

  ghost predicate Enabled(s: State, step: Step) {
    match step
    case Start => s.owner.Nobody?
    case StartFails => s.owner.Nobody? && s.pc.NoThread?
    case Stop => s.owner.Nobody?
    case QuitBegin => s.owner.Nobody?
    case QuitJoin => s.owner.Quitter? && s.pc.Done?
    case Lock => (s.pc.AtLock? || s.pc.Woken?) && s.owner.Nobody?
    case Wait => s.pc.AtCheck? && !s.isWake
    case Spurious => s.pc.Asleep?
    case Take => s.pc.AtCheck? && s.isWake && !s.isExit
    case ExitSeen => s.pc.AtCheck? && s.isWake && s.isExit
    case Finish(_) => s.pc.Executing?
    case ExitDone => s.pc.Exiting?
  }

  function Notified(pc: Pc): Pc {
    if pc.Asleep? then Woken else pc
  }

  ghost function Apply(s: State, step: Step): State
    requires Enabled(s, step)
  {
    match step
    case Start =>
      var t := if s.pc.NoThread? then s.(pc := AtLock, early := !s.quit) else s;
      t.(isWake := true, pc := Notified(t.pc))
    case StartFails => s
    case Stop => s.(isWake := true, isExit := false, pc := Notified(s.pc))
    case QuitBegin =>
      s.(isWake := true, isExit := true, pc := Notified(s.pc), quit := true,
         owner := if s.pc.NoThread? then Nobody else Quitter)
    case QuitJoin => s.(pc := NoThread, owner := Nobody)
    case Lock => s.(pc := AtCheck, owner := Worker)
    case Wait => s.(pc := Asleep, owner := Nobody)
    case Spurious => s.(pc := Woken)
    case Take => s.(isWake := false, pc := Executing, owner := Nobody)
    case ExitSeen => s.(pc := Exiting, owner := Nobody)
    case Finish(again) => s.(pc := if again then AtLock else Done(false))
    case ExitDone => s.(pc := Done(true))
  }

  const INIT := State(Nobody, false, false, NoThread, false, false)

  ghost predicate Leads(s: State, steps: seq<Step>, t: State)
    decreases |steps|
  {
    if steps == [] then s == t else Enabled(s, steps[0]) && Leads(Apply(s, steps[0]), steps[1..], t)
  }

  ghost predicate Reachable(t: State) {
    exists steps :: Leads(INIT, steps, t)
  }

  // ---------- The invariant ----------

  ghost predicate Inv(s: State) {
    && (s.owner.Worker? <==> s.pc.AtCheck?)
    && (s.owner.Quitter? ==> !s.pc.NoThread? && s.isExit && s.isWake)
    && (s.isWake ==> !s.pc.Asleep?)
    && (!s.quit ==> !s.isExit && (s.pc.NoThread? || s.early))
    && (s.early && s.isExit && !s.pc.NoThread? ==> s.owner.Quitter?)
    && (s.early ==> !s.pc.Exiting? && s.pc != Done(true))
  }

  lemma {:induction false} InvLeads(s: State, steps: seq<Step>, t: State)
    requires Inv(s) && Leads(s, steps, t)
    ensures Inv(t)
    decreases |steps|
  {
    if steps != [] {
      InvLeads(Apply(s, steps[0]), steps[1..], t);
    }
  }

  lemma InvReachable(t: State)
    requires Reachable(t)
    ensures Inv(t)
  {
    var steps :| Leads(INIT, steps, t);
    InvLeads(INIT, steps, t);
  }

  // ---------- Main results ----------

  /** A worker started before any QuitDownloadThread never observes isExitThread_. */
  lemma EarlyWorkerNeverSeesExit(t: State)
    requires Reachable(t) && t.early
    ensures !Enabled(t, ExitSeen)
  {
    InvReachable(t);
  }

  /** So QuitDownloadThread returns only when there is no worker, or when the worker it joins ended because
      ProcessThreadExecute returned false; a worker started after an earlier quit may also have ended by
      the exit flag. */
  lemma QuitReturns(t: State)
    requires Reachable(t)
    ensures Enabled(t, QuitBegin) ==> (Apply(t, QuitBegin).owner.Nobody? <==> t.pc.NoThread?)
    ensures Enabled(t, QuitJoin) ==> t.pc == Done(false) || (t.pc == Done(true) && !t.early)
  {
    InvReachable(t);
  }

  ghost predicate Stuck(t: State) {
    forall step :: !Enabled(t, step)
  }

  /** The only states in which nobody can move are those where QuitDownloadThread holds the mutex in join
      and the worker is parked at the lock or in the wait. */
  lemma StuckExactly(t: State)
    requires Reachable(t)
    ensures Stuck(t) <==> t.owner.Quitter? && (t.pc.AtLock? || t.pc.Woken?)
  {
    InvReachable(t);
    if t.owner.Nobody? {
      assert Enabled(t, Stop);
    } else if t.owner.Worker? {
      assert Enabled(t, Wait) || Enabled(t, Take) || Enabled(t, ExitSeen);
    } else {
      assert t.pc.Executing? ==> Enabled(t, Finish(true));
      assert t.pc.Exiting? ==> Enabled(t, ExitDone);
      assert t.pc.Done? ==> Enabled(t, QuitJoin);
    }
  }

  /** A quit that begins while the worker sleeps or waits for the mutex is stuck at once; one that begins
      while the worker executes is stuck exactly if that execution asks to be run again. */
  lemma QuitOutcome(t: State, again: bool)
    requires Reachable(t) && t.owner.Nobody?
    ensures t.pc.AtLock? || t.pc.Asleep? || t.pc.Woken? ==> Stuck(Apply(t, QuitBegin))
    ensures t.pc.Executing? ==> var u := Apply(Apply(t, QuitBegin), Finish(again));
                                if again then Stuck(u) else Enabled(u, QuitJoin)
  {
  }

  /** Such a state is reachable: an execution that failed early and asked to be run again, then quit. */
  lemma StuckIsReachable()
    ensures exists t :: Reachable(t) && Stuck(t)
  {
    var steps := [Start, Lock, Take, Finish(true), QuitBegin];
    var s1 := Apply(INIT, Start);
    var s2 := Apply(s1, Lock);
    var s3 := Apply(s2, Take);
    var s4 := Apply(s3, Finish(true));
    var s5 := Apply(s4, QuitBegin);
    assert Leads(s4, [QuitBegin], s5) by { assert Leads(s5, [], s5); }
    assert Leads(s3, [Finish(true), QuitBegin], s5) by { assert steps[3..][1..] == [QuitBegin]; }
    assert [Take, Finish(true), QuitBegin][1..] == [Finish(true), QuitBegin];
    assert Leads(s2, [Take, Finish(true), QuitBegin], s5);
    assert [Lock, Take, Finish(true), QuitBegin][1..] == [Take, Finish(true), QuitBegin];
    assert Leads(s1, [Lock, Take, Finish(true), QuitBegin], s5);
    assert steps[1..] == [Lock, Take, Finish(true), QuitBegin];
    assert Leads(INIT, steps, s5);
    assert Stuck(s5);
  }

  ghost predicate InLoop(pc: Pc) {
    pc.AtLock? || pc.AtCheck? || pc.Asleep? || pc.Woken?
  }

  /** The worker gets the mutex and begins an execution. */
  ghost predicate TwoStepsFromExecution(t: State) {
    && Enabled(t, Lock) && Enabled(Apply(t, Lock), Take)
    && Apply(Apply(t, Lock), Take).pc == Executing
  }

  lemma {:induction false} WakeKept(s: State, steps: seq<Step>, t: State)
    requires s.isWake && Leads(s, steps, t)
    ensures Take in steps || t.isWake
    decreases |steps|
  {
    if steps != [] && !steps[0].Take? {
      WakeKept(Apply(s, steps[0]), steps[1..], t);
      assert Take in steps[1..] ==> Take in steps;
    }
  }

  /** No wake-up is lost while the worker is in its loop: after a StartProgress, a StopProgress or a quit, in every
      later state either an execution has begun since, or the wake-up still stands and the worker is not asleep. */
  lemma WakeNotLost(s: State, wake: Step, steps: seq<Step>, t: State)
    requires Reachable(s) && Enabled(s, wake) && wake in {Start, Stop, QuitBegin} && Leads(Apply(s, wake), steps, t)
    ensures Take in steps || (t.isWake && !t.pc.Asleep?)
  {
    InvReachable(s);
    InvLeads(Apply(s, wake), steps, t);
    WakeKept(Apply(s, wake), steps, t);
  }

  /** With the mutex free and no exit asked for, a wake-up is two steps of the worker from its execution. */
  lemma WakeServed(t: State)
    requires Reachable(t) && t.isWake && !t.isExit && t.owner.Nobody? && InLoop(t.pc)
    ensures TwoStepsFromExecution(t)
  {
    InvReachable(t);
  }

  /** After a StartProgress, with or without a worker before it: as long as no execution has begun, whenever the
      mutex is free, no exit is asked for and the worker is in its loop, two of its steps begin one. */
  lemma StartServed(s: State, steps: seq<Step>, t: State)
    requires Reachable(s) && Enabled(s, Start) && Leads(Apply(s, Start), steps, t) && Take !in steps
    requires t.owner.Nobody? && !t.isExit && InLoop(t.pc)
    ensures TwoStepsFromExecution(t)
  {
    WakeNotLost(s, Start, steps, t);
    InvReachable(s);
    InvLeads(Apply(s, Start), steps, t);
  }

  /** In particular right after the call: it creates the worker if there is none. */
  lemma StartExecutes(t: State)
    requires Reachable(t) && t.owner.Nobody? && !t.isExit && (t.pc.NoThread? || InLoop(t.pc))
    ensures TwoStepsFromExecution(Apply(t, Start))
  {
    StartServed(t, [], Apply(t, Start));
  }

  /** A wake-up without notification changes nothing: the worker looks at isWake_ again and waits again. */
  lemma SpuriousIsHarmless(t: State)
    requires Reachable(t) && t.pc.Asleep? && t.owner.Nobody?
    ensures var woken := Apply(t, Spurious);
            && Enabled(woken, Lock) && Enabled(Apply(woken, Lock), Wait)
            && Apply(Apply(woken, Lock), Wait) == t
  {
    InvReachable(t);
  }

  /** A quit that joins a worker on its way out, or at its end, returns, and leaves neither worker nor mutex behind. */
  lemma QuitEnds(t: State)
    requires Reachable(t) && t.owner.Quitter? && (t.pc.Exiting? || t.pc.Done?)
    ensures t.pc.Exiting? ==> Enabled(t, ExitDone)
    ensures var ended := if t.pc.Exiting? then Apply(t, ExitDone) else t;
            && Enabled(ended, QuitJoin)
            && Apply(ended, QuitJoin).owner.Nobody? && Apply(ended, QuitJoin).pc.NoThread?
  {
  }

  lemma {:induction false} ExitStands(s: State, steps: seq<Step>, t: State)
    requires s.isExit && Leads(s, steps, t) && Stop !in steps
    ensures t.isExit && Take !in steps
    decreases |steps|
  {
    if steps != [] {
      ExitStands(Apply(s, steps[0]), steps[1..], t);
      assert steps == [steps[0]] + steps[1..];
    }
  }

  /** After a quit, with or without a worker, nothing is executed until a StopProgress has cleared the exit flag: a
      worker that a StartProgress creates then goes to its end. */
  lemma NothingAfterQuit(s: State, steps: seq<Step>, t: State)
    requires Enabled(s, QuitBegin) && Leads(Apply(s, QuitBegin), steps, t) && Stop !in steps
    ensures Take !in steps
    ensures t.owner.Nobody? && t.pc.NoThread?
            ==> Enabled(t, Start) && Enabled(Apply(t, Start), Lock) && Enabled(Apply(Apply(t, Start), Lock), ExitSeen)
  {
    ExitStands(Apply(s, QuitBegin), steps, t);
  }

  /** Outside the loop it is lost: once the worker has ended, StartProgress still succeeds, but nothing is
      executed until a QuitDownloadThread has joined the old worker. */
  lemma {:induction false} EndedWorkerStaysEnded(s: State, steps: seq<Step>, t: State)
    requires s.pc.Done? && !s.owner.Quitter? && Leads(s, steps, t)
    requires QuitBegin !in steps
    ensures t.pc == s.pc && Take !in steps
    decreases |steps|
  {
    if steps != [] {
      assert steps[0] != QuitBegin;
      forall step | step in steps[1..] ensures step != QuitBegin {
        assert step in steps;
      }
      EndedWorkerStaysEnded(Apply(s, steps[0]), steps[1..], t);
      assert steps == [steps[0]] + steps[1..];
    }
  }

  // ---------- What an execution answers ----------

  lemma {:induction false} NoCause(s: State, steps: seq<Step>, t: State)
    requires (s.isWake ==> s.isExit) && Leads(s, steps, t)
    requires Start !in steps && Stop !in steps
    ensures t.isWake ==> t.isExit
    decreases |steps|
  {
    if steps != [] {
      assert steps[0] in steps && forall step | step in steps[1..] :: step in steps;
      NoCause(Apply(s, steps[0]), steps[1..], t);
    }
  }

  /** Every execution answers what has come since the one before it, or since the beginning: a StartProgress if
      there was one, and otherwise a StopProgress. A QuitDownloadThread alone causes none. */
  lemma ExecutionHasCause(s: State, steps: seq<Step>, t: State)
    requires s == INIT || exists before :: Enabled(before, Take) && s == Apply(before, Take)
    requires Leads(s, steps, t) && Take !in steps && Enabled(t, Take)
    ensures Start in steps || Stop in steps
  {
    if Start !in steps && Stop !in steps {
      NoCause(s, steps, t);
    }
  }

  /** ... and a StopProgress does cause one: a worker in its loop executes once more, exit flag or not. */
  lemma StopExecutes(t: State)
    requires Reachable(t) && t.owner.Nobody? && InLoop(t.pc)
    ensures TwoStepsFromExecution(Apply(t, Stop))
  {
    InvReachable(t);
  }

  function Executions(steps: seq<Step>): nat {
    if steps == [] then 0 else (if steps[0].Take? then 1 else 0) + Executions(steps[1..])
  }

  function Causes(steps: seq<Step>): nat {
    if steps == [] then 0 else (if steps[0].Start? || steps[0].Stop? then 1 else 0) + Causes(steps[1..])
  }

  /** Wake-ups add up but are not counted: in every run there are at most as many executions as calls of
      StartProgress and StopProgress. */
  lemma {:induction false} ExecutionsBounded(s: State, steps: seq<Step>, t: State)
    requires Leads(s, steps, t)
    ensures Executions(steps) <= Causes(steps) + if s.isWake && !s.isExit then 1 else 0
    decreases |steps|
  {
    if steps != [] {
      ExecutionsBounded(Apply(s, steps[0]), steps[1..], t);
    }
  }
}
