/** The user-unlock observer of services/core/ability/user_unlock/src/update_user_unlock_observer.cpp as
    a transition system. Any number of Start calls, unlock events, queued tasks and unsubscribe tasks
    are interleaved; threads at the same program point are counted. Each critical section of
    subscriberLock_ is one step, and so is each operation on the atomic initialized_. */
module UnlockObserver {
  import opened Common

  /** What the environment may do: account queries that answer wrongly, unlock events of other users,
      subscriptions that fail, calls of Stop, more than one call of Start. */
  datatype Config = Config(wrongQueries: bool, otherUsers: bool, failingSubscribe: bool, stops: bool,
                           manyStarts: bool)

  /** unlocked and published are the active user's state and whether its event was sent; subscriber is
      userUnlockSubscriber_, subscribed the subscribers known to the event service, made how many were
      created; runs counts the calls of onUnlocked_.
      The remaining counters are threads and tasks by program point: deliveries before OnReceiveEvent,
      tasks before TryNotifyUnlocked, winners before onUnlocked_, finishers before the unsubscribe task is
      submitted, unsubs queued unsubscribe tasks, losers before their own unsubscribe, and Start before
      its first check, its registration and its second check. */
  datatype State = State(
    unlocked: bool, published: bool, initialized: bool, runs: nat,
    subscriber: Option<nat>, subscribed: set<nat>, made: nat,
    deliveries: nat, tasks: nat, winners: nat, finishers: nat, unsubs: nat, losers: nat,
    starts: nat, atFirst: nat, atRegister: nat, atSecond: nat, returned: nat)

  datatype Step =
    | Unlock                       // the active user is unlocked
    | Publish                      // its event goes to the subscribers
    | PublishOther                 // another user's unlock event
    | Receive                      // OnReceiveEvent submits a task
    | RunTask                      // TryNotifyUnlocked up to the compare-and-set
    | RunCallback
    | SubmitUnsubscribe
    | RunUnsubscribe(removed: bool)
    | LoserUnsubscribe(removed: bool)
    | StopCall(removed: bool)
    | StartCall
    | FirstCheck(sees: bool)
    | RegisterListener(ok: bool)
    | SecondCheck(sees: bool)

  ghost predicate Enabled(c: Config, s: State, step: Step) {
    match step
    case Unlock => !s.unlocked
    case Publish => s.unlocked && !s.published
    case PublishOther => c.otherUsers
    case Receive => s.deliveries > 0
    case RunTask => s.tasks > 0
    case RunCallback => s.winners > 0
    case SubmitUnsubscribe => s.finishers > 0
    case RunUnsubscribe(_) => s.unsubs > 0
    case LoserUnsubscribe(_) => s.losers > 0
    case StopCall(_) => c.stops
    case StartCall => c.manyStarts || s.starts == 0
    case FirstCheck(sees) => s.atFirst > 0 && (c.wrongQueries || sees == s.unlocked)
    case RegisterListener(ok) => s.atRegister > 0 && (c.failingSubscribe || ok)
    case SecondCheck(sees) => s.atSecond > 0 && (c.wrongQueries || sees == s.unlocked)
  }

  /** TryNotifyUnlocked's compare-and-set. */
  function CompareAndSet(s: State): State {
    if s.initialized then s.(losers := s.losers + 1) else s.(initialized := true, winners := s.winners + 1)
  }

  /** UnregisterUserUnlockListener; removed is the answer of UnSubscribeCommonEvent. */
  function Unsubscribe(s: State, removed: bool): State {
    if s.subscriber.None? then s else
      s.(subscriber := None,
         subscribed := if removed then s.subscribed - {s.subscriber.value} else s.subscribed)
  }

  /** RegisterUserUnlockListener; ok is the answer of SubscribeCommonEvent. */
  function Subscribe(s: State, ok: bool): State {
    if s.subscriber.Some? || !ok then s else
      s.(subscriber := Some(s.made), subscribed := s.subscribed + {s.made}, made := s.made + 1)
  }

  ghost function Apply(c: Config, s: State, step: Step): State
    requires Enabled(c, s, step)
  {
    match step
    case Unlock => s.(unlocked := true)
    case Publish => s.(published := true, deliveries := s.deliveries + |s.subscribed|)
    case PublishOther => s.(deliveries := s.deliveries + |s.subscribed|)
    case Receive => s.(deliveries := s.deliveries - 1, tasks := s.tasks + 1)
    case RunTask => CompareAndSet(s.(tasks := s.tasks - 1))
    case RunCallback => s.(winners := s.winners - 1, runs := s.runs + 1, finishers := s.finishers + 1)
    case SubmitUnsubscribe => s.(finishers := s.finishers - 1, unsubs := s.unsubs + 1)
    case RunUnsubscribe(removed) => Unsubscribe(s.(unsubs := s.unsubs - 1), removed)
    case LoserUnsubscribe(removed) => Unsubscribe(s.(losers := s.losers - 1), removed)
    case StopCall(removed) => Unsubscribe(s, removed)
    case StartCall => s.(starts := s.starts + 1, atFirst := s.atFirst + 1)
    case FirstCheck(sees) =>
      var t := s.(atFirst := s.atFirst - 1);
      if sees then CompareAndSet(t.(returned := s.returned + 1)) else t.(atRegister := s.atRegister + 1)
    case RegisterListener(ok) => Subscribe(s, ok).(atRegister := s.atRegister - 1, atSecond := s.atSecond + 1)
    case SecondCheck(sees) =>
      var t := s.(atSecond := s.atSecond - 1, returned := s.returned + 1);
      if sees then CompareAndSet(t) else t
  }

  /** The observer is new; the user may be unlocked already, with the event sent or still to come. */
  ghost predicate Init(s: State) {
    && (s.published ==> s.unlocked) && !s.initialized && s.runs == 0
    && s.subscriber.None? && s.subscribed == {} && s.made == 0
    && s.deliveries == 0 && s.tasks == 0 && s.winners == 0 && s.finishers == 0 && s.unsubs == 0 && s.losers == 0
    && s.starts == 0 && s.atFirst == 0 && s.atRegister == 0 && s.atSecond == 0 && s.returned == 0
  }

  ghost predicate Leads(c: Config, s: State, steps: seq<Step>, t: State)
    decreases |steps|
  {
    if steps == [] then s == t else Enabled(c, s, steps[0]) && Leads(c, Apply(c, s, steps[0]), steps[1..], t)
  }

  ghost predicate Run(c: Config, s: State, steps: seq<Step>, t: State) {
    Init(s) && Leads(c, s, steps, t)
  }

  lemma {:induction false} LeadsAppend(c: Config, s: State, steps: seq<Step>, t: State, step: Step)
    requires Leads(c, s, steps, t) && Enabled(c, t, step)
    ensures Leads(c, s, steps + [step], Apply(c, t, step))
    decreases |steps|
  {
    if steps != [] {
      assert (steps + [step])[1..] == steps[1..] + [step];
      LeadsAppend(c, Apply(c, s, steps[0]), steps[1..], t, step);
    }
  }

  lemma Extend(c: Config, s: State, steps: seq<Step>, t: State, step: Step) returns (longer: seq<Step>, u: State)
    requires Leads(c, s, steps, t) && Enabled(c, t, step)
    ensures longer == steps + [step] && u == Apply(c, t, step)
    ensures Leads(c, s, longer, u)
  {
    longer, u := steps + [step], Apply(c, t, step);
    LeadsAppend(c, s, steps, t, step);
  }

  // ---------- The invariants ----------

  /** The one winner of the compare-and-set has run the callback, or is about to. */
  ghost predicate OneWinner(s: State) {
    && s.winners + s.runs == (if s.initialized then 1 else 0)
    && (s.finishers + s.unsubs + s.losers > 0 ==> s.initialized)
    && (s.subscriber.Some? ==> s.subscriber.value < s.made)
    && (s.published ==> s.unlocked)
  }

  lemma OneWinnerStep(c: Config, s: State, step: Step)
    requires OneWinner(s) && Enabled(c, s, step)
    ensures OneWinner(Apply(c, s, step))
  {
  }

  lemma {:induction false} OneWinnerRun(c: Config, s: State, steps: seq<Step>, t: State)
    requires OneWinner(s) && Leads(c, s, steps, t)
    ensures OneWinner(t)
    decreases |steps|
  {
    if steps != [] {
      OneWinnerStep(c, s, steps[0]);
      OneWinnerRun(c, Apply(c, s, steps[0]), steps[1..], t);
    }
  }

  /** Something is on its way that will set initialized_. */
  ghost predicate Coming(s: State) {
    s.tasks > 0 || s.deliveries > 0 || (!s.published && s.subscribed != {})
  }

  /** With right answers, working subscriptions and no Stop: a Start that has registered has left a
      subscription, and one that has returned has left more. */
  ghost predicate Watched(s: State) {
    && (s.subscriber.Some? ==> s.subscriber.value in s.subscribed)
    && (!s.initialized && s.atSecond > 0 ==> s.subscribed != {})
    && (!s.initialized && s.returned > 0 ==>
          s.subscribed != {} && (s.unlocked ==> Coming(s)))
  }

  lemma WatchedStep(c: Config, s: State, step: Step)
    requires !c.wrongQueries && !c.failingSubscribe && !c.stops
    requires OneWinner(s) && Watched(s) && Enabled(c, s, step)
    ensures Watched(Apply(c, s, step))
  {
    if step.RegisterListener? {
      assert Subscribe(s, step.ok).subscriber.value in Subscribe(s, step.ok).subscribed;
    }
    if step.Publish? || step.PublishOther? {
      assert s.subscribed != {} ==> |s.subscribed| > 0;
    }
  }

  lemma {:induction false} WatchedRun(c: Config, s: State, steps: seq<Step>, t: State)
    requires !c.wrongQueries && !c.failingSubscribe && !c.stops
    requires OneWinner(s) && Watched(s) && Leads(c, s, steps, t)
    ensures Watched(t)
    decreases |steps|
  {
    if steps != [] {
      OneWinnerStep(c, s, steps[0]);
      WatchedStep(c, s, steps[0]);
      WatchedRun(c, Apply(c, s, steps[0]), steps[1..], t);
    }
  }

  ghost predicate Cleaning(s: State) {
    s.winners + s.finishers + s.unsubs + s.losers > 0
  }

  /** With right answers and no other users: the active user is unlocked once anything is on its way, and
      a subscriber that outlives initialisation will still be removed. */
  ghost predicate CleanedMany(s: State) {
    && (s.initialized || s.tasks > 0 || s.deliveries > 0 ==> s.unlocked)
    && (s.initialized && s.subscriber.Some? ==> Cleaning(s) || s.atSecond > 0)
  }

  /** With one Start: nothing happens before it registers, and it registers once. */
  ghost predicate CleanedOne(s: State) {
    && (s.starts == 0 ==> s.atFirst + s.atRegister + s.atSecond == 0)
    && s.atFirst + s.atRegister <= 1
    && (s.starts == 0 || s.atFirst + s.atRegister > 0 ==>
          !s.initialized && s.tasks == 0 && s.deliveries == 0 && s.subscribed == {} && s.subscriber.None?
          && s.atSecond == 0)
    && (s.initialized && s.subscriber.Some? ==> Cleaning(s))
  }

  lemma CleanedStep(c: Config, s: State, step: Step)
    requires OneWinner(s) && Enabled(c, s, step)
    ensures !c.wrongQueries && !c.otherUsers && CleanedMany(s) ==> CleanedMany(Apply(c, s, step))
    ensures !c.manyStarts && CleanedOne(s) && s.starts <= 1 ==>
              CleanedOne(Apply(c, s, step)) && Apply(c, s, step).starts <= 1
  {
  }

  lemma {:induction false} CleanedRun(c: Config, s: State, steps: seq<Step>, t: State)
    requires OneWinner(s) && Leads(c, s, steps, t)
    ensures !c.wrongQueries && !c.otherUsers && CleanedMany(s) ==> CleanedMany(t)
    ensures !c.manyStarts && CleanedOne(s) && s.starts <= 1 ==> CleanedOne(t)
    decreases |steps|
  {
    if steps != [] {
      OneWinnerStep(c, s, steps[0]);
      CleanedStep(c, s, steps[0]);
      CleanedRun(c, Apply(c, s, steps[0]), steps[1..], t);
    }
  }

  // ---------- Main results ----------

  /** Over all interleavings and every behaviour of the environment, the unlock callback runs at most
      once, and only after initialized_ was set. */
  lemma InitialisedOnce(c: Config, s: State, steps: seq<Step>, t: State)
    requires Run(c, s, steps, t)
    ensures t.runs <= 1 && (t.runs == 1 ==> t.initialized)
    ensures t.initialized && t.winners == 0 ==> t.runs == 1
  {
    OneWinnerRun(c, s, steps, t);
  }

  /** No unlock is missed: with right account answers, working subscriptions and no Stop, once a Start has
      returned an unlocked user means that the business is initialised, or that an event or task is on
      its way that will do it. */
  lemma UnlockNotMissed(c: Config, s: State, steps: seq<Step>, t: State)
    requires Run(c, s, steps, t)
    requires !c.wrongQueries && !c.failingSubscribe && !c.stops
    ensures t.returned > 0 && t.unlocked ==> t.initialized || Coming(t)
  {
    WatchedRun(c, s, steps, t);
  }

  /** A new observer, the user locked. */
  const LOCKED := State(false, false, false, 0, None, {}, 0, 0, 0, 0, 0, 0, 0, 0, 0, 0, 0, 0)

  ghost predicate NeverMissed(c: Config) {
    forall s, steps, t | Run(c, s, steps, t) && t.returned > 0 && t.unlocked :: t.initialized || Coming(t)
  }

  /** A Start up to its registration. */
  lemma BeginStart(c: Config, s: State, p0: seq<Step>, t0: State) returns (p: seq<Step>, t: State)
    requires Leads(c, s, p0, t0) && (c.manyStarts || t0.starts == 0) && (t0.unlocked ==> c.wrongQueries)
    ensures Leads(c, s, p, t)
    ensures t == t0.(starts := t0.starts + 1, atRegister := t0.atRegister + 1)
  {
    p, t := Extend(c, s, p0, t0, StartCall);
    p, t := Extend(c, s, p, t, FirstCheck(false));
  }

  /** A Start whose checks are both answered with no; subscribes is the outcome of its subscription. */
  lemma OneStart(c: Config, s: State, subscribes: bool) returns (steps: seq<Step>, t: State)
    requires Init(s) && (s.unlocked ==> c.wrongQueries) && (!subscribes ==> c.failingSubscribe)
    ensures Leads(c, s, steps, t)
    ensures t == if subscribes
                 then s.(subscriber := Some(0), subscribed := {0}, made := 1, starts := 1, returned := 1)
                 else s.(starts := 1, returned := 1)
  {
    steps, t := BeginStart(c, s, [], s);
    steps, t := Extend(c, s, steps, t, RegisterListener(subscribes));
    steps, t := Extend(c, s, steps, t, SecondCheck(false));
  }

  /** The three runs: both checks of a Start are answered wrongly although the event has gone out; or the user
      is unlocked after the subscription failed, or after a Stop has removed it. */
  lemma UnlockCanBeMissed(c: Config) returns (s: State, steps: seq<Step>, t: State)
    requires c.wrongQueries || c.failingSubscribe || c.stops
    ensures Run(c, s, steps, t) && t.returned > 0 && t.unlocked && !t.initialized && !Coming(t)
  {
    if c.wrongQueries {
      s := LOCKED.(unlocked := true, published := true);
      steps, t := OneStart(c, s, true);
    } else {
      s := LOCKED;
      steps, t := OneStart(c, s, !c.failingSubscribe);
      if !c.failingSubscribe {
        steps, t := Extend(c, s, steps, t, StopCall(true));
      }
      steps, t := Extend(c, s, steps, t, Unlock);
      steps, t := Extend(c, s, steps, t, Publish);
    }
  }

  /** No unlock is missed, whatever the run, exactly under these conditions: a wrong answer, a failed
      subscription or a Stop alone can lose it. */
  lemma NeverMissedIff(c: Config)
    ensures NeverMissed(c) <==> !c.wrongQueries && !c.failingSubscribe && !c.stops
  {
    if !c.wrongQueries && !c.failingSubscribe && !c.stops {
      forall s, steps, t | Run(c, s, steps, t) && t.returned > 0 && t.unlocked ensures t.initialized || Coming(t) {
        UnlockNotMissed(c, s, steps, t);
      }
    } else {
      var s, steps, t := UnlockCanBeMissed(c);
      assert Run(c, s, steps, t);
    }
  }

  lemma UnlockStaysStep(c: Config, s: State, step: Step)
    requires Enabled(c, s, step)
    ensures s.returned <= Apply(c, s, step).returned && (s.unlocked ==> Apply(c, s, step).unlocked)
  {
  }

  lemma {:induction false} UnlockStays(c: Config, s: State, steps: seq<Step>, t: State)
    requires Leads(c, s, steps, t)
    ensures s.returned <= t.returned && (s.unlocked ==> t.unlocked)
    decreases |steps|
  {
    if steps != [] {
      UnlockStaysStep(c, s, steps[0]);
      UnlockStays(c, Apply(c, s, steps[0]), steps[1..], t);
    }
  }

  /** What is on its way arrives: under the same conditions, in every later state where nothing is on its way
      any more the observer is initialised. */
  lemma UnlockArrives(c: Config, s: State, steps: seq<Step>, t: State, more: seq<Step>, u: State)
    requires Run(c, s, steps, t) && t.returned > 0 && t.unlocked && Leads(c, t, more, u)
    requires !c.wrongQueries && !c.failingSubscribe && !c.stops
    ensures u.initialized || Coming(u)
  {
    OneWinnerRun(c, s, steps, t);
    WatchedRun(c, s, steps, t);
    WatchedRun(c, t, more, u);
    UnlockStays(c, t, more, u);
  }

  ghost predicate Quiescent(s: State) {
    && s.deliveries + s.tasks + s.winners + s.finishers + s.unsubs + s.losers == 0
    && s.atFirst + s.atRegister + s.atSecond == 0
  }

  /** When nothing is pending, an initialised observer has no subscriber left, provided that Start is
      called once, or that account answers are right and only the active user's events arrive. */
  lemma NoSubscriberLeft(c: Config, s: State, steps: seq<Step>, t: State)
    requires Run(c, s, steps, t)
    requires !c.manyStarts || (!c.wrongQueries && !c.otherUsers)
    ensures Quiescent(t) && t.initialized ==> t.subscriber.None?
  {
    CleanedRun(c, s, steps, t);
  }

  ghost predicate NeverStays(c: Config) {
    forall s, steps, t | Run(c, s, steps, t) && Quiescent(t) && t.initialized :: t.subscriber.None?
  }

  /** A Start that wrongly sees the user unlocked runs through to the queued unsubscribe task. */
  lemma WrongStart(c: Config, s: State, p0: seq<Step>, t0: State) returns (p: seq<Step>, t: State)
    requires Leads(c, s, p0, t0) && (c.manyStarts || t0.starts == 0) && c.wrongQueries && !t0.initialized
    requires t0.winners == t0.finishers == 0
    ensures Leads(c, s, p, t)
    ensures t == t0.(starts := t0.starts + 1, returned := t0.returned + 1, initialized := true, runs := t0.runs + 1,
                     unsubs := t0.unsubs + 1)
  {
    p, t := Extend(c, s, p0, t0, StartCall);
    p, t := Extend(c, s, p, t, FirstCheck(true));
    p, t := Extend(c, s, p, t, RunCallback);
    p, t := Extend(c, s, p, t, SubmitUnsubscribe);
  }

  /** The unsubscribe task runs before the second Start registers. */
  lemma LateSubscription(c: Config, s: State, p0: seq<Step>, t0: State) returns (p: seq<Step>, t: State)
    requires Leads(c, s, p0, t0) && !t0.unlocked && t0.unsubs > 0 && t0.atRegister > 0
    ensures Leads(c, s, p, t)
    ensures t.subscriber.Some? && t.initialized == t0.initialized
    ensures t == t0.(unsubs := t0.unsubs - 1, atRegister := t0.atRegister - 1, returned := t0.returned + 1,
                     subscriber := t.subscriber, subscribed := t.subscribed, made := t.made)
  {
    p, t := Extend(c, s, p0, t0, RunUnsubscribe(true));
    p, t := Extend(c, s, p, t, RegisterListener(true));
    p, t := Extend(c, s, p, t, SecondCheck(false));
  }

  /** Another user's event runs through to the queued unsubscribe task. */
  lemma ForeignEvent(c: Config, s: State, p0: seq<Step>, t0: State) returns (p: seq<Step>, t: State)
    requires Leads(c, s, p0, t0) && c.otherUsers && !t0.initialized && t0.subscribed == {0}
    requires t0.deliveries == t0.tasks == t0.winners == t0.finishers == 0
    ensures Leads(c, s, p, t)
    ensures t == t0.(initialized := true, runs := t0.runs + 1, unsubs := t0.unsubs + 1)
  {
    p, t := Extend(c, s, p0, t0, PublishOther);
    p, t := Extend(c, s, p, t, Receive);
    p, t := Extend(c, s, p, t, RunTask);
    p, t := Extend(c, s, p, t, RunCallback);
    p, t := Extend(c, s, p, t, SubmitUnsubscribe);
  }

  /** The two runs. With other users' events: a first Start returns, a second is about to register, and another
      user's event initialises the observer and unsubscribes in between. With wrong answers: one Start is about
      to register, and another wrongly sees the user unlocked and does the same. */
  lemma SubscriberCanStay(c: Config) returns (steps: seq<Step>, t: State)
    requires c.manyStarts && (c.wrongQueries || c.otherUsers)
    ensures Run(c, LOCKED, steps, t) && Quiescent(t) && t.initialized && t.subscriber.Some?
  {
    if c.otherUsers {
      steps, t := OneStart(c, LOCKED, true);
      steps, t := BeginStart(c, LOCKED, steps, t);
      steps, t := ForeignEvent(c, LOCKED, steps, t);
    } else {
      steps, t := BeginStart(c, LOCKED, [], LOCKED);
      steps, t := WrongStart(c, LOCKED, steps, t);
    }
    steps, t := LateSubscription(c, LOCKED, steps, t);
  }

  /** No run leaves a subscriber behind, exactly under that proviso: with more than one Start, wrong answers or
      other users' events alone suffice for one that does. */
  lemma NeverStaysIff(c: Config)
    ensures NeverStays(c) <==> !c.manyStarts || (!c.wrongQueries && !c.otherUsers)
  {
    if !c.manyStarts || (!c.wrongQueries && !c.otherUsers) {
      forall s, steps, t | Run(c, s, steps, t) && Quiescent(t) && t.initialized ensures t.subscriber.None? {
        NoSubscriberLeft(c, s, steps, t);
      }
    } else {
      var steps, t := SubscriberCanStay(c);
      assert Run(c, LOCKED, steps, t);
    }
  }

  ghost predicate NeverEarly(c: Config) {
    forall s, steps, t | Run(c, s, steps, t) && t.initialized :: t.unlocked
  }

  /** A run that initialises the business although the active user is locked: another user's event counts as
      well, and so does a wrong answer. */
  lemma InitialisedLocked(c: Config) returns (steps: seq<Step>, t: State)
    requires c.wrongQueries || c.otherUsers
    ensures Run(c, LOCKED, steps, t) && t.initialized && !t.unlocked
  {
    if c.otherUsers {
      steps, t := OneStart(c, LOCKED, true);
      steps, t := ForeignEvent(c, LOCKED, steps, t);
    } else {
      steps, t := WrongStart(c, LOCKED, [], LOCKED);
    }
  }

  /** The business is initialised only for an unlocked active user, in every run, exactly when account answers are
      right and only that user's events arrive. */
  lemma NeverEarlyIff(c: Config)
    ensures NeverEarly(c) <==> !c.wrongQueries && !c.otherUsers
  {
    if !c.wrongQueries && !c.otherUsers {
      forall s, steps, t | Run(c, s, steps, t) && t.initialized ensures t.unlocked {
        CleanedRun(c, s, steps, t);
      }
    } else {
      var steps, t := InitialisedLocked(c);
      assert Run(c, LOCKED, steps, t);
    }
  }

  // ---------- Subscriptions ----------

  /** The subscribers that UnSubscribeCommonEvent has failed to remove. */
  ghost function NextLeft(s: State, step: Step, left: set<nat>): set<nat> {
    match step
    case RunUnsubscribe(removed) => if removed || s.subscriber.None? then left else left + {s.subscriber.value}
    case LoserUnsubscribe(removed) => if removed || s.subscriber.None? then left else left + {s.subscriber.value}
    case StopCall(removed) => if removed || s.subscriber.None? then left else left + {s.subscriber.value}
    case _ => left
  }

  ghost function LeftAfter(c: Config, s: State, steps: seq<Step>, left: set<nat>): set<nat>
    decreases |steps|
  {
    if steps == [] || !Enabled(c, s, steps[0]) then left
    else LeftAfter(c, Apply(c, s, steps[0]), steps[1..], NextLeft(s, steps[0], left))
  }

  /** The event service knows the recorded subscriber and those, and no others. */
  ghost predicate Accounted(s: State, left: set<nat>) {
    && s.subscribed == left + (if s.subscriber.Some? then {s.subscriber.value} else {})
    && (forall id | id in s.subscribed :: id < s.made)
    && (s.subscriber.Some? ==> s.subscriber.value !in left)
  }

  lemma AccountedStep(c: Config, s: State, step: Step, left: set<nat>)
    requires Accounted(s, left) && Enabled(c, s, step)
    ensures Accounted(Apply(c, s, step), NextLeft(s, step, left))
  {
  }

  lemma {:induction false} SubscriptionsOverRuns(c: Config, s: State, steps: seq<Step>, t: State, left: set<nat>)
    requires Accounted(s, left) && Leads(c, s, steps, t)
    ensures Accounted(t, LeftAfter(c, s, steps, left))
    decreases |steps|
  {
    if steps != [] {
      AccountedStep(c, s, steps[0], left);
      SubscriptionsOverRuns(c, Apply(c, s, steps[0]), steps[1..], t, NextLeft(s, steps[0], left));
    }
  }

  // ---------- Runs that nothing interrupts ----------

  /** A winner of the compare-and-set runs through: it calls back, and its task ends the subscription. */
  lemma WinnerRuns(c: Config, s: State, p0: seq<Step>, t0: State) returns (p: seq<Step>, t: State)
    requires Leads(c, s, p0, t0) && t0.winners > 0
    ensures Leads(c, s, p, t) && p == p0 + [RunCallback, SubmitUnsubscribe, RunUnsubscribe(true)]
    ensures t == t0.(winners := t0.winners - 1, runs := t0.runs + 1, subscriber := None,
                     subscribed := t0.subscribed - if t0.subscriber.Some? then {t0.subscriber.value} else {})
  {
    p, t := Extend(c, s, p0, t0, RunCallback);
    p, t := Extend(c, s, p, t, SubmitUnsubscribe);
    p, t := Extend(c, s, p, t, RunUnsubscribe(true));
    assert t0.subscribed - {} == t0.subscribed;
  }

  /** A loser of the compare-and-set calls nothing back, and ends the subscription itself. */
  lemma LoserRuns(c: Config, s: State, p0: seq<Step>, t0: State) returns (p: seq<Step>, t: State)
    requires Leads(c, s, p0, t0) && t0.tasks > 0 && t0.initialized
    ensures Leads(c, s, p, t) && p == p0 + [RunTask, LoserUnsubscribe(true)]
    ensures t == t0.(tasks := t0.tasks - 1, subscriber := None,
                     subscribed := t0.subscribed - if t0.subscriber.Some? then {t0.subscriber.value} else {})
  {
    p, t := Extend(c, s, p0, t0, RunTask);
    p, t := Extend(c, s, p, t, LoserUnsubscribe(true));
    assert t0.subscribed - {} == t0.subscribed;
  }

  /** The user is unlocked, and the event goes to the subscribers. */
  lemma UserUnlocks(c: Config, s: State, p0: seq<Step>, t0: State) returns (p: seq<Step>, t: State)
    requires Leads(c, s, p0, t0) && !t0.unlocked && !t0.published
    ensures Leads(c, s, p, t) && p == p0 + [Unlock, Publish]
    ensures t == t0.(unlocked := true, published := true, deliveries := t0.deliveries + |t0.subscribed|)
  {
    p, t := Extend(c, s, p0, t0, Unlock);
    p, t := Extend(c, s, p, t, Publish);
  }

  /** A first Start registers its subscriber, and its second check sees what there is to see. */
  lemma StartRegisters(c: Config, s: State, p0: seq<Step>, t0: State) returns (p: seq<Step>, t: State)
    requires Leads(c, s, p0, t0) && t0.atRegister == 1 && t0.subscriber.None? && t0.subscribed == {} && t0.made == 0
    requires !t0.initialized
    ensures Leads(c, s, p, t) && p == p0 + [RegisterListener(true), SecondCheck(t0.unlocked)]
    ensures t == t0.(atRegister := 0, subscriber := Some(0), subscribed := {0}, made := 1, returned := t0.returned + 1,
                     initialized := t0.unlocked, winners := t0.winners + if t0.unlocked then 1 else 0)
  {
    p, t := Extend(c, s, p0, t0, RegisterListener(true));
    p, t := Extend(c, s, p, t, SecondCheck(t0.unlocked));
  }

  /** A Start that finds the user unlocked initialises the business without a subscription. */
  lemma StartUnlocked(c: Config, s: State)
    requires Init(s) && s.unlocked
    ensures Leads(c, s, [StartCall, FirstCheck(true), RunCallback, SubmitUnsubscribe, RunUnsubscribe(true)],
                  s.(initialized := true, runs := 1, starts := 1, returned := 1))
  {
    var p, t := Extend(c, s, [], s, StartCall);
    p, t := Extend(c, s, p, t, FirstCheck(true));
    p, t := WinnerRuns(c, s, p, t);
    assert p == [StartCall, FirstCheck(true), RunCallback, SubmitUnsubscribe, RunUnsubscribe(true)];
  }

  lemma StartWaits(c: Config) returns (p: seq<Step>, t: State)
    ensures Leads(c, LOCKED, p, t) && p == [StartCall, FirstCheck(false)]
    ensures t == LOCKED.(starts := 1, atRegister := 1)
  {
    p, t := Extend(c, LOCKED, [], LOCKED, StartCall);
    p, t := Extend(c, LOCKED, p, t, FirstCheck(false));
  }

  const INITIALISED := LOCKED.(unlocked := true, published := true, initialized := true, runs := 1, made := 1,
                               starts := 1, returned := 1)

  /** The event is received and its task wins the compare-and-set. */
  lemma TaskRuns(c: Config, s: State, p0: seq<Step>, t0: State) returns (p: seq<Step>, t: State)
    requires Leads(c, s, p0, t0) && t0.deliveries > 0 && t0.tasks == 0 && !t0.initialized
    ensures Leads(c, s, p, t) && p == p0 + [Receive, RunTask]
    ensures t == t0.(deliveries := t0.deliveries - 1, initialized := true, winners := t0.winners + 1)
  {
    p, t := Extend(c, s, p0, t0, Receive);
    p, t := Extend(c, s, p, t, RunTask);
  }

  lemma EventWins(c: Config, p0: seq<Step>, t0: State) returns (p: seq<Step>, t: State)
    requires Leads(c, LOCKED, p0, t0)
    requires t0 == LOCKED.(subscriber := Some(0), subscribed := {0}, made := 1, starts := 1, returned := 1)
    ensures Leads(c, LOCKED, p, t)
    ensures t == INITIALISED.(subscriber := Some(0), subscribed := {0}, runs := 0, winners := 1)
  {
    p, t := UserUnlocks(c, LOCKED, p0, t0);
    assert |t0.subscribed| == 1;
    p, t := TaskRuns(c, LOCKED, p, t);
  }

  lemma CheckWins(c: Config, p0: seq<Step>, t0: State) returns (p: seq<Step>, t: State)
    requires Leads(c, LOCKED, p0, t0) && t0 == LOCKED.(starts := 1, atRegister := 1)
    ensures Leads(c, LOCKED, p, t)
    ensures t == INITIALISED.(subscriber := Some(0), subscribed := {0}, runs := 0, winners := 1)
  {
    p, t := UserUnlocks(c, LOCKED, p0, t0);
    p, t := StartRegisters(c, LOCKED, p, t);
  }

  /** The last part of both. */
  lemma Initialises(c: Config, p0: seq<Step>, t0: State) returns (p: seq<Step>, t: State)
    requires Leads(c, LOCKED, p0, t0)
    requires t0 == INITIALISED.(subscriber := Some(0), subscribed := {0}, runs := 0, winners := 1)
    ensures Leads(c, LOCKED, p, t) && t == INITIALISED
  {
    p, t := WinnerRuns(c, LOCKED, p0, t0);
    assert t.subscribed == {};
  }

  /** A Start that finds the user locked twice subscribes; the unlock event then initialises the business, once, and
      ends the subscription. */
  lemma StartLocked(c: Config) returns (p: seq<Step>, t: State)
    ensures Leads(c, LOCKED, p, t) && t == INITIALISED
  {
    p, t := OneStart(c, LOCKED, true);
    p, t := EventWins(c, p, t);
    p, t := Initialises(c, p, t);
  }

  /** When the event goes out between the first check and the subscription, the second check finds it. */
  lemma UnlockedBetweenChecks(c: Config) returns (p: seq<Step>, t: State)
    ensures Leads(c, LOCKED, p, t) && t == INITIALISED
  {
    p, t := StartWaits(c);
    p, t := CheckWins(c, p, t);
    p, t := Initialises(c, p, t);
  }
}
