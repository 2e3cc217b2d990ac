/** The network-change notifier of services/utils/src/dupdate_net_manager.cpp: one notifier writes netType_
    without the lock and then scans the callbacks under it, while other threads register, unregister and
    are caught up. The protocol is a transition system; NetManager below is the code, call by call. */
module NetNotifier {
  type NetType = bv4

  const NO_NET: NetType := 0
  const CELLULAR: NetType := 1
  const METERED_WIFI: NetType := 2
  const NOT_METERED_WIFI: NetType := 4

  type Key = int

  predicate IsBaseNetType(t: NetType) {
    t == NO_NET || t == CELLULAR || t == METERED_WIFI || t == NOT_METERED_WIFI
  }

  predicate IsNetAvailable(current: NetType, t: NetType) {
    current & t > 0
  }

  lemma AvailableIsEqual(current: NetType, t: NetType)
    requires IsBaseNetType(current) && IsBaseNetType(t)
    ensures IsNetAvailable(current, t) <==> current == t && t != NO_NET
  {
  }

  // ---------- The protocol ----------

  /** One call of RegisterCallback; ids number these calls. */
  datatype Registration = Registration(id: nat, netTypes: set<NetType>, hasFunction: bool)

  /** One call of a callback function: for which registration, with which argument, in which period between
      two changes, and whether OnNetChange makes it (otherwise it is the catch-up of RegisterCallback). */
  datatype Call = Call(id: nat, netType: NetType, period: nat, scan: bool)

  /** Who holds netChangeMutex_: Catching is a registration before the rest of its availability tests. */
  datatype Lock = Free | Catching(id: nat, candidates: seq<NetType>)

  /** history lists the values of netType_, latest last; scanDue is set between the notifier's write and its
      scan; made counts the registrations, asked keeps their types and callable those with a function; pending
      are the submitted catch-up tasks, done are the calls that were made. A task without a function throws, and
      the process crashes. */
  datatype State = State(history: seq<NetType>, scanDue: bool, lock: Lock, callbacks: map<Key, Registration>,
    made: nat, asked: map<nat, set<NetType>>, callable: set<nat>, pending: multiset<Call>, done: multiset<Call>,
    crashed: bool)

  datatype Step =
    | Change(netType: NetType)      // the unlocked write in OnNetChange
    | Scan                          // the rest of OnNetChange
    | Register(key: Key, netTypes: seq<NetType>, hasFunction: bool)
    | Test                          // one availability test of RegisterCallback
    | Release
    | RunTask(call: Call)
    | Unregister(key: Key)

  function Current(s: State): NetType
    requires s.history != []
  {
    s.history[|s.history| - 1]
  }

  function Period(s: State): nat
    requires s.history != []
  {
    |s.history| - 1
  }

  ghost predicate NoNullFunction(callbacks: map<Key, Registration>, t: NetType) {
    forall k | k in callbacks && t in callbacks[k].netTypes :: callbacks[k].hasFunction
  }

  /** What RegisterCallback demands of its types; it answers false to anything else and changes nothing. The
      order in which the set is walked is left open. */
  ghost predicate IsWalk(netTypes: seq<NetType>) {
    netTypes != [] && forall i | 0 <= i < |netTypes| :: IsBaseNetType(netTypes[i])
  }

  function Types(walk: seq<NetType>): set<NetType> {
    set t | t in walk
  }

  ghost predicate Enabled(s: State, step: Step)
    requires s.history != []
  {
    !s.crashed
    && match step
    case Change(t) => !s.scanDue && IsBaseNetType(t) && t != Current(s)
    case Scan => s.scanDue && s.lock.Free? && NoNullFunction(s.callbacks, Current(s))
    case Register(_, netTypes, _) => s.lock.Free? && IsWalk(netTypes)
    case Test => s.lock.Catching? && s.lock.candidates != []
    case Release => s.lock.Catching? && s.lock.candidates == []
    case RunTask(call) => call in s.pending
    case Unregister(_) => s.lock.Free?
  }

  function Callable(callable: set<nat>, id: nat, hasFunction: bool): set<nat> {
    if hasFunction then callable + {id} else callable
  }

  ghost function ScanCalls(s: State): set<Call>
    requires s.history != []
  {
    set k | k in s.callbacks && Current(s) in s.callbacks[k].netTypes ::
      Call(s.callbacks[k].id, Current(s), Period(s), true)
  }

  ghost function Apply(s: State, step: Step): (t: State)
    requires s.history != [] && Enabled(s, step)
    ensures t.history != []
  {
    match step
    case Change(t) => s.(history := s.history + [t], scanDue := true)
    case Scan => s.(scanDue := false, done := s.done + multiset(ScanCalls(s)))
    case Register(key, netTypes, hasFunction) =>
      var types := Types(netTypes);
      s.(callbacks := s.callbacks[key := Registration(s.made, types, hasFunction)], made := s.made + 1,
         asked := s.asked[s.made := types], callable := Callable(s.callable, s.made, hasFunction),
         lock := Catching(s.made, netTypes))
    case Test =>
      var t := s.lock.candidates[0];
      if IsNetAvailable(Current(s), t) then
        s.(lock := Free, pending := s.pending + multiset{Call(s.lock.id, t, Period(s), false)})
      else s.(lock := Catching(s.lock.id, s.lock.candidates[1..]))
    case Release => s.(lock := Free)
    case RunTask(call) =>
      if call.id in s.callable then s.(pending := s.pending - multiset{call}, done := s.done + multiset{call})
      else s.(crashed := true)
    case Unregister(key) => s.(callbacks := s.callbacks - {key})
  }

  const INIT := State([NO_NET], false, Free, map[], 0, map[], {}, multiset{}, multiset{}, false)

  ghost predicate Leads(s: State, steps: seq<Step>, t: State)
    requires s.history != []
    decreases |steps|
  {
    if steps == [] then s == t else Enabled(s, steps[0]) && Leads(Apply(s, steps[0]), steps[1..], t)
  }

  ghost predicate Reaches(s: State, t: State)
    requires s.history != []
  {
    exists steps :: Leads(s, steps, t)
  }

  lemma First(s: State, step: Step, t: State)
    requires s.history != [] && Enabled(s, step) && Reaches(Apply(s, step), t)
    ensures Reaches(s, t)
  {
    var steps :| Leads(Apply(s, step), steps, t);
    var all := [step] + steps;
    assert all[1..] == steps;
    assert Leads(s, all, t);
  }

  lemma Here(s: State)
    requires s.history != []
    ensures Reaches(s, s)
  {
    assert Leads(s, [], s);
  }

  ghost predicate Reachable(t: State) {
    Reaches(INIT, t)
  }

  lemma {:induction false} Through(s: State, steps: seq<Step>, t: State, u: State)
    requires s.history != [] && t.history != [] && Leads(s, steps, t) && Reaches(t, u)
    ensures Reaches(s, u)
    decreases |steps|
  {
    if steps != [] {
      Through(Apply(s, steps[0]), steps[1..], t, u);
      First(s, steps[0], u);
    }
  }

  lemma ReachesOn(s: State, steps: seq<Step>, t: State)
    requires Reachable(s) && s.history != [] && Leads(s, steps, t)
    ensures Reachable(t)
  {
    var before :| Leads(INIT, before, s);
    Through(INIT, before, s, t);
  }

  // ---------- The invariant ----------

  ghost function Calls(s: State): multiset<Call> {
    s.pending + s.done
  }

  /** Every call is for a type that its registration asked for, and for the type of its period. */
  ghost predicate CallsRight(s: State) {
    forall c | c in Calls(s) :: c.id in s.asked && c.netType in s.asked[c.id]
                                && c.period < |s.history| && c.netType == s.history[c.period]
                                && (c.netType == NO_NET ==> c.scan)
  }

  /** No call is made twice, no registration is caught up twice, and a scan that is due has made no call. */
  ghost predicate CallsOnce(s: State) {
    && (forall c :: Calls(s)[c] <= 1)
    && (forall c, d | c in Calls(s) && d in Calls(s) && !c.scan && !d.scan && c.id == d.id :: c == d)
    && (s.scanDue ==> forall c | c in Calls(s) && c.scan :: c.period + 1 < |s.history|)
    && (s.lock.Catching? ==> forall c | c in Calls(s) && !c.scan :: c.id != s.lock.id)
  }

  ghost predicate DistinctIds(callbacks: map<Key, Registration>) {
    forall k, l | k in callbacks && l in callbacks && callbacks[k].id == callbacks[l].id :: k == l
  }

  ghost predicate WellFormed(s: State) {
    && s.history != [] && (forall i | 0 <= i < |s.history| :: IsBaseNetType(s.history[i]))
    && (forall id: nat :: id in s.asked <==> id < s.made)
    && (forall k | k in s.callbacks :: s.callbacks[k].id in s.asked
                                       && s.asked[s.callbacks[k].id] == s.callbacks[k].netTypes)
    && DistinctIds(s.callbacks)
    && (s.lock.Catching? ==> s.lock.id in s.asked
                             && forall t | t in s.lock.candidates :: t in s.asked[s.lock.id] && IsBaseNetType(t))
  }

  ghost predicate Told(s: State, id: nat, t: NetType)
    requires s.history != []
  {
    Call(id, t, Period(s), true) in Calls(s) || Call(id, t, Period(s), false) in Calls(s)
  }

  /** Outside the window between write and scan, whoever asked for the current type has been told, or is just
      registering and still has this type to test. */
  ghost predicate EveryoneTold(s: State)
    requires s.history != []
  {
    !s.scanDue && Current(s) != NO_NET
    ==> forall k | k in s.callbacks && Current(s) in s.callbacks[k].netTypes ::
          if s.lock.Catching? && s.lock.id == s.callbacks[k].id then Current(s) in s.lock.candidates
          else Told(s, s.callbacks[k].id, Current(s))
  }

  ghost predicate Inv(s: State) {
    WellFormed(s) && CallsRight(s) && CallsOnce(s) && EveryoneTold(s)
  }

  lemma ChangeKeeps(s: State, t: NetType)
    requires Inv(s) && Enabled(s, Change(t))
    ensures Inv(Apply(s, Change(t)))
  {
    var r := Apply(s, Change(t));
    assert Calls(r) == Calls(s);
    assert forall i | 0 <= i < |s.history| :: r.history[i] == s.history[i];
  }

  /** The calls of the scan, and that they are new. */
  lemma ScanAdds(s: State)
    requires WellFormed(s) && CallsOnce(s) && Enabled(s, Scan)
    ensures forall c :: c in Calls(Apply(s, Scan)) <==> c in Calls(s) || c in ScanCalls(s)
    ensures forall c | c in ScanCalls(s) :: c !in Calls(s)
    ensures forall c :: Calls(Apply(s, Scan))[c] == Calls(s)[c] + if c in ScanCalls(s) then 1 else 0
    ensures forall c | c in ScanCalls(s) :: c.scan && c.netType == Current(s) && c.period == Period(s)
                                            && c.id in s.asked && c.netType in s.asked[c.id]
  {
    assert Calls(Apply(s, Scan)) == Calls(s) + multiset(ScanCalls(s));
    forall c | c in ScanCalls(s) ensures c !in Calls(s) {
      assert c.scan && c.period + 1 == |s.history|;
    }
  }

  lemma ScanTells(s: State)
    requires s.history != [] && Enabled(s, Scan)
    ensures EveryoneTold(Apply(s, Scan))
  {
    forall k | k in s.callbacks && Current(s) in s.callbacks[k].netTypes
      ensures Told(Apply(s, Scan), s.callbacks[k].id, Current(s))
    {
      assert Call(s.callbacks[k].id, Current(s), Period(s), true) in ScanCalls(s);
    }
  }

  lemma ScanKeeps(s: State)
    requires Inv(s) && Enabled(s, Scan)
    ensures Inv(Apply(s, Scan))
  {
    ScanTells(s);
    ScanAdds(s);
    assert CallsRight(Apply(s, Scan));
  }

  lemma RegisterKeepsForm(s: State, key: Key, netTypes: seq<NetType>, hasFunction: bool)
    requires WellFormed(s) && Enabled(s, Register(key, netTypes, hasFunction))
    ensures WellFormed(Apply(s, Register(key, netTypes, hasFunction)))
  {
  }

  lemma RegisterKeepsTold(s: State, key: Key, netTypes: seq<NetType>, hasFunction: bool)
    requires WellFormed(s) && EveryoneTold(s) && Enabled(s, Register(key, netTypes, hasFunction))
    ensures EveryoneTold(Apply(s, Register(key, netTypes, hasFunction)))
  {
    var r := Apply(s, Register(key, netTypes, hasFunction));
    assert Calls(r) == Calls(s);
    forall k | k in r.callbacks && k != key ensures k in s.callbacks && r.callbacks[k].id != s.made {
    }
  }

  lemma RegisterKeeps(s: State, key: Key, netTypes: seq<NetType>, hasFunction: bool)
    requires Inv(s) && Enabled(s, Register(key, netTypes, hasFunction))
    ensures Inv(Apply(s, Register(key, netTypes, hasFunction)))
  {
    var r := Apply(s, Register(key, netTypes, hasFunction));
    RegisterKeepsForm(s, key, netTypes, hasFunction);
    RegisterKeepsTold(s, key, netTypes, hasFunction);
    assert Calls(r) == Calls(s);
    assert CallsRight(r);
    assert CallsOnce(r);
  }

  lemma CatchUpAdds(s: State)
    requires Inv(s) && Enabled(s, Test) && IsNetAvailable(Current(s), s.lock.candidates[0])
    ensures var call := Call(s.lock.id, Current(s), Period(s), false);
            && s.lock.candidates[0] == Current(s) != NO_NET && call !in Calls(s)
            && Current(s) in s.asked[s.lock.id]
            && Calls(Apply(s, Test)) == Calls(s) + multiset{call}
  {
    var t := s.lock.candidates[0];
    assert t in s.lock.candidates;
    AvailableIsEqual(Current(s), t);
  }

  lemma CatchUpKeepsCalls(s: State)
    requires Inv(s) && Enabled(s, Test) && IsNetAvailable(Current(s), s.lock.candidates[0])
    ensures CallsRight(Apply(s, Test)) && CallsOnce(Apply(s, Test))
  {
    CatchUpAdds(s);
  }

  lemma CatchUpTells(s: State)
    requires Inv(s) && Enabled(s, Test) && IsNetAvailable(Current(s), s.lock.candidates[0])
    ensures EveryoneTold(Apply(s, Test))
  {
    CatchUpAdds(s);
    assert Told(Apply(s, Test), s.lock.id, Current(s));
    forall id | Told(s, id, Current(s)) ensures Told(Apply(s, Test), id, Current(s)) {
    }
  }

  lemma MissKeepsTold(s: State)
    requires WellFormed(s) && EveryoneTold(s)
    requires Enabled(s, Test) && !IsNetAvailable(Current(s), s.lock.candidates[0])
    ensures EveryoneTold(Apply(s, Test))
  {
    var t := s.lock.candidates[0];
    assert t in s.lock.candidates;
    AvailableIsEqual(Current(s), t);
    assert Calls(Apply(s, Test)) == Calls(s);
    assert s.lock.candidates == [t] + s.lock.candidates[1..];
  }

  lemma MissKeeps(s: State)
    requires Inv(s) && Enabled(s, Test) && !IsNetAvailable(Current(s), s.lock.candidates[0])
    ensures Inv(Apply(s, Test))
  {
    MissKeepsTold(s);
    assert Calls(Apply(s, Test)) == Calls(s);
  }

  lemma TestKeeps(s: State)
    requires Inv(s) && Enabled(s, Test)
    ensures Inv(Apply(s, Test))
  {
    var t := s.lock.candidates[0];
    if IsNetAvailable(Current(s), t) {
      CatchUpKeepsCalls(s);
      CatchUpTells(s);
    } else {
      MissKeeps(s);
    }
  }

  lemma ReleaseKeeps(s: State)
    requires Inv(s) && Enabled(s, Release)
    ensures Inv(Apply(s, Release))
  {
    assert Calls(Apply(s, Release)) == Calls(s);
  }

  /** A step that leaves calls and registrations alone, except that some may go. */
  lemma SameCallsKeep(s: State, r: State)
    requires Inv(s) && Calls(r) == Calls(s) && r.history == s.history && r.scanDue == s.scanDue && r.lock == s.lock
    requires r.made == s.made && r.asked == s.asked
    requires forall k | k in r.callbacks :: k in s.callbacks && r.callbacks[k] == s.callbacks[k]
    ensures Inv(r)
  {
  }

  lemma RunTaskKeeps(s: State, call: Call)
    requires Inv(s) && Enabled(s, RunTask(call))
    ensures Inv(Apply(s, RunTask(call)))
  {
    assert Calls(Apply(s, RunTask(call))) == Calls(s);
    SameCallsKeep(s, Apply(s, RunTask(call)));
  }

  lemma UnregisterKeeps(s: State, key: Key)
    requires Inv(s) && Enabled(s, Unregister(key))
    ensures Inv(Apply(s, Unregister(key)))
  {
    assert Calls(Apply(s, Unregister(key))) == Calls(s);
    SameCallsKeep(s, Apply(s, Unregister(key)));
  }

  lemma StepKeeps(s: State, step: Step)
    requires Inv(s) && Enabled(s, step)
    ensures Inv(Apply(s, step))
  {
    match step
    case Change(t) => ChangeKeeps(s, t);
    case Scan => ScanKeeps(s);
    case Register(key, netTypes, hasFunction) => RegisterKeeps(s, key, netTypes, hasFunction);
    case Test => TestKeeps(s);
    case Release => ReleaseKeeps(s);
    case RunTask(call) => RunTaskKeeps(s, call);
    case Unregister(key) => UnregisterKeeps(s, key);
  }

  lemma {:induction false} LeadsKeeps(s: State, steps: seq<Step>, t: State)
    requires Inv(s) && Leads(s, steps, t)
    ensures Inv(t)
    decreases |steps|
  {
    if steps != [] {
      StepKeeps(s, steps[0]);
      LeadsKeeps(Apply(s, steps[0]), steps[1..], t);
    }
  }

  lemma InvReachable(t: State)
    requires Reachable(t)
    ensures Inv(t)
  {
    var steps :| Leads(INIT, steps, t);
    LeadsKeeps(INIT, steps, t);
  }

  /** Calls are made to functions only, and a scan makes none to a registration without one. */
  ghost predicate CallableRight(s: State) {
    && (forall k | k in s.callbacks :: s.callbacks[k].id < s.made
                                       && (s.callbacks[k].hasFunction <==> s.callbacks[k].id in s.callable))
    && (forall id | id in s.callable :: id < s.made)
    && (forall c | c in s.done :: c.id in s.callable)
  }

  lemma CallableStep(s: State, step: Step)
    requires s.history != [] && CallableRight(s) && Enabled(s, step)
    ensures CallableRight(Apply(s, step))
  {
    if step.Scan? {
      assert forall c :: c in Apply(s, step).done <==> c in s.done || c in ScanCalls(s);
    }
  }

  lemma {:induction false} CallableKept(s: State, steps: seq<Step>, t: State)
    requires s.history != [] && CallableRight(s) && Leads(s, steps, t)
    ensures CallableRight(t)
    decreases |steps|
  {
    if steps != [] {
      CallableStep(s, steps[0]);
      CallableKept(Apply(s, steps[0]), steps[1..], t);
    }
  }

  lemma CallableReachable(t: State)
    requires Reachable(t)
    ensures CallableRight(t)
  {
    var steps :| Leads(INIT, steps, t);
    CallableKept(INIT, steps, t);
  }

  // ---------- What it gives ----------

  /** How often a registration's function has been called with t in a period. */
  ghost function Count(calls: multiset<Call>, id: nat, t: NetType, period: nat): nat {
    calls[Call(id, t, period, true)] + calls[Call(id, t, period, false)]
  }

  /** In every run, a function is called at most twice per change, only with a type that it asked for and that
      was the network's type in that period, and with NO_NET at most once. */
  lemma AtMostTwice(s: State, id: nat, t: NetType, period: nat)
    requires Reachable(s)
    ensures Count(s.done, id, t, period) <= if t == NO_NET then 1 else 2
    ensures Count(s.done, id, t, period) > 0
            ==> period < |s.history| && s.history[period] == t && id in s.asked && t in s.asked[id] && id in s.callable
  {
    InvReachable(s);
    CallableReachable(s);
    var scan, catchUp := Call(id, t, period, true), Call(id, t, period, false);
    assert Calls(s)[scan] <= 1 && Calls(s)[catchUp] <= 1;
    assert catchUp in s.done ==> catchUp in Calls(s);
    assert scan in s.done ==> scan in Calls(s);
  }

  lemma CallsGrowStep(s: State, step: Step)
    requires s.history != [] && Enabled(s, step)
    ensures Calls(s) <= Calls(Apply(s, step))
  {
    if !step.Scan? && !step.Test? {
      assert Calls(Apply(s, step)) == Calls(s);
    }
  }

  /** No call is ever taken back. */
  lemma {:induction false} CallsGrow(s: State, steps: seq<Step>, t: State)
    requires s.history != [] && Leads(s, steps, t)
    ensures Calls(s) <= Calls(t)
    decreases |steps|
  {
    if steps != [] {
      CallsGrowStep(s, steps[0]);
      CallsGrow(Apply(s, steps[0]), steps[1..], t);
    }
  }

  lemma {:induction false} CallableStays(s: State, steps: seq<Step>, t: State)
    requires s.history != [] && Leads(s, steps, t)
    ensures s.made <= t.made && forall id: nat | id < s.made :: id in t.callable <==> id in s.callable
    decreases |steps|
  {
    if steps != [] {
      CallableStays(Apply(s, steps[0]), steps[1..], t);
    }
  }

  /** Whoever is registered for the current type, other than NO_NET, when neither the notifier nor a
      registration is under way: however the run goes on, and whatever else changes, once none of its tasks is
      left its function has been called once or twice for this change. A registration without a function never
      gets there: its task stays, or crashes the process. */
  lemma ToldOnceOrTwice(m: State, key: Key, steps: seq<Step>, t: State)
    requires Reachable(m) && m.history != [] && !m.scanDue && m.lock.Free? && key in m.callbacks
    requires Current(m) in m.callbacks[key].netTypes && Current(m) != NO_NET
    requires Leads(m, steps, t) && forall c | c in t.pending :: c.id != m.callbacks[key].id
    ensures 1 <= Count(t.done, m.callbacks[key].id, Current(m), Period(m)) <= 2
    ensures m.callbacks[key].hasFunction
  {
    var id := m.callbacks[key].id;
    InvReachable(m);
    CallableReachable(m);
    CallableStays(m, steps, t);
    assert Told(m, id, Current(m));
    CallsGrow(m, steps, t);
    assert forall scan :: Call(id, Current(m), Period(m), scan) in Calls(m)
                          ==> Call(id, Current(m), Period(m), scan) in t.done;
    ReachesOn(m, steps, t);
    AtMostTwice(t, id, Current(m), Period(m));
  }

  /** A registration is caught up at most once in its life, so for at most one type. */
  lemma CaughtUpOnce(s: State, c: Call, d: Call)
    requires Reachable(s) && c in s.pending + s.done && d in s.pending + s.done
    requires !c.scan && !d.scan && c.id == d.id
    ensures c == d && c.netType != NO_NET
  {
    InvReachable(s);
  }

  /** Without registrations that have no function, every task can be run. */
  ghost predicate AllCallable(s: State) {
    !s.crashed && (forall id: nat | id < s.made :: id in s.callable) && forall c | c in s.pending :: c.id < s.made
  }

  lemma AllCallableStep(s: State, step: Step)
    requires s.history != [] && AllCallable(s) && Enabled(s, step) && (step.Register? ==> step.hasFunction)
    requires s.lock.Catching? ==> s.lock.id < s.made
    ensures AllCallable(Apply(s, step))
    ensures Apply(s, step).lock.Catching? ==> Apply(s, step).lock.id < Apply(s, step).made
  {
  }

  /** The process crashes in no run whose registrations all have a function. */
  lemma {:induction false} NeverCrashes(s: State, steps: seq<Step>, t: State)
    requires s.history != [] && Leads(s, steps, t) && AllCallable(s) && (s.lock.Catching? ==> s.lock.id < s.made)
    requires forall step | step in steps && step.Register? :: step.hasFunction
    ensures !t.crashed
    decreases |steps|
  {
    if steps != [] {
      assert steps[0] in steps;
      AllCallableStep(s, steps[0]);
      NeverCrashes(Apply(s, steps[0]), steps[1..], t);
    }
  }

  // ---------- Registrations that nothing interrupts ----------

  /** A registration that nothing interrupts: the new entry replaces the old one under its key, and the
      function gets a task when the network has one of the types, other than NO_NET, already. */
  ghost function Registered(s: State, key: Key, netTypes: set<NetType>, hasFunction: bool): State
    requires s.history != []
  {
    var t := Current(s);
    s.(callbacks := s.callbacks[key := Registration(s.made, netTypes, hasFunction)], made := s.made + 1,
       asked := s.asked[s.made := netTypes], callable := Callable(s.callable, s.made, hasFunction),
       pending := s.pending + if t in netTypes && t != NO_NET then multiset{Call(s.made, t, Period(s), false)}
                              else multiset{})
  }

  /** What the rest of a walk does when nothing interrupts it. */
  ghost function CaughtUp(s: State): State
    requires s.history != [] && s.lock.Catching?
  {
    var t := Current(s);
    s.(lock := Free,
       pending := s.pending + if t in s.lock.candidates && t != NO_NET
                              then multiset{Call(s.lock.id, t, Period(s), false)} else multiset{})
  }

  lemma CaughtUpStep(s: State)
    requires WellFormed(s) && Enabled(s, Test)
    ensures if IsNetAvailable(Current(s), s.lock.candidates[0]) then Apply(s, Test) == CaughtUp(s)
            else CaughtUp(Apply(s, Test)) == CaughtUp(s)
  {
    var head := s.lock.candidates[0];
    assert head in s.lock.candidates;
    assert s.lock.candidates == [head] + s.lock.candidates[1..];
    AvailableIsEqual(Current(s), head);
  }

  lemma {:induction false} TestsReach(s: State)
    requires Inv(s) && s.lock.Catching? && !s.crashed
    ensures Reaches(s, CaughtUp(s))
    decreases if s.lock.Catching? then |s.lock.candidates| else 0
  {
    if s.lock.candidates == [] {
      assert s.pending + multiset{} == s.pending;
      Here(CaughtUp(s));
      First(s, Release, CaughtUp(s));
    } else {
      CaughtUpStep(s);
      if IsNetAvailable(Current(s), s.lock.candidates[0]) {
        Here(CaughtUp(s));
      } else {
        TestKeeps(s);
        TestsReach(Apply(s, Test));
      }
      First(s, Test, CaughtUp(s));
    }
  }

  /** It is one of the runs of the protocol, in whatever order the types are walked. */
  lemma RegisteredIsReached(s: State, key: Key, walk: seq<NetType>, hasFunction: bool)
    requires Inv(s) && s.lock.Free? && IsWalk(walk) && !s.crashed
    ensures Reaches(s, Registered(s, key, Types(walk), hasFunction))
  {
    var step := Register(key, walk, hasFunction);
    RegisterKeeps(s, key, walk, hasFunction);
    TestsReach(Apply(s, step));
    First(s, step, Registered(s, key, Types(walk), hasFunction));
  }

  /** A registration without a function for the current type queues a task that crashes the process. */
  lemma NullCrashes(s: State, key: Key, walk: seq<NetType>)
    requires Reachable(s) && s.history != [] && !s.crashed && s.lock.Free? && IsWalk(walk)
    requires Current(s) in walk && Current(s) != NO_NET
    ensures var registered := Registered(s, key, Types(walk), false);
            var task := RunTask(Call(s.made, Current(s), Period(s), false));
            && Reaches(s, registered) && Enabled(registered, task) && Apply(registered, task).crashed
  {
    InvReachable(s);
    CallableReachable(s);
    RegisteredIsReached(s, key, walk, false);
  }

  lemma RegisteredKeeps(s: State, key: Key, walk: seq<NetType>, hasFunction: bool)
    requires Inv(s) && s.lock.Free? && IsWalk(walk) && !s.crashed
    ensures Inv(Registered(s, key, Types(walk), hasFunction))
  {
    RegisteredIsReached(s, key, walk, hasFunction);
    var t := Registered(s, key, Types(walk), hasFunction);
    var steps :| Leads(s, steps, t);
    LeadsKeeps(s, steps, t);
  }

  lemma Member<T>(s: set<T>) returns (x: T)
    requires s != {}
    ensures x in s
  {
    x :| x in s;
  }

  lemma {:induction false} WalkExists(types: set<NetType>) returns (walk: seq<NetType>)
    ensures types == Types(walk)
  {
    if types == {} {
      walk := [];
      assert Types([]) == {};
    } else {
      var t := Member(types);
      var rest := WalkExists(types - {t});
      walk := rest + [t];
      assert Types(walk) == Types(rest) + {t};
    }
  }

  lemma RegisteredIsValid(s: State, key: Key, netTypes: set<NetType>, hasFunction: bool)
    requires Inv(s) && s.lock.Free? && !s.crashed && netTypes != {} && forall t | t in netTypes :: IsBaseNetType(t)
    ensures Inv(Registered(s, key, netTypes, hasFunction)) && IsBaseNetType(Current(s))
  {
    var walk := WalkExists(netTypes);
    forall i | 0 <= i < |walk| ensures IsBaseNetType(walk[i]) {
      assert walk[i] in Types(walk);
    }
    RegisteredKeeps(s, key, walk, hasFunction);
  }

  lemma NewIdHasNoCalls(s: State, c: Call)
    requires Inv(s) && c.id == s.made
    ensures Calls(s)[c] == 0
  {
  }

  lemma ScanCallsOnce(s: State, key: Key, id: nat)
    requires WellFormed(s) && CallsOnce(s) && Enabled(s, Scan)
    requires key in s.callbacks && s.callbacks[key].id == id && Current(s) in s.callbacks[key].netTypes
    ensures Count(Calls(Apply(s, Scan)), id, Current(s), Period(s))
            == 1 + Calls(s)[Call(id, Current(s), Period(s), false)]
  {
    ScanAdds(s);
    assert Call(id, Current(s), Period(s), true) in ScanCalls(s);
    assert Call(id, Current(s), Period(s), false) !in ScanCalls(s);
  }

  lemma RegisteredCalls(s: State, key: Key, netTypes: set<NetType>)
    requires Inv(s) && Current(s) in netTypes && Current(s) != NO_NET
    ensures Calls(Registered(s, key, netTypes, true))[Call(s.made, Current(s), Period(s), false)] == 1
  {
    var catchUp := Call(s.made, Current(s), Period(s), false);
    NewIdHasNoCalls(s, catchUp);
    assert Calls(Registered(s, key, netTypes, true)) == Calls(s) + multiset{catchUp};
  }

  lemma ScanAfterRegistered(s: State, key: Key, netTypes: set<NetType>)
    requires s.history != [] && !s.crashed && s.scanDue && s.lock.Free? && NoNullFunction(s.callbacks, Current(s))
    ensures Enabled(Registered(s, key, netTypes, true), Scan)
  {
  }

  lemma WindowCounts(s: State, key: Key, netTypes: set<NetType>)
    requires Inv(s) && !s.crashed && s.scanDue && s.lock.Free? && Inv(Registered(s, key, netTypes, true))
    requires Current(s) in netTypes && Current(s) != NO_NET && NoNullFunction(s.callbacks, Current(s))
    ensures var registered := Registered(s, key, netTypes, true);
            && Enabled(registered, Scan)
            && Count(Calls(Apply(registered, Scan)), s.made, Current(s), Period(s)) == 2
  {
    ScanAfterRegistered(s, key, netTypes);
    RegisteredCalls(s, key, netTypes);
    ScanCallsOnce(Registered(s, key, netTypes, true), key, s.made);
  }

  /** A registration for the current type between the write and the scan is called twice for this change,
      whenever that happens in a run. */
  lemma TwiceInTheWindow(s: State, key: Key, walk: seq<NetType>)
    requires Reachable(s) && s.history != [] && !s.crashed && s.scanDue && s.lock.Free? && IsWalk(walk)
    requires Current(s) in walk && Current(s) != NO_NET && NoNullFunction(s.callbacks, Current(s))
    ensures var registered := Registered(s, key, Types(walk), true);
            && Reaches(s, registered) && Enabled(registered, Scan)
            && Count(Calls(Apply(registered, Scan)), s.made, Current(s), Period(s)) == 2
  {
    InvReachable(s);
    RegisteredIsReached(s, key, walk, true);
    RegisteredKeeps(s, key, walk, true);
    WindowCounts(s, key, Types(walk));
  }

  // ---------- The map of callbacks ----------

  ghost predicate IsAbout(step: Step, key: Key) {
    (step.Register? || step.Unregister?) && step.key == key
  }

  /** The last step of a run about a key, searched from the end. */
  ghost function LastAbout(steps: seq<Step>, key: Key): (i: int)
    ensures -1 <= i < |steps|
    ensures i >= 0 ==> IsAbout(steps[i], key)
    ensures forall j | i < j < |steps| :: !IsAbout(steps[j], key)
  {
    if steps == [] || IsAbout(steps[|steps| - 1], key) then |steps| - 1
    else LastAbout(steps[..|steps| - 1], key)
  }

  /** What is in the map under a key after a step about it. */
  ghost predicate Holds(s: State, key: Key, step: Step) {
    if step.Register? then
      && key in s.callbacks
      && s.callbacks[key].netTypes == Types(step.netTypes) && s.callbacks[key].hasFunction == step.hasFunction
    else key !in s.callbacks
  }

  lemma AboutStep(s: State, step: Step, key: Key)
    requires s.history != [] && Enabled(s, step)
    ensures if IsAbout(step, key) then Holds(Apply(s, step), key, step)
            else (key in Apply(s, step).callbacks <==> key in s.callbacks)
                 && (key in s.callbacks ==> Apply(s, step).callbacks[key] == s.callbacks[key])
  {
  }

  lemma {:induction false} SameWithout(s: State, steps: seq<Step>, t: State, key: Key)
    requires s.history != [] && Leads(s, steps, t) && forall step | step in steps :: !IsAbout(step, key)
    ensures key in t.callbacks <==> key in s.callbacks
    ensures key in s.callbacks ==> t.callbacks[key] == s.callbacks[key]
    decreases |steps|
  {
    if steps != [] {
      assert steps[0] in steps;
      AboutStep(s, steps[0], key);
      SameWithout(Apply(s, steps[0]), steps[1..], t, key);
    }
  }

  lemma {:induction false} CallbacksFrom(s: State, steps: seq<Step>, t: State, key: Key, i: nat)
    requires s.history != [] && Leads(s, steps, t) && i < |steps| && IsAbout(steps[i], key)
    requires forall j | i < j < |steps| :: !IsAbout(steps[j], key)
    ensures Holds(t, key, steps[i])
    decreases |steps|
  {
    var next := Apply(s, steps[0]);
    if i == 0 {
      AboutStep(s, steps[0], key);
      forall step | step in steps[1..] ensures !IsAbout(step, key) {
        var j :| 0 <= j < |steps[1..]| && steps[1..][j] == step;
        assert step == steps[j + 1];
      }
      SameWithout(next, steps[1..], t, key);
    } else {
      forall j | i - 1 < j < |steps[1..]| ensures !IsAbout(steps[1..][j], key) {
        assert steps[1..][j] == steps[j + 1];
      }
      CallbacksFrom(next, steps[1..], t, key, i - 1);
    }
  }

  /** In every run, whatever is interleaved, the map holds under each key what the last registration of the key asked
      for, if there was one and no unregister of the key has come after it. */
  lemma CallbacksAreLast(steps: seq<Step>, t: State, key: Key)
    requires Leads(INIT, steps, t)
    ensures var i := LastAbout(steps, key);
            if i < 0 then key !in t.callbacks else Holds(t, key, steps[i])
  {
    var i := LastAbout(steps, key);
    if i < 0 {
      forall step | step in steps ensures !IsAbout(step, key) {
        var j :| 0 <= j < |steps| && steps[j] == step;
      }
      SameWithout(INIT, steps, t, key);
    } else {
      CallbacksFrom(INIT, steps, t, key, i);
    }
  }

  // ---------- After an unregister ----------

  /** The registration is over: it is not in the map, and not on its way through RegisterCallback. */
  ghost predicate IsOver(s: State, id: nat) {
    && id < s.made && (forall k | k in s.callbacks :: s.callbacks[k].id != id)
    && !(s.lock.Catching? && s.lock.id == id)
  }

  lemma OverScan(s: State, id: nat)
    requires s.history != [] && IsOver(s, id) && Enabled(s, Scan)
    ensures forall c: Call | c.id == id :: Calls(Apply(s, Scan))[c] == Calls(s)[c]
  {
    assert Calls(Apply(s, Scan)) == Calls(s) + multiset(ScanCalls(s));
  }

  lemma OverStep(s: State, step: Step, id: nat)
    requires s.history != [] && IsOver(s, id) && Enabled(s, step)
    ensures IsOver(Apply(s, step), id)
    ensures forall c: Call | c.id == id :: Calls(Apply(s, step))[c] == Calls(s)[c]
  {
    if step.Scan? {
      OverScan(s, id);
    }
  }

  /** An unregister ends the registration under its key, and so does the next registration of the key; nobody
      else's is touched. */
  lemma UnregisterEnds(s: State, step: Step, key: Key)
    requires Reachable(s) && s.history != [] && Enabled(s, step) && IsAbout(step, key) && key in s.callbacks
    ensures IsOver(Apply(s, step), s.callbacks[key].id)
    ensures forall k | k in s.callbacks && k != key ::
              k in Apply(s, step).callbacks && Apply(s, step).callbacks[k] == s.callbacks[k]
  {
    InvReachable(s);
    CallableReachable(s);
  }

  /** Nothing more is asked of it. */
  lemma {:induction false} OverForGood(s: State, steps: seq<Step>, t: State, id: nat)
    requires s.history != [] && IsOver(s, id) && Leads(s, steps, t)
    ensures forall c: Call | c.id == id :: Calls(t)[c] == Calls(s)[c]
    decreases |steps|
  {
    if steps != [] {
      OverStep(s, steps[0], id);
      OverForGood(Apply(s, steps[0]), steps[1..], t, id);
    }
  }

  ghost predicate CalledLater(m: State, id: nat)
    requires m.history != []
  {
    exists steps, t, c: Call :: Leads(m, steps, t) && c.id == id && t.done[c] > m.done[c]
  }

  lemma QueuedIsCalled(m: State, c: Call)
    requires m.history != [] && !m.crashed && c in m.pending && c.id in m.callable
    ensures CalledLater(m, c.id)
  {
    var t := Apply(m, RunTask(c));
    assert [RunTask(c)][1..] == [];
    assert Leads(t, [], t);
    assert Leads(m, [RunTask(c)], t);
    assert t.done[c] > m.done[c];
  }

  lemma CalledWasQueued(m: State, steps: seq<Step>, t: State, c: Call)
    requires Reachable(m) && m.history != [] && IsOver(m, c.id) && Leads(m, steps, t) && t.done[c] > m.done[c]
    ensures c in m.pending && c.id in m.callable
  {
    OverForGood(m, steps, t, c.id);
    assert Calls(t)[c] == Calls(m)[c];
    CallableReachable(m);
    CallableKept(m, steps, t);
    CallableStays(m, steps, t);
    assert c in t.done;
  }

  /** After its unregister, or after another registration has replaced it, a function can still be called exactly
      when one of its catch-up tasks is queued at that moment. */
  lemma CalledAfterUnregisterIff(m: State, id: nat)
    requires Reachable(m) && m.history != [] && !m.crashed && IsOver(m, id)
    ensures CalledLater(m, id) <==> id in m.callable && exists c :: c in m.pending && c.id == id
  {
    if CalledLater(m, id) {
      var steps, t, c: Call :| Leads(m, steps, t) && c.id == id && t.done[c] > m.done[c];
      CalledWasQueued(m, steps, t, c);
    }
    if id in m.callable && exists c :: c in m.pending && c.id == id {
      var c :| c in m.pending && c.id == id;
      QueuedIsCalled(m, c);
    }
  }

  // ---------- When the scan ends ----------

  predicate Blocks(r: Registration, t: NetType) {
    t in r.netTypes && !r.hasFunction
  }

  /** The iterator of the scan after n rounds: it stays where it is at a matching null function. */
  function Position(entries: seq<Registration>, t: NetType, n: nat): (p: nat)
    ensures p <= |entries|
  {
    if n == 0 then 0
    else
      var p := Position(entries, t, n - 1);
      if p == |entries| || Blocks(entries[p], t) then p else p + 1
  }

  lemma {:induction false} StaysBefore(entries: seq<Registration>, t: NetType, i: nat, n: nat)
    requires i < |entries| && Blocks(entries[i], t)
    ensures Position(entries, t, n) <= i
  {
    if n > 0 {
      StaysBefore(entries, t, i, n - 1);
    }
  }

  lemma {:induction false} MovesOn(entries: seq<Registration>, t: NetType, n: nat)
    requires n <= |entries| && forall i | 0 <= i < |entries| :: !Blocks(entries[i], t)
    ensures Position(entries, t, n) == n
  {
    if n > 0 {
      MovesOn(entries, t, n - 1);
    }
  }

  /** The scan ends exactly when no matching function is null, and then after one round per entry. */
  lemma ScanEnds(entries: seq<Registration>, t: NetType)
    ensures (exists n: nat :: Position(entries, t, n) == |entries|)
            <==> forall i | 0 <= i < |entries| :: !Blocks(entries[i], t)
    ensures (forall i | 0 <= i < |entries| :: !Blocks(entries[i], t)) ==> Position(entries, t, |entries|) == |entries|
  {
    if i :| 0 <= i < |entries| && Blocks(entries[i], t) {
      forall n: nat ensures Position(entries, t, n) <= i {
        StaysBefore(entries, t, i, n);
      }
    } else {
      MovesOn(entries, t, |entries|);
    }
  }

  // ---------- The code ----------

  ghost function ScanOf(s: State, keys: set<Key>): set<Call>
    requires s.history != [] && keys <= s.callbacks.Keys
  {
    set k | k in keys && Current(s) in s.callbacks[k].netTypes ::
      Call(s.callbacks[k].id, Current(s), Period(s), true)
  }

  /** What the scan calls for one entry. */
  function EntryCalls(r: Registration, t: NetType, period: nat): multiset<Call> {
    if t in r.netTypes then multiset{Call(r.id, t, period, true)} else multiset{}
  }

  lemma ScanOfOne(s: State, keys: set<Key>, k: Key)
    requires s.history != [] && DistinctIds(s.callbacks) && keys <= s.callbacks.Keys && k in s.callbacks && k !in keys
    ensures multiset(ScanOf(s, keys + {k}))
            == multiset(ScanOf(s, keys)) + EntryCalls(s.callbacks[k], Current(s), Period(s))
  {
    var call := Call(s.callbacks[k].id, Current(s), Period(s), true);
    assert call !in ScanOf(s, keys);
    assert ScanOf(s, keys + {k}) == ScanOf(s, keys) + if Current(s) in s.callbacks[k].netTypes then {call} else {};
  }

  /** NetManager between calls that do not overlap. */
  class NetManager {
    /** netType_ and the values that it has had */
    var netType: NetType
    var history: seq<NetType>
    /** netChangeCallbackMap_ */
    var callbacks: map<Key, Registration>
    var asked: map<nat, set<NetType>>
    var callable: set<nat>
    var made: nat
    /** The tasks in onNetChangeQueue_, and the calls made so far. */
    var pending: multiset<Call>
    var done: multiset<Call>

    ghost function View(): State
      reads this
    {
      State(history, false, Free, callbacks, made, asked, callable, pending, done, false)
    }

    ghost predicate Valid()
      reads this
    {
      Inv(View()) && netType == Current(View())
    }

    constructor ()
      ensures Valid() && View() == INIT
    {
      netType, callbacks, pending, done, made := NO_NET, map[], multiset{}, multiset{}, 0;
      history, asked, callable := [NO_NET], map[], {};
    }

    /** The test of all types that comes first. */
    static method AllBase(netTypes: set<NetType>) returns (ok: bool)
      ensures ok <==> forall t | t in netTypes :: IsBaseNetType(t)
    {
      var rest := netTypes;
      while rest != {}
        invariant rest <= netTypes
        invariant forall t | t in netTypes && t !in rest :: IsBaseNetType(t)
        decreases rest
      {
        ghost var _ := Member(rest);
        var t :| t in rest;
        if !IsBaseNetType(t) {
          return false;
        }
        rest := rest - {t};
      }
      return true;
    }

    /** The loop of the catch-up, which ends with the first type that is there. */
    method CatchUp(id: nat, netTypes: set<NetType>)
      requires IsBaseNetType(netType) && history != [] && forall t | t in netTypes :: IsBaseNetType(t)
      modifies this`pending
      ensures pending == old(pending) + if netType in netTypes && netType != NO_NET
                                        then multiset{Call(id, netType, |history| - 1, false)} else multiset{}
    {
      var rest := netTypes;
      while rest != {}
        invariant rest <= netTypes && pending == old(pending)
        invariant netType in netTypes && netType != NO_NET ==> netType in rest
        decreases rest
      {
        ghost var _ := Member(rest);
        var t :| t in rest;
        AvailableIsEqual(netType, t);
        if IsNetAvailable(netType, t) {
          pending := pending + multiset{Call(id, t, |history| - 1, false)};
          return;
        }
        rest := rest - {t};
      }
      assert pending == old(pending) + multiset{};
    }

    method RegisterCallback(key: Key, netTypes: set<NetType>, hasFunction: bool) returns (ok: bool)
      requires Valid()
      modifies this
      ensures Valid()
      ensures ok <==> netTypes != {} && forall t | t in netTypes :: IsBaseNetType(t)
      ensures View() == if ok then Registered(old(View()), key, netTypes, hasFunction) else old(View())
      ensures ok ==> callbacks == old(callbacks)[key := Registration(old(made), netTypes, hasFunction)]
    {
      if netTypes == {} {
        return false;
      }
      ok := AllBase(netTypes);
      if !ok {
        return false;
      }
      RegisteredIsValid(View(), key, netTypes, hasFunction);
      Register(key, netTypes, hasFunction);
    }

    /** The part under the lock. */
    method Register(key: Key, netTypes: set<NetType>, hasFunction: bool)
      requires history != [] && netType == Current(View()) && IsBaseNetType(netType)
      requires forall t | t in netTypes :: IsBaseNetType(t)
      modifies this`callbacks, this`asked, this`callable, this`made, this`pending
      ensures View() == Registered(old(View()), key, netTypes, hasFunction)
    {
      var id := made;
      callbacks, asked := callbacks[key := Registration(made, netTypes, hasFunction)], asked[made := netTypes];
      callable, made := Callable(callable, made, hasFunction), made + 1;
      CatchUp(id, netTypes);
    }

    method UnregisterCallback(key: Key)
      requires Valid()
      modifies this`callbacks
      ensures Valid() && View() == Apply(old(View()), Unregister(key))
      ensures callbacks == old(callbacks) - {key}
    {
      UnregisterKeeps(View(), key);
      callbacks := callbacks - {key};
    }

    /** A change to another base type is a Change and a Scan; anything else leaves everything as it is. ended is
        false when the scan goes on forever: then it has written the type and called some of the callbacks. */
    method OnNetChange(t: NetType) returns (ok: bool, ended: bool)
      requires Valid()
      modifies this
      ensures ok == IsBaseNetType(t)
      ensures ended <==> !IsBaseNetType(t) || t == old(netType) || NoNullFunction(callbacks, t)
      ensures ended ==> Valid()
      ensures IsBaseNetType(t) && t != old(netType)
              ==> var written := Apply(old(View()), Change(t));
                  if ended then Enabled(written, Scan) && View() == Apply(written, Scan)
                  else View() == written.(scanDue := false, done := done)
                       && exists seen | seen <= callbacks.Keys :: done == old(done) + multiset(ScanOf(written, seen))
      ensures !IsBaseNetType(t) || t == old(netType) ==> View() == old(View())
    {
      if !IsBaseNetType(t) {
        return false, true;
      }
      if t == netType {
        return true, true;
      }
      ChangeKeeps(View(), t);
      if NoNull(t) {
        ScanKeeps(Apply(View(), Change(t)));
      }
      ended := Notify(t);
      return true, ended;
    }

    ghost predicate NoNull(t: NetType)
      reads this
    {
      NoNullFunction(callbacks, t)
    }

    /** The write and the scan. */
    method Notify(t: NetType) returns (ended: bool)
      requires history != [] && IsBaseNetType(t) && t != Current(View()) && DistinctIds(callbacks)
      modifies this`netType, this`history, this`done
      ensures netType == t && ended == NoNull(t)
      ensures var written := Apply(old(View()), Change(t));
              if ended then View() == Apply(written, Scan)
              else View() == written.(scanDue := false, done := done)
                   && exists seen | seen <= callbacks.Keys :: done == old(done) + multiset(ScanOf(written, seen))
    {
      netType := t;
      history := history + [t];
      ended := ScanCallbacks(t, View().(scanDue := true));
    }

    /** The loop of the scan, up to a matching null function. */
    method ScanCallbacks(t: NetType, ghost written: State) returns (ended: bool)
      requires written.callbacks == callbacks && DistinctIds(callbacks)
      requires written.history == history && history != [] && t == Current(written)
      modifies this`done
      ensures ended == NoNull(t)
      ensures ended ==> done == old(done) + multiset(ScanCalls(written))
      ensures exists seen | seen <= callbacks.Keys :: done == old(done) + multiset(ScanOf(written, seen))
    {
      var rest := callbacks.Keys;
      ghost var seen: set<Key> := {};
      while rest != {}
        invariant seen + rest == callbacks.Keys && seen !! rest
        invariant forall k | k in seen && t in callbacks[k].netTypes :: callbacks[k].hasFunction
        invariant done == old(done) + multiset(ScanOf(written, seen))
        decreases rest
      {
        ghost var _ := Member(rest);
        var k :| k in rest;
        if Blocks(callbacks[k], t) {
          return false;
        }
        CallOne(k, t, written, seen, old(done));
        rest, seen := rest - {k}, seen + {k};
      }
      assert seen == callbacks.Keys;
      assert ScanOf(written, seen) == ScanCalls(written);
      return true;
    }

    /** One round of that loop. */
    method CallOne(k: Key, t: NetType, ghost written: State, ghost seen: set<Key>, ghost before: multiset<Call>)
      requires written.callbacks == callbacks && DistinctIds(callbacks)
      requires written.history == history && history != [] && t == Current(written)
      requires k in callbacks && k !in seen && seen <= callbacks.Keys
      requires done == before + multiset(ScanOf(written, seen))
      modifies this`done
      ensures done == before + multiset(ScanOf(written, seen + {k}))
    {
      ScanOfOne(written, seen, k);
      if t in callbacks[k].netTypes {
        done := done + multiset{Call(callbacks[k].id, t, |history| - 1, true)};
      }
    }
  }
}
