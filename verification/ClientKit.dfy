/** The callback registration protocol of the client kit
    (interfaces/inner_api/engine/src/update_service_kits_impl.cpp and
    foundations/ability/sa_loader/include/base_service_kits_impl.h) as a transition system: any number
    of client threads, a service process that may die and be started again at any moment, death notices
    that may come late and more than once, and calls over IPC that fail exactly when the handle is not
    the live incarnation. A step is what one thread does between two points where the outside world
    can act; the recursive lock is free or held at a program point. */
module ClientKit {
  import opened Common

  type Key = nat      // UpgradeInfo
  type Callback = nat // sptr<IUpdateCallback>
  type Handle = nat   // the number of a service incarnation

  const RETRY_MAX_TIMES := 3

  /** Who holds remoteServerLock_, and where in the code. */
  datatype Holder =
    | Free
    | Registering(key: Key, cb: Callback, handle: Handle) // RegisterUpdateCallback before its call
    | Storing(key: Key, cb: Callback, ok: bool)           // ... before the store into the map
    | Unregistering(key: Key, handle: Handle)             // UnregisterUpdateCallback before its call
    | Settling(ok: bool)                                  // ... before ResetRemoteService on failure
    | Connecting(todo: set<Key>, resume: bool)            // GetService inside RegisterCallback's loop
    | Resuming                                            // ResetService before retryTimes_++

  /** live, started and registry are the service side: the live incarnation, the number of incarnations
      so far, and the callback map of the live one. ours are the keys that this client uses. linked are
      the incarnations that carry a death recipient of this client. resumes counts the threads between
      the two halves of ResetService. */
  datatype State = State(
    live: Option<Handle>, started: nat, registry: map<Key, Callback>,
    remote: Option<Handle>, callbacks: map<Key, Callback>, retries: nat,
    handles: set<Handle>, linked: set<Handle>, resumes: nat, ours: set<Key>, holder: Holder)

  datatype Step =
    | Die
    | Start
    | OtherClient(key: Key, entry: Option<Callback>)    // another client registers or unregisters
    | UseService                                        // GetService returns the cached handle
    | Connect(found: Handle, linked: bool)              // GetService connects to what samgr returned
    | CastFails(found: Handle, linked: bool)
    | ConnectOne(key: Key)
    | ConnectDone
    | BeginRegister(key: Key, cb: Callback, handle: Handle)
    | RegisterIpc
    | Store
    | BeginUnregister(key: Key, handle: Handle)         // lock and erase
    | UnregisterIpc
    | Settle
    | FailedCall                                        // any other call that ends in ResetRemoteService
    | DeathNotice(dead: Handle)                         // first half of ResetService
    | ResumeSkip                                        // second half, nothing to do
    | ResumeUse                                         // second half, GetService has a handle
    | ResumeConnect(found: Handle, linked: bool)        // second half, GetService connects
    | ResumeFails(attached: Option<Handle>)             // second half, GetService returns null
    | ResumeDone

  ghost predicate WantsResume(s: State) {
    s.callbacks != map[] && s.retries < RETRY_MAX_TIMES
  }

  ghost predicate Enabled(s: State, step: Step) {
    match step
    case Die => s.live.Some?
    case Start => s.live.None?
    case OtherClient(key, _) => s.live.Some? && key !in s.ours
    case UseService => s.holder.Free? && s.remote.Some?
    case Connect(found, _) => s.holder.Free? && s.remote.None? && found < s.started
    case CastFails(found, _) => s.holder.Free? && s.remote.None? && found < s.started
    case ConnectOne(key) => s.holder.Connecting? && s.remote.Some? && key in s.holder.todo && key in s.callbacks
    case ConnectDone => s.holder.Connecting? && s.remote.Some? && s.holder.todo == {}
    case BeginRegister(key, _, handle) => s.holder.Free? && handle in s.handles && key in s.ours
    case RegisterIpc => s.holder.Registering?
    case Store => s.holder.Storing?
    case BeginUnregister(key, handle) => s.holder.Free? && handle in s.handles && key in s.ours
    case UnregisterIpc => s.holder.Unregistering?
    case Settle => s.holder.Settling?
    case FailedCall => s.holder.Free?
    case DeathNotice(dead) => s.holder.Free? && dead in s.linked && s.live != Some(dead)
    case ResumeSkip => s.holder.Free? && s.resumes > 0 && !WantsResume(s)
    case ResumeUse => s.holder.Free? && s.resumes > 0 && WantsResume(s) && s.remote.Some?
    case ResumeConnect(found, _) =>
      s.holder.Free? && s.resumes > 0 && WantsResume(s) && s.remote.None? && found < s.started
    case ResumeFails(attached) =>
      s.holder.Free? && s.resumes > 0 && WantsResume(s) && s.remote.None?
    case ResumeDone => s.holder.Resuming?
  }

  ghost function Link(s: State, found: Handle, linked: bool): State {
    if linked then s.(linked := s.linked + {found}) else s
  }

  ghost function Apply(s: State, step: Step): State
    requires Enabled(s, step)
  {
    match step
    case Die => s.(live := None, registry := map[])
    case Start => s.(live := Some(s.started), started := s.started + 1, registry := map[])
    case OtherClient(key, entry) =>
      s.(registry := if entry.Some? then s.registry[key := entry.value] else s.registry - {key})
    case UseService => s.(handles := s.handles + {s.remote.value})
    case Connect(found, linked) =>
      Link(s, found, linked).(remote := Some(found), holder := Connecting(s.callbacks.Keys, false))
    case CastFails(found, linked) => Link(s, found, linked)
    case ConnectOne(key) =>
      s.(registry := if s.live == s.remote then s.registry[key := s.callbacks[key]] else s.registry,
         holder := s.holder.(todo := s.holder.todo - {key}))
    case ConnectDone =>
      s.(handles := s.handles + {s.remote.value}, holder := if s.holder.resume then Resuming else Free)
    case BeginRegister(key, cb, handle) => s.(holder := Registering(key, cb, handle))
    case RegisterIpc =>
      var ok := s.live == Some(s.holder.handle);
      s.(registry := if ok then s.registry[s.holder.key := s.holder.cb] else s.registry,
         holder := Storing(s.holder.key, s.holder.cb, ok))
    case Store =>
      s.(callbacks := s.callbacks[s.holder.key := s.holder.cb], holder := Settling(s.holder.ok))
    case BeginUnregister(key, handle) =>
      s.(callbacks := s.callbacks - {key}, holder := Unregistering(key, handle))
    case UnregisterIpc =>
      var ok := s.live == Some(s.holder.handle);
      s.(registry := if ok then s.registry - {s.holder.key} else s.registry, holder := Settling(ok))
    case Settle => s.(remote := if s.holder.ok then s.remote else None, holder := Free)
    case FailedCall => s.(remote := None)
    case DeathNotice(_) => s.(remote := None, resumes := s.resumes + 1)
    case ResumeSkip => s.(resumes := s.resumes - 1)
    case ResumeUse => s.(resumes := s.resumes - 1, holder := Resuming)
    case ResumeConnect(found, linked) =>
      Link(s, found, linked).(remote := Some(found), resumes := s.resumes - 1,
                              holder := Connecting(s.callbacks.Keys, true))
    case ResumeFails(attached) =>
      s.(linked := s.linked + if attached.Some? then {attached.value} else {},
         resumes := s.resumes - 1, holder := Resuming)
    case ResumeDone => s.(retries := s.retries + 1, holder := Free)
  }

  ghost predicate Init(s: State) {
    && s.live.None? && s.started == 0 && s.registry == map[]
    && s.remote.None? && s.callbacks == map[] && s.retries == 0
    && s.handles == {} && s.linked == {} && s.resumes == 0 && s.holder.Free?
  }

  /** From s, the steps are enabled one after the other and end in t. */
  ghost predicate Leads(s: State, steps: seq<Step>, t: State)
    decreases |steps|
  {
    if steps == [] then s == t else Enabled(s, steps[0]) && Leads(Apply(s, steps[0]), steps[1..], t)
  }

  ghost predicate Run(s: State, steps: seq<Step>, t: State) {
    Init(s) && Leads(s, steps, t)
  }

  ghost predicate IsReconnect(step: Step) {
    step.ResumeUse? || step.ResumeConnect? || step.ResumeFails?
  }

  ghost function Reconnects(steps: seq<Step>): nat {
    if steps == [] then 0 else (if IsReconnect(steps[0]) then 1 else 0) + Reconnects(steps[1..])
  }

  // ---------- The invariant ----------

  /** The live server has key with the callback that the client map has. */
  ghost predicate Registered(s: State, key: Key) {
    key in s.callbacks && key in s.registry && s.registry[key] == s.callbacks[key]
  }

  /** What the code that holds the lock is about to put right. */
  ghost predicate InHand(s: State, key: Key) {
    match s.holder
    case Connecting(todo, _) => key in todo
    case Storing(k, _, ok) => ok && key == k
    case Settling(ok) => !ok
    case _ => false
  }

  ghost predicate Connected(s: State) {
    s.remote.Some? && s.remote == s.live
  }

  ghost predicate Bounded(s: State) {
    && (s.live.Some? ==> s.live.value < s.started)
    && (s.remote.Some? ==> s.remote.value < s.started)
    && (forall h | h in s.handles :: h < s.started)
    && s.callbacks.Keys <= s.ours
    && (s.holder.Connecting? ==> s.remote.Some? && s.holder.todo <= s.callbacks.Keys)
    && (s.holder.Registering? || s.holder.Storing? || s.holder.Unregistering? ==> s.holder.key in s.ours)
    && (s.holder.Registering? || s.holder.Unregistering? ==> s.holder.handle < s.started)
    && (s.holder.Unregistering? ==> s.holder.key !in s.callbacks)
  }

  ghost predicate Synced(s: State) {
    Connected(s) ==>
      && (forall key | key in s.callbacks :: InHand(s, key) || Registered(s, key))
      && (s.holder.Storing? && s.holder.ok ==>
            s.holder.key in s.registry && s.registry[s.holder.key] == s.holder.cb)
  }

  ghost predicate Counted(s: State, reconnects: nat) {
    && reconnects == s.retries
                     + (if s.holder.Resuming? || (s.holder.Connecting? && s.holder.resume) then 1 else 0)
    && reconnects <= RETRY_MAX_TIMES
  }

  lemma BoundedStep(s: State, step: Step)
    requires Bounded(s) && Enabled(s, step)
    ensures Bounded(Apply(s, step))
  {
  }

  lemma SyncedStep(s: State, step: Step)
    requires Bounded(s) && Synced(s) && Enabled(s, step)
    ensures Synced(Apply(s, step))
  {
    var t := Apply(s, step);
    if Connected(t) {
      forall key | key in t.callbacks ensures InHand(t, key) || Registered(t, key) {
        if Connected(s) && key in s.callbacks {
          assert InHand(s, key) || Registered(s, key);
        }
      }
    }
  }

  lemma CountedStep(s: State, step: Step, reconnects: nat)
    requires Counted(s, reconnects) && Enabled(s, step)
    ensures Counted(Apply(s, step), reconnects + if IsReconnect(step) then 1 else 0)
  {
  }

  lemma {:induction false} LeadsKeeps(s: State, steps: seq<Step>, t: State, reconnects: nat)
    requires Leads(s, steps, t) && Bounded(s) && Synced(s) && Counted(s, reconnects)
    ensures Bounded(t) && Synced(t) && Counted(t, reconnects + Reconnects(steps))
    decreases |steps|
  {
    if steps != [] {
      BoundedStep(s, steps[0]);
      SyncedStep(s, steps[0]);
      CountedStep(s, steps[0], reconnects);
      LeadsKeeps(Apply(s, steps[0]), steps[1..], t, reconnects + if IsReconnect(steps[0]) then 1 else 0);
    }
  }

  // ---------- Main results ----------

  /** Reconnect convergence: in every interleaving, whenever the lock is free and the kit's handle is the
      live incarnation, every entry of the client map is registered there with the same callback. */
  lemma Convergence(s: State, steps: seq<Step>, t: State)
    requires Run(s, steps, t)
    ensures t.holder.Free? && t.remote.Some? && t.remote == t.live
            ==> forall key | key in t.callbacks :: key in t.registry && t.registry[key] == t.callbacks[key]
  {
    LeadsKeeps(s, steps, t, 0);
    if t.holder.Free? && Connected(t) {
      forall key | key in t.callbacks ensures Registered(t, key) {
        assert !InHand(t, key);
      }
    }
  }

  /** However often the service dies, deaths make the kit reconnect at most three times in a run. */
  lemma ReconnectsBounded(s: State, steps: seq<Step>, t: State)
    requires Run(s, steps, t)
    ensures Reconnects(steps) <= RETRY_MAX_TIMES && t.retries <= Reconnects(steps)
  {
    LeadsKeeps(s, steps, t, 0);
  }

  // ---------- Death notices ----------

  /** The step leaves a death recipient with incarnation h. */
  ghost predicate Links(step: Step, h: Handle) {
    || step == Connect(h, true) || step == CastFails(h, true)
    || step == ResumeConnect(h, true) || step == ResumeFails(Some(h))
  }

  ghost predicate Linking(steps: seq<Step>, h: Handle) {
    exists i | 0 <= i < |steps| :: Links(steps[i], h)
  }

  lemma {:induction false} LinkedIff(s: State, steps: seq<Step>, t: State, h: Handle)
    requires Leads(s, steps, t)
    ensures h in t.linked <==> h in s.linked || Linking(steps, h)
    decreases |steps|
  {
    if steps != [] {
      LinkedIff(Apply(s, steps[0]), steps[1..], t, h);
      assert steps == [steps[0]] + steps[1..];
      if Linking(steps[1..], h) {
        var i :| 0 <= i < |steps[1..]| && Links(steps[1..][i], h);
        assert Links(steps[i + 1], h);
      }
      assert forall i | 0 < i < |steps| :: steps[i] == steps[1..][i - 1];
    }
  }

  /** In every run, the incarnations that give a death notice are those that were linked at some time and are not
      the live one; one that was linked gives it at any later moment, whenever the lock is free. */
  lemma DeathIsNoticed(s: State, steps: seq<Step>, t: State, h: Handle)
    requires Run(s, steps, t)
    ensures Enabled(t, DeathNotice(h)) <==> t.holder.Free? && t.live != Some(h) && Linking(steps, h)
  {
    LinkedIff(s, steps, t, h);
  }

  /** A failed call and a death notice drop the handle, a connect sets it, and nothing else changes it. */
  lemma HandleChanges(s: State, step: Step)
    requires Enabled(s, step)
    ensures Apply(s, step).remote
            == match step
               case Connect(found, _) => Some(found)
               case ResumeConnect(found, _) => Some(found)
               case FailedCall => None
               case DeathNotice(_) => None
               case Settle => if s.holder.ok then s.remote else None
               case _ => s.remote
  {
  }

  function Notices(steps: seq<Step>): nat {
    if steps == [] then 0 else (if steps[0].DeathNotice? then 1 else 0) + Notices(steps[1..])
  }

  ghost predicate IsSecondHalf(step: Step) {
    step.ResumeSkip? || IsReconnect(step)
  }

  ghost function SecondHalves(steps: seq<Step>): nat {
    if steps == [] then 0 else (if IsSecondHalf(steps[0]) then 1 else 0) + SecondHalves(steps[1..])
  }

  /** Each notice runs the second half of ResetService once. */
  lemma {:induction false} ResumedOnce(s: State, steps: seq<Step>, t: State)
    requires Leads(s, steps, t)
    ensures t.resumes + SecondHalves(steps) == s.resumes + Notices(steps)
    decreases |steps|
  {
    if steps != [] {
      ResumedOnce(Apply(s, steps[0]), steps[1..], t);
    }
  }

  /** A notice drops the handle, and with callbacks and retries left it makes the kit reconnect: the next step of
      the thread is to connect, and then every callback is sent again. */
  lemma NoticeReconnects(s: State, h: Handle, found: Handle, linked: bool)
    requires Enabled(s, DeathNotice(h)) && WantsResume(s) && found < s.started
    ensures var t := Apply(s, DeathNotice(h));
            && t.remote.None? && Enabled(t, ResumeConnect(found, linked))
            && var u := Apply(t, ResumeConnect(found, linked));
               u.remote == Some(found) && u.holder == Connecting(s.callbacks.Keys, true)
  {
  }

  // ---------- When containment is equality ----------

  /** The keys that the live server keeps although the kit has dropped them. A key becomes stale when an
      unregister meets a dead handle while the live server has it, and is so no more after a successful
      registration, a reconnect or an unregister of the key, or the death of the server. */
  ghost function NextStale(s: State, step: Step, stale: set<Key>): set<Key>
    requires Enabled(s, step)
  {
    match step
    case Die => {}
    case RegisterIpc => if s.live == Some(s.holder.handle) then stale - {s.holder.key} else stale
    case ConnectOne(key) => if s.live == s.remote then stale - {key} else stale
    case UnregisterIpc =>
      if s.live == Some(s.holder.handle) then stale - {s.holder.key}
      else if s.holder.key in s.registry then stale + {s.holder.key} else stale
    case _ => stale
  }

  ghost function StaleAfter(s: State, steps: seq<Step>, stale: set<Key>): set<Key>
    decreases |steps|
  {
    if steps == [] || !Enabled(s, steps[0]) then stale
    else StaleAfter(Apply(s, steps[0]), steps[1..], NextStale(s, steps[0], stale))
  }

  /** The thread that holds the lock is about to store or has just erased the key. */
  ghost predicate InFlight(s: State, key: Key) {
    (s.holder.Storing? || s.holder.Unregistering?) && s.holder.key == key
  }

  /** Stale keys are entries of this client at the live server, and with the entries of the client map they are
      all that this client has there. */
  ghost predicate StaleCovers(s: State, stale: set<Key>) {
    && stale <= s.ours && stale <= s.registry.Keys
    && (s.live.None? ==> s.registry == map[])
    && (forall k | k in s.registry && k in s.ours :: k in s.callbacks || k in stale || InFlight(s, k))
  }

  /** A connected kit has not dropped what is not stale. */
  ghost predicate StaleDropped(s: State, stale: set<Key>) {
    && (s.holder.Storing? && s.holder.ok ==> s.holder.key !in stale)
    && (Connected(s) ==> forall k | k in stale && k in s.callbacks :: InHand(s, k))
  }

  lemma StaleCoversStep(s: State, step: Step, stale: set<Key>)
    requires Bounded(s) && StaleCovers(s, stale) && Enabled(s, step)
    ensures StaleCovers(Apply(s, step), NextStale(s, step, stale))
  {
  }

  lemma StaleDroppedStep(s: State, step: Step, stale: set<Key>)
    requires Bounded(s) && StaleCovers(s, stale) && StaleDropped(s, stale) && Enabled(s, step)
    ensures StaleDropped(Apply(s, step), NextStale(s, step, stale))
  {
  }

  lemma {:induction false} StaleOverRuns(s: State, steps: seq<Step>, t: State, stale: set<Key>)
    requires Leads(s, steps, t) && Bounded(s) && StaleCovers(s, stale) && StaleDropped(s, stale)
    ensures StaleCovers(t, StaleAfter(s, steps, stale)) && StaleDropped(t, StaleAfter(s, steps, stale))
    decreases |steps|
  {
    if steps != [] {
      BoundedStep(s, steps[0]);
      StaleCoversStep(s, steps[0], stale);
      StaleDroppedStep(s, steps[0], stale);
      StaleOverRuns(Apply(s, steps[0]), steps[1..], t, NextStale(s, steps[0], stale));
    }
  }

  ghost predicate NothingExtra(s: State) {
    forall k | k in s.registry && k in s.ours :: k in s.callbacks
  }

  /** In every run that ends with the lock free and the kit connected, the live server has no entry of this
      client besides those of the client map, if and only if no key is stale. */
  lemma ContainmentIsEqualityIff(s: State, steps: seq<Step>, t: State)
    requires Run(s, steps, t) && t.holder.Free? && Connected(t)
    ensures NothingExtra(t) <==> StaleAfter(s, steps, {}) == {}
  {
    StaleOverRuns(s, steps, t, {});
    var stale := StaleAfter(s, steps, {});
    if k :| k in stale {
      assert k in t.registry && k in t.ours && k !in t.callbacks;
    }
  }

  /** Some unregister was sent to a handle that is not the live incarnation. */
  ghost predicate MetDeadHandle(s: State, steps: seq<Step>)
    decreases |steps|
  {
    steps != [] && Enabled(s, steps[0])
    && ((steps[0].UnregisterIpc? && s.live != Some(s.holder.handle)) || MetDeadHandle(Apply(s, steps[0]), steps[1..]))
  }

  lemma {:induction false} NoneStale(s: State, steps: seq<Step>)
    requires !MetDeadHandle(s, steps)
    ensures StaleAfter(s, steps, {}) == {}
    decreases |steps|
  {
    if steps != [] && Enabled(s, steps[0]) {
      assert NextStale(s, steps[0], {}) == {};
      NoneStale(Apply(s, steps[0]), steps[1..]);
    }
  }

  /** So, when no unregister met a dead handle, what the live server has of this client is the client map. */
  lemma Equality(s: State, steps: seq<Step>, t: State)
    requires Run(s, steps, t) && t.holder.Free? && Connected(t) && !MetDeadHandle(s, steps)
    ensures (map k | k in t.registry && k in t.ours :: t.registry[k]) == t.callbacks
  {
    NoneStale(s, steps);
    ContainmentIsEqualityIff(s, steps, t);
    Convergence(s, steps, t);
    LeadsKeeps(s, steps, t, 0);
  }

  lemma {:induction false} LeadsTrans(s: State, a: seq<Step>, t: State, b: seq<Step>, u: State)
    requires Leads(s, a, t) && Leads(t, b, u)
    ensures Leads(s, a + b, u)
    decreases |a|
  {
    if a == [] {
      assert a + b == b;
    } else {
      assert (a + b)[0] == a[0] && (a + b)[1..] == a[1..] + b;
      LeadsTrans(Apply(s, a[0]), a[1..], t, b, u);
    }
  }

  lemma Extend(s: State, steps: seq<Step>, t: State, step: Step) returns (longer: seq<Step>, u: State)
    requires Leads(s, steps, t) && Enabled(t, step)
    ensures longer == steps + [step] && u == Apply(t, step)
    ensures Leads(s, longer, u)
  {
    longer, u := steps + [step], Apply(t, step);
    LeadsTrans(s, steps, t, [step], u);
  }

  lemma FirstConnect(s: State) returns (p: seq<Step>, t: State)
    requires Init(s) && s.ours == {7}
    ensures Leads(s, p, t)
    ensures t == State(Some(0), 1, map[], Some(0), map[], 0, {0}, {0}, 0, {7}, Free)
  {
    p, t := [], s;
    p, t := Extend(s, p, t, Start);
    p, t := Extend(s, p, t, Connect(0, true));
    p, t := Extend(s, p, t, ConnectDone);
  }

  /** Connect to incarnation 0 and register; another thread keeps handle 0 for its unregister. */
  lemma FirstRegister(s: State) returns (p: seq<Step>, t: State)
    requires Init(s) && s.ours == {7}
    ensures Leads(s, p, t)
    ensures t == State(Some(0), 1, map[7 := 1], Some(0), map[7 := 1], 0, {0}, {0}, 0, {7}, Free)
  {
    p, t := FirstConnect(s);
    p, t := Extend(s, p, t, BeginRegister(7, 1, 0));
    p, t := Extend(s, p, t, RegisterIpc);
    p, t := Extend(s, p, t, Store);
    p, t := Extend(s, p, t, Settle);
  }

  /** The service dies and comes back, and a failed call makes the kit reconnect to incarnation 1. */
  lemma DieAndReconnect(s: State, p0: seq<Step>, t0: State) returns (p: seq<Step>, t: State)
    requires Leads(s, p0, t0)
    requires t0 == State(Some(0), 1, map[7 := 1], Some(0), map[7 := 1], 0, {0}, {0}, 0, {7}, Free)
    ensures Leads(s, p, t)
    ensures t == State(Some(1), 2, map[7 := 1], Some(1), map[7 := 1], 0, {0, 1}, {0, 1}, 0, {7}, Free)
  {
    p, t := Extend(s, p0, t0, Die);
    p, t := Extend(s, p, t, Start);
    p, t := Extend(s, p, t, FailedCall);
    p, t := Extend(s, p, t, Connect(1, true));
    p, t := Extend(s, p, t, ConnectOne(7));
    p, t := Extend(s, p, t, ConnectDone);
  }

  /** They are not always equal: this run ends with the lock free and the kit
      connected to the live service, which still holds an entry that the kit has dropped. */
  lemma StaleEntry(s: State)
    requires Init(s) && s.ours == {7}
    ensures exists steps, t :: Run(s, steps, t) && t.holder.Free? && Connected(t)
                               && t.callbacks == map[] && 7 in t.registry
  {
    var p, t := FirstRegister(s);
    p, t := DieAndReconnect(s, p, t);
    // The unregister goes to the dead handle and drops the connection; the next use reconnects.
    p, t := Extend(s, p, t, BeginUnregister(7, 0));
    p, t := Extend(s, p, t, UnregisterIpc);
    p, t := Extend(s, p, t, Settle);
    p, t := Extend(s, p, t, Connect(1, true));
    p, t := Extend(s, p, t, ConnectDone);
    assert Run(s, p, t);
  }

  // ---------- The code ----------

  ghost predicate Reaches(s: State, t: State) {
    exists steps :: Leads(s, steps, t)
  }

  lemma ReachesStep(s: State, t: State, step: Step)
    requires Reaches(s, t) && Enabled(t, step)
    ensures Reaches(s, Apply(t, step))
  {
    var steps :| Leads(s, steps, t);
    var longer, u := Extend(s, steps, t, step);
  }

  lemma ReachesSelf(s: State)
    ensures Reaches(s, s)
  {
    assert Leads(s, [], s);
  }

  lemma ReachesTrans(s: State, t: State, u: State)
    requires Reaches(s, t) && Reaches(t, u)
    ensures Reaches(s, u)
  {
    var a :| Leads(s, a, t);
    var b :| Leads(t, b, u);
    LeadsTrans(s, a, t, b, u);
  }

  /** The service side that IPC reaches. */
  class Service {
    var live: Option<Handle>
    var started: nat
    var registry: map<Key, Callback>

    /** RegisterUpdateCallback over IPC; false is an IPC error. */
    method Register(handle: Handle, key: Key, cb: Callback) returns (ok: bool)
      modifies this`registry
      ensures ok == (live == Some(handle))
      ensures registry == if ok then old(registry)[key := cb] else old(registry)
    {
      ok := live == Some(handle);
      if ok {
        registry := registry[key := cb];
      }
    }

    method Unregister(handle: Handle, key: Key) returns (ok: bool)
      modifies this`registry
      ensures ok == (live == Some(handle))
      ensures registry == if ok then old(registry) - {key} else old(registry)
    {
      ok := live == Some(handle);
      if ok {
        registry := registry - {key};
      }
    }
  }

  /** The registry after a connect: the live server gets all callbacks on top of what it has. */
  ghost function Resent(live: Option<Handle>, remote: Option<Handle>, registry: map<Key, Callback>,
                        callbacks: map<Key, Callback>): map<Key, Callback> {
    if remote.Some? && live == remote then registry + callbacks else registry
  }

  /** The registry once the callbacks outside todo have been sent to s.remote. */
  ghost function Merged(s: State, callbacks: map<Key, Callback>, todo: set<Key>): map<Key, Callback> {
    Resent(s.live, s.remote, s.registry, callbacks - todo)
  }

  lemma MergedOne(s: State, callbacks: map<Key, Callback>, todo: set<Key>, key: Key)
    requires key in todo && key in callbacks && s.remote.Some?
    ensures Merged(s, callbacks, todo - {key})
            == if s.live == s.remote then Merged(s, callbacks, todo)[key := callbacks[key]] else s.registry
  {
  }

  lemma MergedEnds(s: State, callbacks: map<Key, Callback>)
    ensures Merged(s, callbacks, callbacks.Keys) == s.registry
    ensures Merged(s, callbacks, {}) == Resent(s.live, s.remote, s.registry, callbacks)
  {
    assert callbacks - callbacks.Keys == map[];
    assert callbacks - {} == callbacks;
  }

  /** The handle that GetService gives, and the registry that it leaves. */
  ghost function Connection(remote: Option<Handle>, found: Option<Handle>, castOk: bool): Option<Handle> {
    if remote.Some? then remote else if castOk then found else None
  }

  ghost function AfterConnect(live: Option<Handle>, remote: Option<Handle>, handle: Option<Handle>,
                              registry: map<Key, Callback>, callbacks: map<Key, Callback>): map<Key, Callback> {
    if remote.Some? then registry else Resent(live, handle, registry, callbacks)
  }

  /** The incarnation that a GetService links. */
  ghost function Attached(remote: Option<Handle>, found: Option<Handle>, linkOk: bool): set<Handle> {
    if remote.None? && found.Some? && linkOk then {found.value} else {}
  }

  /** The kit, each method run without interference inside it. Every method is a sequence of steps of the
      transition system, so the results above hold of the kit. */
  class UpdateServiceKitsImpl {
    const service: Service
    var remoteServer: Option<Handle>
    var callbackMap: map<Key, Callback>
    var retryTimes: nat
    ghost var handles: set<Handle>
    ghost var linked: set<Handle>
    ghost var resumes: nat
    ghost const ours: set<Key>

    ghost function View(holder: Holder): State
      reads this, service
    {
      State(service.live, service.started, service.registry, remoteServer, callbackMap, retryTimes,
            handles, linked, resumes, ours, holder)
    }

    constructor (service: Service, ghost ours: set<Key>)
      ensures this.service == service && this.ours == ours
      ensures service.live.None? && service.started == 0 && service.registry == map[] ==> Init(View(Free))
    {
      this.service, this.ours := service, ours;
      remoteServer, callbackMap, retryTimes := None, map[], 0;
      handles, linked, resumes := {}, {}, 0;
    }

    /** RegisterCallback, which GetService runs with the lock held after it has connected. */
    method RegisterCallback(ghost resume: bool)
      requires remoteServer.Some?
      modifies this`handles, service`registry
      ensures handles == old(handles) + {remoteServer.value}
      ensures Reaches(old(View(Connecting(callbackMap.Keys, resume))), View(if resume then Resuming else Free))
      ensures service.registry == Resent(service.live, remoteServer, old(service.registry), callbackMap)
    {
      var todo := callbackMap.Keys;
      ghost var before := View(Connecting(todo, resume));
      ReachesSelf(before);
      MergedEnds(before, callbackMap);
      while todo != {}
        invariant todo <= callbackMap.Keys && handles == before.handles
        invariant Reaches(before, View(Connecting(todo, resume)))
        invariant service.registry == Merged(before, callbackMap, todo)
        decreases |todo|
      {
        var key :| key in todo;
        RegisterOne(key, todo, resume, before);
        MergedOne(before, callbackMap, todo, key);
        todo := todo - {key};
      }
      ghost var here := View(Connecting({}, resume));
      handles := handles + {remoteServer.value};
      ReachesStep(before, here, ConnectDone);
    }

    method RegisterOne(key: Key, ghost todo: set<Key>, ghost resume: bool, ghost before: State)
      requires remoteServer.Some? && key in todo && key in callbackMap
      requires Reaches(before, View(Connecting(todo, resume)))
      modifies service`registry
      ensures Reaches(before, View(Connecting(todo - {key}, resume)))
      ensures service.registry == if service.live == remoteServer
                                  then old(service.registry)[key := callbackMap[key]] else old(service.registry)
    {
      ghost var here := View(Connecting(todo, resume));
      var _ := service.Register(remoteServer.value, key, callbackMap[key]);
      ReachesStep(before, here, ConnectOne(key));
      assert View(Connecting(todo - {key}, resume)) == Apply(here, ConnectOne(key));
    }

    /** found is what samgr returns after trying to load the service, linkOk the outcome of
        AddDeathRecipient, castOk that of iface_cast. */
    method GetService(found: Option<Handle>, linkOk: bool, castOk: bool) returns (server: Option<Handle>)
      requires found.Some? ==> found.value < service.started
      modifies this`remoteServer, this`handles, this`linked, service`registry
      ensures Reaches(old(View(Free)), View(Free))
      ensures server == remoteServer == Connection(old(remoteServer), found, castOk)
      ensures old(remoteServer).Some? ==> server == old(remoteServer) && service.registry == old(service.registry)
      ensures old(remoteServer).None? && castOk
              ==> server == found
                  && service.registry
                     == if found.Some? && found == service.live then old(service.registry) + callbackMap
                        else old(service.registry)
      ensures old(remoteServer).None? && !castOk ==> server.None? && service.registry == old(service.registry)
      ensures service.registry
              == AfterConnect(service.live, old(remoteServer), server, old(service.registry), callbackMap)
      ensures server.Some? ==> server.value in handles
      ensures linked == old(linked) + Attached(old(remoteServer), found, linkOk)
    {
      ghost var before := View(Free);
      ReachesSelf(before);
      if remoteServer.Some? {
        handles := handles + {remoteServer.value};
        ReachesStep(before, before, UseService);
        return remoteServer;
      }
      if found.None? {
        return None;
      }
      linked := if linkOk then linked + {found.value} else linked;
      if !castOk {
        ReachesStep(before, before, CastFails(found.value, linkOk));
        return None;
      }
      remoteServer := found;
      ReachesStep(before, before, Connect(found.value, linkOk));
      ghost var connecting := View(Connecting(callbackMap.Keys, false));
      RegisterCallback(false);
      ReachesTrans(before, connecting, View(Free));
      return remoteServer;
    }

    method RegisterUpdateCallback(info: Key, cb: Callback, found: Option<Handle>, linkOk: bool, castOk: bool)
      returns (ok: bool)
      requires info in ours
      requires found.Some? ==> found.value < service.started
      modifies this`remoteServer, this`handles, this`linked, this`callbackMap, service`registry
      ensures Reaches(old(View(Free)), View(Free))
      ensures var handle := Connection(old(remoteServer), found, castOk);
              var connected :=
                AfterConnect(service.live, old(remoteServer), handle, old(service.registry), old(callbackMap));
              && ok == (handle.Some? && handle == service.live)
              && callbackMap == (if handle.Some? then old(callbackMap)[info := cb] else old(callbackMap))
              && service.registry == (if ok then connected[info := cb] else connected)
              && remoteServer == (if ok then handle else None)
              && linked == old(linked) + Attached(old(remoteServer), found, linkOk)
    {
      ghost var before := View(Free);
      var server := GetService(found, linkOk, castOk);
      if server.None? {
        return false;
      }
      ghost var held := View(Free);
      ReachesStep(before, held, BeginRegister(info, cb, server.value));
      ok := service.Register(server.value, info, cb);
      ReachesStep(before, held.(holder := Registering(info, cb, server.value)), RegisterIpc);
      ghost var answered := View(Storing(info, cb, ok));
      callbackMap := callbackMap[info := cb];
      ReachesStep(before, answered, Store);
      ghost var stored := View(Settling(ok));
      if !ok {
        remoteServer := None;
      }
      ReachesStep(before, stored, Settle);
    }

    method UnregisterUpdateCallback(info: Key, found: Option<Handle>, linkOk: bool, castOk: bool)
      returns (ok: bool)
      requires info in ours
      requires found.Some? ==> found.value < service.started
      modifies this`remoteServer, this`handles, this`linked, this`callbackMap, service`registry
      ensures Reaches(old(View(Free)), View(Free))
      ensures var handle := Connection(old(remoteServer), found, castOk);
              var connected :=
                AfterConnect(service.live, old(remoteServer), handle, old(service.registry), old(callbackMap));
              && ok == (handle.Some? && handle == service.live)
              && callbackMap == (if handle.Some? then old(callbackMap) - {info} else old(callbackMap))
              && service.registry == (if ok then connected - {info} else connected)
              && remoteServer == (if ok then handle else None)
              && linked == old(linked) + Attached(old(remoteServer), found, linkOk)
    {
      ghost var before := View(Free);
      var server := GetService(found, linkOk, castOk);
      if server.None? {
        return false;
      }
      ghost var held := View(Free);
      callbackMap := callbackMap - {info};
      ReachesStep(before, held, BeginUnregister(info, server.value));
      ghost var erased := View(Unregistering(info, server.value));
      ok := service.Unregister(server.value, info);
      ReachesStep(before, erased, UnregisterIpc);
      ghost var stored := View(Settling(ok));
      if !ok {
        remoteServer := None;
      }
      ReachesStep(before, stored, Settle);
    }

    /** The death recipient's callback: the base class part, then the part that reconnects. */
    method ResetService(dead: Handle, found: Option<Handle>, linkOk: bool, castOk: bool)
      requires dead in linked && service.live != Some(dead)
      requires found.Some? ==> found.value < service.started
      modifies this, service`registry
      ensures callbackMap == old(callbackMap)
      ensures Reaches(old(View(Free)), View(Free))
      ensures retryTimes == if callbackMap != map[] && old(retryTimes) < RETRY_MAX_TIMES
                            then old(retryTimes) + 1 else old(retryTimes)
      ensures remoteServer == if retryTimes > old(retryTimes) && castOk then found else None
      ensures linked == old(linked) + if retryTimes > old(retryTimes) then Attached(None, found, linkOk) else {}
      ensures service.registry == Resent(service.live, remoteServer, old(service.registry), callbackMap)
    {
      ghost var before := View(Free);
      ReachesSelf(before);
      remoteServer := None;
      resumes := resumes + 1;
      ReachesStep(before, before, DeathNotice(dead));
      Resume(found, linkOk, castOk);
      ReachesTrans(before, old(View(Free)).(remote := None, resumes := old(resumes) + 1), View(Free));
    }

    method Resume(found: Option<Handle>, linkOk: bool, castOk: bool)
      requires resumes > 0 && remoteServer.None?
      requires found.Some? ==> found.value < service.started
      modifies this, service`registry
      ensures callbackMap == old(callbackMap)
      ensures Reaches(old(View(Free)), View(Free))
      ensures retryTimes == if callbackMap != map[] && old(retryTimes) < RETRY_MAX_TIMES
                            then old(retryTimes) + 1 else old(retryTimes)
      ensures remoteServer == if retryTimes > old(retryTimes) && castOk then found else None
      ensures linked == old(linked) + if retryTimes > old(retryTimes) then Attached(None, found, linkOk) else {}
      ensures service.registry == Resent(service.live, remoteServer, old(service.registry), callbackMap)
    {
      if |callbackMap| == 0 || retryTimes >= RETRY_MAX_TIMES {
        Skip();
        return;
      }
      ghost var before := View(Free);
      assert WantsResume(before);
      Reconnect(found, linkOk, castOk);
      CountRetry(before);
    }

    method CountRetry(ghost before: State)
      requires Reaches(before, View(Resuming))
      modifies this`retryTimes
      ensures Reaches(before, View(Free)) && retryTimes == old(retryTimes) + 1
    {
      ReachesStep(before, View(Resuming), ResumeDone);
      retryTimes := retryTimes + 1;
    }

    /** The early return. */
    ghost method Skip()
      requires resumes > 0 && !WantsResume(View(Free))
      modifies this`resumes
      ensures Reaches(old(View(Free)), View(Free))
    {
      ReachesSelf(View(Free));
      ReachesStep(View(Free), View(Free), ResumeSkip);
      resumes := resumes - 1;
    }

    /** GetService as ResetService calls it, with no handle left. */
    method Reconnect(found: Option<Handle>, linkOk: bool, castOk: bool)
      requires resumes > 0 && remoteServer.None? && WantsResume(View(Free))
      requires found.Some? ==> found.value < service.started
      modifies this`remoteServer, this`linked, this`handles, this`resumes, service`registry
      ensures Reaches(old(View(Free)), View(Resuming))
      ensures remoteServer == if castOk then found else None
      ensures service.registry == Resent(service.live, remoteServer, old(service.registry), callbackMap)
      ensures linked == old(linked) + Attached(None, found, linkOk)
    {
      linked := if linkOk && found.Some? then linked + {found.value} else linked;
      if found.Some? && castOk {
        ConnectTo(found.value, linkOk, old(View(Free)));
      } else {
        ghost var before := old(View(Free));
        ReachesSelf(before);
        resumes := resumes - 1;
        ReachesStep(before, before, ResumeFails(if linkOk then found else None));
        assert View(Resuming) == Apply(before, ResumeFails(if linkOk then found else None));
      }
    }

    /** ... and finds the service. */
    method ConnectTo(found: Handle, ghost linkOk: bool, ghost before: State)
      requires resumes > 0 && remoteServer.None? && found < service.started
      requires before.holder.Free? && Enabled(before, ResumeConnect(found, linkOk))
      requires View(Free) == Link(before, found, linkOk)
      modifies this`remoteServer, this`handles, this`resumes, service`registry
      ensures Reaches(before, View(Resuming)) && remoteServer == Some(found)
      ensures service.registry == Resent(service.live, remoteServer, old(service.registry), callbackMap)
    {
      ReachesSelf(before);
      remoteServer := Some(found);
      resumes := resumes - 1;
      ReachesStep(before, before, ResumeConnect(found, linkOk));
      ghost var connecting := View(Connecting(callbackMap.Keys, true));
      RegisterCallback(true);
      ReachesTrans(before, connecting, View(Resuming));
    }
  }
}
