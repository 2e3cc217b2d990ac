/** The idle loop that may unload the service: services/startup/manage/src/startup_manager.cpp,
    schedule_manager.cpp, startup_schedule.cpp and system_ability_operator.cpp, with
    services/startup/access/src/access_manager.cpp. */
module IdleUnload {
  import opened Common
  import ServerRegistry

  const DEFAULT_PULLUP_INTERVAL := 86400
  const KEEP_ALIVE_THRESHOLD := 3600
  const VALID_MIN_INTERVAL := 30

  /** Bits 1, 2 and 4 are cellular, metered and unmetered Wi-Fi. */
  type NetType = bv3
  const NO_NET: NetType := 0

  datatype ScheduleTask = ScheduleTask(
    priority: int, minDelayTime: nat, maxDelayTime: nat, netType: NetType, batteryLevel: int,
    deviceIdle: bool, taskExtra: string, startupReason: int)

  const NEW_TASK := ScheduleTask(0, 0, 0, NO_NET, 0, false, "", -1)

  /** operator< of ScheduleTask. */
  predicate Before(a: ScheduleTask, b: ScheduleTask) {
    if a.minDelayTime != b.minDelayTime then a.minDelayTime < b.minDelayTime else a.maxDelayTime < b.maxDelayTime
  }

  /** What one registered access answers during a tick. */
  datatype Access = Access(idle: bool, tasks: seq<ScheduleTask>, exits: bool)

  /** accessMap_ in key order; a stored pointer may be null. */
  type AccessMap = seq<(nat, Option<Access>)>

  datatype TimedEvent = TimedEvent(name: string, interval: nat)

  // ---------- What the tasks ask for ----------

  /** All network types that some task waits for. */
  function NetUnion(tasks: seq<ScheduleTask>): NetType {
    if tasks == [] then NO_NET else tasks[0].netType | NetUnion(tasks[1..])
  }

  /** The tasks that wait for no network, in order. */
  function Timed(tasks: seq<ScheduleTask>): seq<ScheduleTask> {
    if tasks == [] then []
    else (if tasks[0].netType == NO_NET then [tasks[0]] else []) + Timed(tasks[1..])
  }

  function MinDelay(timed: seq<ScheduleTask>): nat
    requires timed != []
  {
    if |timed| == 1 || timed[0].minDelayTime <= MinDelay(timed[1..]) then timed[0].minDelayTime
    else MinDelay(timed[1..])
  }

  function NextDelay(tasks: seq<ScheduleTask>): nat {
    if Timed(tasks) == [] then DEFAULT_PULLUP_INTERVAL else MinDelay(Timed(tasks))
  }

  function EntriesFor(netType: NetType, delay: nat): seq<ScheduleTask> {
    (if netType != NO_NET then [NEW_TASK.(netType := netType)] else []) + [NEW_TASK.(minDelayTime := delay)]
  }

  /** The entries that TaskManage leaves in scheduleTask_. */
  function Entries(tasks: seq<ScheduleTask>): seq<ScheduleTask> {
    EntriesFor(NetUnion(tasks), NextDelay(tasks))
  }

  ghost predicate Asks(t: ScheduleTask, m: NetType) {
    t.netType & m != 0
  }

  lemma {:induction false} NetUnionBits(tasks: seq<ScheduleTask>, m: NetType)
    ensures NetUnion(tasks) & m != 0 <==> exists t | t in tasks :: Asks(t, m)
  {
    if tasks != [] {
      NetUnionBits(tasks[1..], m);
      assert tasks[0] in tasks;
      assert forall t | t in tasks[1..] :: t in tasks;
      assert forall t | t in tasks :: t == tasks[0] || t in tasks[1..];
    }
  }

  lemma {:induction false} TimedMembers(tasks: seq<ScheduleTask>, t: ScheduleTask)
    ensures t in Timed(tasks) <==> t in tasks && t.netType == NO_NET
  {
    if tasks != [] {
      TimedMembers(tasks[1..], t);
      assert tasks == [tasks[0]] + tasks[1..];
    }
  }

  lemma {:induction false} MinDelayIsMin(timed: seq<ScheduleTask>, d: nat)
    requires timed != []
    ensures d == MinDelay(timed)
            <==> (exists t | t in timed :: t.minDelayTime == d) && (forall t | t in timed :: d <= t.minDelayTime)
  {
    var rest := timed[1..];
    assert timed == [timed[0]] + rest;
    if rest != [] {
      MinDelayIsMin(rest, MinDelay(rest));
      var least :| least in rest && least.minDelayTime == MinDelay(rest);
      assert least in timed && timed[0] in timed;
      assert exists t | t in timed :: t.minDelayTime == MinDelay(timed);
      assert forall t | t in timed :: MinDelay(timed) <= t.minDelayTime;
    } else {
      assert timed[0] in timed;
    }
  }

  /** What is scheduled depends on which tasks are reported, not on their order or number. */
  lemma OrderIrrelevant(a: seq<ScheduleTask>, b: seq<ScheduleTask>)
    requires forall t :: t in a <==> t in b
    ensures Entries(a) == Entries(b) && NextDelay(a) == NextDelay(b)
  {
    NetUnionBits(a, 1);
    NetUnionBits(b, 1);
    NetUnionBits(a, 2);
    NetUnionBits(b, 2);
    NetUnionBits(a, 4);
    NetUnionBits(b, 4);
    forall t ensures t in Timed(a) <==> t in Timed(b) {
      TimedMembers(a, t);
      TimedMembers(b, t);
    }
    var ta, tb := Timed(a), Timed(b);
    assert ta != [] ==> ta[0] in tb;
    assert tb != [] ==> tb[0] in ta;
    if ta != [] {
      MinDelayIsMin(ta, MinDelay(ta));
      MinDelayIsMin(tb, MinDelay(ta));
    }
  }

  /** The same for permutations, as the order of registration gives them. */
  lemma PermutationIrrelevant(a: seq<ScheduleTask>, b: seq<ScheduleTask>)
    requires multiset(a) == multiset(b)
    ensures Entries(a) == Entries(b)
  {
    forall t ensures t in a <==> t in b {
      assert t in a <==> t in multiset(a);
      assert t in b <==> t in multiset(b);
    }
    OrderIrrelevant(a, b);
  }

  lemma {:induction false} NoNetIff(tasks: seq<ScheduleTask>)
    ensures NetUnion(tasks) == NO_NET <==> forall t | t in tasks :: t.netType == NO_NET
  {
    if tasks != [] {
      NoNetIff(tasks[1..]);
      assert tasks == [tasks[0]] + tasks[1..];
    }
  }

  /** The entries ask for exactly the network bits that the tasks ask for, in one entry without a delay if there are
      any; the last entry is the timed one. */
  lemma EntriesAsk(tasks: seq<ScheduleTask>, m: NetType)
    ensures (exists e | e in Entries(tasks) :: Asks(e, m)) <==> exists t | t in tasks :: Asks(t, m)
    ensures |Entries(tasks)| == if exists t | t in tasks :: t.netType != NO_NET then 2 else 1
    ensures Entries(tasks)[|Entries(tasks)| - 1] == NEW_TASK.(minDelayTime := NextDelay(tasks))
    ensures |Entries(tasks)| == 2 ==> Entries(tasks)[0].minDelayTime == 0
  {
    NetUnionBits(tasks, m);
    NoNetIff(tasks);
    var entries := Entries(tasks);
    assert entries[0] in entries;
    assert forall e | e in entries :: e == entries[0] || e == entries[|entries| - 1];
  }

  /** The policy is accepted only without a network entry, whose delay is zero. */
  lemma EntriesValid(tasks: seq<ScheduleTask>)
    ensures (forall t | t in Entries(tasks) :: t.minDelayTime >= VALID_MIN_INTERVAL)
            <==> (forall t | t in tasks :: t.netType == NO_NET) && NextDelay(tasks) >= VALID_MIN_INTERVAL
    ensures Entries(tasks) != []
    ensures (forall t | t in tasks :: t.netType == NO_NET)
            ==> Entries(tasks) == [NEW_TASK.(minDelayTime := NextDelay(tasks))]
  {
    NoNetIff(tasks);
    var entries := Entries(tasks);
    assert entries[0] in entries && entries[|entries| - 1] in entries;
  }

  // ---------- When the service is unloaded ----------

  function AllTasks(accesses: AccessMap): seq<ScheduleTask> {
    if accesses == [] then []
    else (if accesses[0].1.Some? then accesses[0].1.value.tasks else []) + AllTasks(accesses[1..])
  }

  /** Some access reports this task. */
  ghost predicate Reports(accesses: AccessMap, t: ScheduleTask) {
    exists e | e in accesses :: e.1.Some? && t in e.1.value.tasks
  }

  /** The tasks of all accesses are collected, and no others. */
  lemma {:induction false} AllTasksAreReported(accesses: AccessMap, t: ScheduleTask)
    ensures t in AllTasks(accesses) <==> Reports(accesses, t)
  {
    if accesses != [] {
      AllTasksAreReported(accesses[1..], t);
      assert accesses == [accesses[0]] + accesses[1..];
      assert accesses[0] in accesses;
      if Reports(accesses, t) {
        var e :| e in accesses && e.1.Some? && t in e.1.value.tasks;
        assert e == accesses[0] || e in accesses[1..];
      }
    }
  }

  /** ... in the order of the accesses. */
  lemma {:induction false} AllTasksAppend(a: AccessMap, b: AccessMap)
    ensures AllTasks(a + b) == AllTasks(a) + AllTasks(b)
  {
    if a == [] {
      assert a + b == b;
    } else {
      assert (a + b)[0] == a[0] && (a + b)[1..] == a[1..] + b;
      AllTasksAppend(a[1..], b);
    }
  }

  /** The least delay of the reported tasks, or the default when none is reported. */
  ghost predicate IsNextStart(accesses: AccessMap, delay: nat) {
    if forall t :: !Reports(accesses, t) then delay == DEFAULT_PULLUP_INTERVAL
    else (exists t | Reports(accesses, t) :: t.minDelayTime == delay)
         && forall t | Reports(accesses, t) :: delay <= t.minDelayTime
  }

  /** When no access reports a task that waits for a network. */
  lemma NextDelayIs(accesses: AccessMap, delay: nat)
    requires forall t | Reports(accesses, t) :: t.netType == NO_NET
    ensures NextDelay(AllTasks(accesses)) == delay <==> IsNextStart(accesses, delay)
  {
    var tasks := AllTasks(accesses);
    forall t ensures t in Timed(tasks) <==> Reports(accesses, t) {
      AllTasksAreReported(accesses, t);
      TimedMembers(tasks, t);
    }
    if Timed(tasks) == [] {
      assert forall t :: !Reports(accesses, t);
    } else {
      assert Timed(tasks)[0] in Timed(tasks);
      MinDelayIsMin(Timed(tasks), delay);
    }
  }

  /** The accesses that Exit runs through, up to the first that refuses. */
  function ExitOrder(accesses: AccessMap): seq<nat> {
    if accesses == [] then []
    else if accesses[0].1.None? then ExitOrder(accesses[1..])
    else if !accesses[0].1.value.exits then []
    else [accesses[0].0] + ExitOrder(accesses[1..])
  }

  /** Every access before this position exits, or is a null pointer. */
  ghost predicate ExitsBefore(accesses: AccessMap, i: nat) {
    forall j | 0 <= j < i && j < |accesses| && accesses[j].1.Some? :: accesses[j].1.value.exits
  }

  /** Exactly the accesses that exit and have no refusing one before them have exited, one after the other. */
  lemma {:induction false} ExitedIff(accesses: AccessMap, k: nat)
    ensures k in ExitOrder(accesses)
            <==> exists i | 0 <= i < |accesses| ::
                   accesses[i].0 == k && accesses[i].1.Some? && ExitsBefore(accesses, i + 1)
  {
    if accesses != [] {
      var rest := accesses[1..];
      ExitedIff(rest, k);
      forall i: nat | 0 < i ensures ExitsBefore(accesses, i)
                                    <==> ExitsBefore(rest, i - 1)
                                         && (accesses[0].1.Some? ==> accesses[0].1.value.exits) {
        assert forall j | 0 < j < |accesses| :: accesses[j] == rest[j - 1];
        assert forall j | 0 <= j < |rest| :: rest[j] == accesses[j + 1];
      }
      if i :| 0 <= i < |rest| && rest[i].0 == k && rest[i].1.Some? && ExitsBefore(rest, i + 1) {
        assert accesses[i + 1] == rest[i];
        assert ExitsBefore(accesses, i + 2) <==> accesses[0].1.Some? ==> accesses[0].1.value.exits;
      }
      if i :| 0 < i < |accesses| && accesses[i].0 == k && accesses[i].1.Some? && ExitsBefore(accesses, i + 1) {
        assert rest[i - 1] == accesses[i];
      }
    }
  }

  ghost predicate Ascending(keys: seq<nat>) {
    forall i, j | 0 <= i < j < |keys| :: keys[i] < keys[j]
  }

  /** ... in the order of the map. */
  lemma {:induction false} ExitedInOrder(accesses: AccessMap)
    requires forall i, j | 0 <= i < j < |accesses| :: accesses[i].0 < accesses[j].0
    ensures Ascending(ExitOrder(accesses))
  {
    if accesses != [] {
      var rest := accesses[1..];
      ExitedInOrder(rest);
      forall k | k in ExitOrder(rest) ensures accesses[0].0 < k {
        ExitedIff(rest, k);
      }
      assert forall j | 0 <= j < |ExitOrder(rest)| :: ExitOrder(rest)[j] in ExitOrder(rest);
    }
  }

  /** The tick's clock, the configured check interval and the answers of the two policy updates. */
  datatype Env = Env(now: int, interval: int, firstUpdate: bool, secondUpdate: bool)

  function Abs(x: int): nat {
    if x < 0 then -x else x
  }

  /** The tick looks at the accesses and finds them idle. */
  ghost predicate SeesIdle(remoteIdle: bool, accesses: AccessMap, last: int, env: Env) {
    && Abs(env.now - last) >= env.interval
    && remoteIdle
    && forall e | e in accesses && e.1.Some? :: e.1.value.idle
  }

  ghost predicate MayUnload(remoteIdle: bool, accesses: AccessMap, last: int, env: Env) {
    && Abs(env.now - last) >= env.interval
    && remoteIdle
    && (forall e | e in accesses && e.1.Some? :: e.1.value.idle && e.1.value.exits)
    && (forall t | Reports(accesses, t) :: t.netType == NO_NET && t.minDelayTime >= VALID_MIN_INTERVAL)
    && (env.firstUpdate || env.secondUpdate)
  }

  /** One timed event, for the earliest next start. */
  ghost predicate IsPolicyFor(policy: seq<TimedEvent>, accesses: AccessMap, env: Env) {
    && |policy| == 1 && policy[0].name == (if env.firstUpdate then "awakeloopevent" else "loopevent")
    && IsNextStart(accesses, policy[0].interval)
  }

  /** The policy is accepted exactly when no access reports a task that waits for a network or is due within 30
      seconds, and then it is one entry with the next start. */
  lemma PolicyAccepted(accesses: AccessMap)
    ensures (forall t | t in Entries(AllTasks(accesses)) :: t.minDelayTime >= VALID_MIN_INTERVAL)
            <==> forall t | Reports(accesses, t) :: t.netType == NO_NET && t.minDelayTime >= VALID_MIN_INTERVAL
    ensures (forall t | Reports(accesses, t) :: t.netType == NO_NET)
            ==> Entries(AllTasks(accesses)) == [NEW_TASK.(minDelayTime := NextDelay(AllTasks(accesses)))]
                && IsNextStart(accesses, NextDelay(AllTasks(accesses)))
  {
    var tasks := AllTasks(accesses);
    forall t ensures t in tasks <==> Reports(accesses, t) {
      AllTasksAreReported(accesses, t);
    }
    EntriesValid(tasks);
    if forall t | Reports(accesses, t) :: t.netType == NO_NET {
      NextDelayIs(accesses, NextDelay(tasks));
    }
  }

  /** So a tick unloads exactly if it sees the service idle, all accesses exit and their entries are accepted. */
  lemma MayUnloadIff(remoteIdle: bool, accesses: AccessMap, last: int, env: Env)
    ensures MayUnload(remoteIdle, accesses, last, env)
            <==> && SeesIdle(remoteIdle, accesses, last, env)
                 && (forall e | e in accesses && e.1.Some? :: e.1.value.exits)
                 && (forall t | t in Entries(AllTasks(accesses)) :: t.minDelayTime >= VALID_MIN_INTERVAL)
                 && (env.firstUpdate || env.secondUpdate)
    ensures MayUnload(remoteIdle, accesses, last, env)
            ==> Entries(AllTasks(accesses)) == [NEW_TASK.(minDelayTime := NextDelay(AllTasks(accesses)))]
                && IsNextStart(accesses, NextDelay(AllTasks(accesses)))
  {
    PolicyAccepted(accesses);
  }

  /** The keep-alive threshold is not enforced: TaskManage's result is dropped, and a task that is due in
      a minute does not keep the service. */
  lemma KeepAliveNotEnforced(env: Env)
    requires env == Env(1000, 300, true, true)
    ensures var accesses := [(1, Some(Access(true, [NEW_TASK.(minDelayTime := 60)], true)))];
            MayUnload(true, accesses, 0, env) && IsNextStart(accesses, 60) && 60 <= KEEP_ALIVE_THRESHOLD
  {
    var task := NEW_TASK.(minDelayTime := 60);
    var accesses := [(1, Some(Access(true, [task], true)))];
    assert accesses[0] in accesses;
    assert Reports(accesses, task);
    assert forall t :: Reports(accesses, t) <==> t == task;
  }

  /** The flag is read without the lock of the callback map. A tick that unloads the service read it while the
      map was empty, or between the two writes of a registration; then that is the only client. */
  lemma UnloadSawNoClient(writes: seq<ServerRegistry.Write>, v: ServerRegistry.Seen, accesses: AccessMap, last: int,
                          env: Env)
    requires ServerRegistry.Writes(ServerRegistry.Seen(ServerRegistry.EMPTY, false), writes, v)
    requires MayUnload(v.registry.idle, accesses, last, env)
    ensures v.registry.proxies == map[] || (v.inside && |v.registry.proxies| == 1)
  {
    ServerRegistry.FlagLagsOverRuns(ServerRegistry.Seen(ServerRegistry.EMPTY, false), writes, v);
  }

  // ---------- The code ----------

  class AccessManager {
    var accessMap: AccessMap
    var isRemoteIdle: bool
    var exited: seq<nat> // the accesses whose Exit succeeded, in order

    method IsIdle() returns (idle: bool)
      ensures idle == (isRemoteIdle && forall e | e in accessMap && e.1.Some? :: e.1.value.idle)
    {
      if !isRemoteIdle {
        return false;
      }
      for i := 0 to |accessMap|
        invariant forall e | e in accessMap[..i] && e.1.Some? :: e.1.value.idle
      {
        if accessMap[i].1.Some? && !accessMap[i].1.value.idle {
          assert accessMap[i] in accessMap;
          return false;
        }
      }
      assert accessMap[..|accessMap|] == accessMap;
      return true;
    }

    method GetScheduleTasks() returns (tasks: seq<ScheduleTask>)
      ensures tasks == AllTasks(accessMap)
    {
      tasks := [];
      for i := 0 to |accessMap|
        invariant AllTasks(accessMap) == tasks + AllTasks(accessMap[i..])
      {
        if accessMap[i].1.Some? {
          tasks := tasks + accessMap[i].1.value.tasks;
        }
        assert accessMap[i..][1..] == accessMap[i + 1..];
      }
    }

    method Exit() returns (ok: bool)
      modifies this`exited
      ensures ok == forall e | e in accessMap && e.1.Some? :: e.1.value.exits
      ensures exited == old(exited) + ExitOrder(accessMap)
    {
      for i := 0 to |accessMap|
        invariant old(exited) + ExitOrder(accessMap) == exited + ExitOrder(accessMap[i..])
        invariant forall e | e in accessMap[..i] && e.1.Some? :: e.1.value.exits
      {
        assert accessMap[i..][1..] == accessMap[i + 1..];
        if accessMap[i].1.Some? {
          if !accessMap[i].1.value.exits {
            assert accessMap[i] in accessMap;
            return false;
          }
          exited := exited + [accessMap[i].0];
        }
      }
      assert accessMap[..|accessMap|] == accessMap;
      return true;
    }
  }

  /** The system ability manager: the installed start policy and how often an unload was asked for. */
  class SystemAbilityManager {
    var policy: seq<TimedEvent>
    var unloads: nat
  }

  ghost predicate Sorted(s: seq<ScheduleTask>) {
    forall i, j | 0 <= i < j < |s| :: !Before(s[j], s[i])
  }

  lemma SortedInsert(s: seq<ScheduleTask>, at: nat, t: ScheduleTask)
    requires Sorted(s) && at <= |s|
    requires forall i | 0 <= i < at :: !Before(t, s[i])
    requires at < |s| ==> Before(t, s[at])
    ensures Sorted(s[..at] + [t] + s[at..])
  {
    var u := s[..at] + [t] + s[at..];
    forall i | at <= i < |s| ensures !Before(s[i], t) {
      assert i > at ==> !Before(s[i], s[at]);
    }
    forall i, j | 0 <= i < j < |u| ensures !Before(u[j], u[i]) {
      var k := if i < at then i else i - 1;
      var l := if j < at then j else j - 1;
      assert i != at ==> u[i] == s[k];
      assert j != at ==> u[j] == s[l];
      assert i != at && j != at ==> !Before(s[l], s[k]);
    }
  }

  /** std::sort by operator<. */
  method Sort(tasks: seq<ScheduleTask>) returns (sorted: seq<ScheduleTask>)
    ensures multiset(sorted) == multiset(tasks)
    ensures Sorted(sorted)
  {
    sorted := [];
    for n := 0 to |tasks|
      invariant multiset(sorted) == multiset(tasks[..n])
      invariant Sorted(sorted)
    {
      var at := 0;
      while at < |sorted| && !Before(tasks[n], sorted[at])
        invariant at <= |sorted| && forall i | 0 <= i < at :: !Before(tasks[n], sorted[i])
      {
        at := at + 1;
      }
      SortedInsert(sorted, at, tasks[n]);
      assert sorted == sorted[..at] + sorted[at..];
      assert tasks[..n + 1] == tasks[..n] + [tasks[n]];
      sorted := sorted[..at] + [tasks[n]] + sorted[at..];
    }
    assert tasks[..|tasks|] == tasks;
  }

  lemma SortedFront(tasks: seq<ScheduleTask>, sorted: seq<ScheduleTask>)
    requires multiset(sorted) == multiset(tasks) && Sorted(sorted)
    ensures tasks == [] <==> sorted == []
    ensures sorted != [] ==> sorted[0].minDelayTime == MinDelay(tasks)
  {
    assert |multiset(tasks)| == |tasks| && |multiset(sorted)| == |sorted|;
    if sorted != [] {
      assert sorted[0] in multiset(sorted);
      assert sorted[0] in tasks;
      forall t | t in tasks ensures sorted[0].minDelayTime <= t.minDelayTime {
        assert t in multiset(tasks);
        assert t in sorted;
        var j :| 0 <= j < |sorted| && sorted[j] == t;
        assert j > 0 ==> !Before(sorted[j], sorted[0]);
      }
      MinDelayIsMin(tasks, sorted[0].minDelayTime);
    }
  }

  ghost function EventsOf(tasks: seq<ScheduleTask>, name: string): seq<TimedEvent> {
    seq(|tasks|, i requires 0 <= i < |tasks| => TimedEvent(name, tasks[i].minDelayTime))
  }

  class ScheduleManager {
    const access: AccessManager
    const samgr: SystemAbilityManager
    var scheduleTasks: seq<ScheduleTask>

    constructor (access: AccessManager, samgr: SystemAbilityManager)
      ensures this.access == access && this.samgr == samgr
    {
      this.access, this.samgr := access, samgr;
      scheduleTasks := [];
    }

    method IdleCheck() returns (idle: bool)
      modifies this
      ensures idle == (access.isRemoteIdle && forall e | e in access.accessMap && e.1.Some? :: e.1.value.idle)
      ensures scheduleTasks == if idle then Entries(AllTasks(access.accessMap)) else old(scheduleTasks)
    {
      idle := access.IsIdle();
      if idle {
        var _ := TaskManage();
      }
    }

    /** Gathers the tasks that wait for the network into one entry and keeps the earliest of the rest. */
    method TaskManage() returns (canExit: bool)
      modifies this
      ensures scheduleTasks == Entries(AllTasks(access.accessMap))
      ensures canExit == (NextDelay(AllTasks(access.accessMap)) > KEEP_ALIVE_THRESHOLD)
    {
      scheduleTasks := [];
      var tasks := access.GetScheduleTasks();
      var netTask;
      tasks, netTask := TakeNetTasks(tasks);
      ghost var netType := netTask.netType;
      if netTask.netType != NO_NET {
        scheduleTasks := scheduleTasks + [netTask];
      }
      var timedTask := Earliest(tasks);
      scheduleTasks := scheduleTasks + [timedTask];
      assert scheduleTasks == EntriesFor(netType, timedTask.minDelayTime);
      canExit := timedTask.minDelayTime > KEEP_ALIVE_THRESHOLD;
    }

    /** The timed entry: the first task in sorted order gives its delay. */
    static method Earliest(timed: seq<ScheduleTask>) returns (timedTask: ScheduleTask)
      ensures timedTask
              == NEW_TASK.(minDelayTime := if timed == [] then DEFAULT_PULLUP_INTERVAL else MinDelay(timed))
    {
      var tasks := Sort(timed);
      SortedFront(timed, tasks);
      timedTask := NEW_TASK;
      if tasks == [] {
        timedTask := timedTask.(minDelayTime := DEFAULT_PULLUP_INTERVAL);
      } else {
        timedTask := timedTask.(minDelayTime := tasks[0].minDelayTime);
      }
    }

    /** The loop that erases the tasks waiting for a network and collects their network types. */
    method TakeNetTasks(all: seq<ScheduleTask>) returns (tasks: seq<ScheduleTask>, netTask: ScheduleTask)
      ensures tasks == Timed(all) && netTask == NEW_TASK.(netType := NetUnion(all))
    {
      tasks, netTask := all, NEW_TASK;
      var i := 0;
      while i < |tasks|
        invariant i <= |tasks| && netTask == NEW_TASK.(netType := netTask.netType)
        invariant Timed(all) == tasks[..i] + Timed(tasks[i..])
        invariant NetUnion(all) == netTask.netType | NetUnion(tasks[i..])
        decreases |tasks| - i
      {
        if tasks[i].netType != NO_NET {
          netTask := netTask.(netType := netTask.netType | tasks[i].netType);
          tasks := tasks[..i] + tasks[i + 1..];
        } else {
          i := i + 1;
        }
      }
      assert tasks[..i] + Timed(tasks[i..]) == tasks;
    }

    method Exit(env: Env) returns (ok: bool)
      modifies access`exited, samgr`policy
      ensures access.exited == old(access.exited) + ExitOrder(access.accessMap)
      ensures ok == ((forall e | e in access.accessMap && e.1.Some? :: e.1.value.exits)
                     && scheduleTasks != []
                     && (forall t | t in scheduleTasks :: t.minDelayTime >= VALID_MIN_INTERVAL)
                     && (env.firstUpdate || env.secondUpdate))
      ensures ok ==> samgr.policy == EventsOf(scheduleTasks, if env.firstUpdate then "awakeloopevent" else "loopevent")
      ensures !ok ==> samgr.policy == old(samgr.policy)
    {
      ok := access.Exit();
      if ok {
        ok := OnDemandSchedule(env);
      }
    }

    method OnDemandSchedule(env: Env) returns (ok: bool)
      modifies samgr`policy
      ensures ok == (scheduleTasks != []
                     && (forall t | t in scheduleTasks :: t.minDelayTime >= VALID_MIN_INTERVAL)
                     && (env.firstUpdate || env.secondUpdate))
      ensures ok ==> samgr.policy == EventsOf(scheduleTasks, if env.firstUpdate then "awakeloopevent" else "loopevent")
      ensures !ok ==> samgr.policy == old(samgr.policy)
    {
      if scheduleTasks == [] {
        return false;
      }
      ok := UpdateStartupPolicy("awakeloopevent", env.firstUpdate);
      if ok {
        return;
      }
      ok := UpdateStartupPolicy("loopevent", env.secondUpdate);
    }

    /** accepted is the answer of UpdateOnDemandPolicy. */
    method UpdateStartupPolicy(eventName: string, accepted: bool) returns (ok: bool)
      modifies samgr`policy
      ensures ok == (accepted && forall t | t in scheduleTasks :: t.minDelayTime >= VALID_MIN_INTERVAL)
      ensures samgr.policy == if ok then EventsOf(scheduleTasks, eventName) else old(samgr.policy)
    {
      var events := [];
      for i := 0 to |scheduleTasks|
        invariant |events| == i && forall j | 0 <= j < i ::
                    && scheduleTasks[j].minDelayTime >= VALID_MIN_INTERVAL
                    && events[j] == TimedEvent(eventName, scheduleTasks[j].minDelayTime)
      {
        if scheduleTasks[i].minDelayTime < VALID_MIN_INTERVAL {
          assert scheduleTasks[i] in scheduleTasks;
          return false;
        }
        events := events + [TimedEvent(eventName, scheduleTasks[i].minDelayTime)];
      }
      ok := accepted;
      if ok {
        samgr.policy := events;
      }
    }
  }

  class StartupManager {
    const scheduleManager: ScheduleManager
    var lastIdleCheckTime: int

    constructor (scheduleManager: ScheduleManager, now: int)
      ensures this.scheduleManager == scheduleManager && lastIdleCheckTime == now
    {
      this.scheduleManager, lastIdleCheckTime := scheduleManager, now;
    }

    /** One round of the idle loop. It reaches SAExit exactly when the remote side was seen idle, every
        access reported idle and then exited, no task waits for the network, the next start is at least
        30 seconds away and one of the two policy updates was accepted; and then the policy that it
        leaves behind is one timed event with the smallest delay. */
    method IdleLoop(env: Env)
      modifies this, scheduleManager, scheduleManager.access`exited, scheduleManager.samgr
      ensures var m := scheduleManager;
              var unload := MayUnload(m.access.isRemoteIdle, m.access.accessMap, old(lastIdleCheckTime), env);
              && m.samgr.unloads == old(m.samgr.unloads) + (if unload then 1 else 0)
              && (if unload then IsPolicyFor(m.samgr.policy, m.access.accessMap, env)
                  else m.samgr.policy == old(m.samgr.policy))
      ensures var m := scheduleManager;
              var idle := SeesIdle(m.access.isRemoteIdle, m.access.accessMap, old(lastIdleCheckTime), env);
              && m.access.exited == old(m.access.exited) + (if idle then ExitOrder(m.access.accessMap) else [])
              && m.scheduleTasks == if idle then Entries(AllTasks(m.access.accessMap)) else old(m.scheduleTasks)
      ensures lastIdleCheckTime
              == if Abs(env.now - old(lastIdleCheckTime)) >= env.interval then env.now else old(lastIdleCheckTime)
    {
      var m := scheduleManager;
      ghost var tasks := AllTasks(m.access.accessMap);
      if Abs(env.now - lastIdleCheckTime) < env.interval {
        return;
      }
      lastIdleCheckTime := env.now;
      var idle := m.IdleCheck();
      if !idle {
        return;
      }
      MayUnloadIff(m.access.isRemoteIdle, m.access.accessMap, old(lastIdleCheckTime), env);
      var exited := m.Exit(env);
      if !exited {
        return;
      }
      assert Entries(tasks) == [NEW_TASK.(minDelayTime := NextDelay(tasks))];
      m.samgr.unloads := m.samgr.unloads + 1;
    }
  }
}
