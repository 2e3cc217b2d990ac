/** The service side of callback registration: services/engine/src/update_service.cpp and the client
    proxies and death recipients of services/engine/src/update_service_common.cpp. */
module ServerRegistry {
  import opened Common

  type Key = nat      // UpgradeInfo
  type Callback = nat // the client's remote object

  /** A ClientDeathRecipient object; id tells two objects with the same key apart. */
  datatype Recipient = Recipient(id: nat, info: Key)

  datatype ClientProxy = ClientProxy(proxy: Option<Callback>, recipient: Recipient)

  /** clientProxyMap_, the recipients linked to remote objects, isRemoteIdle_ and the number of
      recipients made. */
  datatype Registry = Registry(
    proxies: map<Key, ClientProxy>, links: set<(Callback, Recipient)>, idle: bool, made: nat)

  /** What AddDeathRecipient links for this proxy. */
  function Link(p: ClientProxy): set<(Callback, Recipient)> {
    if p.proxy.Some? then {(p.proxy.value, p.recipient)} else {}
  }

  /** The critical section of UnregisterUpdateCallback. */
  function Unregister(r: Registry, info: Key): Registry {
    if info !in r.proxies then r else
      var proxies := r.proxies - {info};
      Registry(proxies, r.links - Link(r.proxies[info]), proxies == map[], r.made)
  }

  /** The second critical section of RegisterUpdateCallback; map::insert keeps an entry that is there. linkOk is
      the answer of AddDeathRecipient, which is false for an object that is dead already and is not looked at. */
  function Insert(r: Registry, info: Key, cb: Option<Callback>, linkOk: bool): Registry {
    var p := ClientProxy(cb, Recipient(r.made, info));
    var proxies := if info in r.proxies then r.proxies else r.proxies[info := p];
    Registry(proxies, r.links + (if linkOk then Link(p) else {}), proxies == map[], r.made + 1)
  }

  function Register(r: Registry, info: Key, cb: Option<Callback>, linkOk: bool): Registry {
    Insert(Unregister(r, info), info, cb, linkOk)
  }

  const EMPTY := Registry(map[], {}, true, 0)

  /** What clients can see: the callback of each key. */
  function Entries(r: Registry): map<Key, Option<Callback>> {
    map k | k in r.proxies :: r.proxies[k].proxy
  }

  // ---------- The invariants ----------

  ghost predicate IdleIsEmpty(r: Registry) {
    r.idle == (r.proxies == map[])
  }

  /** Each entry has a recipient of its own, for its own key. */
  ghost predicate Numbered(r: Registry) {
    && (forall k | k in r.proxies :: r.proxies[k].recipient.info == k && r.proxies[k].recipient.id < r.made)
    && (forall l | l in r.links :: l.1.id < r.made)
  }

  /** The entry's recipient will be told when its client dies. */
  ghost predicate HasRecipient(r: Registry, k: Key) {
    k in r.proxies && r.proxies[k].proxy.Some? && (r.proxies[k].proxy.value, r.proxies[k].recipient) in r.links
  }

  /** The entry has a callback and no recipient, so nobody removes it when its client dies. */
  ghost predicate IsUnlinked(r: Registry, k: Key) {
    k in r.proxies && r.proxies[k].proxy.Some? && !HasRecipient(r, k)
  }

  ghost predicate Covered(r: Registry) {
    Numbered(r) && forall k :: !IsUnlinked(r, k)
  }

  ghost predicate IsOwnLink(r: Registry, l: (Callback, Recipient)) {
    l.1.info in r.proxies && r.proxies[l.1.info] == ClientProxy(Some(l.0), l.1)
  }

  /** No link besides those of the entries. */
  ghost predicate NoStray(r: Registry) {
    forall l | l in r.links :: IsOwnLink(r, l)
  }

  ghost predicate Exact(r: Registry) {
    Covered(r) && NoStray(r)
  }

  /** What every run of atomic calls keeps. */
  ghost predicate Regular(r: Registry) {
    Numbered(r) && NoStray(r) && IdleIsEmpty(r)
  }

  // ---------- Registration as atomic calls ----------

  datatype Call = RegisterCall(info: Key, cb: Option<Callback>, linkOk: bool) | UnregisterCall(info: Key)

  function AfterCall(r: Registry, call: Call): Registry {
    match call
    case RegisterCall(info, cb, linkOk) => Register(r, info, cb, linkOk)
    case UnregisterCall(info) => Unregister(r, info)
  }

  function After(r: Registry, calls: seq<Call>): Registry
    decreases |calls|
  {
    if calls == [] then r else After(AfterCall(r, calls[0]), calls[1..])
  }

  /** The last call about a key, if it is a registration; searched from the end. */
  function LastWriter(calls: seq<Call>, info: Key): Option<Call>
    decreases |calls|
  {
    if calls == [] then None else
      var last := calls[|calls| - 1];
      if last.info != info then LastWriter(calls[..|calls| - 1], info)
      else if last.RegisterCall? then Some(last) else None
  }

  /** What the registry has for a key that this call has registered. */
  ghost predicate Shows(r: Registry, info: Key, writer: Option<Call>) {
    match writer
    case Some(RegisterCall(_, cb, linkOk)) =>
      info in r.proxies && r.proxies[info].proxy == cb && (HasRecipient(r, info) <==> cb.Some? && linkOk)
    case _ => info !in r.proxies
  }

  lemma UnregisterExact(r: Registry, info: Key)
    requires Regular(r)
    ensures Regular(Unregister(r, info))
    ensures Entries(Unregister(r, info)) == Entries(r) - {info}
    ensures forall k | k != info :: HasRecipient(Unregister(r, info), k) <==> HasRecipient(r, k)
  {
  }

  lemma RegisterExact(r: Registry, info: Key, cb: Option<Callback>, linkOk: bool)
    requires Regular(r)
    ensures Regular(Register(r, info, cb, linkOk))
    ensures Entries(Register(r, info, cb, linkOk)) == Entries(r)[info := cb]
    ensures HasRecipient(Register(r, info, cb, linkOk), info) <==> cb.Some? && linkOk
    ensures forall k | k != info :: HasRecipient(Register(r, info, cb, linkOk), k) <==> HasRecipient(r, k)
  {
    UnregisterExact(r, info);
  }

  lemma {:induction false} AfterAppend(r: Registry, calls: seq<Call>, call: Call)
    ensures After(r, calls + [call]) == AfterCall(After(r, calls), call)
    decreases |calls|
  {
    if calls == [] {
      assert [call][1..] == [];
    } else {
      assert (calls + [call])[1..] == calls[1..] + [call];
      AfterAppend(AfterCall(r, calls[0]), calls[1..], call);
    }
  }

  lemma CallShows(r: Registry, call: Call, info: Key, writer: Option<Call>)
    requires Regular(r) && Shows(r, info, writer)
    ensures Regular(AfterCall(r, call))
    ensures Shows(AfterCall(r, call), info,
                  if call.info != info then writer else if call.RegisterCall? then Some(call) else None)
  {
    match call
    case RegisterCall(k, cb, linkOk) =>
      RegisterExact(r, k, cb, linkOk);
      assert info != k ==> (info in Entries(Register(r, k, cb, linkOk)) <==> info in Entries(r));
    case UnregisterCall(k) =>
      UnregisterExact(r, k);
      assert info != k ==> (info in Entries(Unregister(r, k)) <==> info in Entries(r));
  }

  /** Refinement over whole runs: a last-writer-wins map; an entry has its death recipient exactly if the link of
      its own registration worked, and no other recipient is linked; the idle flag is emptiness. */
  lemma {:induction false} RegistryRefines(calls: seq<Call>, info: Key)
    ensures Regular(After(EMPTY, calls))
    ensures Shows(After(EMPTY, calls), info, LastWriter(calls, info))
    decreases |calls|
  {
    if calls != [] {
      var before, last := calls[..|calls| - 1], calls[|calls| - 1];
      assert calls == before + [last];
      RegistryRefines(before, info);
      AfterAppend(EMPTY, before, last);
      CallShows(After(EMPTY, before), last, info, LastWriter(before, info));
    }
  }

  // ---------- Death of a client ----------

  ghost predicate Owned(r: Registry, k: Key, cb: Callback) {
    k in r.proxies && r.proxies[k].proxy == Some(cb)
  }

  /** A death notice for recipient rec spares every registration but rec's own exactly when no other
      registration has taken over the key: a notice that comes after the key was registered again
      removes the new owner's entry. */
  lemma LateNotice(r: Registry, rec: Recipient)
    ensures (forall k | k in r.proxies && r.proxies[k].recipient != rec :: k in Unregister(r, rec.info).proxies)
            <==> (rec.info !in r.proxies || r.proxies[rec.info].recipient == rec)
  {
    if rec.info in r.proxies && r.proxies[rec.info].recipient != rec {
      assert rec.info !in Unregister(r, rec.info).proxies;
    }
  }

  /** The race itself: client 1 dies, client 2 registers the key before the notice is handled. */
  lemma LateNoticeRace()
    ensures var r1 := Register(EMPTY, 7, Some(1), true);
            var rec := r1.proxies[7].recipient;
            var r2 := Register(r1, 7, Some(2), true);
            Owned(r2, 7, 2) && Unregister(r2, rec.info).proxies == map[]
  {
    var r2 := Register(Register(EMPTY, 7, Some(1), true), 7, Some(2), true);
    assert r2.proxies == map[7 := ClientProxy(Some(2), Recipient(1, 7))];
  }

  /** The registry with the death notices that are under way. */
  datatype Notices = Notices(registry: Registry, pending: set<Recipient>)

  datatype Event = CallEvent(call: Call) | Dies(cb: Callback) | Handled(rec: Recipient)

  ghost predicate CanHappen(v: Notices, e: Event) {
    e.Handled? ==> e.rec in v.pending
  }

  function Happen(v: Notices, e: Event): Notices {
    match e
    case CallEvent(call) => v.(registry := AfterCall(v.registry, call))
    case Dies(cb) => v.(pending := v.pending + set l | l in v.registry.links && l.0 == cb :: l.1)
    case Handled(rec) => Notices(Unregister(v.registry, rec.info), v.pending - {rec})
  }

  /** The pending notices whose key has been registered since the death, and not been given up again. */
  function NextTaken(v: Notices, e: Event, taken: set<Recipient>): set<Recipient> {
    match e
    case CallEvent(RegisterCall(info, _, _)) => taken + set rec | rec in v.pending && rec.info == info
    case CallEvent(UnregisterCall(info)) => set rec | rec in taken && rec.info != info
    case Dies(_) => taken
    case Handled(rec) => set other | other in taken && other.info != rec.info
  }

  /** The notice removes the entry of another registration. */
  ghost predicate Harms(v: Notices, e: Event) {
    e.Handled? && e.rec.info in v.registry.proxies && v.registry.proxies[e.rec.info].recipient != e.rec
  }

  ghost predicate TakenExact(v: Notices, taken: set<Recipient>) {
    && Regular(v.registry) && taken <= v.pending
    && (forall rec | rec in v.pending :: rec.id < v.registry.made)
    && (forall rec | rec in v.pending ::
          rec in taken
          <==> rec.info in v.registry.proxies && v.registry.proxies[rec.info].recipient != rec)
  }

  lemma TakenStep(v: Notices, e: Event, taken: set<Recipient>)
    requires TakenExact(v, taken) && CanHappen(v, e)
    ensures TakenExact(Happen(v, e), NextTaken(v, e, taken))
  {
    match e
    case CallEvent(RegisterCall(info, cb, linkOk)) => RegisterExact(v.registry, info, cb, linkOk);
    case CallEvent(UnregisterCall(info)) => UnregisterExact(v.registry, info);
    case Handled(rec) => UnregisterExact(v.registry, rec.info);
    case Dies(cb) =>
      forall rec | rec in Happen(v, e).pending && rec !in v.pending
        ensures rec.id < v.registry.made
        ensures rec.info in v.registry.proxies && v.registry.proxies[rec.info].recipient == rec
      {
        assert IsOwnLink(v.registry, (cb, rec));
      }
  }

  /** Some notice is handled that does harm, or whose key has been taken. */
  ghost predicate EverHarms(v: Notices, events: seq<Event>)
    decreases |events|
  {
    events != [] && CanHappen(v, events[0])
    && (Harms(v, events[0]) || EverHarms(Happen(v, events[0]), events[1..]))
  }

  ghost predicate EverTaken(v: Notices, events: seq<Event>, taken: set<Recipient>)
    decreases |events|
  {
    events != [] && CanHappen(v, events[0])
    && ((events[0].Handled? && events[0].rec in taken)
        || EverTaken(Happen(v, events[0]), events[1..], NextTaken(v, events[0], taken)))
  }

  /** Over every run with deaths and notices of any delay: no notice removes another registration's entry, if and
      only if none is handled after its key was registered again. */
  lemma {:induction false} NoticesOverRuns(v: Notices, events: seq<Event>, taken: set<Recipient>)
    requires TakenExact(v, taken)
    ensures EverHarms(v, events) <==> EverTaken(v, events, taken)
    decreases |events|
  {
    if events != [] && CanHappen(v, events[0]) {
      TakenStep(v, events[0], taken);
      NoticesOverRuns(Happen(v, events[0]), events[1..], NextTaken(v, events[0], taken));
    }
  }

  /** The entry that this recipient was made for is gone, for good. */
  ghost predicate IsGone(r: Registry, rec: Recipient) {
    Numbered(r) && rec.id < r.made && (rec.info in r.proxies ==> r.proxies[rec.info].recipient != rec)
  }

  /** The entry is gone, or its notice is under way. */
  ghost predicate WillGo(v: Notices, rec: Recipient) {
    Numbered(v.registry) && rec.id < v.registry.made && (rec in v.pending || IsGone(v.registry, rec))
  }

  ghost predicate Happens(v: Notices, events: seq<Event>, w: Notices)
    decreases |events|
  {
    if events == [] then v == w else CanHappen(v, events[0]) && Happens(Happen(v, events[0]), events[1..], w)
  }

  lemma {:induction false} WillGoOverRuns(v: Notices, events: seq<Event>, w: Notices, rec: Recipient)
    requires WillGo(v, rec) && Happens(v, events, w)
    ensures WillGo(w, rec)
    decreases |events|
  {
    if events != [] {
      WillGoOverRuns(Happen(v, events[0]), events[1..], w, rec);
    }
  }

  /** The death of a client removes its entries: however the run goes on, of each entry that had its recipient at
      that moment the notice is still under way, or the entry is gone. */
  lemma DeathRemoves(v: Notices, cb: Callback, events: seq<Event>, w: Notices, k: Key)
    requires Numbered(v.registry) && Happens(Happen(v, Dies(cb)), events, w)
    requires HasRecipient(v.registry, k) && Owned(v.registry, k, cb)
    ensures var rec := v.registry.proxies[k].recipient;
            rec in w.pending || k !in w.registry.proxies || w.registry.proxies[k].recipient != rec
  {
    var rec := v.registry.proxies[k].recipient;
    assert (cb, rec) in v.registry.links;
    WillGoOverRuns(Happen(v, Dies(cb)), events, w, rec);
  }

  /** The notices of todo are still to be handled. */
  ghost predicate Dying(before: Registry, r: Registry, cb: Callback, todo: set<Recipient>) {
    && Regular(r)
    && (forall rec | rec in todo :: (cb, rec) in r.links)
    && (forall l | l in r.links && l.0 == cb :: l.1 in todo)
    && (forall k | k in r.proxies :: k in before.proxies && r.proxies[k] == before.proxies[k])
    && (forall k | k in r.proxies :: HasRecipient(r, k) <==> HasRecipient(before, k))
    && (forall k | k in before.proxies && !(HasRecipient(before, k) && before.proxies[k].proxy == Some(cb)) ::
          k in r.proxies)
  }

  lemma DyingStep(before: Registry, r: Registry, cb: Callback, todo: set<Recipient>, rec: Recipient)
    requires Dying(before, r, cb, todo) && rec in todo
    ensures Dying(before, Unregister(r, rec.info), cb, todo - {rec})
  {
    assert IsOwnLink(r, (cb, rec));
    assert HasRecipient(r, rec.info);
    UnregisterExact(r, rec.info);
    forall other | other in todo - {rec} ensures (cb, other) in Unregister(r, rec.info).links {
      assert (cb, other) in r.links && other != rec;
    }
  }

  // ---------- Registration as two critical sections ----------

  datatype Section = UnregisterSection(info: Key) | InsertSection(info: Key, cb: Option<Callback>, linkOk: bool)

  function Enter(r: Registry, s: Section): Registry {
    match s
    case UnregisterSection(info) => Unregister(r, info)
    case InsertSection(info, cb, linkOk) => Insert(r, info, cb, linkOk)
  }

  function Sections(r: Registry, sections: seq<Section>): Registry
    decreases |sections|
  {
    if sections == [] then r else Sections(Enter(r, sections[0]), sections[1..])
  }

  /** The keys whose entry was made by a registration that could not link its callback. */
  function NextUnlinked(r: Registry, s: Section, unlinked: set<Key>): set<Key> {
    match s
    case UnregisterSection(info) => unlinked - {info}
    case InsertSection(info, cb, linkOk) =>
      if info !in r.proxies && cb.Some? && !linkOk then unlinked + {info} else unlinked
  }

  function UnlinkedAfter(r: Registry, sections: seq<Section>, unlinked: set<Key>): set<Key>
    decreases |sections|
  {
    if sections == [] then unlinked
    else UnlinkedAfter(Enter(r, sections[0]), sections[1..], NextUnlinked(r, sections[0], unlinked))
  }

  ghost predicate UnlinkedAre(r: Registry, unlinked: set<Key>) {
    forall k :: k in unlinked <==> IsUnlinked(r, k)
  }

  lemma EnterKeeps(r: Registry, s: Section)
    requires IdleIsEmpty(r) && Numbered(r)
    ensures IdleIsEmpty(Enter(r, s)) && Numbered(Enter(r, s))
  {
  }

  lemma EnterUnlinked(r: Registry, s: Section, unlinked: set<Key>)
    requires Numbered(r) && UnlinkedAre(r, unlinked)
    ensures UnlinkedAre(Enter(r, s), NextUnlinked(r, s, unlinked))
  {
    var t := Enter(r, s);
    forall k ensures k in NextUnlinked(r, s, unlinked) <==> IsUnlinked(t, k) {
      assert k in unlinked <==> IsUnlinked(r, k);
    }
  }

  /** Whatever the interleaving of critical sections, at every release of the lock the idle flag tells whether the
      map is empty, and the entries without a death recipient are exactly those whose link has failed. */
  lemma {:induction false} SectionsKeep(r: Registry, sections: seq<Section>, unlinked: set<Key>)
    requires IdleIsEmpty(r) && Numbered(r) && UnlinkedAre(r, unlinked)
    ensures IdleIsEmpty(Sections(r, sections)) && Numbered(Sections(r, sections))
    ensures UnlinkedAre(Sections(r, sections), UnlinkedAfter(r, sections, unlinked))
    decreases |sections|
  {
    if sections != [] {
      EnterKeeps(r, sections[0]);
      EnterUnlinked(r, sections[0], unlinked);
      SectionsKeep(Enter(r, sections[0]), sections[1..], NextUnlinked(r, sections[0], unlinked));
    }
  }

  /** The section would link a recipient while the key's entry is another registration's. */
  ghost predicate IsOccupied(r: Registry, s: Section) {
    s.InsertSection? && s.info in r.proxies && s.cb.Some? && s.linkOk
  }

  /** Some second section found its key registered again, and linked its own callback all the same. */
  ghost predicate MetOccupied(r: Registry, sections: seq<Section>)
    decreases |sections|
  {
    sections != []
    && (IsOccupied(r, sections[0]) || MetOccupied(Enter(r, sections[0]), sections[1..]))
  }

  ghost predicate IsStray(r: Registry, l: (Callback, Recipient)) {
    l in r.links && !IsOwnLink(r, l)
  }

  /** The second section leaves links and entries exact exactly when there is no callback, or when the link works
      just if the key is free: a link that works on a taken key is stray, one that fails on a free key is missing. */
  lemma InsertExactIff(r: Registry, info: Key, cb: Option<Callback>, linkOk: bool)
    requires Exact(r)
    ensures Exact(Insert(r, info, cb, linkOk)) <==> cb.None? || (linkOk <==> info !in r.proxies)
  {
    var section := InsertSection(info, cb, linkOk);
    EnterUnlinked(r, section, {});
    assert info in NextUnlinked(r, section, {}) ==> IsUnlinked(Enter(r, section), info);
  }

  /** A stray recipient is never unlinked. */
  lemma {:induction false} StrayStays(r: Registry, sections: seq<Section>, l: (Callback, Recipient))
    requires IdleIsEmpty(r) && Numbered(r) && IsStray(r, l)
    ensures IsStray(Sections(r, sections), l)
    decreases |sections|
  {
    if sections != [] {
      EnterKeeps(r, sections[0]);
      StrayStays(Enter(r, sections[0]), sections[1..], l);
    }
  }

  lemma {:induction false} SectionsStray(r: Registry, sections: seq<Section>)
    requires IdleIsEmpty(r) && Numbered(r) && NoStray(r)
    ensures NoStray(Sections(r, sections)) <==> !MetOccupied(r, sections)
    decreases |sections|
  {
    if sections != [] {
      var section := sections[0];
      EnterKeeps(r, section);
      if IsOccupied(r, section) {
        var l := (section.cb.value, Recipient(r.made, section.info));
        StrayStays(Enter(r, section), sections[1..], l);
        assert !IsOwnLink(Sections(r, sections), l);
      } else {
        SectionsStray(Enter(r, section), sections[1..]);
      }
    }
  }

  /** Over every interleaving of critical sections: the linked recipients are exactly the entries' own, if and
      only if no registration linked its callback after another one had taken its key between its two sections,
      and no entry is one whose link has failed. */
  lemma SectionsExactIff(r: Registry, sections: seq<Section>)
    requires IdleIsEmpty(r) && Exact(r)
    ensures Exact(Sections(r, sections)) <==> !MetOccupied(r, sections) && UnlinkedAfter(r, sections, {}) == {}
  {
    SectionsStray(r, sections);
    SectionsKeep(r, sections, {});
    var unlinked := UnlinkedAfter(r, sections, {});
    assert unlinked != {} ==> exists k :: k in unlinked;
  }

  // ---------- Inside a critical section ----------

  /** The registry as it is seen without the lock; inside says that a section has written the map and not yet
      the flag. */
  datatype Seen = Seen(registry: Registry, inside: bool)

  datatype Write = MapWrite(section: Section) | FlagWrite

  ghost predicate WriteEnabled(v: Seen, w: Write) {
    if w.MapWrite? then !v.inside else v.inside
  }

  function Flagged(r: Registry): Registry {
    r.(idle := r.proxies == map[])
  }

  /** An unregister that finds no entry writes nothing. */
  function ApplyWrite(v: Seen, w: Write): Seen {
    match w
    case MapWrite(section) =>
      if section.UnregisterSection? && section.info !in v.registry.proxies then v
      else Seen(Enter(v.registry, section).(idle := v.registry.idle), true)
    case FlagWrite => Seen(Flagged(v.registry), false)
  }

  ghost predicate Writes(v: Seen, writes: seq<Write>, w: Seen)
    decreases |writes|
  {
    if writes == [] then v == w
    else WriteEnabled(v, writes[0]) && Writes(ApplyWrite(v, writes[0]), writes[1..], w)
  }

  /** The two writes are apart: one leaves the flag alone and the other the map; together, without anything between
      them, they are the section. */
  lemma SectionIsWrites(r: Registry, section: Section)
    requires IdleIsEmpty(r)
    ensures var v := ApplyWrite(Seen(r, false), MapWrite(section));
            && v.registry.idle == r.idle && v.registry.proxies == Enter(r, section).proxies
            && (v.inside <==> section.InsertSection? || section.info in r.proxies)
            && if v.inside then WriteEnabled(v, FlagWrite) && ApplyWrite(v, FlagWrite) == Seen(Enter(r, section), false)
               else v.registry == Enter(r, section)
  {
  }

  /** The sections that have been entered. */
  function Entered(writes: seq<Write>): seq<Section> {
    if writes == [] then []
    else (if writes[0].MapWrite? then [writes[0].section] else []) + Entered(writes[1..])
  }

  /** Seen at any moment, the flag is that of the map, except inside a section, where it is the one before it. */
  ghost predicate FlagLags(v: Seen) {
    if v.inside then v.registry.idle ==> |v.registry.proxies| <= 1 else IdleIsEmpty(v.registry)
  }

  lemma FlagLagsStep(v: Seen, w: Write)
    requires FlagLags(v) && WriteEnabled(v, w)
    ensures FlagLags(ApplyWrite(v, w))
  {
    if w.MapWrite? && v.registry.idle && w.section.InsertSection? {
      assert v.registry.proxies == map[];
    }
  }

  lemma {:induction false} FlagLagsOverRuns(v: Seen, writes: seq<Write>, w: Seen)
    requires FlagLags(v) && Writes(v, writes, w)
    ensures FlagLags(w)
    decreases |writes|
  {
    if writes != [] {
      FlagLagsStep(v, writes[0]);
      FlagLagsOverRuns(ApplyWrite(v, writes[0]), writes[1..], w);
    }
  }

  /** The writes add up to the sections. */
  lemma {:induction false} WritesAreSections(v: Seen, writes: seq<Write>, w: Seen)
    requires Writes(v, writes, w)
    ensures Flagged(w.registry) == Sections(Flagged(v.registry), Entered(writes))
    decreases |writes|
  {
    if writes != [] {
      var next := ApplyWrite(v, writes[0]);
      WritesAreSections(next, writes[1..], w);
      if writes[0].MapWrite? {
        assert Entered(writes)[1..] == Entered(writes[1..]);
        assert Flagged(next.registry) == Enter(Flagged(v.registry), writes[0].section);
      } else {
        assert Entered(writes) == Entered(writes[1..]);
      }
    }
  }

  /** While the only client replaces its own callback, the flag is true between the two sections. */
  lemma IdleBetweenSections(info: Key, cb: Option<Callback>, linkOk: bool)
    ensures var r := Register(EMPTY, info, cb, linkOk);
            !r.idle && Unregister(r, info).idle
  {
    var r := Register(EMPTY, info, cb, linkOk);
    assert info in r.proxies;
    assert r.proxies - {info} == map[];
  }

  // ---------- The code ----------

  class AccessManagerFlag {
    var isRemoteIdle: bool

    constructor ()
      ensures isRemoteIdle
    {
      isRemoteIdle := true;
    }

    method SetRemoteIdle(idle: bool)
      modifies this
      ensures isRemoteIdle == idle
    {
      isRemoteIdle := idle;
    }
  }

  class UpdateService {
    var clientProxyMap: map<Key, ClientProxy>
    var links: set<(Callback, Recipient)>
    var made: nat
    const access: AccessManagerFlag

    ghost function View(): Registry
      reads this, access
    {
      Registry(clientProxyMap, links, access.isRemoteIdle, made)
    }

    constructor (access: AccessManagerFlag)
      requires access.isRemoteIdle
      ensures this.access == access && View() == EMPTY
    {
      this.access := access;
      clientProxyMap, links, made := map[], {}, 0;
    }

    method UnregisterUpdateCallback(info: Key)
      modifies this, access
      ensures View() == Unregister(old(View()), info)
    {
      if info !in clientProxyMap {
        return;
      }
      links := links - Link(clientProxyMap[info]);
      clientProxyMap := clientProxyMap - {info};
      access.SetRemoteIdle(clientProxyMap == map[]);
    }

    method InsertProxy(info: Key, updateCallback: Option<Callback>, linkOk: bool)
      modifies this, access
      ensures View() == Insert(old(View()), info, updateCallback, linkOk)
    {
      var clientProxy := ClientProxy(updateCallback, Recipient(made, info));
      made := made + 1;
      if linkOk {
        links := links + Link(clientProxy);
      }
      if info !in clientProxyMap {
        clientProxyMap := clientProxyMap[info := clientProxy];
      }
      access.SetRemoteIdle(clientProxyMap == map[]);
    }

    method RegisterUpdateCallback(info: Key, updateCallback: Option<Callback>, linkOk: bool)
      modifies this, access
      ensures View() == Register(old(View()), info, updateCallback, linkOk)
      ensures GetUpgradeCallback(info) == updateCallback
    {
      UnregisterUpdateCallback(info);
      InsertProxy(info, updateCallback, linkOk);
    }

    function GetUpgradeCallback(info: Key): Option<Callback>
      reads this
    {
      if info in clientProxyMap then clientProxyMap[info].proxy else None
    }

    method OnRemoteDied(recipient: Recipient)
      modifies this, access
      ensures View() == Unregister(old(View()), recipient.info)
    {
      UnregisterUpdateCallback(recipient.info);
    }

    /** The IPC framework reports the death of a client's object to every recipient linked to it. When nothing else
        gets in between, exactly the dead client's entries with a recipient go; those whose link has failed stay,
        and the service is not idle. */
    method ReportDeath(cb: Callback)
      requires Regular(View())
      modifies this, access
      ensures Regular(View())
      ensures forall k :: k in clientProxyMap
                <==> k in old(clientProxyMap)
                     && !(old(HasRecipient(View(), k)) && old(clientProxyMap)[k].proxy == Some(cb))
      ensures forall k | k in clientProxyMap :: clientProxyMap[k] == old(clientProxyMap)[k]
    {
      ghost var before := View();
      var todo := set l | l in links && l.0 == cb :: l.1;
      while todo != {}
        invariant Dying(before, View(), cb, todo)
        decreases |todo|
      {
        var rec :| rec in todo;
        DyingStep(before, View(), cb, todo, rec);
        OnRemoteDied(rec);
        todo := todo - {rec};
      }
    }
  }
}
