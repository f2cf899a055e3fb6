/** Safety over whole runs: local routes, the dirty flag and triggered updates, the garbage timer. */
module Runs {
  import opened Wrappers
  import opened RipPacket
  import opened Address
  import opened RipRoute
  import opened RouteTables
  import opened RoutingTables
  import opened Updater
  import opened Response
  import opened ResponseLaws
  import opened Steps
  import opened Invariants

  // ----- local routes are permanent

  predicate KeepsLocal(a: Tables, b: Tables, k: RouteKey) {
    k in a.okRoutes && a.okRoutes[k].isLocal ==> k in b.okRoutes && Stable(a.okRoutes[k], b.okRoutes[k])
  }

  lemma EntryKeepsLocal(c: Core, entry: RipEntry, source: u32, ifInfo: RipIfInfo, now: nat, k: RouteKey)
    requires TwoMaps(c.db) && source != 0
    ensures KeepsLocal(c.db, HandleEntry(c, entry, source, ifInfo, now).db, k)
  {
    hide BuildRouteMessage, IsNetMaskValid, IsUnicastAddress;
  }

  /** Exactly the unspecified source is dangerous: it passes for the next hop of a local route. */
  lemma LocalSurvivesUnlessSourceIsZero(c: Core, entry: RipEntry, source: u32, ifInfo: RipIfInfo, now: nat)
    requires TwoMaps(c.db) && IsEntryValid(entry)
    requires KeyOf(entry) in c.db.okRoutes && c.db.okRoutes[KeyOf(entry)].isLocal
    ensures KeepsLocal(c.db, HandleEntry(c, entry, source, ifInfo, now).db, KeyOf(entry)) <==> source != 0
  {
    hide BuildRouteMessage, IsNetMaskValid, IsUnicastAddress;
  }

  lemma {:induction false} EntriesKeepLocal(c: Core, entries: seq<RipEntry>, source: u32, ifInfo: RipIfInfo,
      now: nat, k: RouteKey)
    requires Consistent(c) && source != 0
    ensures KeepsLocal(c.db, HandleEntries(c, entries, source, ifInfo, now).db, k)
  {
    hide HandleEntry, TwoMaps, KernelAgrees;
    if entries == [] {
    } else {
      var n := |entries| - 1;
      EntriesKeepLocal(c, entries[..n], source, ifInfo, now, k);
      HandleEntriesPreserves(c, entries[..n], source, ifInfo, now);
      EntryKeepsLocal(HandleEntries(c, entries[..n], source, ifInfo, now), entries[n], source, ifInfo, now, k);
    }
  }

  lemma TimeoutKeepsLocal(cfg: Config, s: State, now: nat, s': State, k: RouteKey)
    requires TimeoutStep(cfg, s, now, s')
    ensures KeepsLocal(s.core.db, s'.core.db, k)
  {
    hide BuildRouteMessage, Expired;
    var ticked := Ticking(s.core, cfg.timeoutIncrement);
    var order :|
      && IsOrder(order, ticked.db.TimedOut(cfg.timeoutLimit))
      && s' == s.(core := RetireAll(ticked, order, now), gcArmed := s.gcArmed || order != []);
    RetireAllResult(ticked, order, now);
    if k in s.core.db.okRoutes && s.core.db.okRoutes[k].isLocal {
      assert k !in order;
      assert SlotAt(s'.core.db, k) == SlotAt(ticked.db, k);
    }
  }

  lemma NextKeepsLocal(cfg: Config, s: State, e: Event, now: nat, s': State, k: RouteKey)
    requires Consistent(s.core) && NonzeroSource(e) && Next(cfg, s, e, now, s')
    ensures KeepsLocal(s.core.db, s'.core.db, k)
  {
    hide Consistent, TimeoutStep, HandleEntries, IsSelection, IsAdvertisement;
    var mid :| Arm(cfg, s, e, now, mid) && Trigger(cfg, mid, s');
    match e {
      case TimeoutTick => TimeoutKeepsLocal(cfg, s, now, mid, k);
      case Received(p) => EntriesKeepLocal(s.core, p.data.entries, p.source, p.ifInfo, now, k);
      case _ =>
    }
  }

  /** Once added, a local route keeps its entry and interface for the rest of the run: packets
      and ticks neither replace nor refresh, poison or time it out. */
  lemma {:induction false} LocalRoutesArePermanent(cfg: Config, states: seq<State>, events: seq<Timed>, i: nat,
      j: nat, k: RouteKey)
    requires IsRun(cfg, states, events) && SourcesNonzero(events) && i <= j <= |events|
    ensures KeepsLocal(states[i].core.db, states[j].core.db, k)
    decreases j
  {
    hide Consistent, Next, Init;
    if i == j {
    } else {
      LocalRoutesArePermanent(cfg, states, events, i, j - 1, k);
      RunConsistent(cfg, states, events, j - 1);
      NextKeepsLocal(cfg, states[j - 1], events[j - 1].event, events[j - 1].now, states[j], k);
    }
  }

  // ----- the dirty flag and triggered updates

  /** At every loop head but the first, the lock is armed or no stored route is flagged changed,
      so that no change waits for anything but the lock. */
  lemma ChangesWaitOnlyForTheLock(cfg: Config, states: seq<State>, events: seq<Timed>, i: nat)
    requires IsRun(cfg, states, events) && SourcesNonzero(events) && 0 < i <= |events|
    ensures var s := states[i];
            s.lockArmed || (
              && (forall k :: k in s.core.db.okRoutes ==> !s.core.db.okRoutes[k].changed)
              && (forall k :: k in s.core.db.garbageRoutes ==> !s.core.db.garbageRoutes[k].changed))
  {
    hide Arm, IsAdvertisement, KernelAgrees, GoodActive, GoodGarbage, Init;
    RunConsistent(cfg, states, events, i);
    assert Next(cfg, states[i - 1], events[i - 1].event, events[i - 1].now, states[i]);
  }

  /** The step from loop head i sends a triggered update. */
  ghost predicate TriggersAt(cfg: Config, states: seq<State>, events: seq<Timed>, i: nat)
    requires |states| == |events| + 1 && i < |events|
  {
    exists mid ::
      && Arm(cfg, states[i], events[i].event, events[i].now, mid)
      && WillTrigger(mid)
      && Trigger(cfg, mid, states[i + 1])
  }

  lemma OnlyExpiryReleasesLock(cfg: Config, s: State, e: Event, now: nat, mid: State)
    requires Arm(cfg, s, e, now, mid) && s.lockArmed && e != LockExpired
    ensures mid.lockArmed
  {
    hide IsSelection, IsAdvertisement, HandleEntries, RetireAll, IsOrder;
  }

  lemma {:induction false} LockStaysArmed(cfg: Config, states: seq<State>, events: seq<Timed>, i: nat, j: nat)
    requires IsRun(cfg, states, events) && i <= j <= |events| && states[i].lockArmed
    requires forall m :: i <= m < j ==> events[m].event != LockExpired
    ensures states[j].lockArmed
    decreases j
  {
    hide Arm, Init, IsAdvertisement;
    if i == j {
    } else {
      LockStaysArmed(cfg, states, events, i, j - 1);
      assert Next(cfg, states[j - 1], events[j - 1].event, events[j - 1].now, states[j]);
      var mid :| Arm(cfg, states[j - 1], events[j - 1].event, events[j - 1].now, mid) && Trigger(cfg, mid, states[j]);
      OnlyExpiryReleasesLock(cfg, states[j - 1], events[j - 1].event, events[j - 1].now, mid);
    }
  }

  /** Two triggered updates are always separated by an expiry of the lock (section 3.10.1 of
      RFC 2453). */
  lemma TriggeredUpdatesAreSeparated(cfg: Config, states: seq<State>, events: seq<Timed>, i: nat, j: nat)
    requires IsRun(cfg, states, events) && i < j < |events|
    requires TriggersAt(cfg, states, events, i) && TriggersAt(cfg, states, events, j)
    ensures exists m :: i < m <= j && events[m].event == LockExpired
  {
    hide Arm, Init, Advertise;
    if forall m :: i < m <= j ==> events[m].event != LockExpired {
      assert states[i + 1].lockArmed;
      LockStaysArmed(cfg, states, events, i + 1, j);
      var mid :| Arm(cfg, states[j], events[j].event, events[j].now, mid) && WillTrigger(mid)
          && Trigger(cfg, mid, states[j + 1]);
      OnlyExpiryReleasesLock(cfg, states[j], events[j].event, events[j].now, mid);
    }
  }

  // ----- garbage

  /** A GC tick keeps exactly the garbage routes that were put there less than a lifetime ago, and
      changes nothing else in the tables but, through a triggered update, changed flags. */
  lemma GarbageTickIsExact(cfg: Config, s: State, now: nat, s': State, k: RouteKey)
    requires TwoMaps(s.core.db) && Next(cfg, s, GarbageTick, now, s')
    ensures k in s'.core.db.garbageRoutes <==>
            && k in s.core.db.garbageRoutes && cfg.garbageLifetime > 0
            && now < s.core.db.garbageRoutes[k].garbageStartedAt.value + cfg.garbageLifetime
    ensures k in s'.core.db.garbageRoutes ==> Stable(s.core.db.garbageRoutes[k], s'.core.db.garbageRoutes[k])
    ensures k in s'.core.db.okRoutes <==> k in s.core.db.okRoutes
    ensures k in s.core.db.okRoutes ==> Stable(s.core.db.okRoutes[k], s'.core.db.okRoutes[k])
  {
    hide IsNetMaskValid, IsUnicastAddress;
  }

  /** A route that stays in garbage while an entry is handled is not touched by it. */
  lemma EntryKeepsGarbage(c: Core, entry: RipEntry, source: u32, ifInfo: RipIfInfo, now: nat, k: RouteKey)
    requires TwoMaps(c.db) && source != 0
    ensures var after := HandleEntry(c, entry, source, ifInfo, now).db;
            k in c.db.garbageRoutes && k in after.garbageRoutes ==> after.garbageRoutes[k] == c.db.garbageRoutes[k]
  {
    hide BuildRouteMessage, IsNetMaskValid, IsUnicastAddress;
  }

  lemma TimeoutKeepsGarbage(cfg: Config, s: State, now: nat, s': State, k: RouteKey)
    requires TwoMaps(s.core.db) && TimeoutStep(cfg, s, now, s') && k in s.core.db.garbageRoutes
    ensures k in s'.core.db.garbageRoutes && s'.core.db.garbageRoutes[k] == s.core.db.garbageRoutes[k]
  {
    hide BuildRouteMessage, Expired, IsNetMaskValid, IsUnicastAddress;
    var ticked := Ticking(s.core, cfg.timeoutIncrement);
    var order :|
      && IsOrder(order, ticked.db.TimedOut(cfg.timeoutLimit))
      && s' == s.(core := RetireAll(ticked, order, now), gcArmed := s.gcArmed || order != []);
    RetireAllResult(ticked, order, now);
    assert k !in order;
    assert SlotAt(s'.core.db, k) == SlotAt(ticked.db, k);
  }

  lemma SameSlotSameGarbage(a: Tables, b: Tables, k: RouteKey)
    requires SlotAt(a, k) == SlotAt(b, k)
    ensures k in a.garbageRoutes <==> k in b.garbageRoutes
    ensures k in a.garbageRoutes ==> a.garbageRoutes[k] == b.garbageRoutes[k]
  {
  }

  /** The entry offers a route to k that is not at infinity. */
  predicate Usable(entry: RipEntry, k: RouteKey) {
    KeyOf(entry) == k && IsEntryValid(entry) && entry.metric <= 14
  }

  /** For a destination that is in garbage only: an unusable entry leaves its record there. */
  lemma EntryLeavesGarbage(c: Core, entry: RipEntry, source: u32, ifInfo: RipIfInfo, now: nat, k: RouteKey)
    requires KeysMatch(c.db) && k in c.db.garbageRoutes && k !in c.db.okRoutes && !Usable(entry, k)
    ensures SlotAt(HandleEntry(c, entry, source, ifInfo, now).db, k) == SlotAt(c.db, k)
  {
    hide BuildRouteMessage, IsEntryValid;
    EntryIsLocal(c, entry, source, ifInfo, now);
  }

  /** What an entry puts into garbage, or puts there anew, is dated now. */
  lemma EntryDatesGarbage(c: Core, entry: RipEntry, source: u32, ifInfo: RipIfInfo, now: nat, k: RouteKey)
    requires KeysMatch(c.db) && k in HandleEntry(c, entry, source, ifInfo, now).db.garbageRoutes
    ensures var r := HandleEntry(c, entry, source, ifInfo, now).db.garbageRoutes[k];
            r.garbageStartedAt == Some(now) || (k in c.db.garbageRoutes && r == c.db.garbageRoutes[k])
  {
    hide BuildRouteMessage, IsEntryValid, UpdateMetric;
  }

  lemma UsableEntryRelearns(c: Core, entry: RipEntry, source: u32, ifInfo: RipIfInfo, now: nat)
    requires Usable(entry, KeyOf(entry)) && KeyOf(entry) !in c.db.okRoutes
    ensures KeyOf(entry) !in HandleEntry(c, entry, source, ifInfo, now).db.garbageRoutes
  {
    hide BuildRouteMessage, IsEntryValid;
  }

  ghost predicate OffersAny(entries: seq<RipEntry>, k: RouteKey) {
    exists e :: e in entries && Usable(e, k)
  }

  /** Exactly what a response does to the record of a destination that is in garbage only, before
      and after: it stays as it is, unless the response offered the destination at some point; then
      it was relearned and poisoned again, and is dated now. */
  lemma {:induction false} PacketGarbageRecord(c: Core, entries: seq<RipEntry>, source: u32, ifInfo: RipIfInfo,
      now: nat, k: RouteKey)
    requires KeysMatch(c.db) && k in c.db.garbageRoutes && k !in c.db.okRoutes
    ensures var after := HandleEntries(c, entries, source, ifInfo, now).db;
            && KeysMatch(after)
            && (!OffersAny(entries, k) ==> SlotAt(after, k) == SlotAt(c.db, k))
            && (OffersAny(entries, k) && k in after.garbageRoutes ==>
                  after.garbageRoutes[k].garbageStartedAt == Some(now))
  {
    hide HandleEntry, KeysMatch, Usable, SlotAt;
    if entries == [] {
    } else {
      var n := |entries| - 1;
      var last, before := entries[n], HandleEntries(c, entries[..n], source, ifInfo, now);
      PacketGarbageRecord(c, entries[..n], source, ifInfo, now, k);
      assert entries == entries[..n] + [last];
      EntryIsLocal(before, last, source, ifInfo, now);
      if OffersAny(entries[..n], k) {
        if k in HandleEntry(before, last, source, ifInfo, now).db.garbageRoutes {
          EntryDatesGarbage(before, last, source, ifInfo, now, k);
        }
      } else {
        SameSlotSameActive(c.db, before.db, k);
        if Usable(last, k) {
          UsableOwnKey(last, k);
          UsableEntryRelearns(before, last, source, ifInfo, now);
        } else {
          SameSlotSameGarbage(c.db, before.db, k);
          EntryLeavesGarbage(before, last, source, ifInfo, now, k);
        }
      }
    }
  }

  lemma UsableOwnKey(entry: RipEntry, k: RouteKey)
    requires Usable(entry, k)
    ensures KeyOf(entry) == k
  {
  }

  lemma SameSlotSameActive(a: Tables, b: Tables, k: RouteKey)
    requires SlotAt(a, k) == SlotAt(b, k)
    ensures k in a.okRoutes <==> k in b.okRoutes
    ensures k in a.okRoutes ==> a.okRoutes[k] == b.okRoutes[k]
  {
  }

  /** A local route shields the garbage below it from every response. */
  lemma {:induction false} LocalShieldsGarbage(c: Core, entries: seq<RipEntry>, source: u32, ifInfo: RipIfInfo,
      now: nat, k: RouteKey)
    requires Consistent(c) && source != 0 && k in c.db.garbageRoutes && k in c.db.okRoutes
    ensures SlotAt(HandleEntries(c, entries, source, ifInfo, now).db, k) == SlotAt(c.db, k)
  {
    hide HandleEntry, Consistent, SlotAt;
    if entries == [] {
    } else {
      var n := |entries| - 1;
      var before := HandleEntries(c, entries[..n], source, ifInfo, now);
      LocalShieldsGarbage(c, entries[..n], source, ifInfo, now, k);
      HandleEntriesPreserves(c, entries[..n], source, ifInfo, now);
      SameSlotSameActive(c.db, before.db, k);
      SameSlotSameGarbage(c.db, before.db, k);
      LocalShieldsFromEntry(before, entries[n], source, ifInfo, now, k);
    }
  }

  lemma LocalShieldsFromEntry(c: Core, entry: RipEntry, source: u32, ifInfo: RipIfInfo, now: nat, k: RouteKey)
    requires Consistent(c) && source != 0 && k in c.db.garbageRoutes && k in c.db.okRoutes
    ensures SlotAt(HandleEntry(c, entry, source, ifInfo, now).db, k) == SlotAt(c.db, k)
  {
    hide BuildRouteMessage, IsNetMaskValid, IsUnicastAddress, KernelAgrees;
    TwoMapsKeysMatch(c.db);
    EntryIsLocal(c, entry, source, ifInfo, now);
  }

  /** The event is a response that offers a destination which is in garbage only. */
  ghost predicate Relearns(db: Tables, e: Event, k: RouteKey) {
    && e.Received? && !e.packet.data.IsRequest() && e.packet.port == RIP_UDP_PORT
    && k !in db.okRoutes && OffersAny(e.packet.data.entries, k)
  }

  lemma ArmKeepsGarbage(cfg: Config, s: State, e: Event, now: nat, s': State, k: RouteKey)
    requires Consistent(s.core) && Arm(cfg, s, e, now, s') && NonzeroSource(e)
    ensures k in s.core.db.garbageRoutes && k in s'.core.db.garbageRoutes ==>
              if Relearns(s.core.db, e, k) then s'.core.db.garbageRoutes[k].garbageStartedAt == Some(now)
              else Stable(s.core.db.garbageRoutes[k], s'.core.db.garbageRoutes[k])
  {
    hide TimeoutStep, IsAdvertisement, IsSelection, Consistent, HandleEntries, AdvertisedNetworkToLocalRoute, OffersAny;
    if k in s.core.db.garbageRoutes {
      match e {
        case TimeoutTick =>
          ConsistentTwoMaps(s.core);
          TimeoutKeepsGarbage(cfg, s, now, s', k);
        case Received(p) =>
          if k in s.core.db.okRoutes {
            LocalShieldsGarbage(s.core, p.data.entries, p.source, p.ifInfo, now, k);
          } else {
            ConsistentTwoMaps(s.core);
            PacketGarbageRecord(s.core, p.data.entries, p.source, p.ifInfo, now, k);
          }
        case _ =>
      }
    }
  }

  lemma ConsistentTwoMaps(c: Core)
    requires Consistent(c)
    ensures TwoMaps(c.db) && KeysMatch(c.db)
  {
  }

  /** A route that is in garbage before and after a step keeps its record, its start time included,
      except if a response took it out and back: then it is dated now. */
  lemma StepKeepsGarbage(cfg: Config, s: State, e: Event, now: nat, s': State, k: RouteKey)
    requires Consistent(s.core) && Next(cfg, s, e, now, s') && NonzeroSource(e)
    ensures k in s.core.db.garbageRoutes && k in s'.core.db.garbageRoutes ==>
              if Relearns(s.core.db, e, k) then s'.core.db.garbageRoutes[k].garbageStartedAt == Some(now)
              else Stable(s.core.db.garbageRoutes[k], s'.core.db.garbageRoutes[k])
  {
    hide Arm, IsAdvertisement, Consistent, Relearns;
    var mid :| Arm(cfg, s, e, now, mid) && Trigger(cfg, mid, s');
    ArmKeepsGarbage(cfg, s, e, now, mid, k);
  }

  /** Over any part of a run in which no response offers the destination, a route that stays in
      garbage keeps its record, its start time included. */
  lemma {:induction false} GarbageStartTimeIsFixed(cfg: Config, states: seq<State>, events: seq<Timed>, i: nat,
      j: nat, k: RouteKey)
    requires IsRun(cfg, states, events) && SourcesNonzero(events) && i <= j <= |events|
    requires forall m :: i <= m < j ==> !Relearns(states[m].core.db, events[m].event, k)
    requires forall m :: i <= m <= j ==> k in states[m].core.db.garbageRoutes
    ensures Stable(states[i].core.db.garbageRoutes[k], states[j].core.db.garbageRoutes[k])
    decreases j
  {
    hide Next, Init, Consistent, Relearns;
    if i == j {
    } else {
      GarbageStartTimeIsFixed(cfg, states, events, i, j - 1, k);
      RunConsistent(cfg, states, events, j - 1);
      StepKeepsGarbage(cfg, states[j - 1], events[j - 1].event, events[j - 1].now, states[j], k);
    }
  }

  /** A response that names a garbage destination twice, usable and then poisoned, takes it out of
      garbage and back within one packet: its clock starts again. */
  lemma RepeatRestartsGarbage(c: Core, usable: RipEntry, poison: RipEntry, source: u32, ifInfo: RipIfInfo, now: nat)
    requires TwoMaps(c.db) && IsEntryValid(usable) && IsEntryValid(poison) && KeyOf(usable) == KeyOf(poison)
    requires usable.metric <= 14 && poison.metric >= 15
    requires KeyOf(usable) in c.db.garbageRoutes && KeyOf(usable) !in c.db.okRoutes
    ensures var after := HandleEntries(c, [usable, poison], source, ifInfo, now).db;
            && KeyOf(usable) in after.garbageRoutes
            && after.garbageRoutes[KeyOf(usable)].garbageStartedAt == Some(now)
  {
    hide BuildRouteMessage, IsEntryValid, TwoMaps;
    var entries := [usable, poison];
    assert entries[..1] == [usable] && [usable][..0] == [];
    assert HandleEntries(c, [usable], source, ifInfo, now) == HandleEntry(c, usable, source, ifInfo, now);
  }

  lemma OnlyEmptyGarbageDisarms(cfg: Config, s: State, e: Event, now: nat, s': State)
    requires Next(cfg, s, e, now, s') && s.gcArmed && !s'.gcArmed
    ensures e == GarbageTick && s'.core.db.garbageRoutes == map[]
  {
    hide IsSelection, IsAdvertisement, HandleEntries, RetireAll, IsOrder;
  }

  lemma TimeoutArmsGarbageTimer(cfg: Config, s: State, now: nat, s': State, k: RouteKey)
    requires Next(cfg, s, TimeoutTick, now, s') && k in s.core.db.okRoutes && k !in s'.core.db.okRoutes
    ensures s'.gcArmed
  {
    hide BuildRouteMessage, Expired, IsAdvertisement;
    var mid :| Arm(cfg, s, TimeoutTick, now, mid) && Trigger(cfg, mid, s');
    var ticked := Ticking(s.core, cfg.timeoutIncrement);
    var order :|
      && IsOrder(order, ticked.db.TimedOut(cfg.timeoutLimit))
      && mid == s.(core := RetireAll(ticked, order, now), gcArmed := s.gcArmed || order != []);
    if order == [] {
      assert mid.core == ticked;
    }
  }

  /** Every route that a timeout sends to garbage is covered by the GC timer for as long as it
      stays there. */
  lemma {:induction false} TimedOutGarbageIsCovered(cfg: Config, states: seq<State>, events: seq<Timed>, i: nat,
      j: nat, k: RouteKey)
    requires IsRun(cfg, states, events) && i < j <= |events|
    requires events[i].event == TimeoutTick && k in states[i].core.db.okRoutes && k !in states[i + 1].core.db.okRoutes
    requires forall m :: i < m <= j ==> k in states[m].core.db.garbageRoutes
    ensures states[j].gcArmed
    decreases j
  {
    hide Next, Init;
    assert Next(cfg, states[j - 1], events[j - 1].event, events[j - 1].now, states[j]);
    if j == i + 1 {
      TimeoutArmsGarbageTimer(cfg, states[i], events[i].now, states[j], k);
    } else {
      TimedOutGarbageIsCovered(cfg, states, events, i, j - 1, k);
      if !states[j].gcArmed {
        OnlyEmptyGarbageDisarms(cfg, states[j - 1], events[j - 1].event, events[j - 1].now, states[j]);
      }
    }
  }

  /** The last valid entry for a destination in a response. */
  function LastValid(entries: seq<RipEntry>, k: RouteKey): Option<RipEntry> {
    if entries == [] then None
    else
      var last := entries[|entries| - 1];
      if KeyOf(last) == k && IsEntryValid(last) then Some(last) else LastValid(entries[..|entries| - 1], k)
  }

  /** The sender is the next hop of the destination from the start, or becomes so by an offer that
      is better than what is stored. */
  ghost predicate TakesOver(db: Tables, entries: seq<RipEntry>, source: u32, k: RouteKey) {
    || (k in db.okRoutes && db.okRoutes[k].ripEntry.nextHop == source)
    || exists e :: e in entries && Usable(e, k) && (k in db.okRoutes ==> db.okRoutes[k].ripEntry.metric > e.metric + 1)
  }

  /** The sender takes the destination over and in the end poisons it. */
  ghost predicate Buries(db: Tables, entries: seq<RipEntry>, source: u32, k: RouteKey) {
    TakesOver(db, entries, source, k) && LastValid(entries, k).Some? && LastValid(entries, k).value.metric >= 15
  }

  /** One valid entry: it takes over or refreshes, buries, or changes nothing. */
  lemma EntryOnSlot(c: Core, e: RipEntry, source: u32, ifInfo: RipIfInfo, now: nat)
    requires KeysMatch(c.db) && IsEntryValid(e) && !(KeyOf(e) in c.db.okRoutes && KeyOf(e) in c.db.garbageRoutes)
    ensures var k := KeyOf(e);
            var before, after := SlotAt(c.db, k), SlotAt(HandleEntry(c, e, source, ifInfo, now).db, k);
            var owned := before.ok.Some? && before.ok.value.ripEntry.nextHop == source;
            if e.metric >= 15 then
              if owned then after.ok.None? && after.garbage.Some? else after == before
            else if before.ok.None? || owned || before.ok.value.ripEntry.metric > e.metric + 1 then
              after.garbage.None? && after.ok.Some? && after.ok.value.ripEntry.nextHop == source
            else after == before
  {
    hide BuildRouteMessage, IsEntryValid, Expired;
  }

  /** What a whole response, whatever it repeats, makes of a destination that is not in garbage. */
  lemma {:induction false} PacketOnSlot(c: Core, entries: seq<RipEntry>, source: u32, ifInfo: RipIfInfo, now: nat,
      k: RouteKey)
    requires KeysMatch(c.db) && k !in c.db.garbageRoutes
    ensures var after := HandleEntries(c, entries, source, ifInfo, now).db;
            var slot, last := SlotAt(after, k), LastValid(entries, k);
            && KeysMatch(after)
            && if !TakesOver(c.db, entries, source, k) then slot == SlotAt(c.db, k)
               else if Buries(c.db, entries, source, k) then slot.ok.None? && slot.garbage.Some?
               else slot.garbage.None? && slot.ok.Some? && slot.ok.value.ripEntry.nextHop == source
  {
    hide HandleEntry, KeysMatch, IsEntryValid;
    if entries == [] {
    } else {
      var n := |entries| - 1;
      var init, last, before := entries[..n], entries[n], HandleEntries(c, entries[..n], source, ifInfo, now);
      PacketOnSlot(c, init, source, ifInfo, now, k);
      assert entries == init + [last];
      EntryIsLocal(before, last, source, ifInfo, now);
      if KeyOf(last) == k {
        if IsEntryValid(last) {
          EntryOnSlot(before, last, source, ifInfo, now);
        } else {
          InvalidEntryIsIgnored(before, last, source, ifInfo, now);
        }
      }
    }
  }

  lemma InvalidEntryIsIgnored(c: Core, entry: RipEntry, source: u32, ifInfo: RipIfInfo, now: nat)
    requires !IsEntryValid(entry)
    ensures HandleEntry(c, entry, source, ifInfo, now) == c
  {
  }

  /** From empty garbage, a response creates garbage exactly when its sender takes over some
      destination, or has it already, and in the end poisons it. */
  lemma PoisonCreatesGarbage(c: Core, entries: seq<RipEntry>, source: u32, ifInfo: RipIfInfo, now: nat)
    requires KeysMatch(c.db) && c.db.garbageRoutes == map[]
    ensures HandleEntries(c, entries, source, ifInfo, now).db.garbageRoutes != map[] <==>
            exists k :: Buries(c.db, entries, source, k)
  {
    hide HandleEntries, KeysMatch, Buries, TakesOver;
    var after := HandleEntries(c, entries, source, ifInfo, now).db;
    forall k ensures k in after.garbageRoutes <==> Buries(c.db, entries, source, k) {
      PacketOnSlot(c, entries, source, ifInfo, now, k);
      OnlyTakeoversBury(c.db, entries, source, k);
    }
    assert after.garbageRoutes != map[] <==> exists k :: k in after.garbageRoutes;
  }

  lemma OnlyTakeoversBury(db: Tables, entries: seq<RipEntry>, source: u32, k: RouteKey)
    ensures Buries(db, entries, source, k) ==> TakesOver(db, entries, source, k)
  {
  }

  predicate Uncovered(s: State) {
    s.core.db.garbageRoutes != map[] && !s.gcArmed
  }

  /** Exactly when a step leaves garbage without a timer: nothing but a response does, and it does
      so exactly if its sender buries some destination while the timer is absent. */
  lemma UncoveredGarbageArises(cfg: Config, s: State, e: Event, now: nat, s': State)
    requires KeysMatch(s.core.db) && Next(cfg, s, e, now, s') && !Uncovered(s)
    ensures Uncovered(s') <==>
            && !s.gcArmed && e.Received? && !e.packet.data.IsRequest() && e.packet.port == RIP_UDP_PORT
            && exists k :: Buries(s.core.db, e.packet.data.entries, e.packet.source, k)
  {
    hide Arm, IsAdvertisement, KeysMatch, Buries;
    var mid :| Arm(cfg, s, e, now, mid) && Trigger(cfg, mid, s');
    assert s'.core.db.garbageRoutes.Keys == mid.core.db.garbageRoutes.Keys && s'.gcArmed == mid.gcArmed;
    KeysDecideEmptiness(s'.core.db.garbageRoutes, mid.core.db.garbageRoutes);
    ArmCreatesGarbage(cfg, s, e, now, mid);
  }

  lemma KeysDecideEmptiness(a: map<RouteKey, RipDbEntry>, b: map<RouteKey, RipDbEntry>)
    requires a.Keys == b.Keys
    ensures a == map[] <==> b == map[]
  {
    assert a == map[] <==> a.Keys == {};
    assert b == map[] <==> b.Keys == {};
  }

  lemma ArmCreatesGarbage(cfg: Config, s: State, e: Event, now: nat, s': State)
    requires KeysMatch(s.core.db) && Arm(cfg, s, e, now, s') && !Uncovered(s)
    ensures Uncovered(s') <==>
            && !s.gcArmed && e.Received? && !e.packet.data.IsRequest() && e.packet.port == RIP_UDP_PORT
            && exists k :: Buries(s.core.db, e.packet.data.entries, e.packet.source, k)
  {
    hide IsAdvertisement, IsSelection, KeysMatch, HandleEntries, AdvertisedNetworkToLocalRoute, Buries;
    match e {
      case UpdateTimer => KeysDecideEmptiness(s.core.db.garbageRoutes, s'.core.db.garbageRoutes);
      case Received(p) =>
        if !p.data.IsRequest() && p.port == RIP_UDP_PORT && !s.gcArmed {
          PoisonCreatesGarbage(s.core, p.data.entries, p.source, p.ifInfo, now);
        }
      case _ =>
    }
  }
}
