/** What one step of the daemon does, field by field, for every event. Nothing here speaks through
    the functions that compute it: every step of the loop is proved to be a change of this kind. */
module StepLaws {
  import opened Wrappers
  import opened RipPacket
  import opened Address
  import opened RipRoute
  import opened RouteTables
  import opened RoutingTables
  import opened Updater
  import opened Response
  import opened ResponseLaws
  import opened EntryLaws
  import opened Steps
  import opened Invariants
  import opened Announcements
  import opened Outcomes

  // ----- advertisements

  /** The same routes, none of them flagged. */
  ghost predicate Unflagged(a: Tables, b: Tables) {
    && !b.anyRouteChanged
    && b.okRoutes == (map k | k in a.okRoutes :: a.okRoutes[k].(changed := false))
    && b.garbageRoutes == (map k | k in a.garbageRoutes :: a.garbageRoutes[k].(changed := false))
  }

  /** All routes, or those that have changed, are told, and then none counts as changed. */
  ghost predicate IsTold(cfg: Config, s: State, changedOnly: bool, s': State) {
    && s'.core.kernel == s.core.kernel && s'.lockArmed == s.lockArmed && s'.gcArmed == s.gcArmed
    && Unflagged(s.core.db, s'.core.db)
    && s.sent <= s'.sent
    && TellsElsewhere(s'.sent[|s.sent|..], s.core.db, cfg.interfaces, changedOnly)
  }

  lemma AdvertiseIsTold(cfg: Config, s: State, changedOnly: bool, s': State)
    requires TwoMaps(s.core.db) && Advertise(cfg, s, changedOnly, s')
    ensures IsTold(cfg, s, changedOnly, s')
  {
    hide IsAdvertisement, TellsElsewhere, GoodActive, GoodGarbage;
    var block :|
      && IsAdvertisement(block, s.core.db, cfg.interfaces, changedOnly)
      && s' == s.(core := s.core.(db := s.core.db.MarkUnchanged()), sent := s.sent + block);
    AdvertisementIsSplitHorizon(block, s.core.db, cfg.interfaces, changedOnly);
    assert s'.sent[|s.sent|..] == block;
    ClearedIsUnflagged(s.core.db);
  }

  lemma ClearedIsUnflagged(db: Tables)
    requires TwoMaps(db)
    ensures Unflagged(db, db.MarkUnchanged())
  {
    hide GoodActive, GoodGarbage;
    if !db.anyRouteChanged {
      forall k | k in db.okRoutes ensures db.okRoutes[k] == db.okRoutes[k].(changed := false) {
      }
      forall k | k in db.garbageRoutes ensures db.garbageRoutes[k] == db.garbageRoutes[k].(changed := false) {
      }
    }
  }

  /** What follows the arm: a triggered update of the changed routes, if there are any and the lock
      is free; it arms the lock. */
  ghost predicate FollowUp(cfg: Config, mid: State, s': State) {
    if mid.lockArmed || !mid.core.db.anyRouteChanged then s' == mid
    else IsTold(cfg, mid, true, s'.(lockArmed := mid.lockArmed)) && s'.lockArmed
  }

  /** Every step ends so, whatever its arm: a triggered update carries the changed routes, on every
      interface but their own, and no others (section 3.10.1 of RFC 2453). */
  lemma TriggeredUpdateTellsChanges(cfg: Config, mid: State, s': State)
    requires TwoMaps(mid.core.db) && Trigger(cfg, mid, s')
    ensures FollowUp(cfg, mid, s')
  {
    hide Advertise, IsTold, TwoMaps;
    if WillTrigger(mid) {
      var told :| Advertise(cfg, mid, true, told) && s' == told.(lockArmed := true);
      AdvertiseIsTold(cfg, mid, true, told);
      ToldKeepsLock(cfg, mid, told);
      assert s'.(lockArmed := mid.lockArmed) == told;
    }
  }

  lemma ToldKeepsLock(cfg: Config, s: State, s': State)
    requires IsTold(cfg, s, true, s')
    ensures s'.lockArmed == s.lockArmed
  {
    hide Unflagged, TellsElsewhere;
  }

  // ----- requests

  /** Section 3.9.1 of RFC 2453: one entry, all zero but for the metric. */
  predicate IsWholeTableRequest(p: RipPacket) {
    p.data.header.command == 1 && p.data.entries == [RipEntry(0, 0, 0, 0, 0, 16)]
  }

  /** The requester is told every route of another interface than its own, once, by unicast, and
      nothing else. Nothing but the log changes. */
  ghost predicate IsReply(s: State, p: RipPacket, reply: seq<Datagram>, s': State) {
    && s' == s.(sent := s.sent + reply)
    && (forall d :: d in reply ==>
          d.target == Unicast(p.source, p.port) && d.ifIndex == p.ifInfo.ifIndex && IsResponseDatagram(d))
    && (forall e :: e in EntriesIn(Datas(reply)) <==> StoredElsewhere(s.core.db, e, p.ifInfo.ifIndex, false))
    && |EntriesIn(Datas(reply))| == CountElsewhere(s.core.db, p.ifInfo.ifIndex, false)
  }

  lemma RequestIsAnswered(cfg: Config, s: State, p: RipPacket, now: nat, s': State)
    requires Arm(cfg, s, Received(p), now, s') && IsWholeTableRequest(p)
    ensures exists reply :: IsReply(s, p, reply, s')
  {
    hide IsSelection, Datagrams, EntriesIn, StoredElsewhere, CountElsewhere, HandleEntries, IsResponseDatagram;
    assert p.data.IsRequest();
    var entries :|
      && IsSelection(entries, s.core.db, p.ifInfo.ifIndex, false)
      && s' == s.(sent := s.sent + Datagrams(p.ifInfo.ifIndex, Unicast(p.source, p.port), entries));
    var reply := Datagrams(p.ifInfo.ifIndex, Unicast(p.source, p.port), entries);
    DatagramsAreResponses(p.ifInfo.ifIndex, Unicast(p.source, p.port), entries);
    SelectionSize(entries, s.core.db, p.ifInfo.ifIndex, false);
    forall e ensures e in entries <==> StoredElsewhere(s.core.db, e, p.ifInfo.ifIndex, false) {
      SelectionIsSplitHorizon(entries, s.core.db, p.ifInfo.ifIndex, false, e);
    }
    assert IsReply(s, p, reply, s');
  }

  // ----- timers

  predicate IsOld(cfg: Config, r: RipDbEntry) {
    !r.isLocal && r.timeoutCnt as int + cfg.timeoutIncrement >= cfg.timeoutLimit
  }

  /** A timeout tick for one destination. */
  ghost predicate DestinationTicks(cfg: Config, a: Slot, now: nat, b: Slot) {
    if a.ok.None? then b == a
    else if a.ok.value.isLocal then b == a
    else if IsOld(cfg, a.ok.value) then b.ok.None? && b.garbage.Some? && IsBuried(a.ok.value, now, b.garbage.value)
    else b == a.(ok := Some(a.ok.value.(timeoutCnt := a.ok.value.timeoutCnt + cfg.timeoutIncrement)))
  }

  ghost predicate Ticks(cfg: Config, s: State, now: nat, s': State) {
    var anyOld := exists k :: k in s.core.db.okRoutes && IsOld(cfg, s.core.db.okRoutes[k]);
    && (forall k :: DestinationTicks(cfg, SlotAt(s.core.db, k), now, SlotAt(s'.core.db, k)))
    && s'.core.db.anyRouteChanged == (s.core.db.anyRouteChanged || anyOld)
    && s'.gcArmed == (s.gcArmed || anyOld)
    && s'.lockArmed == s.lockArmed && s'.sent == s.sent
  }

  lemma TimeoutTicks(cfg: Config, s: State, now: nat, s': State)
    requires TimeoutStep(cfg, s, now, s')
    ensures Ticks(cfg, s, now, s')
  {
    hide BuildRouteMessage;
    var ticked := Ticking(s.core, cfg.timeoutIncrement);
    var order :|
      && IsOrder(order, ticked.db.TimedOut(cfg.timeoutLimit))
      && s' == s.(core := RetireAll(ticked, order, now), gcArmed := s.gcArmed || order != []);
    RetireAllResult(ticked, order, now);
    forall k ensures DestinationTicks(cfg, SlotAt(s.core.db, k), now, SlotAt(s'.core.db, k))
      ensures k in order <==> k in s.core.db.okRoutes && IsOld(cfg, s.core.db.okRoutes[k])
    {
      assert k in order <==> k in ticked.db.TimedOut(cfg.timeoutLimit);
    }
    if order != [] {
      assert order[0] in order;
    }
  }

  /** A garbage route stays exactly while its age is below the lifetime. */
  predicate StaysInGarbage(r: RipDbEntry, now: nat, lifetime: nat) {
    r.garbageStartedAt.Some? ==> lifetime > 0 && now < r.garbageStartedAt.value + lifetime
  }

  ghost predicate Collects(cfg: Config, s: State, now: nat, s': State) {
    && s'.core.db.okRoutes == s.core.db.okRoutes && s'.core.db.anyRouteChanged == s.core.db.anyRouteChanged
    && s'.core.db.garbageRoutes
       == (map k | k in s.core.db.garbageRoutes && StaysInGarbage(s.core.db.garbageRoutes[k], now,
           cfg.garbageLifetime) ::
             s.core.db.garbageRoutes[k])
    && (s'.gcArmed <==> exists k :: k in s'.core.db.garbageRoutes)
    && s'.core.kernel == s.core.kernel && s'.lockArmed == s.lockArmed && s'.sent == s.sent
  }

  lemma GarbageTickCollects(cfg: Config, s: State, now: nat)
    ensures Collects(cfg, s, now, GarbageStep(cfg, s, now))
  {
    var garbage := s.core.db.garbageRoutes;
    forall k | k in garbage
      ensures StaysInGarbage(garbage[k], now, cfg.garbageLifetime)
          <==> !OutlivedGarbage(garbage[k], now, cfg.garbageLifetime)
    {
    }
    var left := GarbageStep(cfg, s, now).core.db.garbageRoutes;
    assert left != map[] <==> exists k :: k in left;
  }

  // ----- local routes

  /** The destination of a configured network: the address without its host bits, and a mask of
      the given length. */
  function NetworkKey(n: AdvertisedNetwork): RouteKey
    requires n.prefix <= 32
  {
    RouteKey(NetworkPart(n.address, Pow2(32 - n.prefix)), SizeMask(n.prefix))
  }

  function NetworkPart(address: u32, size: nat): u32
    requires size > 0
  {
    RemainderAtMost(address, size);
    address - address % size
  }

  lemma RemainderAtMost(x: nat, size: nat)
    requires size > 0
    ensures 0 <= x % size <= x
  {
    assert x == (x / size) * size + x % size;
    MulMonotone(0, x / size, size);
  }

  function SizeMask(prefix: nat): u32
    requires prefix <= 32
  {
    Pow2Bounds(32 - prefix);
    0x1_0000_0000 - Pow2(32 - prefix)
  }

  lemma Pow2Bounds(n: nat)
    requires n <= 32
    ensures 1 <= Pow2(n) <= 0x1_0000_0000
  {
    Pow2Values();
    if n < 32 {
      Pow2Less(n, 32);
    }
  }

  function LocalRecord(n: AdvertisedNetwork): RipDbEntry
    requires n.prefix <= 32
  {
    var k := NetworkKey(n);
    RipDbEntry(RipEntry(2, 0, k.ipAddress, k.subnetMask, 0, 1), n.ifIndex, n.dev, true, true, false, 0, None)
  }

  /** A good network is added and flagged, unless its destination is active. */
  ghost predicate Adds(a: Tables, n: AdvertisedNetwork, b: Tables) {
    if n.prefix > 32 || NetworkKey(n) in a.okRoutes then b == a
    else b == Tables(a.okRoutes[NetworkKey(n) := LocalRecord(n)], a.garbageRoutes, true)
  }

  lemma LocalRouteRecord(n: AdvertisedNetwork)
    ensures var r := AdvertisedNetworkToLocalRoute(n);
            && (r.Success? <==> n.prefix <= 32)
            && (r.Success? ==>
                  && NewLocal(r.value.entry, r.value.ifIndex, r.value.ifName) == LocalRecord(n)
                  && KeyOf(r.value.entry) == NetworkKey(n))
  {
    hide And, ShiftLeft, LeadingOnes, Pow2, PrefixToMask;
    if n.prefix <= 32 {
      MaskValue(n.prefix);
      Pow2Values();
      AndMask(n.address, 32 - n.prefix, 32);
    } else {
      NoMask(n.prefix);
    }
  }

  lemma NoMask(prefix: u32)
    requires prefix > 32
    ensures PrefixToMask(prefix).Failure?
  {
  }

  lemma NetworkIsAdded(db: Tables, n: AdvertisedNetwork)
    ensures Adds(db, n, AddNetwork(db, n))
  {
    hide AdvertisedNetworkToLocalRoute, NewLocal, NetworkKey, LocalRecord, KeyOf;
    LocalRouteRecord(n);
    var r := AdvertisedNetworkToLocalRoute(n);
    if r.Success? {
      NewLocalKey(r.value.entry, r.value.ifIndex, r.value.ifName);
    }
  }

  lemma NewLocalKey(e: RipEntry, ifIndex: u32, ifName: string)
    ensures Key(NewLocal(e, ifIndex, ifName)) == KeyOf(e) && NewLocal(e, ifIndex, ifName).changed
  {
  }

  lemma SetupStep(networks: seq<AdvertisedNetwork>)
    requires networks != []
    ensures var n := |networks| - 1;
            var before, after := Setup(networks[..n]), Setup(networks);
            && (after.Success? <==>
                  before.Success? && networks[n].prefix <= 32 && NetworkKey(networks[n]) !in before.value.okRoutes)
            && (after.Success? ==>
                  && after.value.okRoutes == before.value.okRoutes[NetworkKey(networks[n]) := LocalRecord(networks[n])]
                  && after.value.garbageRoutes == before.value.garbageRoutes && after.value.anyRouteChanged)
  {
    hide AdvertisedNetworkToLocalRoute, NetworkKey, LocalRecord, AddNetwork, NewLocal, KeyOf;
    var n := |networks| - 1;
    LocalRouteRecord(networks[n]);
    if Setup(networks[..n]).Success? {
      NetworkIsAdded(Setup(networks[..n]).value, networks[n]);
    }
  }

  /** Every network is good, and no two are of the same destination. */
  ghost predicate AreCompatible(networks: seq<AdvertisedNetwork>) {
    && (forall i :: 0 <= i < |networks| ==> networks[i].prefix <= 32)
    && (forall i, j :: 0 <= i < j < |networks| ==> NetworkKey(networks[i]) != NetworkKey(networks[j]))
  }

  ghost predicate HoldsExactly(db: Tables, networks: seq<AdvertisedNetwork>)
    requires AreCompatible(networks)
  {
    && db.garbageRoutes == map[] && (db.anyRouteChanged <==> networks != [])
    && (forall i :: 0 <= i < |networks| ==>
          NetworkKey(networks[i]) in db.okRoutes && db.okRoutes[NetworkKey(networks[i])] == LocalRecord(networks[i]))
    && (forall k :: k in db.okRoutes ==> exists i :: 0 <= i < |networks| && k == NetworkKey(networks[i]))
  }

  lemma CompatibleStep(init: seq<AdvertisedNetwork>, last: AdvertisedNetwork)
    ensures AreCompatible(init + [last]) <==>
            && AreCompatible(init) && last.prefix <= 32
            && forall i :: 0 <= i < |init| ==> NetworkKey(init[i]) != NetworkKey(last)
  {
    hide NetworkKey;
    var all := init + [last];
    assert forall i :: 0 <= i < |init| ==> all[i] == init[i];
    assert all[|init|] == last;
    if AreCompatible(all) {
      assert forall i, j :: 0 <= i < j < |init| ==> all[i] == init[i] && all[j] == init[j];
    }
  }

  lemma HoldsStep(a: Tables, init: seq<AdvertisedNetwork>, last: AdvertisedNetwork, b: Tables)
    requires AreCompatible(init) && AreCompatible(init + [last]) && last.prefix <= 32 && HoldsExactly(a, init)
    requires b.okRoutes == a.okRoutes[NetworkKey(last) := LocalRecord(last)]
    requires b.garbageRoutes == a.garbageRoutes && b.anyRouteChanged
    requires NetworkKey(last) !in a.okRoutes
    ensures HoldsExactly(b, init + [last])
  {
    hide NetworkKey, LocalRecord;
    var all := init + [last];
    forall i | 0 <= i < |all|
      ensures NetworkKey(all[i]) in b.okRoutes && b.okRoutes[NetworkKey(all[i])] == LocalRecord(all[i])
    {
      if i < |init| {
        assert all[i] == init[i];
      }
    }
    forall k | k in b.okRoutes ensures exists i :: 0 <= i < |all| && k == NetworkKey(all[i]) {
      if k == NetworkKey(last) {
        assert all[|init|] == last;
      } else {
        var i :| 0 <= i < |init| && k == NetworkKey(init[i]);
        assert all[i] == init[i];
      }
    }
  }

  lemma KeyIsHeld(db: Tables, networks: seq<AdvertisedNetwork>, k: RouteKey)
    requires AreCompatible(networks) && HoldsExactly(db, networks)
    ensures k in db.okRoutes <==> exists i :: 0 <= i < |networks| && NetworkKey(networks[i]) == k
  {
    hide NetworkKey, LocalRecord;
  }

  /** The daemon starts exactly with compatible networks, and then holds exactly these. */
  lemma {:induction false} SetupHoldsNetworks(networks: seq<AdvertisedNetwork>)
    ensures Setup(networks).Success? <==> AreCompatible(networks)
    ensures Setup(networks).Success? ==> HoldsExactly(Setup(networks).value, networks)
  {
    if networks == [] {
    } else {
      hide NetworkKey, LocalRecord, Setup, AreCompatible, HoldsExactly;
      var n := |networks| - 1;
      var init, last := networks[..n], networks[n];
      SetupHoldsNetworks(init);
      SetupStep(networks);
      CompatibleStep(init, last);
      assert networks == init + [last];
      if Setup(init).Success? && last.prefix <= 32 {
        KeyIsHeld(Setup(init).value, init, NetworkKey(last));
        if Setup(networks).Success? {
          HoldsStep(Setup(init).value, init, last, Setup(networks).value);
        }
      }
    }
  }

  // ----- responses

  ghost predicate AreStages(tables: seq<Tables>, entries: seq<RipEntry>, source: u32, ifInfo: RipIfInfo, now: nat) {
    && |tables| == |entries| + 1
    && forall i :: 0 <= i < |entries| ==> EntryActs(tables[i], entries[i], source, ifInfo, now, tables[i + 1])
  }

  /** The entries act one after the other. */
  ghost predicate EntriesAct(a: Tables, entries: seq<RipEntry>, source: u32, ifInfo: RipIfInfo, now: nat, b: Tables) {
    exists tables :: AreStages(tables, entries, source, ifInfo, now) && tables[0] == a && tables[|entries|] == b
  }

  lemma {:induction false} EntriesActInOrder(c: Core, entries: seq<RipEntry>, source: u32, ifInfo: RipIfInfo, now: nat)
    requires KeysMatch(c.db)
    ensures KeysMatch(HandleEntries(c, entries, source, ifInfo, now).db)
    ensures EntriesAct(c.db, entries, source, ifInfo, now, HandleEntries(c, entries, source, ifInfo, now).db)
  {
    hide HandleEntry, KeysMatch, EntryActs;
    if entries == [] {
      assert AreStages([c.db], entries, source, ifInfo, now);
    } else {
      var n := |entries| - 1;
      var before := HandleEntries(c, entries[..n], source, ifInfo, now);
      EntriesActInOrder(c, entries[..n], source, ifInfo, now);
      var tables :|
        AreStages(tables, entries[..n], source, ifInfo, now) && tables[0] == c.db && tables[n] == before.db;
      EntryIsLocal(before, entries[n], source, ifInfo, now);
      EntryEffect(before, entries[n], source, ifInfo, now);
      var all := tables + [HandleEntry(before, entries[n], source, ifInfo, now).db];
      assert AreStages(all, entries, source, ifInfo, now);
    }
  }

  /** A response is a packet of command 2 and version 2; from another port than 520 it is ignored. */
  ghost predicate IsProcessed(s: State, p: RipPacket, now: nat, s': State) {
    && p.data.header.command == 2 && p.data.header.version == 2
    && s'.sent == s.sent && s'.lockArmed == s.lockArmed && s'.gcArmed == s.gcArmed
    && if p.port == 520 then EntriesAct(s.core.db, p.data.entries, p.source, p.ifInfo, now, s'.core.db)
       else s'.core == s.core
  }

  lemma ResponseIsProcessed(cfg: Config, s: State, p: RipPacket, now: nat, s': State)
    requires KeysMatch(s.core.db) && Arm(cfg, s, Received(p), now, s') && !IsWholeTableRequest(p)
    ensures IsProcessed(s, p, now, s')
  {
    hide EntriesAct, HandleEntries, KeysMatch, IsSelection;
    assert !p.data.IsRequest();
    EntriesActInOrder(s.core, p.data.entries, p.source, p.ifInfo, now);
  }

  lemma PacketHasMeaning(cfg: Config, s: State, p: RipPacket, now: nat, s': State)
    requires KeysMatch(s.core.db) && PacketStep(s, p, now, s')
    ensures if IsWholeTableRequest(p) then exists reply :: IsReply(s, p, reply, s') else IsProcessed(s, p, now, s')
  {
    hide PacketStep, IsWholeTableRequest, IsReply, IsProcessed;
    if IsWholeTableRequest(p) {
      RequestIsAnswered(cfg, s, p, now, s');
    } else {
      ResponseIsProcessed(cfg, s, p, now, s');
    }
  }

  /** The packets that do not end the daemon. */
  lemma WellFormedByFields(e: Event)
    ensures WellFormed(e) <==>
            (e.Received? ==>
               var header := e.packet.data.header;
               IsWholeTableRequest(e.packet) || (header.command == 2 && header.version == 2))
  {
  }

  // ----- whole steps

  /** What the arm of an event does, field by field. */
  ghost predicate ArmMeans(cfg: Config, s: State, e: Event, now: nat, s': State) {
    match e
    case RequestWarmup => s' == s
    case UpdateTimer => IsTold(cfg, s, false, s')
    case LockExpired => s.lockArmed && s' == s.(lockArmed := false)
    case TimeoutTick => Ticks(cfg, s, now, s')
    case GarbageTick => s.gcArmed && Collects(cfg, s, now, s')
    case Received(p) =>
      if IsWholeTableRequest(p) then exists reply :: IsReply(s, p, reply, s')
      else IsProcessed(s, p, now, s')
    case AddLocal(n) => s' == s.(core := s.core.(db := s'.core.db)) && Adds(s.core.db, n, s'.core.db)
    case OtherHttp => s' == s
  }

  /** The kernel has the active remote routes installed, each by its fields, and nothing else. */
  ghost predicate KernelIsCurrent(c: Core) {
    forall m :: m in c.kernel.table <==> IsInstalled(c.db, m)
  }

  lemma ArmHasMeaning(cfg: Config, s: State, e: Event, now: nat, s': State)
    requires Consistent(s.core) && Arm(cfg, s, e, now, s')
    ensures ArmMeans(cfg, s, e, now, s')
  {
    hide Consistent, Advertise, IsTold, TimeoutStep, Ticks, GarbageStep, Collects, PacketStep, IsProcessed, IsReply,
         Adds, AddNetwork, IsWholeTableRequest;
    ConsistentTables(s.core);
    match e {
      case UpdateTimer => AdvertiseIsTold(cfg, s, false, s');
      case TimeoutTick => TimeoutTicks(cfg, s, now, s');
      case GarbageTick => GarbageTickCollects(cfg, s, now);
      case Received(p) =>
        PacketHasMeaning(cfg, s, p, now, s');
      case AddLocal(n) => NetworkIsAdded(s.core.db, n);
      case _ =>
    }
  }

  lemma ConsistentTables(c: Core)
    requires Consistent(c)
    ensures TwoMaps(c.db) && KeysMatch(c.db) && KernelIsCurrent(c)
  {
    hide IsNetMaskValid, IsUnicastAddress;
    KernelIsImageOfActiveRoutes(c);
  }

  /** Every step of the loop, whatever the event: first what the arm of the event is for, then a
      triggered update of what has changed, unless the lock is armed; and each leaves the kernel
      with the active remote routes. */
  lemma StepHasMeaning(cfg: Config, s: State, e: Event, now: nat, s': State)
    requires Consistent(s.core) && Next(cfg, s, e, now, s') && NonzeroSource(e)
    ensures exists mid ::
              && ArmMeans(cfg, s, e, now, mid) && FollowUp(cfg, mid, s')
              && KernelIsCurrent(mid.core) && KernelIsCurrent(s'.core)
  {
    hide Consistent, Arm, Trigger, ArmMeans, FollowUp, KernelIsCurrent, TwoMaps;
    var mid :| Arm(cfg, s, e, now, mid) && Trigger(cfg, mid, s');
    ArmPreserves(cfg, s, e, now, mid);
    NextPreserves(cfg, s, e, now, s');
    ArmHasMeaning(cfg, s, e, now, mid);
    ConsistentTables(mid.core);
    ConsistentTables(s'.core);
    TriggeredUpdateTellsChanges(cfg, mid, s');
  }

  /** Over every run. */
  lemma RunHasMeaning(cfg: Config, states: seq<State>, events: seq<Timed>, i: nat)
    requires IsRun(cfg, states, events) && SourcesNonzero(events) && i < |events|
    ensures exists mid ::
              && ArmMeans(cfg, states[i], events[i].event, events[i].now, mid) && FollowUp(cfg, mid, states[i + 1])
              && KernelIsCurrent(mid.core) && KernelIsCurrent(states[i + 1].core)
  {
    hide Consistent, Next, Init, ArmMeans, FollowUp, KernelIsCurrent;
    RunConsistent(cfg, states, events, i);
    StepHasMeaning(cfg, states[i], events[i].event, events[i].now, states[i + 1]);
  }

  // ----- termination

  /** The entry that poisons a route: as stored, but for next hop 0 and metric 16. */
  predicate PoisonsRoute(e: RipEntry, r: RipDbEntry) {
    e == RipEntry(r.ripEntry.routingFamilyId, r.ripEntry.routeTag, r.ripEntry.ipAddress, r.ripEntry.subnetMask, 0, 16)
  }

  ghost predicate PoisonsElsewhere(db: Tables, e: RipEntry, ifIndex: u32) {
    || (exists k :: k in db.okRoutes && db.okRoutes[k].ifIndex != ifIndex && PoisonsRoute(e, db.okRoutes[k]))
    || (exists k :: k in db.garbageRoutes && db.garbageRoutes[k].ifIndex != ifIndex
                    && PoisonsRoute(e, db.garbageRoutes[k]))
  }

  lemma PoisonedIsPoison(db: Tables, e: RipEntry, ifIndex: u32)
    ensures StoredElsewhere(db.PoisonAll(), e, ifIndex, false) <==> PoisonsElsewhere(db, e, ifIndex)
  {
    var poisoned := db.PoisonAll();
    forall k | k in db.okRoutes
      ensures k in KeysElsewhere(poisoned.okRoutes, ifIndex, false) <==> db.okRoutes[k].ifIndex != ifIndex
      ensures Announces(e, poisoned.okRoutes[k]) <==> PoisonsRoute(e, db.okRoutes[k])
    {
    }
    forall k | k in db.garbageRoutes
      ensures k in KeysElsewhere(poisoned.garbageRoutes, ifIndex, false) <==> db.garbageRoutes[k].ifIndex != ifIndex
      ensures Announces(e, poisoned.garbageRoutes[k]) <==> PoisonsRoute(e, db.garbageRoutes[k])
    {
    }
  }

  /** A shutdown that no socket cuts short poisons each stored route on every interface but its
      own, and says nothing else. */
  lemma ShutdownTellsPoison(cfg: Config, s: State, refused: Refusals, s': State)
    requires PoisonIsTold(cfg, s, refused, s') && refused.sends == []
    ensures s.sent <= s'.sent
    ensures var block := s'.sent[|s.sent|..];
            && OnlyMulticast(block, cfg.interfaces)
            && forall i, e :: e in Heard(block, i) <==> i in cfg.interfaces && PoisonsElsewhere(s.core.db, e, i)
  {
    hide IsAdvertisement, StoredElsewhere, PoisonsElsewhere, OnlyMulticast, Heard;
    var poisoned := s.core.db.PoisonAll();
    var block :| IsAdvertisement(block, poisoned, cfg.interfaces, false)
        && Transmitted(block, s.sent, s'.sent, [], refused.sends, refused.sends == []);
    assert s'.sent[|s.sent|..] == block;
    AdvertisementIsSplitHorizon(block, poisoned, cfg.interfaces, false);
    forall i, e ensures StoredElsewhere(poisoned, e, i, false) <==> PoisonsElsewhere(s.core.db, e, i) {
      PoisonedIsPoison(s.core.db, e, i);
    }
  }
}
