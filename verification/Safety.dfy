/** Asynchronous safety of a network: whatever happens to messages and routers, no finite metric
    is ever below the true distance. */
module Safety {
  import opened Wrappers
  import opened RipPacket
  import opened RipRoute
  import opened RouteTables
  import opened Updater
  import opened RoutingTables
  import opened Response
  import opened ResponseLaws
  import opened Steps
  import opened Invariants
  import opened Network

  /** The routers, and those among them that have stopped. The datagrams a router ever sent stay
      in its log, from where they may arrive late, repeatedly, in any order, or never. */
  datatype Net = Net(nodes: map<nat, State>, down: set<nat>)

  ghost predicate Arrives(t: Topology, net: Net, r: nat, packet: RipPacket) {
    exists p: Port, q: Port, d: Datagram ::
      && p.router == r && Adjacent(t, p, q) && q.router in net.nodes
      && p in t.address && q in t.address
      && d in net.nodes[q.router].sent && d.ifIndex == q.ifIndex
      && packet.ifInfo.ifIndex == p.ifIndex && packet.source == t.address[q]
      && ParsePacket(d.data) == Success(packet.data)
  }

  /** Responses come from the network, local routes are those of the topology. */
  ghost predicate Possible(t: Topology, net: Net, r: nat, e: Event) {
    && (e.Received? && e.packet.data.IsResponse() ==> Arrives(t, net, r, e.packet))
    && (e.AddLocal? && AdvertisedNetworkToLocalRoute(e.network).Success? ==>
          Originates(t, r, KeyOf(AdvertisedNetworkToLocalRoute(e.network).value.entry)))
  }

  /** One router handles one event, to the end or up to the failure of one of its sends. */
  ghost predicate RouterStep(t: Topology, cfgs: map<nat, Config>, net: Net, r: nat, e: Event, now: nat, s': State,
      kept: nat, net': Net) {
    && r in net.nodes && r !in net.down && r in cfgs
    && Possible(t, net, r, e) && Next(cfgs[r], net.nodes[r], e, now, s')
    && |net.nodes[r].sent| <= kept <= |s'.sent|
    && net' == Net(
         net.nodes[r := s'.(sent := s'.sent[..kept])],
         if kept == |s'.sent| then net.down else net.down + {r})
  }

  /** One router shuts down; its poison may go out in part. */
  ghost predicate ShutdownStep(cfgs: map<nat, Config>, net: Net, r: nat, block: seq<Datagram>, kept: nat, net': Net) {
    && r in net.nodes && r !in net.down && r in cfgs
    && IsAdvertisement(block, net.nodes[r].core.db.PoisonAll(), cfgs[r].interfaces, false)
    && kept <= |block|
    && var s := net.nodes[r];
       net' == Net(net.nodes[r := s.(core := s.core.(db := s.core.db.PoisonAll()), sent := s.sent + block[..kept])],
           net.down + {r})
  }

  ghost predicate NetNext(t: Topology, cfgs: map<nat, Config>, net: Net, net': Net) {
    || (exists r, e, now, s', kept :: RouterStep(t, cfgs, net, r, e, now, s', kept, net'))
    || (exists r, block, kept :: ShutdownStep(cfgs, net, r, block, kept, net'))
  }

  ghost predicate NetInit(t: Topology, net: Net) {
    && net.down == {}
    && forall r :: r in net.nodes ==>
         && Init(net.nodes[r])
         && forall k :: k in net.nodes[r].core.db.okRoutes ==> Originates(t, r, k)
  }

  ghost predicate IsNetRun(t: Topology, cfgs: map<nat, Config>, nets: seq<Net>) {
    && |nets| > 0
    && NetInit(t, nets[0])
    && forall i :: 0 <= i < |nets| - 1 ==> NetNext(t, cfgs, nets[i], nets[i + 1])
  }

  // ----- the safety invariant

  /** A finite metric claims no more than the topology offers. */
  ghost predicate SafeEntry(t: Topology, r: nat, e: RipEntry) {
    e.metric < RIP_INFINITY_METRIC ==> e.metric >= 1 && Within(t, r, KeyOf(e), e.metric - 1)
  }

  ghost predicate SafeTables(t: Topology, r: nat, db: Tables) {
    && KeysMatch(db)
    && (forall k :: k in db.okRoutes ==> SafeEntry(t, r, db.okRoutes[k].ripEntry))
    && (forall k :: k in db.garbageRoutes ==> SafeEntry(t, r, db.garbageRoutes[k].ripEntry))
  }

  ghost predicate SafeLog(t: Topology, r: nat, sent: seq<Datagram>) {
    forall d, e :: d in sent && e in EntriesIn([d.data]) ==> SafeEntry(t, r, e)
  }

  ghost predicate SafeNet(t: Topology, net: Net) {
    forall r :: r in net.nodes ==> SafeTables(t, r, net.nodes[r].core.db) && SafeLog(t, r, net.nodes[r].sent)
  }

  /** What safe tables tell is safe. */
  lemma TellsSafe(t: Topology, r: nat, db: Tables, sent: seq<Datagram>)
    requires SafeTables(t, r, db) && AllTell(db, sent)
    ensures SafeLog(t, r, sent)
  {
    hide Within, EntriesIn;
    forall d, e | d in sent && e in EntriesIn([d.data]) ensures SafeEntry(t, r, e) {
      assert Tells(db, e);
    }
  }

  lemma SafeLogAppend(t: Topology, r: nat, a: seq<Datagram>, b: seq<Datagram>)
    requires SafeLog(t, r, a) && SafeLog(t, r, b)
    ensures SafeLog(t, r, a + b)
  {
  }

  // ----- what a neighbour says keeps the receiver safe

  lemma EntrySafe(t: Topology, p: Port, q: Port, c: Core, entry: RipEntry, source: u32, ifInfo: RipIfInfo, now: nat)
    requires Adjacent(t, p, q) && SafeEntry(t, q.router, entry) && SafeTables(t, p.router, c.db)
    ensures SafeTables(t, p.router, HandleEntry(c, entry, source, ifInfo, now).db)
  {
    hide BuildRouteMessage, Within;
    if IsEntryValid(entry) {
      var e := ResponseEntryToRoute(entry, source).value;
      assert SafeEntry(t, p.router, e) by {
        if e.metric < RIP_INFINITY_METRIC {
          WithinNextHop(t, p, q, KeyOf(entry), entry.metric - 1);
        }
      }
      UpdateSafe(t, p.router, c, e, ifInfo, now);
    }
  }

  lemma UpdateSafe(t: Topology, r: nat, c: Core, e: RipEntry, ifInfo: RipIfInfo, now: nat)
    requires SafeEntry(t, r, e) && SafeTables(t, r, c.db)
    ensures SafeTables(t, r, UpdateRoute(c, e, ifInfo, now).db)
  {
    hide BuildRouteMessage, SafeTables, SafeEntry, SameRoute, LearnRoute, RetireRoute;
    var k := KeyOf(e);
    SafeKeysMatch(t, r, c.db);
    if k in c.db.okRoutes {
      var refreshed := c.db.Refresh(k);
      RetireSafe(t, r, c, k, now);
      RemoveSafe(t, r, c.db, k);
      LearnSafe(t, r, Core(c.db.RemoveOk(k), c.kernel.Delete(BuildRouteMessage(c.db.okRoutes[k]))), e, ifInfo);
      RefreshSafe(t, r, c.db, k);
      RemoveSafe(t, r, refreshed, k);
      LearnSafe(t, r, Core(refreshed.RemoveOk(k), c.kernel.Delete(BuildRouteMessage(c.db.okRoutes[k]))), e, ifInfo);
    } else {
      RemoveSafe(t, r, c.db, k);
      LearnSafe(t, r, c.(db := c.db.RemoveGarbage(k)), e, ifInfo);
    }
  }

  lemma RetireSafe(t: Topology, r: nat, c: Core, k: RouteKey, now: nat)
    requires SafeTables(t, r, c.db) && k in c.db.okRoutes
    ensures SafeTables(t, r, RetireRoute(c, k, now).db)
  {
    hide BuildRouteMessage, Within;
  }

  lemma RefreshSafe(t: Topology, r: nat, db: Tables, k: RouteKey)
    requires SafeTables(t, r, db)
    ensures SafeTables(t, r, db.Refresh(k))
  {
    hide Within;
  }

  lemma RemoveSafe(t: Topology, r: nat, db: Tables, k: RouteKey)
    requires SafeTables(t, r, db)
    ensures SafeTables(t, r, db.RemoveOk(k)) && SafeTables(t, r, db.RemoveGarbage(k))
  {
    hide Within;
  }

  lemma LearnSafe(t: Topology, r: nat, c: Core, e: RipEntry, ifInfo: RipIfInfo)
    requires SafeEntry(t, r, e) && SafeTables(t, r, c.db)
    ensures SafeTables(t, r, LearnRoute(c, e, ifInfo).db)
  {
    hide BuildRouteMessage, Within;
  }

  lemma {:induction false} EntriesSafe(t: Topology, p: Port, q: Port, c: Core, entries: seq<RipEntry>, source: u32,
      ifInfo: RipIfInfo, now: nat)
    requires Adjacent(t, p, q) && SafeTables(t, p.router, c.db)
    requires forall e :: e in entries ==> SafeEntry(t, q.router, e)
    ensures SafeTables(t, p.router, HandleEntries(c, entries, source, ifInfo, now).db)
  {
    hide HandleEntry, SafeTables, SafeEntry;
    if entries == [] {
    } else {
      var n := |entries| - 1;
      EntriesSafe(t, p, q, c, entries[..n], source, ifInfo, now);
      EntrySafe(t, p, q, HandleEntries(c, entries[..n], source, ifInfo, now), entries[n], source, ifInfo, now);
    }
  }

  /** Tables whose routes are routes of safe tables, or at infinity, are safe. */
  ghost predicate Derived(a: Tables, b: Tables) {
    && KeysMatch(b)
    && (forall k :: k in b.okRoutes ==> FromRoute(a, k, b.okRoutes[k]))
    && (forall k :: k in b.garbageRoutes ==> FromRoute(a, k, b.garbageRoutes[k]))
  }

  predicate FromRoute(a: Tables, k: RouteKey, r: RipDbEntry) {
    || r.ripEntry.metric == RIP_INFINITY_METRIC
    || (k in a.okRoutes && a.okRoutes[k].ripEntry == r.ripEntry)
    || (k in a.garbageRoutes && a.garbageRoutes[k].ripEntry == r.ripEntry)
  }

  lemma DerivedIsSafe(t: Topology, r: nat, a: Tables, b: Tables)
    requires SafeTables(t, r, a) && Derived(a, b)
    ensures SafeTables(t, r, b)
  {
    hide Within;
  }

  lemma TimeoutDerived(cfg: Config, s: State, now: nat, s': State)
    requires KeysMatch(s.core.db) && TimeoutStep(cfg, s, now, s')
    ensures Derived(s.core.db, s'.core.db) && s'.sent == s.sent
  {
    hide BuildRouteMessage;
    var ticked := Ticking(s.core, cfg.timeoutIncrement);
    var order :|
      && IsOrder(order, ticked.db.TimedOut(cfg.timeoutLimit))
      && s' == s.(core := RetireAll(ticked, order, now), gcArmed := s.gcArmed || order != []);
    RetireAllResult(ticked, order, now);
    RetiredIsDerived(s.core.db, s'.core.db, order, cfg.timeoutIncrement, now);
  }

  lemma RetiredIsDerived(a: Tables, b: Tables, order: seq<RouteKey>, increment: u64, now: nat)
    requires KeysMatch(a) && forall k :: k in order ==> k in a.okRoutes
    requires forall k :: k in order ==> SlotAt(b, k) == Slot(None, Some(Expired(a.Tick(increment).okRoutes[k], now)))
    requires forall k :: k !in order ==> SlotAt(b, k) == SlotAt(a.Tick(increment), k)
    ensures Derived(a, b)
  {
    hide SaturatingAdd;
    forall k | k in b.okRoutes ensures Key(b.okRoutes[k]) == k && FromRoute(a, k, b.okRoutes[k]) {
      assert SlotAt(b, k).ok == Some(b.okRoutes[k]);
    }
    forall k | k in b.garbageRoutes ensures Key(b.garbageRoutes[k]) == k && FromRoute(a, k, b.garbageRoutes[k]) {
      assert SlotAt(b, k).garbage == Some(b.garbageRoutes[k]);
    }
  }

  lemma AddNetworkSafe(t: Topology, r: nat, db: Tables, n: AdvertisedNetwork)
    requires SafeTables(t, r, db)
    requires AdvertisedNetworkToLocalRoute(n).Success?
        ==> Originates(t, r, KeyOf(AdvertisedNetworkToLocalRoute(n).value.entry))
    ensures SafeTables(t, r, AddNetwork(db, n))
  {
  }

  lemma AdvertiseSafe(t: Topology, r: nat, cfg: Config, s: State, changedOnly: bool, s': State)
    requires SafeTables(t, r, s.core.db) && SafeLog(t, r, s.sent) && Advertise(cfg, s, changedOnly, s')
    ensures SafeTables(t, r, s'.core.db) && SafeLog(t, r, s'.sent)
  {
    hide IsAdvertisement, SafeTables, SafeLog;
    var block :|
      && IsAdvertisement(block, s.core.db, cfg.interfaces, changedOnly)
      && s' == s.(core := s.core.(db := s.core.db.MarkUnchanged()), sent := s.sent + block);
    AdvertisementTells(s.core.db, block, cfg.interfaces, changedOnly);
    TellsSafe(t, r, s.core.db, block);
    SafeLogAppend(t, r, s.sent, block);
    SafeKeysMatch(t, r, s.core.db);
    assert Derived(s.core.db, s'.core.db);
    DerivedIsSafe(t, r, s.core.db, s'.core.db);
  }

  lemma SafeKeysMatch(t: Topology, r: nat, db: Tables)
    requires SafeTables(t, r, db)
    ensures KeysMatch(db)
  {
  }

  lemma PacketSafe(t: Topology, net: Net, r: nat, p: RipPacket, now: nat, s': State)
    requires SafeNet(t, net) && r in net.nodes && Possible(t, net, r, Received(p))
        && PacketStep(net.nodes[r], p, now, s')
    ensures SafeTables(t, r, s'.core.db) && SafeLog(t, r, s'.sent)
  {
    hide SafeTables, SafeEntry, HandleEntries, IsSelection;
    var s := net.nodes[r];
    if p.data.IsRequest() {
      var entries :|
        && IsSelection(entries, s.core.db, p.ifInfo.ifIndex, false)
        && s' == s.(sent := s.sent + Datagrams(p.ifInfo.ifIndex, Unicast(p.source, p.port), entries));
      SelectionTells(s.core.db, entries, p.ifInfo.ifIndex, Unicast(p.source, p.port), false);
      TellsSafe(t, r, s.core.db, Datagrams(p.ifInfo.ifIndex, Unicast(p.source, p.port), entries));
      SafeLogAppend(t, r, s.sent, Datagrams(p.ifInfo.ifIndex, Unicast(p.source, p.port), entries));
    } else if p.port == RIP_UDP_PORT {
      var a: Port, b: Port, d: Datagram :|
        && a.router == r && Adjacent(t, a, b) && b.router in net.nodes
        && a in t.address && b in t.address
        && d in net.nodes[b.router].sent && d.ifIndex == b.ifIndex
        && p.ifInfo.ifIndex == a.ifIndex && p.source == t.address[b]
        && ParsePacket(d.data) == Success(p.data);
      assert EntriesIn([d.data]) == p.data.entries + [] == p.data.entries;
      EntriesSafe(t, a, b, s.core, p.data.entries, p.source, p.ifInfo, now);
    }
  }

  lemma ArmSafe(t: Topology, net: Net, r: nat, cfg: Config, e: Event, now: nat, s': State)
    requires SafeNet(t, net) && r in net.nodes && Possible(t, net, r, e) && Arm(cfg, net.nodes[r], e, now, s')
    ensures SafeTables(t, r, s'.core.db) && SafeLog(t, r, s'.sent)
  {
    hide SafeLog, TimeoutStep, Advertise, PacketStep, Arrives, AddNetwork, Within;
    var s := net.nodes[r];
    match e {
      case UpdateTimer => AdvertiseSafe(t, r, cfg, s, false, s');
      case TimeoutTick =>
        TimeoutDerived(cfg, s, now, s');
        DerivedIsSafe(t, r, s.core.db, s'.core.db);
      case GarbageTick => DerivedIsSafe(t, r, s.core.db, s'.core.db);
      case Received(p) => PacketSafe(t, net, r, p, now, s');
      case AddLocal(n) => AddNetworkSafe(t, r, s.core.db, n);
      case _ =>
    }
  }

  lemma RouterStepSafe(t: Topology, cfgs: map<nat, Config>, net: Net, r: nat, e: Event, now: nat, s': State,
      kept: nat, net': Net)
    requires SafeNet(t, net) && RouterStep(t, cfgs, net, r, e, now, s', kept, net')
    ensures SafeNet(t, net')
  {
    hide Arm, Advertise, SafeTables, Possible;
    var mid :| Arm(cfgs[r], net.nodes[r], e, now, mid) && Trigger(cfgs[r], mid, s');
    ArmSafe(t, net, r, cfgs[r], e, now, mid);
    if WillTrigger(mid) {
      var after :| Advertise(cfgs[r], mid, true, after) && s' == after.(lockArmed := true);
      AdvertiseSafe(t, r, cfgs[r], mid, true, after);
    }
    assert SafeLog(t, r, s'.sent[..kept]);
  }

  lemma ShutdownStepSafe(t: Topology, cfgs: map<nat, Config>, net: Net, r: nat, block: seq<Datagram>, kept: nat,
      net': Net)
    requires SafeNet(t, net) && ShutdownStep(cfgs, net, r, block, kept, net')
    ensures SafeNet(t, net')
  {
    hide IsAdvertisement, Within;
    var db := net.nodes[r].core.db;
    assert Derived(db, db.PoisonAll());
    DerivedIsSafe(t, r, db, db.PoisonAll());
    AdvertisementTells(db.PoisonAll(), block, cfgs[r].interfaces, false);
    TellsSafe(t, r, db.PoisonAll(), block);
    assert SafeLog(t, r, block[..kept]);
    SafeLogAppend(t, r, net.nodes[r].sent, block[..kept]);
  }

  lemma NetInitSafe(t: Topology, net: Net)
    requires NetInit(t, net)
    ensures SafeNet(t, net)
  {
    forall r | r in net.nodes ensures SafeTables(t, r, net.nodes[r].core.db) && SafeLog(t, r, net.nodes[r].sent) {
      InitSafe(t, r, net.nodes[r]);
    }
  }

  lemma InitSafe(t: Topology, r: nat, s: State)
    requires Init(s) && forall k :: k in s.core.db.okRoutes ==> Originates(t, r, k)
    ensures SafeTables(t, r, s.core.db) && SafeLog(t, r, s.sent)
  {
    var networks :| Setup(networks).Success? && s == State(Core(Setup(networks).value, EMPTY_KERNEL), false, false, []);
    SetupConsistent(networks);
    SetupOnlyLocal(networks);
  }

  lemma NetNextSafe(t: Topology, cfgs: map<nat, Config>, net: Net, net': Net)
    requires SafeNet(t, net) && NetNext(t, cfgs, net, net')
    ensures SafeNet(t, net')
  {
    hide SafeNet, RouterStep, ShutdownStep;
    if r, e, now, s', kept :| RouterStep(t, cfgs, net, r, e, now, s', kept, net') {
      RouterStepSafe(t, cfgs, net, r, e, now, s', kept, net');
    } else {
      var r, block, kept :| ShutdownStep(cfgs, net, r, block, kept, net');
      ShutdownStepSafe(t, cfgs, net, r, block, kept, net');
    }
  }

  lemma {:induction false} NetRunSafe(t: Topology, cfgs: map<nat, Config>, nets: seq<Net>, i: nat)
    requires IsNetRun(t, cfgs, nets) && i < |nets|
    ensures SafeNet(t, nets[i])
  {
    hide SafeNet, NetInit, NetNext;
    if i == 0 {
      NetInitSafe(t, nets[0]);
    } else {
      NetRunSafe(t, cfgs, nets, i - 1);
      assert NetNext(t, cfgs, nets[i - 1], nets[i]);
      NetNextSafe(t, cfgs, nets[i - 1], nets[i]);
    }
  }

  /** With messages delayed, lost, duplicated and reordered, with timeouts, poison, crashes and
      shutdowns at any time: a router that holds a destination with a finite metric m has an
      originator within m - 1 hops, and so has the sender of a finite entry in any datagram. */
  lemma NoMetricBelowDistance(t: Topology, cfgs: map<nat, Config>, nets: seq<Net>, i: nat, r: nat, k: RouteKey)
    requires IsNetRun(t, cfgs, nets) && i < |nets| && r in nets[i].nodes
    ensures var s := nets[i].nodes[r];
            && (k in s.core.db.okRoutes && s.core.db.okRoutes[k].ripEntry.metric < RIP_INFINITY_METRIC ==>
                  var m := s.core.db.okRoutes[k].ripEntry.metric;
                  m >= 1 && Within(t, r, k, m - 1))
            && (forall d, e ::
                  d in s.sent && e in EntriesIn([d.data]) && KeyOf(e) == k && e.metric < RIP_INFINITY_METRIC ==>
                  e.metric >= 1 && Within(t, r, k, e.metric - 1))
  {
    hide Within, EntriesIn;
    NetRunSafe(t, cfgs, nets, i);
    var s := nets[i].nodes[r];
    forall d, e | d in s.sent && e in EntriesIn([d.data]) && KeyOf(e) == k && e.metric < RIP_INFINITY_METRIC
      ensures e.metric >= 1 && Within(t, r, k, e.metric - 1)
    {
      assert SafeEntry(t, r, e);
    }
  }
}
