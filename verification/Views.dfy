/** What the neighbours have been told: the last entry multicast for a destination. */
module Views {
  import opened Wrappers
  import opened RipPacket
  import opened RipRoute
  import opened RouteTables
  import opened RoutingTables
  import opened Updater
  import opened Response
  import opened ResponseLaws
  import opened Steps
  import opened Invariants

  /** The last entry for k that a neighbour on the interface received by multicast. */
  function View(sent: seq<Datagram>, ifIndex: u32, k: RouteKey): Option<RipEntry> {
    LastFor(Heard(sent, ifIndex), k)
  }

  ghost predicate Disjoint(db: Tables) {
    db.okRoutes.Keys !! db.garbageRoutes.Keys
  }

  ghost predicate Told(cfg: Config, sent: seq<Datagram>, k: RouteKey, r: RipDbEntry) {
    forall i :: i in cfg.interfaces && i != r.ifIndex ==> View(sent, i, k) == Some(Advert(r))
  }

  /** No change is pending silently: what is not flagged has been told on every other interface. */
  ghost predicate Coherent(cfg: Config, db: Tables, sent: seq<Datagram>) {
    && (forall k :: k in db.okRoutes && !db.okRoutes[k].changed ==> Told(cfg, sent, k, db.okRoutes[k]))
    && (forall k :: k in db.garbageRoutes && !db.garbageRoutes[k].changed ==> Told(cfg, sent, k, db.garbageRoutes[k]))
  }

  /** Every unflagged route of b was there, unflagged and with the same content, in a. */
  ghost predicate Quiet(a: Tables, b: Tables) {
    && (Disjoint(a) ==> Disjoint(b))
    && (forall k :: k in b.okRoutes && !b.okRoutes[k].changed ==>
                      k in a.okRoutes && SameContent(a.okRoutes[k], b.okRoutes[k]))
    && (forall k :: k in b.garbageRoutes && !b.garbageRoutes[k].changed ==>
                      k in a.garbageRoutes && SameContent(a.garbageRoutes[k], b.garbageRoutes[k]))
  }

  predicate SameContent(a: RipDbEntry, b: RipDbEntry) {
    !a.changed && a.ripEntry == b.ripEntry && a.ifIndex == b.ifIndex
  }

  lemma QuietKeepsCoherent(cfg: Config, a: Tables, b: Tables, sent: seq<Datagram>)
    requires Quiet(a, b) && Coherent(cfg, a, sent)
    ensures Coherent(cfg, b, sent)
  {
    hide View;
    forall k | k in b.okRoutes && !b.okRoutes[k].changed ensures Told(cfg, sent, k, b.okRoutes[k]) {
      assert Told(cfg, sent, k, a.okRoutes[k]);
    }
    forall k | k in b.garbageRoutes && !b.garbageRoutes[k].changed ensures Told(cfg, sent, k, b.garbageRoutes[k]) {
      assert Told(cfg, sent, k, a.garbageRoutes[k]);
    }
  }

  lemma EntryIsQuiet(c: Core, entry: RipEntry, source: u32, ifInfo: RipIfInfo, now: nat)
    requires KeysMatch(c.db)
    ensures Quiet(c.db, HandleEntry(c, entry, source, ifInfo, now).db)
  {
    hide IsEntryValid, UpdateMetric, UpdateRoute, Quiet;
    match ResponseEntryToRoute(entry, source)
    case None => NoChangeIsQuiet(c.db);
    case Some(e) => UpdateIsQuiet(c, e, ifInfo, now);
  }

  lemma UpdateIsQuiet(c: Core, e: RipEntry, ifInfo: RipIfInfo, now: nat)
    requires KeysMatch(c.db)
    ensures Quiet(c.db, UpdateRoute(c, e, ifInfo, now).db)
  {
    hide BuildRouteMessage, SameRoute, Quiet, LearnRoute, ReplaceRoute, RetireRoute;
    var k := KeyOf(e);
    NoChangeIsQuiet(c.db);
    if k in c.db.okRoutes {
      var refreshed := c.(db := c.db.Refresh(k));
      RetireIsQuiet(c, k, now);
      ReplaceIsQuiet(c, c.db.okRoutes[k], e, ifInfo);
      RefreshIsQuiet(c.db, k);
      ReplaceIsQuiet(refreshed, c.db.okRoutes[k], e, ifInfo);
      QuietTransitive(c.db, refreshed.db, ReplaceRoute(refreshed, c.db.okRoutes[k], e, ifInfo).db);
    } else {
      RelearnIsQuiet(c, e, ifInfo);
    }
  }

  lemma RetireIsQuiet(c: Core, k: RouteKey, now: nat)
    requires k in c.db.okRoutes
    ensures Quiet(c.db, RetireRoute(c, k, now).db)
  {
    hide BuildRouteMessage;
  }

  lemma RefreshIsQuiet(db: Tables, k: RouteKey)
    ensures Quiet(db, db.Refresh(k))
  {
  }

  lemma ReplaceIsQuiet(c: Core, oldRoute: RipDbEntry, e: RipEntry, ifInfo: RipIfInfo)
    requires Key(oldRoute) == KeyOf(e) && KeyOf(e) in c.db.okRoutes
    ensures Quiet(c.db, ReplaceRoute(c, oldRoute, e, ifInfo).db)
  {
    hide BuildRouteMessage;
  }

  lemma RelearnIsQuiet(c: Core, e: RipEntry, ifInfo: RipIfInfo)
    ensures Quiet(c.db, LearnRoute(c.(db := c.db.RemoveGarbage(KeyOf(e))), e, ifInfo).db)
  {
    hide BuildRouteMessage;
  }

  lemma NoChangeIsQuiet(a: Tables)
    ensures Quiet(a, a)
  {
  }

  lemma QuietTransitive(a: Tables, b: Tables, c: Tables)
    requires Quiet(a, b) && Quiet(b, c)
    ensures Quiet(a, c)
  {
  }

  lemma {:induction false} EntriesAreQuiet(c: Core, entries: seq<RipEntry>, source: u32, ifInfo: RipIfInfo, now: nat)
    requires KeysMatch(c.db)
    ensures Quiet(c.db, HandleEntries(c, entries, source, ifInfo, now).db)
    ensures KeysMatch(HandleEntries(c, entries, source, ifInfo, now).db)
  {
    hide HandleEntry, KeysMatch, Quiet;
    if entries == [] {
      NoChangeIsQuiet(c.db);
    } else {
      var n := |entries| - 1;
      var before := HandleEntries(c, entries[..n], source, ifInfo, now);
      EntriesAreQuiet(c, entries[..n], source, ifInfo, now);
      EntryIsLocal(before, entries[n], source, ifInfo, now);
      EntryIsQuiet(before, entries[n], source, ifInfo, now);
      QuietTransitive(c.db, before.db, HandleEntry(before, entries[n], source, ifInfo, now).db);
    }
  }

  lemma TimeoutIsQuiet(cfg: Config, s: State, now: nat, s': State)
    requires TimeoutStep(cfg, s, now, s')
    ensures Quiet(s.core.db, s'.core.db)
  {
    hide BuildRouteMessage;
    var ticked := Ticking(s.core, cfg.timeoutIncrement);
    var order :|
      && IsOrder(order, ticked.db.TimedOut(cfg.timeoutLimit))
      && s' == s.(core := RetireAll(ticked, order, now), gcArmed := s.gcArmed || order != []);
    RetireAllResult(ticked, order, now);
    RetiredIsQuiet(s.core.db, s'.core.db, order, cfg.timeoutIncrement, now);
  }

  lemma RetiredIsQuiet(a: Tables, b: Tables, order: seq<RouteKey>, increment: u64, now: nat)
    requires forall k :: k in order ==> k in a.okRoutes
    requires forall k :: k in order ==> SlotAt(b, k) == Slot(None, Some(Expired(a.Tick(increment).okRoutes[k], now)))
    requires forall k :: k !in order ==> SlotAt(b, k) == SlotAt(a.Tick(increment), k)
    ensures Quiet(a, b)
  {
    hide SaturatingAdd;
    forall k | k in b.okRoutes ensures k in a.okRoutes && b.okRoutes[k] == Ticked(a.okRoutes[k], increment)
        && k !in order {
      assert SlotAt(b, k).ok == Some(b.okRoutes[k]);
    }
    forall k | k in b.garbageRoutes
      ensures if k in order then k in a.okRoutes && b.garbageRoutes[k].changed
              else k in a.garbageRoutes && b.garbageRoutes[k] == a.garbageRoutes[k]
    {
      assert SlotAt(b, k).garbage == Some(b.garbageRoutes[k]);
    }
  }

  /** Sending clears no flag before its change has been told. */
  lemma AdvertiseKeepsCoherent(cfg: Config, s: State, changedOnly: bool, s': State)
    requires TwoMaps(s.core.db) && Disjoint(s.core.db) && Coherent(cfg, s.core.db, s.sent)
    requires Advertise(cfg, s, changedOnly, s')
    ensures Coherent(cfg, s'.core.db, s'.sent) && Disjoint(s'.core.db)
  {
    hide GoodActive, GoodGarbage, IsAdvertisement, Heard, LastFor;
    var db, db' := s.core.db, s'.core.db;
    TwoMapsKeysMatch(db);
    var block :|
      && IsAdvertisement(block, db, cfg.interfaces, changedOnly)
      && s' == s.(core := s.core.(db := db.MarkUnchanged()), sent := s.sent + block);
    forall k, i | k in db'.okRoutes && i in cfg.interfaces && i != db'.okRoutes[k].ifIndex
      ensures View(s'.sent, i, k) == Some(Advert(db'.okRoutes[k]))
    {
      AdvertisementHeard(s.sent, block, db, cfg.interfaces, changedOnly, i, k);
      assert k !in db.garbageRoutes;
      assert !db.okRoutes[k].changed ==> Told(cfg, s.sent, k, db.okRoutes[k]);
    }
    forall k, i | k in db'.garbageRoutes && i in cfg.interfaces && i != db'.garbageRoutes[k].ifIndex
      ensures View(s'.sent, i, k) == Some(Advert(db'.garbageRoutes[k]))
    {
      AdvertisementHeard(s.sent, block, db, cfg.interfaces, changedOnly, i, k);
      assert k !in db.okRoutes;
      assert !db.garbageRoutes[k].changed ==> Told(cfg, s.sent, k, db.garbageRoutes[k]);
    }
  }

  /** The event adds no local route over a destination that is in garbage. */
  ghost predicate AddsClear(db: Tables, e: Event) {
    e.AddLocal? && AdvertisedNetworkToLocalRoute(e.network).Success? ==>
      KeyOf(AdvertisedNetworkToLocalRoute(e.network).value.entry) !in db.garbageRoutes
  }

  lemma AddIsQuiet(db: Tables, n: AdvertisedNetwork)
    requires AddsClear(db, AddLocal(n))
    ensures Quiet(db, AddNetwork(db, n))
  {
    hide AdvertisedNetworkToLocalRoute;
  }

  lemma UnicastIsNotMulticast(sent: seq<Datagram>, ifIndex: u32, address: u32, port: u16, entries: seq<RipEntry>,
      cfg: Config, db: Tables)
    requires Coherent(cfg, db, sent)
    ensures Coherent(cfg, db, sent + Datagrams(ifIndex, Unicast(address, port), entries))
  {
    hide Datagrams, Heard, LastFor;
    var more := Datagrams(ifIndex, Unicast(address, port), entries);
    forall i, k ensures View(sent + more, i, k) == View(sent, i, k) {
      HeardAppend(sent, more, i);
      HeardDatagrams(ifIndex, Unicast(address, port), entries, i);
      assert Heard(sent, i) + [] == Heard(sent, i);
    }
    forall k | k in db.okRoutes && !db.okRoutes[k].changed ensures Told(cfg, sent + more, k, db.okRoutes[k]) {
      assert Told(cfg, sent, k, db.okRoutes[k]);
    }
    forall k | k in db.garbageRoutes && !db.garbageRoutes[k].changed ensures Told(cfg, sent
        + more, k, db.garbageRoutes[k]) {
      assert Told(cfg, sent, k, db.garbageRoutes[k]);
    }
  }

  lemma ArmKeepsCoherent(cfg: Config, s: State, e: Event, now: nat, s': State)
    requires Consistent(s.core) && Disjoint(s.core.db) && Coherent(cfg, s.core.db, s.sent)
    requires Arm(cfg, s, e, now, s') && AddsClear(s.core.db, e)
    ensures Coherent(cfg, s'.core.db, s'.sent) && Disjoint(s'.core.db)
  {
    hide Coherent, Datagrams, TimeoutStep, AddsClear, AddNetwork, Advertise;
    var db := s.core.db;
    match e {
      case UpdateTimer => AdvertiseKeepsCoherent(cfg, s, false, s');
      case TimeoutTick =>
        TimeoutIsQuiet(cfg, s, now, s');
        QuietKeepsCoherent(cfg, db, s'.core.db, s.sent);
        TimeoutSendsNothing(cfg, s, now, s');
      case GarbageTick =>
        QuietKeepsCoherent(cfg, db, s'.core.db, s.sent);
      case Received(p) =>
        if p.data.IsRequest() {
          var entries :|
            && IsSelection(entries, db, p.ifInfo.ifIndex, false)
            && s' == s.(sent := s.sent + Datagrams(p.ifInfo.ifIndex, Unicast(p.source, p.port), entries));
          UnicastIsNotMulticast(s.sent, p.ifInfo.ifIndex, p.source, p.port, entries, cfg, db);
        } else if p.port == RIP_UDP_PORT {
          TwoMapsKeysMatch(db);
          EntriesAreQuiet(s.core, p.data.entries, p.source, p.ifInfo, now);
          QuietKeepsCoherent(cfg, db, s'.core.db, s.sent);
        }
      case AddLocal(n) =>
        AddIsQuiet(db, n);
        QuietKeepsCoherent(cfg, db, s'.core.db, s.sent);
      case _ =>
    }
  }

  lemma TimeoutSendsNothing(cfg: Config, s: State, now: nat, s': State)
    requires TimeoutStep(cfg, s, now, s')
    ensures s'.sent == s.sent
  {
  }

  lemma NextKeepsCoherent(cfg: Config, s: State, e: Event, now: nat, s': State)
    requires Consistent(s.core) && Disjoint(s.core.db) && Coherent(cfg, s.core.db, s.sent)
    requires Next(cfg, s, e, now, s') && AddsClear(s.core.db, e) && NonzeroSource(e)
    ensures Coherent(cfg, s'.core.db, s'.sent) && Disjoint(s'.core.db)
  {
    hide Coherent, Disjoint, Arm, Advertise, KernelAgrees, TwoMaps, AddsClear;
    var mid :| Arm(cfg, s, e, now, mid) && Trigger(cfg, mid, s');
    ArmKeepsCoherent(cfg, s, e, now, mid);
    ArmPreserves(cfg, s, e, now, mid);
    if WillTrigger(mid) {
      var after :| Advertise(cfg, mid, true, after) && s' == after.(lockArmed := true);
      AdvertiseKeepsCoherent(cfg, mid, true, after);
    }
  }

  lemma {:induction false} SetupAllChanged(networks: seq<AdvertisedNetwork>)
    requires Setup(networks).Success?
    ensures forall k :: k in Setup(networks).value.okRoutes ==> Setup(networks).value.okRoutes[k].changed
  {
    hide AdvertisedNetworkToLocalRoute;
    if networks == [] {
    } else {
      SetupAllChanged(networks[..|networks| - 1]);
    }
  }

  /** In every run that adds no local route over a garbage destination, at every loop head: the
      two maps are disjoint, and each route not flagged as changed is, with next hop 0, the last
      entry multicast for its destination on every interface but its own. */
  lemma {:induction false} NeighbourViewIsCurrent(cfg: Config, states: seq<State>, events: seq<Timed>, i: nat)
    requires IsRun(cfg, states, events) && SourcesNonzero(events) && i <= |events|
    requires forall j :: 0 <= j < |events| ==> AddsClear(states[j].core.db, events[j].event)
    ensures Disjoint(states[i].core.db) && Coherent(cfg, states[i].core.db, states[i].sent)
  {
    hide Coherent, Consistent, Next, AddsClear;
    if i == 0 {
      InitCoherent(cfg, states[0]);
    } else {
      NeighbourViewIsCurrent(cfg, states, events, i - 1);
      RunConsistent(cfg, states, events, i - 1);
      NextKeepsCoherent(cfg, states[i - 1], events[i - 1].event, events[i - 1].now, states[i]);
    }
  }

  lemma InitCoherent(cfg: Config, s: State)
    requires Init(s)
    ensures Disjoint(s.core.db) && Coherent(cfg, s.core.db, s.sent)
  {
    hide Told, Consistent;
    var networks :| Setup(networks).Success? && s == State(Core(Setup(networks).value, EMPTY_KERNEL), false, false, []);
    SetupConsistent(networks);
    SetupAllChanged(networks);
  }

  /** Exactly when a full update tells the truth about an active route: unless a garbage route
      for the same destination, which a local route may be added over, is announced after it. */
  lemma FullUpdateTellsActiveRoute(cfg: Config, s: State, s': State, i: u32, k: RouteKey)
    requires TwoMaps(s.core.db) && Advertise(cfg, s, false, s') && i in cfg.interfaces
    requires k in s.core.db.okRoutes && s.core.db.okRoutes[k].ifIndex != i
    ensures View(s'.sent, i, k) == Some(Advert(s'.core.db.okRoutes[k])) <==>
            !(k in s.core.db.garbageRoutes && s.core.db.garbageRoutes[k].ifIndex != i)
  {
    hide IsAdvertisement, Heard, LastFor;
    var block :|
      && IsAdvertisement(block, s.core.db, cfg.interfaces, false)
      && s' == s.(core := s.core.(db := s.core.db.MarkUnchanged()), sent := s.sent + block);
    TwoMapsKeysMatch(s.core.db);
    AdvertisementHeard(s.sent, block, s.core.db, cfg.interfaces, false, i, k);
  }

  /** The poison of a shutdown reaches every neighbour: each stored destination is last heard of
      with metric 16 on every interface other than that of the route. */
  lemma ShutdownPoisonsEverywhere(c: Core, sent: seq<Datagram>, block: seq<Datagram>, interfaces: seq<u32>, i: u32,
      k: RouteKey)
    requires KeysMatch(c.db) && IsAdvertisement(block, c.db.PoisonAll(), interfaces, false) && i in interfaces
    requires (k in c.db.okRoutes && c.db.okRoutes[k].ifIndex != i)
        || (k in c.db.garbageRoutes && c.db.garbageRoutes[k].ifIndex != i)
    ensures View(sent + block, i, k).Some?
    ensures var e := View(sent + block, i, k).value;
            KeyOf(e) == k && e.metric == RIP_INFINITY_METRIC && e.nextHop == 0
  {
    hide IsAdvertisement, Heard, LastFor;
    AdvertisementHeard(sent, block, c.db.PoisonAll(), interfaces, false, i, k);
  }
}
