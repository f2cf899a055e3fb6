/** The step relation is inhabited: whatever event the loop may handle, some step handles it. A
    concrete run uses this to reach garbage that the GC timer does not cover. */
module Existence {
  import opened Wrappers
  import opened RipPacket
  import opened Address
  import opened RouteTables
  import opened RoutingTables
  import opened Updater
  import opened Response
  import opened Steps
  import opened Runs
  import opened RipRoute
  import opened Invariants
  import opened Network
  import opened Safety
  import Views

  lemma AdvertiseExists(cfg: Config, s: State, changedOnly: bool) returns (s': State)
    ensures Advertise(cfg, s, changedOnly, s')
  {
    hide AreSelections;
    var selections := SelectionsExist(s.core.db, cfg.interfaces, changedOnly);
    assert |selections| == |cfg.interfaces| by {
      SelectionsLength(selections, s.core.db, cfg.interfaces, changedOnly);
    }
    var block := AdvertisementBlock(cfg.interfaces, selections);
    assert IsAdvertisement(block, s.core.db, cfg.interfaces, changedOnly);
    s' := s.(core := s.core.(db := s.core.db.MarkUnchanged()), sent := s.sent + block);
  }

  lemma SelectionsLength(selections: seq<seq<RipEntry>>, db: Tables, interfaces: seq<u32>, changedOnly: bool)
    requires AreSelections(selections, db, interfaces, changedOnly)
    ensures |selections| == |interfaces|
  {
  }

  /** The loop is blocked by nothing but malformed packets and hard errors of the environment. */
  lemma StepExists(cfg: Config, s: State, e: Event, now: nat) returns (s': State)
    requires Enabled(s, e) && WellFormed(e)
    ensures Next(cfg, s, e, now, s')
  {
    hide Advertise, IsSelection;
    var mid := ArmExists(cfg, s, e, now);
    s' := mid;
    if WillTrigger(mid) {
      s' := AdvertiseExists(cfg, mid, true);
      s' := s'.(lockArmed := true);
    }
    assert Trigger(cfg, mid, s');
  }

  lemma ArmExists(cfg: Config, s: State, e: Event, now: nat) returns (s': State)
    requires Enabled(s, e) && WellFormed(e)
    ensures Arm(cfg, s, e, now, s')
  {
    hide Advertise, IsSelection;
    s' := s;
    match e {
      case UpdateTimer => s' := AdvertiseExists(cfg, s, false);
      case LockExpired => s' := s.(lockArmed := false);
      case TimeoutTick =>
        var ticked := Ticking(s.core, cfg.timeoutIncrement);
        var order := OrderExists(ticked.db.TimedOut(cfg.timeoutLimit));
        s' := s.(core := RetireAll(ticked, order, now), gcArmed := s.gcArmed || order != []);
      case GarbageTick => s' := GarbageStep(cfg, s, now);
      case Received(p) =>
        if p.data.IsRequest() {
          var entries := SelectionExists(s.core.db, p.ifInfo.ifIndex, false);
          s' := s.(sent := s.sent + Datagrams(p.ifInfo.ifIndex, Unicast(p.source, p.port), entries));
        } else {
          s' := s.(core := HandleResponse(s.core, p, now));
        }
      case AddLocal(n) => s' := s.(core := s.core.(db := AddNetwork(s.core.db, n)));
      case _ =>
    }
  }

  /** The network of the safety theorem delivers whatever was sent: a response in the log of one
      port's router may be handled, at any time and however often, by any router next to it. */
  lemma DeliveryIsPossible(t: Topology, cfgs: map<nat, Config>, net: Net, p: Port, q: Port, d: Datagram,
      packet: RipPacket, now: nat) returns (net': Net)
    requires Adjacent(t, p, q) && p in t.address && q in t.address
    requires p.router in net.nodes && p.router !in net.down && p.router in cfgs && q.router in net.nodes
    requires d in net.nodes[q.router].sent && d.ifIndex == q.ifIndex && ParsePacket(d.data) == Success(packet.data)
    requires packet.data.header.command == 2 && packet.data.header.version == 2
    requires packet.source == t.address[q] && packet.ifInfo.ifIndex == p.ifIndex
    ensures NetNext(t, cfgs, net, net') && net'.down == net.down && net'.nodes.Keys == net.nodes.Keys
    ensures Next(cfgs[p.router], net.nodes[p.router], Received(packet), now, net'.nodes[p.router])
  {
    hide Next;
    var s := net.nodes[p.router];
    var s' := StepExists(cfgs[p.router], s, Received(packet), now);
    StepLogGrows(cfgs[p.router], s, Received(packet), now, s');
    net' := Net(net.nodes[p.router := s'], net.down);
    assert s'.(sent := s'.sent[..|s'.sent|]) == s';
    assert RouterStep(t, cfgs, net, p.router, Received(packet), now, s', |s'.sent|, net');
  }

  lemma StepLogGrows(cfg: Config, s: State, e: Event, now: nat, s': State)
    requires Next(cfg, s, e, now, s')
    ensures s.sent <= s'.sent
  {
    hide IsAdvertisement, IsSelection, Datagrams, HandleEntries, RetireAll, IsOrder;
  }

  // ----- garbage without a timer

  const NEIGHBOUR: u32 := 0x0A00_0002

  /** 10.0.1.0/24 with the given metric, as one response of the neighbour. */
  function ResponseWith(metric: u32): RipPacket {
    RipPacket(
      RipPacketData(RipHeader(RIP_CMD_RESPONSE, RIP_2_VERSION, 0),
          [RipEntry(2, 0, 0x0A00_0100, 0xFFFF_FF00, 0, metric)]),
      RipIfInfo("eth1", 2), NEIGHBOUR, RIP_UDP_PORT)
  }

  lemma SampleEntryValid(metric: u32)
    requires 1 <= metric <= 16
    ensures IsEntryValid(ResponseWith(metric).data.entries[0])
  {
    MaskValue(24);
    PrefixMaskIsValid(24);
    assert Pow2(8) == 0x100;
  }

  lemma HandleSample(cfg: Config, s: State, metric: u32, now: nat, s': State)
    requires 1 <= metric <= 16 && Next(cfg, s, Received(ResponseWith(metric)), now, s')
    ensures var p := ResponseWith(metric);
            var c := UpdateRoute(s.core, p.data.entries[0].(metric := UpdateMetric(metric), nextHop := NEIGHBOUR),
                p.ifInfo, now);
            && s'.core.db.okRoutes.Keys == c.db.okRoutes.Keys
            && s'.core.db.garbageRoutes.Keys == c.db.garbageRoutes.Keys
            && (forall k :: k in c.db.okRoutes ==> s'.core.db.okRoutes[k].ripEntry == c.db.okRoutes[k].ripEntry)
            && (forall k :: k in c.db.okRoutes ==> s'.core.db.okRoutes[k].ifIndex == c.db.okRoutes[k].ifIndex)
            && (forall k :: k in c.db.garbageRoutes ==>
                  s'.core.db.garbageRoutes[k].ifIndex == c.db.garbageRoutes[k].ifIndex)
            && s'.gcArmed == s.gcArmed
  {
    hide IsAdvertisement, IsEntryValid, UpdateRoute;
    SampleEntryValid(metric);
    var p := ResponseWith(metric);
    assert p.data.entries[..0] == [];
    assert HandleEntries(s.core, p.data.entries, p.source, p.ifInfo, now)
        == HandleEntry(s.core, p.data.entries[0], p.source, p.ifInfo, now);
  }

  const SAMPLE_KEY := RouteKey(0x0A00_0100, 0xFFFF_FF00)

  lemma LearnSample(cfg: Config, s: State, s': State)
    requires Next(cfg, s, Received(ResponseWith(1)), 0, s') && SAMPLE_KEY !in s.core.db.okRoutes
    ensures SAMPLE_KEY in s'.core.db.okRoutes && s'.core.db.okRoutes[SAMPLE_KEY].ripEntry.nextHop == NEIGHBOUR
    ensures s'.core.db.okRoutes[SAMPLE_KEY].ifIndex == 2
    ensures s'.gcArmed == s.gcArmed
  {
    hide Next, BuildRouteMessage;
    HandleSample(cfg, s, 1, 0, s');
  }

  lemma PoisonSample(cfg: Config, s: State, s': State)
    requires Next(cfg, s, Received(ResponseWith(16)), 1, s')
    requires SAMPLE_KEY in s.core.db.okRoutes && s.core.db.okRoutes[SAMPLE_KEY].ripEntry.nextHop == NEIGHBOUR
    requires s.core.db.okRoutes[SAMPLE_KEY].ifIndex == 2
    ensures SAMPLE_KEY !in s'.core.db.okRoutes
    ensures SAMPLE_KEY in s'.core.db.garbageRoutes && s'.core.db.garbageRoutes[SAMPLE_KEY].ifIndex == 2
    ensures s'.gcArmed == s.gcArmed
  {
    hide Next, BuildRouteMessage;
    HandleSample(cfg, s, 16, 1, s');
  }

  lemma UncoveredRun(cfg: Config) returns (states: seq<State>, events: seq<Timed>)
    ensures IsRun(cfg, states, events) && SourcesNonzero(events)
    ensures SAMPLE_KEY in states[|events|].core.db.garbageRoutes && SAMPLE_KEY !in states[|events|].core.db.okRoutes
    ensures states[|events|].core.db.garbageRoutes[SAMPLE_KEY].ifIndex == 2
    ensures states[|events|].core.db.garbageRoutes != map[] && !states[|events|].gcArmed
  {
    hide Next, UpdateMetric;
    var s0 := State(Core(EMPTY_TABLES, EMPTY_KERNEL), false, false, []);
    assert Setup([]) == Success(EMPTY_TABLES);
    assert Init(s0);
    var learn, poison := Received(ResponseWith(1)), Received(ResponseWith(16));
    var s1 := StepExists(cfg, s0, learn, 0);
    var s2 := StepExists(cfg, s1, poison, 1);
    LearnSample(cfg, s0, s1);
    PoisonSample(cfg, s1, s2);
    assert SAMPLE_KEY in s2.core.db.garbageRoutes;
    states, events := [s0, s1, s2], [Timed(learn, 0), Timed(poison, 1)];
  }

  /** "Garbage implies an armed timer" is false: two responses of one neighbour, a route and then
      its poison, end in garbage while no timer is armed. */
  lemma UncoveredGarbageIsReachable(cfg: Config)
    ensures exists states: seq<State>, events: seq<Timed> ::
              && IsRun(cfg, states, events) && SourcesNonzero(events)
              && states[|events|].core.db.garbageRoutes != map[] && !states[|events|].gcArmed
  {
    hide IsRun;
    var states, events := UncoveredRun(cfg);
  }

  // ----- a local route over garbage

  /** 10.0.1.0/24 as a network of the router itself, on an interface of its own. */
  const SAMPLE_NETWORK := AdvertisedNetwork(0x0A00_0100, 24, 7, "eth7")

  lemma SampleNetworkKey()
    ensures AdvertisedNetworkToLocalRoute(SAMPLE_NETWORK).Success?
    ensures KeyOf(AdvertisedNetworkToLocalRoute(SAMPLE_NETWORK).value.entry) == SAMPLE_KEY
    ensures AdvertisedNetworkToLocalRoute(SAMPLE_NETWORK).value.ifIndex == 7
  {
    hide And;
    LocalRouteIsTheNetwork(SAMPLE_NETWORK);
    MaskValue(24);
    assert Pow2(8) == 0x100;
  }

  lemma AddSample(cfg: Config, s: State, s': State)
    requires Next(cfg, s, AddLocal(SAMPLE_NETWORK), 2, s')
    requires SAMPLE_KEY !in s.core.db.okRoutes
    requires SAMPLE_KEY in s.core.db.garbageRoutes && s.core.db.garbageRoutes[SAMPLE_KEY].ifIndex == 2
    ensures SAMPLE_KEY in s'.core.db.okRoutes && s'.core.db.okRoutes[SAMPLE_KEY].isLocal
    ensures s'.core.db.okRoutes[SAMPLE_KEY].ifIndex == 7
    ensures SAMPLE_KEY in s'.core.db.garbageRoutes && s'.core.db.garbageRoutes[SAMPLE_KEY].ifIndex == 2
  {
    hide AdvertisedNetworkToLocalRoute, IsAdvertisement;
    SampleNetworkKey();
  }

  /** A run in which neighbours are told of garbage instead of a local route: the sample is learned,
      poisoned and then added as a local route. On every third interface a full update leaves the
      neighbours with another entry than that of the active route. */
  lemma MisledNeighbourIsReachable(cfg: Config, i: u32) returns (states: seq<State>, events: seq<Timed>)
    requires i in cfg.interfaces && i != 2 && i != 7
    ensures IsRun(cfg, states, events) && SourcesNonzero(events) && events != []
        && events[|events| - 1].event == UpdateTimer
    ensures var s := states[|events|];
            && SAMPLE_KEY in s.core.db.okRoutes && s.core.db.okRoutes[SAMPLE_KEY].isLocal
            && s.core.db.okRoutes[SAMPLE_KEY].ifIndex != i
            && Views.View(s.sent, i, SAMPLE_KEY) != Some(Advert(s.core.db.okRoutes[SAMPLE_KEY]))
  {
    hide Next, Views.View, Init;
    var before, past := UncoveredRun(cfg);
    var n := |past|;
    var s3 := StepExists(cfg, before[n], AddLocal(SAMPLE_NETWORK), 2);
    AddSample(cfg, before[n], s3);
    var s4 := StepExists(cfg, s3, UpdateTimer, 3);
    states, events := before + [s3, s4], past + [Timed(AddLocal(SAMPLE_NETWORK), 2), Timed(UpdateTimer, 3)];
    RunConsistent(cfg, states, events, n + 1);
    FullUpdateStep(cfg, s3, 3, s4);
    ConsistentTwoMaps(states[n + 1].core);
    Views.FullUpdateTellsActiveRoute(cfg, s3, s4, i, SAMPLE_KEY);
  }
}
