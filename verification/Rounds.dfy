/** Rounds of a static network without failures. A round is a stretch of a real execution: the
    routers take steps of the loop in any interleaving, triggered updates, timeouts, garbage
    collection and requests included. What makes it a round: every response is processed in the
    round in which it was sent, once or more often or, unless it is of a full update, not at all,
    in any order; each router sends a full update that each neighbour receives; and the timeout
    timers run at a bounded pace. */
module Rounds {
  import opened Wrappers
  import opened RipPacket
  import opened RipRoute
  import opened RouteTables
  import opened Updater
  import opened Response
  import opened ResponseLaws
  import opened Steps
  import opened Invariants
  import opened Stabilisation
  import opened Network
  import opened RoutingTables

  // ----- executions

  /** A router handles an event. */
  datatype Action = Action(router: nat, event: Event, now: nat)

  type Nodes = map<nat, State>

  /** The event is a response that the handler looks at. */
  predicate Processed(e: Event) {
    e.Received? && !e.packet.data.IsRequest() && e.packet.port == RIP_UDP_PORT
  }

  /** A datagram that port q sends is delivered to port p. */
  predicate Reaches(t: Topology, p: Port, q: Port, d: Datagram) {
    && Adjacent(t, p, q) && p in t.address && q in t.address && d.ifIndex == q.ifIndex
    && (d.target == Multicast || (d.target.Unicast? && d.target.address == t.address[p]))
  }

  predicate Carries(t: Topology, p: Port, q: Port, d: Datagram, packet: RipPacket) {
    && Reaches(t, p, q, d) && ParsePacket(d.data) == Success(packet.data)
    && packet.source == t.address[q] && packet.port == RIP_UDP_PORT && packet.ifInfo.ifIndex == p.ifIndex
  }

  /** What a router has sent since the start of the round. */
  function Tail(start: Nodes, nodes: Nodes, r: nat): seq<Datagram> {
    if r in start && r in nodes && |start[r].sent| <= |nodes[r].sent| then nodes[r].sent[|start[r].sent|..] else []
  }

  ghost predicate Arrives(t: Topology, start: Nodes, nodes: Nodes, r: nat, packet: RipPacket) {
    exists p: Port, q: Port, d: Datagram ::
      p.router == r && Carries(t, p, q, d, packet) && d in Tail(start, nodes, q.router)
  }

  /** Processed responses come from the round; nobody takes up k as a local route. */
  ghost predicate Allowed(t: Topology, k: RouteKey, start: Nodes, nodes: Nodes, a: Action) {
    && (Processed(a.event) ==> Arrives(t, start, nodes, a.router, a.event.packet))
    && AddsOthers(a.event, k)
  }

  predicate AddsOthers(e: Event, k: RouteKey) {
    e.AddLocal? && AdvertisedNetworkToLocalRoute(e.network).Success? ==>
      KeyOf(AdvertisedNetworkToLocalRoute(e.network).value.entry) != k
  }

  ghost predicate NodesNext(t: Topology, cfgs: map<nat, Config>, k: RouteKey, start: Nodes, nodes: Nodes, a: Action,
      nodes': Nodes) {
    && a.router in nodes && a.router in cfgs && Allowed(t, k, start, nodes, a)
    && nodes'.Keys == nodes.Keys
    && Next(cfgs[a.router], nodes[a.router], a.event, a.now, nodes'[a.router])
    && forall r :: r in nodes && r != a.router ==> nodes'[r] == nodes[r]
  }

  /** A stretch of an execution, with the network before and after each action. */
  datatype Round = Round(nets: seq<Nodes>, actions: seq<Action>)

  ghost predicate IsExecution(t: Topology, cfgs: map<nat, Config>, k: RouteKey, round: Round) {
    && |round.nets| == |round.actions| + 1
    && forall i :: 0 <= i < |round.actions| ==>
         NodesNext(t, cfgs, k, round.nets[0], round.nets[i], round.actions[i], round.nets[i + 1])
  }

  // ----- rounds

  /** The timer settings that all routers share, and how often their timeout timers may fire in a
      round. */
  datatype Pace = Pace(increment: u64, limit: u64, least: nat, most: nat)

  function Ticks(actions: seq<Action>, r: nat): nat {
    if actions == [] then 0
    else
      var last := actions[|actions| - 1];
      Ticks(actions[..|actions| - 1], r) + if last.router == r && last.event == TimeoutTick then 1 else 0
  }

  /** The datagrams that an action of a router adds to its log. */
  function SentAt(round: Round, u: nat, r: nat): seq<Datagram>
    requires u + 1 < |round.nets|
  {
    Tail(round.nets[u], round.nets[u + 1], r)
  }

  ghost predicate IsReceived(t: Topology, round: Round, u: nat, p: Port, q: Port, d: Datagram) {
    exists v ::
      && u < v < |round.actions| && round.actions[v].router == p.router
      && round.actions[v].event.Received? && Carries(t, p, q, d, round.actions[v].event.packet)
  }

  /** Some full update of router q.router is received by port p in full. */
  ghost predicate IsUpdated(t: Topology, round: Round, p: Port, q: Port)
    requires |round.nets| == |round.actions| + 1
  {
    exists u ::
      && 0 <= u < |round.actions| && round.actions[u].router == q.router && round.actions[u].event == UpdateTimer
      && forall d :: d in SentAt(round, u, q.router) && Reaches(t, p, q, d) ==> IsReceived(t, round, u, p, q, d)
  }

  ghost predicate IsRound(t: Topology, cfgs: map<nat, Config>, pace: Pace, k: RouteKey, round: Round) {
    && IsExecution(t, cfgs, k, round)
    && (forall r :: r in round.nets[0] ==> pace.least <= Ticks(round.actions, r) <= pace.most)
    && (forall p: Port, q: Port :: Adjacent(t, p, q) && p.router in round.nets[0] && q.router in round.nets[0] ==>
                                     IsUpdated(t, round, p, q))
  }

  function Last(round: Round): Nodes
    requires round.nets != []
  {
    round.nets[|round.nets| - 1]
  }

  ghost predicate AreRounds(t: Topology, cfgs: map<nat, Config>, pace: Pace, k: RouteKey, rounds: seq<Round>) {
    && (forall i :: 0 <= i < |rounds| ==> IsRound(t, cfgs, pace, k, rounds[i]))
    && (forall i :: 0 <= i < |rounds| - 1 ==> rounds[i + 1].nets[0] == Last(rounds[i]))
  }

  /** Every port is an interface on which its router runs the protocol, and the routers share the
      timer settings. */
  ghost predicate Wired(t: Topology, cfgs: map<nat, Config>, pace: Pace, routers: set<nat>) {
    && WellAddressed(t)
    && (forall p :: p in t.link ==> p.router in routers)
    && (forall r :: r in routers ==>
          && r in cfgs && cfgs[r].timeoutIncrement == pace.increment && cfgs[r].timeoutLimit == pace.limit)
    && (forall p :: p in t.link && p.router in cfgs ==> p.ifIndex in cfgs[p.router].interfaces)
  }

  lemma {:induction false} TicksGrow(actions: seq<Action>, n: nat, r: nat)
    requires n <= |actions|
    ensures Ticks(actions[..n], r) <= Ticks(actions, r)
    decreases |actions|
  {
    if n == |actions| {
      assert actions[..n] == actions;
    } else {
      var init := actions[..|actions| - 1];
      TicksGrow(init, n, r);
      assert init[..n] == actions[..n];
    }
  }

  // ----- what a step does to one destination

  /** For the destination nothing but the changed flag is new, or its garbage is collected. */
  ghost predicate Keeps(a: Core, b: Core, k: RouteKey) {
    && KeysMatch(b.db)
    && (k in a.db.okRoutes <==> k in b.db.okRoutes)
    && (k in a.db.okRoutes ==> Stable(a.db.okRoutes[k], b.db.okRoutes[k]))
    && (k in b.db.garbageRoutes ==>
          k in a.db.garbageRoutes && b.db.garbageRoutes[k].ripEntry == a.db.garbageRoutes[k].ripEntry)
  }

  /** A tick changes the counter of a remote route or retires it. */
  function AgedRoute(increment: u64, limit: u64, current: Option<RipDbEntry>): Option<RipDbEntry> {
    match current
    case None => None
    case Some(r) =>
      var ticked := Ticked(r, increment);
      if !r.isLocal && ticked.timeoutCnt >= limit then None else Some(ticked)
  }

  lemma TimeoutEffect(cfg: Config, s: State, now: nat, s': State, k: RouteKey)
    requires KeysMatch(s.core.db) && TimeoutStep(cfg, s, now, s')
    ensures KeysMatch(s'.core.db) && s'.sent == s.sent
    ensures Active(s'.core, k) == AgedRoute(cfg.timeoutIncrement, cfg.timeoutLimit, Active(s.core, k))
    ensures k in s'.core.db.garbageRoutes && !(k in s.core.db.okRoutes && k !in s'.core.db.okRoutes) ==>
              k in s.core.db.garbageRoutes && s'.core.db.garbageRoutes[k] == s.core.db.garbageRoutes[k]
    ensures k in s'.core.db.garbageRoutes && k in s.core.db.okRoutes && k !in s'.core.db.okRoutes ==>
              s'.core.db.garbageRoutes[k].ripEntry.metric == RIP_INFINITY_METRIC
  {
    hide BuildRouteMessage, SaturatingAdd;
    var ticked := Ticking(s.core, cfg.timeoutIncrement);
    var order :|
      && IsOrder(order, ticked.db.TimedOut(cfg.timeoutLimit))
      && s' == s.(core := RetireAll(ticked, order, now), gcArmed := s.gcArmed || order != []);
    RetireAllResult(ticked, order, now);
    RetiredKeysMatch(ticked.db, s'.core.db, order, now);
    if k in order {
      assert SlotAt(s'.core.db, k) == Slot(None, Some(Expired(ticked.db.okRoutes[k], now)));
    } else {
      assert SlotAt(s'.core.db, k) == SlotAt(ticked.db, k);
    }
  }

  lemma RetiredKeysMatch(a: Tables, b: Tables, order: seq<RouteKey>, now: nat)
    requires KeysMatch(a) && forall k :: k in order ==> k in a.okRoutes
    requires forall k :: k in order ==> SlotAt(b, k) == Slot(None, Some(Expired(a.okRoutes[k], now)))
    requires forall k :: k !in order ==> SlotAt(b, k) == SlotAt(a, k)
    ensures KeysMatch(b)
  {
    forall k | k in b.okRoutes ensures Key(b.okRoutes[k]) == k {
      assert SlotAt(b, k).ok == Some(b.okRoutes[k]);
    }
    forall k | k in b.garbageRoutes ensures Key(b.garbageRoutes[k]) == k {
      assert SlotAt(b, k).garbage == Some(b.garbageRoutes[k]);
    }
  }

  /** Everything that a step appends to the log is told by these tables. */
  ghost predicate Appends(db: Tables, sent: seq<Datagram>, sent': seq<Datagram>) {
    sent <= sent' && AllTell(db, sent'[|sent|..])
  }

  lemma AdvertiseEffect(cfg: Config, s: State, changedOnly: bool, s': State, k: RouteKey)
    requires KeysMatch(s.core.db) && Advertise(cfg, s, changedOnly, s')
    ensures Keeps(s.core, s'.core, k) && Appends(s.core.db, s.sent, s'.sent)
  {
    hide IsAdvertisement, AllTell;
    var block :|
      && IsAdvertisement(block, s.core.db, cfg.interfaces, changedOnly)
      && s' == s.(core := s.core.(db := s.core.db.MarkUnchanged()), sent := s.sent + block);
    AdvertisementTells(s.core.db, block, cfg.interfaces, changedOnly);
    assert s'.sent[|s.sent|..] == block;
  }

  lemma NothingAppended(db: Tables, sent: seq<Datagram>)
    ensures Appends(db, sent, sent)
  {
    assert sent[|sent|..] == [];
  }

  lemma TriggerEffect(cfg: Config, s: State, s': State, k: RouteKey)
    requires KeysMatch(s.core.db) && Trigger(cfg, s, s')
    ensures Keeps(s.core, s'.core, k) && Appends(s.core.db, s.sent, s'.sent)
  {
    hide Advertise, Appends;
    if WillTrigger(s) {
      var mid :| Advertise(cfg, s, true, mid) && s' == mid.(lockArmed := true);
      AdvertiseEffect(cfg, s, true, mid, k);
    } else {
      NothingAppended(s.core.db, s.sent);
    }
  }

  lemma RequestEffect(s: State, p: RipPacket, now: nat, s': State)
    requires PacketStep(s, p, now, s') && p.data.IsRequest()
    ensures s'.core == s.core && Appends(s.core.db, s.sent, s'.sent)
  {
    hide IsSelection, Datagrams, AllTell;
    var entries :|
      && IsSelection(entries, s.core.db, p.ifInfo.ifIndex, false)
      && s' == s.(sent := s.sent + Datagrams(p.ifInfo.ifIndex, Unicast(p.source, p.port), entries));
    SelectionTells(s.core.db, entries, p.ifInfo.ifIndex, Unicast(p.source, p.port), false);
    assert s'.sent[|s.sent|..] == Datagrams(p.ifInfo.ifIndex, Unicast(p.source, p.port), entries);
  }

  /** Every arm but those of processed responses and timeouts. */
  lemma OtherArmEffect(cfg: Config, s: State, e: Event, now: nat, s': State, k: RouteKey)
    requires KeysMatch(s.core.db) && Arm(cfg, s, e, now, s') && AddsOthers(e, k)
    requires !Processed(e) && e != TimeoutTick
    ensures Keeps(s.core, s'.core, k) && Appends(s.core.db, s.sent, s'.sent)
  {
    hide Advertise, IsSelection, Appends, AdvertisedNetworkToLocalRoute, HandleEntries, OutlivedGarbage;
    NothingAppended(s.core.db, s.sent);
    match e {
      case UpdateTimer => AdvertiseEffect(cfg, s, false, s', k);
      case Received(p) =>
        if p.data.IsRequest() {
          RequestEffect(s, p, now, s');
        }
      case _ =>
    }
  }
}
