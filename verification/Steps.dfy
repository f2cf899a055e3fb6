/** The `select!` loop of `rip_deamon.rs` as a step relation on values: one arm of the loop,
    followed by the triggered-update check. A handler error ends the run and is no step. */
module Steps {
  import opened Wrappers
  import opened RipPacket
  import opened RipRoute
  import opened RouteTables
  import opened RoutingTables
  import opened Updater
  import opened Response

  /** The interfaces and the timer settings read from the environment. */
  datatype Config = Config(interfaces: seq<u32>, timeoutIncrement: u64, timeoutLimit: u64, garbageLifetime: u64)

  /** The daemon between two events. The two optional timers are either armed or absent. */
  datatype State = State(core: Core, lockArmed: bool, gcArmed: bool, sent: seq<Datagram>)

  /** The arms of the loop, but for termination: the signals lead to the shutdown step. */
  datatype Event =
    | RequestWarmup
    | UpdateTimer
    | LockExpired
    | TimeoutTick
    | GarbageTick
    | Received(packet: RipPacket)
    | AddLocal(network: AdvertisedNetwork)
    | OtherHttp

  /** An event together with the clock reading at which it is handled. */
  datatype Timed = Timed(event: Event, now: nat)

  /** An optional timer that is not armed never fires. */
  predicate Enabled(s: State, e: Event) {
    match e
    case LockExpired => s.lockArmed
    case GarbageTick => s.gcArmed
    case _ => true
  }

  /** `setup_advertised_network`; a refused network leaves the database alone. */
  function AddNetwork(db: Tables, n: AdvertisedNetwork): Tables {
    match AdvertisedNetworkToLocalRoute(n)
    case Failure(_) => db
    case Success(local) =>
      if KeyOf(local.entry) in db.okRoutes then db else db.Insert(NewLocal(local.entry, local.ifIndex, local.ifName))
  }

  /** The loop of `handle_route_timeout_tick` over the collected routes. */
  function RetireAll(c: Core, order: seq<RouteKey>, now: nat): Core {
    if order == [] then c
    else
      var n := |order| - 1;
      var before := RetireAll(c, order[..n], now);
      if order[n] in before.db.okRoutes then RetireRoute(before, order[n], now) else before
  }

  function Ticking(c: Core, increment: u64): Core {
    c.(db := c.db.Tick(increment))
  }

  ghost predicate Advertise(cfg: Config, s: State, changedOnly: bool, s': State) {
    exists block ::
      && IsAdvertisement(block, s.core.db, cfg.interfaces, changedOnly)
      && s' == s.(core := s.core.(db := s.core.db.MarkUnchanged()), sent := s.sent + block)
  }

  ghost predicate TimeoutStep(cfg: Config, s: State, now: nat, s': State) {
    var ticked := Ticking(s.core, cfg.timeoutIncrement);
    exists order ::
      && IsOrder(order, ticked.db.TimedOut(cfg.timeoutLimit))
      && s' == s.(core := RetireAll(ticked, order, now), gcArmed := s.gcArmed || order != [])
  }

  function GarbageStep(cfg: Config, s: State, now: nat): State {
    var db := s.core.db.RemoveExpiredGarbage(now, cfg.garbageLifetime);
    s.(core := s.core.(db := db), gcArmed := db.garbageRoutes != map[])
  }

  /** `handle_packet`: a request is answered, a response from the RIP port is processed. */
  ghost predicate PacketStep(s: State, p: RipPacket, now: nat, s': State) {
    if p.data.IsRequest() then
      exists entries ::
        && IsSelection(entries, s.core.db, p.ifInfo.ifIndex, false)
        && s' == s.(sent := s.sent + Datagrams(p.ifInfo.ifIndex, Unicast(p.source, p.port), entries))
    else
      && p.data.IsResponse() && p.data.header.version == RIP_2_VERSION
      && s' == s.(core := HandleResponse(s.core, p, now))
  }

  function HandleResponse(c: Core, p: RipPacket, now: nat): Core {
    if p.port != RIP_UDP_PORT then c else HandleEntries(c, p.data.entries, p.source, p.ifInfo, now)
  }

  ghost predicate Arm(cfg: Config, s: State, e: Event, now: nat, s': State) {
    && Enabled(s, e)
    && match e
       case RequestWarmup => s' == s
       case UpdateTimer => Advertise(cfg, s, false, s')
       case LockExpired => s' == s.(lockArmed := false)
       case TimeoutTick => TimeoutStep(cfg, s, now, s')
       case GarbageTick => s' == GarbageStep(cfg, s, now)
       case Received(p) => PacketStep(s, p, now, s')
       case AddLocal(n) => s' == s.(core := s.core.(db := AddNetwork(s.core.db, n)))
       case OtherHttp => s' == s
  }

  predicate WillTrigger(s: State) {
    !s.lockArmed && s.core.db.anyRouteChanged
  }

  /** `maybe_send_triggered_update` */
  ghost predicate Trigger(cfg: Config, s: State, s': State) {
    if WillTrigger(s) then exists mid :: Advertise(cfg, s, true, mid) && s' == mid.(lockArmed := true) else s' == s
  }

  ghost predicate Next(cfg: Config, s: State, e: Event, now: nat, s': State) {
    exists mid :: Arm(cfg, s, e, now, mid) && Trigger(cfg, mid, s')
  }

  /** A full update clears the dirty flag, so that no triggered one follows it. */
  lemma FullUpdateStep(cfg: Config, s: State, now: nat, s': State)
    requires Next(cfg, s, UpdateTimer, now, s')
    ensures Advertise(cfg, s, false, s')
  {
    hide IsAdvertisement;
  }

  /** The packets that `handle_packet` does not answer with an error. */
  predicate WellFormed(e: Event) {
    e.Received? && !e.packet.data.IsRequest() ==>
      e.packet.data.IsResponse() && e.packet.data.header.version == RIP_2_VERSION
  }

  /** The events are the inputs, but for timers that fired while they were not armed. */
  ghost predicate Follows(inputs: seq<Timed>, states: seq<State>, events: seq<Timed>)
    requires |states| == |events| + 1
    decreases |inputs|
  {
    if inputs == [] then events == []
    else
      var n, last := |events|, inputs[|inputs| - 1];
      || (!Enabled(states[n], last.event) && Follows(inputs[..|inputs| - 1], states, events))
      || (&& n > 0 && events[n - 1] == last && Enabled(states[n - 1], last.event)
          && Follows(inputs[..|inputs| - 1], states[..n], events[..n - 1]))
  }

  // ----- runs

  /** The tables after `setup`, or the error that keeps the daemon from starting. */
  function Setup(networks: seq<AdvertisedNetwork>): RipResult<Tables> {
    if networks == [] then Success(EMPTY_TABLES)
    else
      var n := |networks| - 1;
      var db :- Setup(networks[..n]);
      var local :- AdvertisedNetworkToLocalRoute(networks[n]);
      if KeyOf(local.entry) in db.okRoutes then Failure(InvalidConfiguration) else Success(AddNetwork(db, networks[n]))
  }

  ghost predicate Init(s: State) {
    exists networks ::
      && Setup(networks).Success?
      && s == State(Core(Setup(networks).value, EMPTY_KERNEL), false, false, [])
  }

  /** A run: the states at the heads of the loop and the events between them. */
  ghost predicate IsRun(cfg: Config, states: seq<State>, events: seq<Timed>) {
    && |states| == |events| + 1
    && Init(states[0])
    && forall i :: 0 <= i < |events| ==> Next(cfg, states[i], events[i].event, events[i].now, states[i + 1])
  }

  lemma RunStep(cfg: Config, states: seq<State>, events: seq<Timed>, next: Timed, s: State)
    requires IsRun(cfg, states, events) && Next(cfg, states[|events|], next.event, next.now, s)
    ensures IsRun(cfg, states + [s], events + [next])
  {
    hide Next, Init;
  }

  lemma FollowsIdle(inputs: seq<Timed>, last: Timed, states: seq<State>, events: seq<Timed>)
    requires |states| == |events| + 1 && Follows(inputs, states, events) && !Enabled(states[|events|], last.event)
    ensures Follows(inputs + [last], states, events)
  {
    assert (inputs + [last])[..|inputs|] == inputs;
  }

  lemma FollowsStep(inputs: seq<Timed>, last: Timed, states: seq<State>, events: seq<Timed>, next: State)
    requires |states| == |events| + 1 && Follows(inputs, states, events) && Enabled(states[|events|], last.event)
    ensures Follows(inputs + [last], states + [next], events + [last])
  {
    assert (inputs + [last])[..|inputs|] == inputs;
    assert (states + [next])[..|events| + 1] == states && (events + [last])[..|events|] == events;
  }

  lemma SourcesSoFar(inputs: seq<Timed>, last: Timed)
    ensures SourcesNonzero(inputs + [last]) <==> SourcesNonzero(inputs) && NonzeroSource(last.event)
  {
    assert forall i :: 0 <= i < |inputs| ==> (inputs + [last])[i] == inputs[i];
    assert (inputs + [last])[|inputs|] == last;
  }

  /** No packet comes from the unspecified address, which would pass for a local next hop. */
  ghost predicate SourcesNonzero(events: seq<Timed>) {
    forall i :: 0 <= i < |events| ==> NonzeroSource(events[i].event)
  }

  predicate NonzeroSource(e: Event) {
    e.Received? ==> e.packet.source != 0
  }
}
