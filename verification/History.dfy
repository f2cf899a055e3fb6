/** What the daemon holds is explained by what it has received: every active remote route is the
    last valid entry from its next hop, and its counter the ticks since then. */
module History {
  import opened Wrappers
  import opened RipPacket
  import opened Address
  import opened RipRoute
  import opened RouteTables
  import opened RoutingTables
  import opened Response
  import opened ResponseLaws
  import opened Steps
  import opened Invariants

  /** One response entry as it was received, or one timeout tick. */
  datatype Observation = Entry(entry: RipEntry, source: u32, ifInfo: RipIfInfo) | Tick

  function EntriesOf(entries: seq<RipEntry>, source: u32, ifInfo: RipIfInfo): (obs: seq<Observation>)
    ensures |obs| == |entries|
  {
    seq(|entries|, i requires 0 <= i < |entries| => Entry(entries[i], source, ifInfo))
  }

  function Observed(e: Event): seq<Observation> {
    match e
    case Received(p) =>
      if !p.data.IsRequest() && p.port == RIP_UDP_PORT then EntriesOf(p.data.entries, p.source, p.ifInfo) else []
    case TimeoutTick => [Tick]
    case _ => []
  }

  function HistoryOf(events: seq<Timed>): seq<Observation> {
    if events == [] then [] else HistoryOf(events[..|events| - 1]) + Observed(events[|events| - 1].event)
  }

  predicate IsUpdateFor(o: Observation, k: RouteKey, nextHop: u32) {
    o.Entry? && o.source == nextHop && KeyOf(o.entry) == k && IsEntryValid(o.entry)
  }

  /** The last valid entry for a destination from a given neighbour. */
  function LastUpdate(h: seq<Observation>, k: RouteKey, nextHop: u32): (o: Option<Observation>)
    ensures o.Some? ==> o.value in h && IsUpdateFor(o.value, k, nextHop)
  {
    if h == [] then None
    else
      var n := |h| - 1;
      if IsUpdateFor(h[n], k, nextHop) then Some(h[n]) else LastUpdate(h[..n], k, nextHop)
  }

  /** The timeout ticks after that entry. */
  function TicksSince(h: seq<Observation>, k: RouteKey, nextHop: u32): nat {
    if h == [] then 0
    else
      var n := |h| - 1;
      if IsUpdateFor(h[n], k, nextHop) then 0
      else TicksSince(h[..n], k, nextHop) + if h[n].Tick? then 1 else 0
  }

  function SaturatedProduct(increment: u64, ticks: nat): u64 {
    if increment * ticks < U64_COUNT then increment * ticks else U64_COUNT - 1
  }

  /** The route is exactly what its next hop last said, and its counter counts the silence. */
  ghost predicate Explains(cfg: Config, h: seq<Observation>, k: RouteKey, r: RipDbEntry) {
    var nextHop := r.ripEntry.nextHop;
    var last := LastUpdate(h, k, nextHop);
    && last.Some?
    && ResponseEntryToRoute(last.value.entry, nextHop) == Some(r.ripEntry)
    && r.ifIndex == last.value.ifInfo.ifIndex
    && r.ifName == last.value.ifInfo.ifName
    && r.timeoutCnt == SaturatedProduct(cfg.timeoutIncrement, TicksSince(h, k, nextHop))
    && r.timeoutCnt < cfg.timeoutLimit
  }

  ghost predicate Explained(cfg: Config, h: seq<Observation>, db: Tables) {
    forall k :: k in db.okRoutes && !db.okRoutes[k].isLocal ==> Explains(cfg, h, k, db.okRoutes[k])
  }

  lemma LastUpdateStep(h: seq<Observation>, o: Observation, k: RouteKey, nextHop: u32)
    ensures LastUpdate(h + [o], k, nextHop) == if IsUpdateFor(o, k, nextHop) then Some(o) else LastUpdate(h, k, nextHop)
    ensures TicksSince(h + [o], k, nextHop)
            == if IsUpdateFor(o, k, nextHop) then 0 else TicksSince(h, k, nextHop) + if o.Tick? then 1 else 0
  {
    assert (h + [o])[..|h|] == h;
  }

  /** An entry for another destination or from another neighbour explains nothing away. */
  lemma ForeignEntryKeepsExplanation(cfg: Config, h: seq<Observation>, o: Observation, k: RouteKey, r: RipDbEntry)
    requires Explains(cfg, h, k, r) && o.Entry? && !IsUpdateFor(o, k, r.ripEntry.nextHop)
    ensures Explains(cfg, h + [o], k, r)
  {
    LastUpdateStep(h, o, k, r.ripEntry.nextHop);
  }

  lemma FreshEntryExplains(cfg: Config, h: seq<Observation>, entry: RipEntry, source: u32, ifInfo: RipIfInfo,
      r: RipDbEntry)
    requires cfg.timeoutLimit > 0 && ResponseEntryToRoute(entry, source) == Some(r.ripEntry)
    requires r.ifIndex == ifInfo.ifIndex && r.ifName == ifInfo.ifName && r.timeoutCnt == 0
    ensures Explains(cfg, h + [Entry(entry, source, ifInfo)], KeyOf(entry), r)
  {
    LastUpdateStep(h, Entry(entry, source, ifInfo), KeyOf(entry), source);
  }

  /** What one entry may leave at its own destination: nothing active, a fresh record of the
      entry, or the old route if that belongs to another neighbour. */
  lemma EntryOutcome(c: Core, entry: RipEntry, source: u32, ifInfo: RipIfInfo, now: nat)
    requires KeysMatch(c.db)
    ensures var k := KeyOf(entry);
            var after := SlotAt(HandleEntry(c, entry, source, ifInfo, now).db, k).ok;
            var e := ResponseEntryToRoute(entry, source);
            || (e.None? && after == SlotAt(c.db, k).ok)
            || after.None?
            || (e.Some? && after.value.ripEntry == e.value && after.value.ifIndex == ifInfo.ifIndex
                && after.value.ifName == ifInfo.ifName && after.value.timeoutCnt == 0)
            || (e.Some? && after == SlotAt(c.db, k).ok && after.value.ripEntry.nextHop != source)
  {
    hide IsEntryValid, UpdateMetric, BuildRouteMessage;
  }

  lemma EntryKeepsExplained(cfg: Config, h: seq<Observation>, c: Core, entry: RipEntry, source: u32,
      ifInfo: RipIfInfo, now: nat)
    requires cfg.timeoutLimit > 0 && KeysMatch(c.db) && Explained(cfg, h, c.db)
    ensures Explained(cfg, h + [Entry(entry, source, ifInfo)], HandleEntry(c, entry, source, ifInfo, now).db)
  {
    hide HandleEntry, KeysMatch, Explains, IsEntryValid;
    var o := Entry(entry, source, ifInfo);
    var db := HandleEntry(c, entry, source, ifInfo, now).db;
    EntryIsLocal(c, entry, source, ifInfo, now);
    EntryOutcome(c, entry, source, ifInfo, now);
    forall k | k in db.okRoutes && !db.okRoutes[k].isLocal
      ensures Explains(cfg, h + [o], k, db.okRoutes[k])
    {
      var r := db.okRoutes[k];
      assert SlotAt(db, k).ok == Some(r);
      if SlotAt(c.db, k).ok == Some(r) && !IsUpdateFor(o, k, r.ripEntry.nextHop) {
        ForeignEntryKeepsExplanation(cfg, h, o, k, r);
      } else {
        FreshEntryExplains(cfg, h, entry, source, ifInfo, r);
      }
    }
  }

  lemma {:induction false} EntriesKeepExplained(cfg: Config, h: seq<Observation>, c: Core, entries: seq<RipEntry>,
      source: u32, ifInfo: RipIfInfo, now: nat)
    requires cfg.timeoutLimit > 0 && source != 0 && Consistent(c) && Explained(cfg, h, c.db)
    ensures Explained(cfg, h + EntriesOf(entries, source, ifInfo), HandleEntries(c, entries, source, ifInfo, now).db)
  {
    hide Consistent, Explained, HandleEntry;
    if entries == [] {
      assert h + EntriesOf(entries, source, ifInfo) == h;
    } else {
      var n := |entries| - 1;
      var before := HandleEntries(c, entries[..n], source, ifInfo, now);
      EntriesKeepExplained(cfg, h, c, entries[..n], source, ifInfo, now);
      HandleEntriesPreserves(c, entries[..n], source, ifInfo, now);
      ConsistentKeysMatch(before);
      EntryKeepsExplained(cfg, h + EntriesOf(entries[..n], source, ifInfo), before, entries[n], source, ifInfo, now);
      assert h + EntriesOf(entries, source, ifInfo)
          == (h + EntriesOf(entries[..n], source, ifInfo)) + [Entry(entries[n], source, ifInfo)];
    }
  }

  lemma ConsistentKeysMatch(c: Core)
    requires Consistent(c)
    ensures KeysMatch(c.db)
  {
  }

  lemma SaturatedProductStep(increment: u64, ticks: nat)
    ensures SaturatingAdd(SaturatedProduct(increment, ticks), increment) == SaturatedProduct(increment, ticks + 1)
  {
    assert increment * (ticks + 1) == increment * ticks + increment;
  }

  /** A tick advances every counter by one product step, and a route that stays is below the limit. */
  lemma TimeoutKeepsExplained(cfg: Config, h: seq<Observation>, s: State, now: nat, s': State)
    requires Explained(cfg, h, s.core.db) && TimeoutStep(cfg, s, now, s')
    ensures Explained(cfg, h + [Tick], s'.core.db)
  {
    hide BuildRouteMessage, IsEntryValid, UpdateMetric, Expired;
    var ticked := Ticking(s.core, cfg.timeoutIncrement);
    var order :|
      && IsOrder(order, ticked.db.TimedOut(cfg.timeoutLimit))
      && s' == s.(core := RetireAll(ticked, order, now), gcArmed := s.gcArmed || order != []);
    RetireAllResult(ticked, order, now);
    var db := s'.core.db;
    forall k | k in db.okRoutes && !db.okRoutes[k].isLocal
      ensures Explains(cfg, h + [Tick], k, db.okRoutes[k])
    {
      assert SlotAt(db, k).ok == Some(db.okRoutes[k]);
      assert k !in order;
      assert SlotAt(db, k) == SlotAt(ticked.db, k);
      var r := s.core.db.okRoutes[k];
      assert db.okRoutes[k] == Ticked(r, cfg.timeoutIncrement);
      assert Explains(cfg, h, k, r);
      LastUpdateStep(h, Tick, k, r.ripEntry.nextHop);
      SaturatedProductStep(cfg.timeoutIncrement, TicksSince(h, k, r.ripEntry.nextHop));
    }
  }

  lemma SameRoutesExplained(cfg: Config, h: seq<Observation>, a: Tables, b: Tables)
    requires Explained(cfg, h, a)
    requires forall k :: k in b.okRoutes && !b.okRoutes[k].isLocal ==>
               k in a.okRoutes && !a.okRoutes[k].isLocal
                   && b.okRoutes[k].(changed := a.okRoutes[k].changed) == a.okRoutes[k]
    ensures Explained(cfg, h, b)
  {
    hide LastUpdate, TicksSince, IsEntryValid;
    forall k | k in b.okRoutes && !b.okRoutes[k].isLocal
      ensures Explains(cfg, h, k, b.okRoutes[k])
    {
      assert Explains(cfg, h, k, a.okRoutes[k]);
    }
  }

  lemma NextKeepsExplained(cfg: Config, h: seq<Observation>, s: State, e: Event, now: nat, s': State)
    requires cfg.timeoutLimit > 0 && NonzeroSource(e) && Consistent(s.core)
    requires Explained(cfg, h, s.core.db) && Next(cfg, s, e, now, s')
    ensures Explained(cfg, h + Observed(e), s'.core.db)
  {
    hide Explained, Consistent, Arm, Observed;
    var mid :| Arm(cfg, s, e, now, mid) && Trigger(cfg, mid, s');
    ArmKeepsExplained(cfg, h, s, e, now, mid);
    SameRoutesExplained(cfg, h + Observed(e), mid.core.db, s'.core.db);
  }

  lemma ArmKeepsExplained(cfg: Config, h: seq<Observation>, s: State, e: Event, now: nat, s': State)
    requires cfg.timeoutLimit > 0 && NonzeroSource(e) && Consistent(s.core)
    requires Explained(cfg, h, s.core.db) && Arm(cfg, s, e, now, s')
    ensures Explained(cfg, h + Observed(e), s'.core.db)
  {
    hide Explained, Consistent, TimeoutStep, IsSelection, HandleEntries, AdvertisedNetworkToLocalRoute;
    assert h + [] == h;
    match e {
      case TimeoutTick => TimeoutKeepsExplained(cfg, h, s, now, s');
      case Received(p) =>
        if p.port == RIP_UDP_PORT && !p.data.IsRequest() {
          EntriesKeepExplained(cfg, h, s.core, p.data.entries, p.source, p.ifInfo, now);
        }
      case _ => SameRoutesExplained(cfg, h, s.core.db, s'.core.db);
    }
  }

  /** Over every run with nonzero packet sources and a positive limit, history explains the
      routes: each active remote route is `response_entry_to_route` of the last valid entry that
      its next hop sent for it, with the interface of that packet, and its counter is the
      saturated product of the increment and the ticks since, below the limit. */
  lemma {:induction false} HistoryExplainsRoutes(cfg: Config, states: seq<State>, events: seq<Timed>, i: nat)
    requires cfg.timeoutLimit > 0 && IsRun(cfg, states, events) && SourcesNonzero(events) && i <= |events|
    ensures Explained(cfg, HistoryOf(events[..i]), states[i].core.db)
  {
    hide Explained, Consistent, Next;
    if i == 0 {
      InitHasNoRemoteRoutes(cfg, states[0]);
    } else {
      HistoryExplainsRoutes(cfg, states, events, i - 1);
      RunConsistent(cfg, states, events, i - 1);
      NextKeepsExplained(cfg, HistoryOf(events[..i - 1]), states[i - 1], events[i - 1].event, events[i - 1].now,
          states[i]);
      assert events[..i][..i - 1] == events[..i - 1];
    }
  }

  lemma InitHasNoRemoteRoutes(cfg: Config, s: State)
    requires Init(s)
    ensures Explained(cfg, [], s.core.db)
  {
    var networks :| Setup(networks).Success? && s == State(Core(Setup(networks).value, EMPTY_KERNEL), false, false, []);
    SetupConsistent(networks);
    assert Consistent(s.core);
    forall k | k in s.core.db.okRoutes && !s.core.db.okRoutes[k].isLocal ensures false {
      assert Owned(s.core.db, BuildRouteMessage(s.core.db.okRoutes[k])) by {
        OwnerKeyOfMessage(s.core.db.okRoutes[k]);
      }
    }
  }

  // ----- when exactly a route times out

  /** The number of ticks a route survives without an update, plus one. */
  function TicksToExpiry(cfg: Config): nat
    requires cfg.timeoutIncrement > 0
  {
    (cfg.timeoutLimit + cfg.timeoutIncrement - 1) / cfg.timeoutIncrement
  }

  lemma ProductReaches(increment: int, limit: int, ticks: int, n: int)
    requires increment > 0 && increment * n >= limit && increment * (n - 1) < limit
    ensures increment * ticks >= limit <==> ticks >= n
  {
    if ticks >= n {
      MulMonotone(n, ticks, increment);
    } else {
      MulMonotone(ticks, n - 1, increment);
    }
  }

  lemma ExpiryTick(cfg: Config, ticks: nat)
    requires cfg.timeoutIncrement > 0
    ensures SaturatedProduct(cfg.timeoutIncrement, ticks) >= cfg.timeoutLimit <==> ticks >= TicksToExpiry(cfg)
  {
    var n, d := TicksToExpiry(cfg), cfg.timeoutIncrement as int;
    assert cfg.timeoutLimit + d - 1 == d * n + (cfg.timeoutLimit + d - 1) % d;
    assert d * (n - 1) == d * n - d;
    ProductReaches(d, cfg.timeoutLimit, ticks, n);
  }

  /** A timeout tick sends an active remote route to garbage exactly if it is the
      ceil(limit / increment)-th tick since the last update from the route's next hop; before, no
      route is that old. Local routes survive every tick. */
  lemma TimeoutIsExact(cfg: Config, states: seq<State>, events: seq<Timed>, i: nat, k: RouteKey)
    requires cfg.timeoutLimit > 0 && cfg.timeoutIncrement > 0 && IsRun(cfg, states, events) && SourcesNonzero(events)
    requires i < |events| && events[i].event == TimeoutTick && k in states[i].core.db.okRoutes
    ensures var before, after := states[i].core.db, states[i + 1].core.db;
            var ticks := TicksSince(HistoryOf(events[..i + 1]), k, before.okRoutes[k].ripEntry.nextHop);
            if before.okRoutes[k].isLocal then
              k in after.okRoutes && Stable(before.okRoutes[k], after.okRoutes[k])
            else
              && ticks <= TicksToExpiry(cfg)
              && (ticks == TicksToExpiry(cfg) <==> k !in after.okRoutes)
              && (ticks == TicksToExpiry(cfg) <==> k in after.garbageRoutes)
  {
    hide Explained, Consistent, UpdateMetric, IsEntryValid, BuildRouteMessage, TicksSince, LastUpdate;
    var h := HistoryOf(events[..i]);
    HistoryExplainsRoutes(cfg, states, events, i);
    RunConsistent(cfg, states, events, i);
    assert events[..i + 1][..i] == events[..i];
    assert HistoryOf(events[..i + 1]) == h + [Tick];
    var s, s' := states[i], states[i + 1];
    assert Next(cfg, s, TimeoutTick, events[i].now, s');
    var mid :| Arm(cfg, s, TimeoutTick, events[i].now, mid) && Trigger(cfg, mid, s');
    TimeoutOutcome(cfg, h, s, events[i].now, mid, k);
  }

  lemma TimeoutOutcome(cfg: Config, h: seq<Observation>, s: State, now: nat, s': State, k: RouteKey)
    requires cfg.timeoutIncrement > 0 && Consistent(s.core) && Explained(cfg, h, s.core.db)
        && TimeoutStep(cfg, s, now, s')
    requires k in s.core.db.okRoutes
    ensures var r, after := s.core.db.okRoutes[k], s'.core.db;
            if r.isLocal then k in after.okRoutes && after.okRoutes[k] == r
            else
              var ticks := TicksSince(h + [Tick], k, r.ripEntry.nextHop);
              && ticks <= TicksToExpiry(cfg)
              && (ticks == TicksToExpiry(cfg) <==> k !in after.okRoutes)
              && (ticks == TicksToExpiry(cfg) <==> k in after.garbageRoutes)
  {
    hide BuildRouteMessage, KernelAgrees, Explains, TicksToExpiry;
    var ticked := Ticking(s.core, cfg.timeoutIncrement);
    var order :|
      && IsOrder(order, ticked.db.TimedOut(cfg.timeoutLimit))
      && s' == s.(core := RetireAll(ticked, order, now), gcArmed := s.gcArmed || order != []);
    RetireAllResult(ticked, order, now);
    var r := s.core.db.okRoutes[k];
    assert k !in order ==> SlotAt(s'.core.db, k) == SlotAt(ticked.db, k);
    if !r.isLocal {
      assert ticked.db.okRoutes[k] == Ticked(r, cfg.timeoutIncrement);
      CounterReachesLimit(cfg, h, k, r);
      assert k !in ticked.db.garbageRoutes;
    }
  }

  lemma CounterReachesLimit(cfg: Config, h: seq<Observation>, k: RouteKey, r: RipDbEntry)
    requires cfg.timeoutIncrement > 0 && Explains(cfg, h, k, r) && !r.isLocal
    ensures var ticks := TicksSince(h + [Tick], k, r.ripEntry.nextHop);
            && ticks <= TicksToExpiry(cfg)
            && (ticks == TicksToExpiry(cfg) <==> Ticked(r, cfg.timeoutIncrement).timeoutCnt >= cfg.timeoutLimit)
  {
    hide TicksToExpiry, IsEntryValid, UpdateMetric, SaturatedProduct;
    var before := TicksSince(h, k, r.ripEntry.nextHop);
    LastUpdateStep(h, Tick, k, r.ripEntry.nextHop);
    SaturatedProductStep(cfg.timeoutIncrement, before);
    ExpiryTick(cfg, before);
    ExpiryTick(cfg, before + 1);
  }
}
