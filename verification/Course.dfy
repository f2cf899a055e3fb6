/** The invariant of a network on its way to shortest routes, for one destination. Within a round
    it holds before and after every single step, whatever the interleaving. */
module Course {
  import opened Wrappers
  import opened RipPacket
  import opened Address
  import opened RouteTables
  import opened Updater
  import opened Response
  import opened ResponseLaws
  import opened Steps
  import opened Stabilisation
  import opened Network
  import opened Rounds
  import opened RoutingTables

  // ----- what is known at the start of a round

  /** False routes have come of an age, measured in timer increments; and the routers fewer than
      `levels` hops from the destination have shortest routes. */
  datatype Course = Course(t: Topology, k: RouteKey, pace: Pace, age: nat, levels: nat)

  /** What a false route pays for one more hop. */
  function Price(pace: Pace): nat {
    pace.limit + pace.least * pace.increment
  }

  /** Levels are counted only when false routes can no longer exist, and timers are slow enough
      that a route survives two rounds. */
  ghost predicate IsCourse(x: Course) {
    && WellAddressed(x.t) && x.pace.limit > 0 && x.levels <= 15
    && (x.levels > 0 ==> x.age >= 14 * Price(x.pace) && 2 * x.pace.most * x.pace.increment < x.pace.limit)
  }

  ghost predicate Covered(x: Course, r: nat) {
    x.levels > 0 && Within(x.t, r, x.k, x.levels - 1)
  }

  /** The next routers to get their shortest route. */
  ghost predicate Frontier(x: Course, r: nat) {
    1 <= x.levels <= 14 && AtDistance(x.t, r, x.k, x.levels)
  }

  ghost predicate Near(x: Course, r: nat, q: Port) {
    Covered(x, q.router) && exists p: Port :: p.router == r && Adjacent(x.t, p, q)
  }

  // ----- the invariant of one router

  /** The route was learned on port p from the router behind port q. */
  ghost predicate LearnedOver(t: Topology, r: nat, route: RipDbEntry, p: Port, q: Port) {
    && p.router == r && Adjacent(t, p, q) && q in t.address
    && route.ifIndex == p.ifIndex && route.ripEntry.nextHop == t.address[q]
  }

  /** The route leads to a neighbour that is near enough for its metric. */
  ghost predicate Sound(t: Topology, r: nat, k: RouteKey, route: RipDbEntry)
    requires route.ripEntry.metric >= 2
  {
    exists p, q :: LearnedOver(t, r, route, p, q) && Within(t, q.router, k, route.ripEntry.metric - 2)
  }

  /** A false route has paid for its age: its metric above 2, each unit at its price, and its
      counter together cover the time since the start. */
  predicate Paid(pace: Pace, age: nat, route: RipDbEntry) {
    (route.ripEntry.metric - 2) * Price(pace) + route.timeoutCnt >= age
  }

  function AtMost(n: nat, bound: nat): nat {
    if n <= bound then n else bound
  }

  /** A local route on an interface without neighbours. */
  ghost predicate IsStub(t: Topology, r: nat, k: RouteKey, route: RipDbEntry) {
    && route.ripEntry.metric == 1 && route.ripEntry.nextHop == 0
    && forall p :: p in t.link && p.router == r ==> p.ifIndex != route.ifIndex
  }

  /** `heard` are the neighbours from which the router has heard of the destination in this round,
      `ticks` the firings of its timeout timer. */
  ghost predicate RemoteOk(x: Course, r: nat, route: RipDbEntry, heard: set<u32>, ticks: nat) {
    && 2 <= route.ripEntry.metric <= 15 && route.ripEntry.nextHop != 0 && route.timeoutCnt < x.pace.limit
    && (Sound(x.t, r, x.k, route) || Paid(x.pace, x.age + AtMost(ticks, x.pace.least) * x.pace.increment, route))
    && (route.ripEntry.nextHop in heard ==> route.timeoutCnt <= ticks * x.pace.increment)
  }

  /** All neighbours one hop nearer have been heard. */
  ghost predicate HeardNear(x: Course, r: nat, heard: set<u32>) {
    forall q: Port :: Near(x, r, q) ==> q in x.t.address && x.t.address[q] in heard
  }

  /** The route is a shortest one. */
  ghost predicate Exact(x: Course, r: nat, route: RipDbEntry) {
    route.ripEntry.metric >= 1 && AtDistance(x.t, r, x.k, route.ripEntry.metric - 1)
  }

  ghost predicate RouteOk(x: Course, r: nat, current: Option<RipDbEntry>, heard: set<u32>, ticks: nat) {
    && (Originates(x.t, r, x.k) <==> current.Some? && current.value.isLocal)
    && (current.Some? && current.value.isLocal ==> IsStub(x.t, r, x.k, current.value))
    && (current.Some? && !current.value.isLocal ==> RemoteOk(x, r, current.value, heard, ticks))
    && (Covered(x, r) ==>
          && current.Some? && Exact(x, r, current.value)
          && (current.value.isLocal || current.value.timeoutCnt <= (x.pace.most + ticks) * x.pace.increment))
    && (Frontier(x, r) && HeardNear(x, r, heard) ==> current.Some? && Exact(x, r, current.value))
  }

  /** The maps are in order as far as the destination is concerned. */
  ghost predicate Tidy(c: Core, k: RouteKey) {
    && KeysMatch(c.db)
    && !(k in c.db.okRoutes && k in c.db.garbageRoutes)
    && (k in c.db.garbageRoutes ==> c.db.garbageRoutes[k].ripEntry.metric == RIP_INFINITY_METRIC)
  }

  ghost predicate NodeOk(x: Course, r: nat, c: Core, heard: set<u32>, ticks: nat) {
    Tidy(c, x.k) && RouteOk(x, r, Active(c, x.k), heard, ticks)
  }

  // ----- the invariant of what is sent

  /** A finite entry is true, or as expensive as the false route behind it. */
  ghost predicate EntryOk(x: Course, r: nat, e: RipEntry) {
    KeyOf(e) == x.k ==>
      && (e.metric < RIP_INFINITY_METRIC ==>
            && e.metric >= 1
            && (Within(x.t, r, x.k, e.metric - 1) || (e.metric - 2) * Price(x.pace) + x.pace.limit > x.age))
      && (Covered(x, r) ==> 1 <= e.metric <= 15 && AtDistance(x.t, r, x.k, e.metric - 1))
  }

  ghost predicate LogOk(x: Course, r: nat, sent: seq<Datagram>) {
    forall d, e :: d in sent && e in EntriesIn([d.data]) ==> EntryOk(x, r, e)
  }

  // ----- arithmetic of the price

  /** No route can have paid for an age of 14 prices. */
  lemma NothingIsSoOld(pace: Pace, hops: int, counter: nat)
    requires hops <= 13 && counter <= pace.limit
    ensures hops * Price(pace) + counter <= 14 * Price(pace)
    ensures counter < pace.limit ==> hops * Price(pace) + counter < 14 * Price(pace)
  {
    hide Price;
    assert Price(pace) >= pace.limit by {
      PriceCoversLimit(pace);
    }
    MulMonotone(hops, 13, Price(pace));
  }

  lemma PriceCoversLimit(pace: Pace)
    ensures Price(pace) >= pace.limit
  {
    MulMonotone(0, pace.least, pace.increment);
  }

  /** When levels are counted, nothing false is left to be paid for. */
  lemma RemoteIsSound(x: Course, r: nat, route: RipDbEntry, heard: set<u32>, ticks: nat)
    requires IsCourse(x) && x.levels > 0 && RemoteOk(x, r, route, heard, ticks)
    ensures Sound(x.t, r, x.k, route)
  {
    hide Sound, Price, RemoteOk;
    OldRemoteIsSound(x, r, route, heard, ticks);
  }

  lemma OldRemoteIsSound(x: Course, r: nat, route: RipDbEntry, heard: set<u32>, ticks: nat)
    requires x.age >= 14 * Price(x.pace) && RemoteOk(x, r, route, heard, ticks)
    ensures Sound(x.t, r, x.k, route)
  {
    hide Sound, Price;
    NothingIsSoOld(x.pace, route.ripEntry.metric - 2, route.timeoutCnt);
    MulMonotone(0, AtMost(ticks, x.pace.least), x.pace.increment);
  }

  lemma EntryIsTrue(x: Course, r: nat, e: RipEntry)
    requires IsCourse(x) && x.levels > 0 && EntryOk(x, r, e) && KeyOf(e) == x.k && e.metric < RIP_INFINITY_METRIC
    ensures 1 <= e.metric && Within(x.t, r, x.k, e.metric - 1)
  {
    hide Within, Price;
    NothingIsSoOld(x.pace, e.metric - 2, x.pace.limit);
  }

  lemma SoundIsWithin(t: Topology, r: nat, k: RouteKey, route: RipDbEntry)
    requires route.ripEntry.metric >= 2 && Sound(t, r, k, route)
    ensures Within(t, r, k, route.ripEntry.metric - 1)
  {
    hide Within;
    var p, q :| LearnedOver(t, r, route, p, q) && Within(t, q.router, k, route.ripEntry.metric - 2);
    WithinNextHop(t, p, q, k, route.ripEntry.metric - 2);
  }

  // ----- what a router says

  lemma RouteSays(x: Course, r: nat, route: RipDbEntry, heard: set<u32>, ticks: nat)
    requires RouteOk(x, r, Some(route), heard, ticks)
    ensures EntryOk(x, r, Advert(route))
  {
    hide Within, Sound;
    if route.isLocal {
      WithinZero(x.t, r, x.k);
    } else if Sound(x.t, r, x.k, route) {
      SoundIsWithin(x.t, r, x.k, route);
    }
  }

  lemma NodeSays(x: Course, r: nat, c: Core, heard: set<u32>, ticks: nat, sent: seq<Datagram>)
    requires NodeOk(x, r, c, heard, ticks) && AllTell(c.db, sent)
    ensures LogOk(x, r, sent)
  {
    hide RouteOk, EntryOk, EntriesIn;
    forall d, e | d in sent && e in EntriesIn([d.data]) ensures EntryOk(x, r, e) {
      assert Tells(c.db, e);
      if x.k in c.db.okRoutes && e == Advert(c.db.okRoutes[x.k]) {
        RouteSays(x, r, c.db.okRoutes[x.k], heard, ticks);
      } else if x.k in c.db.garbageRoutes && e == Advert(c.db.garbageRoutes[x.k]) {
        GarbageSays(x, r, c, heard, ticks);
      } else {
        SilenceIsOk(x, r, c.db, e);
      }
    }
  }

  lemma GarbageSays(x: Course, r: nat, c: Core, heard: set<u32>, ticks: nat)
    requires NodeOk(x, r, c, heard, ticks) && x.k in c.db.garbageRoutes
    ensures EntryOk(x, r, Advert(c.db.garbageRoutes[x.k]))
  {
    hide Within;
  }

  lemma SilenceIsOk(x: Course, r: nat, db: Tables, e: RipEntry)
    requires KeysMatch(db) && Tells(db, e)
    requires !(x.k in db.okRoutes && e == Advert(db.okRoutes[x.k]))
    requires !(x.k in db.garbageRoutes && e == Advert(db.garbageRoutes[x.k]))
    ensures EntryOk(x, r, e)
  {
  }

  // ----- one delivery

  /** The entry is what the router behind port q says, heard on port p. */
  ghost predicate SentBy(x: Course, p: Port, q: Port, d: Delivery) {
    && Adjacent(x.t, p, q) && q in x.t.address && d.source == x.t.address[q] && d.ifInfo.ifIndex == p.ifIndex
    && EntryOk(x, q.router, d.entry)
  }

  /** The route is what the delivery says, and has just been refreshed. */
  ghost predicate Fresh(x: Course, p: Port, q: Port, d: Delivery, route: RipDbEntry) {
    && !route.isLocal && route.timeoutCnt == 0
    && 1 <= d.entry.metric <= 14 && route.ripEntry.metric == d.entry.metric + 1
    && LearnedOver(x.t, p.router, route, p, q)
  }

  predicate Speaks(d: Delivery, k: RouteKey) {
    KeyOf(d.entry) == k && IsEntryValid(d.entry)
  }

  lemma ChooseOutcome(x: Course, p: Port, q: Port, d: Delivery, current: Option<RipDbEntry>)
    requires WellAddressed(x.t) && SentBy(x, p, q, d) && Speaks(d, x.k)
    requires current.Some? && current.value.isLocal
        ==> current.value.ripEntry.nextHop == 0 && current.value.ripEntry.metric == 1
    ensures var after := Choose(current, ResponseEntryToRoute(d.entry, d.source).value, d.ifInfo);
            || (after.None? && d.entry.metric >= 15 &&
                  (current.Some? ==> current.value.ripEntry.nextHop == d.source && !current.value.isLocal))
            || (after == current && current.Some? && current.value.ripEntry.nextHop != d.source
                  && (d.entry.metric <= 14 ==> current.value.ripEntry.metric <= d.entry.metric + 1))
            || (after.Some? && Fresh(x, p, q, d, after.value) && (current.Some? ==> !current.value.isLocal)
                  && (current.None? || current.value.ripEntry.nextHop == d.source
                        || current.value.ripEntry.metric > d.entry.metric + 1))
  {
    hide Within, EntryOk, IsUnicastAddress, IsNetMaskValid;
  }

  /** A fresh route is sound if the entry was true, and else has paid one more unit of metric
      against a counter that was below the limit. */
  lemma FreshIsOk(x: Course, p: Port, q: Port, d: Delivery, route: RipDbEntry, heard: set<u32>, ticks: nat)
    requires IsCourse(x) && SentBy(x, p, q, d) && Speaks(d, x.k) && Fresh(x, p, q, d, route)
    ensures RemoteOk(x, p.router, route, heard, ticks)
  {
    hide Within;
    if Within(x.t, q.router, x.k, d.entry.metric - 1) {
      assert LearnedOver(x.t, p.router, route, p, q);
    } else {
      NextUnit(d.entry.metric, Price(x.pace));
      MulMonotone(AtMost(ticks, x.pace.least), x.pace.least, x.pace.increment);
    }
  }

  lemma NextUnit(metric: int, price: int)
    ensures (metric + 1 - 2) * price == (metric - 2) * price + price
  {
  }

  /** The next hop of a sound route is one particular port, near enough for the metric. */
  lemma NextHopPort(x: Course, r: nat, route: RipDbEntry, q: Port)
    requires WellAddressed(x.t) && route.ripEntry.metric >= 2 && Sound(x.t, r, x.k, route)
    requires q in x.t.address && route.ripEntry.nextHop == x.t.address[q]
    ensures Within(x.t, q.router, x.k, route.ripEntry.metric - 2)
  {
    hide Within;
    var p', q' :| LearnedOver(x.t, r, route, p', q') && Within(x.t, q'.router, x.k, route.ripEntry.metric - 2);
    assert q' == q;
  }

  /** A covered router never wavers: its next hop repeats itself, nobody else is better. */
  lemma CoveredStays(x: Course, p: Port, q: Port, d: Delivery, route: RipDbEntry, heard: set<u32>, ticks: nat)
    requires IsCourse(x) && SentBy(x, p, q, d) && Speaks(d, x.k) && Covered(x, p.router)
    requires RouteOk(x, p.router, Some(route), heard, ticks)
    ensures d.entry.metric <= 14 ==> route.ripEntry.metric <= d.entry.metric + 1
    ensures route.ripEntry.nextHop == d.source ==> !route.isLocal && d.entry.metric + 1 == route.ripEntry.metric
  {
    hide Within, Sound;
    var h := route.ripEntry.metric - 1;
    if d.entry.metric <= 14 {
      EntryIsTrue(x, q.router, d.entry);
      NeighbourDistances(x.t, p, q, x.k, h, d.entry.metric - 1);
    }
    if route.ripEntry.nextHop == d.source {
      RemoteIsSound(x, p.router, route, heard, ticks);
      NextHopPort(x, p.router, route, q);
      WithinLevels(x, p.router, h);
      WithinMonotone(x.t, q.router, x.k, h - 1, x.levels - 1);
      DistanceIsLeast(x.t, q.router, x.k, d.entry.metric - 1, h - 1);
      NeighbourDistances(x.t, p, q, x.k, h, d.entry.metric - 1);
    }
  }

  /** The distance of a covered router is below the number of levels. */
  lemma WithinLevels(x: Course, r: nat, h: nat)
    requires Covered(x, r) && AtDistance(x.t, r, x.k, h)
    ensures h < x.levels
  {
    DistanceIsLeast(x.t, r, x.k, h, x.levels - 1);
  }

  /** At the frontier: a sound route is no shorter than the distance. */
  lemma FrontierMetric(x: Course, r: nat, route: RipDbEntry)
    requires Frontier(x, r) && route.ripEntry.metric >= 2 && Sound(x.t, r, x.k, route)
    ensures route.ripEntry.metric >= x.levels + 1
    ensures route.ripEntry.metric == x.levels + 1 <==> Exact(x, r, route)
  {
    hide Within, Sound;
    SoundIsWithin(x.t, r, x.k, route);
    DistanceIsLeast(x.t, r, x.k, x.levels, route.ripEntry.metric - 1);
    if Exact(x, r, route) {
      SameDistance(x.t, r, x.k, x.levels, route.ripEntry.metric - 1);
    }
  }

  /** What the frontier hears: exactly the distance from a near neighbour, more from any other. */
  lemma FrontierOffer(x: Course, p: Port, q: Port, d: Delivery)
    requires IsCourse(x) && SentBy(x, p, q, d) && Speaks(d, x.k) && Frontier(x, p.router)
    ensures Covered(x, q.router) ==> d.entry.metric == x.levels
    ensures !Covered(x, q.router) ==> d.entry.metric > x.levels
  {
    hide Within;
    if Covered(x, q.router) {
      WithinLevels(x, q.router, d.entry.metric - 1);
      NeighbourDistances(x.t, p, q, x.k, x.levels, d.entry.metric - 1);
    } else if d.entry.metric <= x.levels {
      EntryIsTrue(x, q.router, d.entry);
      WithinMonotone(x.t, q.router, x.k, d.entry.metric - 1, x.levels - 1);
    }
  }

  /** An exact route at the frontier has its next hop among the near neighbours. */
  lemma FrontierNextHop(x: Course, r: nat, route: RipDbEntry)
    returns (q: Port)
    requires Frontier(x, r) && route.ripEntry.metric == x.levels + 1 && Sound(x.t, r, x.k, route)
    ensures Near(x, r, q) && q in x.t.address && x.t.address[q] == route.ripEntry.nextHop
  {
    hide Within;
    var p: Port;
    p, q :| LearnedOver(x.t, r, route, p, q) && Within(x.t, q.router, x.k, route.ripEntry.metric - 2);
  }

  lemma ChooseKeepsCovered(x: Course, p: Port, q: Port, d: Delivery, route: RipDbEntry, heard: set<u32>, ticks: nat)
    requires IsCourse(x) && SentBy(x, p, q, d) && Speaks(d, x.k) && Covered(x, p.router)
    requires RouteOk(x, p.router, Some(route), heard, ticks)
    ensures var after := Choose(Some(route), ResponseEntryToRoute(d.entry, d.source).value, d.ifInfo);
            && after.Some? && Exact(x, p.router, after.value)
            && (after.value.isLocal || after.value.timeoutCnt <= (x.pace.most + ticks) * x.pace.increment)
  {
    hide Within, Sound, SentBy, Choose, RemoteOk, IsEntryValid, ResponseEntryToRoute;
    CoveredStays(x, p, q, d, route, heard, ticks);
    ChooseOutcome(x, p, q, d, Some(route));
    CoveredMetric(x, p.router, route);
  }

  lemma CoveredMetric(x: Course, r: nat, route: RipDbEntry)
    requires IsCourse(x) && Covered(x, r) && Exact(x, r, route)
    ensures route.ripEntry.metric <= 15
  {
    WithinLevels(x, r, route.ripEntry.metric - 1);
  }

  lemma ChooseKeepsFrontier(x: Course, p: Port, q: Port, d: Delivery, current: Option<RipDbEntry>, heard: set<u32>,
      ticks: nat)
    requires IsCourse(x) && SentBy(x, p, q, d) && Speaks(d, x.k)
    requires Frontier(x, p.router) && HeardNear(x, p.router, heard + {d.source})
    requires RouteOk(x, p.router, current, heard, ticks)
    ensures var after := Choose(current, ResponseEntryToRoute(d.entry, d.source).value, d.ifInfo);
            after.Some? && Exact(x, p.router, after.value)
  {
    hide Within, Sound, SentBy, Choose, IsEntryValid, UpdateMetric, Exact, Covered, Near, HeardNear;
    var after := Choose(current, ResponseEntryToRoute(d.entry, d.source).value, d.ifInfo);
    FrontierOffer(x, p, q, d);
    ChooseOutcome(x, p, q, d, current);
    FrontierIsRemote(x, p.router, current, heard, ticks);
    if current.Some? {
      RemoteIsSound(x, p.router, current.value, heard, ticks);
      FrontierMetric(x, p.router, current.value);
    }
    if Covered(x, q.router) {
      if after != current {
        FreshIsOk(x, p, q, d, after.value, heard, ticks);
        RemoteIsSound(x, p.router, after.value, heard, ticks);
        FrontierMetric(x, p.router, after.value);
      }
    } else {
      FarIsNotNear(x, p, q, d, heard);
      if current.value.ripEntry.nextHop == d.source {
        NextHopIsNear(x, p, q, d, current.value);
      }
    }
  }

  /** A router at the frontier originates nothing. */
  lemma FrontierIsRemote(x: Course, r: nat, current: Option<RipDbEntry>, heard: set<u32>, ticks: nat)
    requires Frontier(x, r) && RouteOk(x, r, current, heard, ticks)
    ensures current.Some? ==> !current.value.isLocal && RemoteOk(x, r, current.value, heard, ticks)
  {
    hide RemoteOk;
    if Originates(x.t, r, x.k) {
      WithinZero(x.t, r, x.k);
      WithinMonotone(x.t, r, x.k, 0, x.levels - 1);
    }
  }

  lemma FarIsNotNear(x: Course, p: Port, q: Port, d: Delivery, heard: set<u32>)
    requires WellAddressed(x.t) && SentBy(x, p, q, d) && !Covered(x, q.router)
    requires HeardNear(x, p.router, heard + {d.source})
    ensures HeardNear(x, p.router, heard)
  {
    hide Within;
  }

  lemma NextHopIsNear(x: Course, p: Port, q: Port, d: Delivery, route: RipDbEntry)
    requires WellAddressed(x.t) && SentBy(x, p, q, d) && Frontier(x, p.router)
    requires route.ripEntry.metric == x.levels + 1 && Sound(x.t, p.router, x.k, route)
    requires route.ripEntry.nextHop == d.source
    ensures Covered(x, q.router)
  {
    hide Within;
    NextHopPort(x, p.router, route, q);
  }

  /** What is heard of the destination keeps the invariant, and its sender counts as heard. */
  lemma ChooseKeeps(x: Course, p: Port, q: Port, d: Delivery, current: Option<RipDbEntry>, heard: set<u32>, ticks: nat)
    requires IsCourse(x) && SentBy(x, p, q, d) && Speaks(d, x.k) && RouteOk(x, p.router, current, heard, ticks)
    ensures RouteOk(x, p.router, Choose(current, ResponseEntryToRoute(d.entry, d.source).value, d.ifInfo),
                    heard + {d.source}, ticks)
  {
    hide Within, Sound, SentBy, Choose, IsEntryValid, UpdateMetric, Exact, Covered, Frontier, HeardNear;
    var after := Choose(current, ResponseEntryToRoute(d.entry, d.source).value, d.ifInfo);
    ChooseOutcome(x, p, q, d, current);
    if after.Some? && after != current {
      FreshIsOk(x, p, q, d, after.value, heard + {d.source}, ticks);
    }
    if Covered(x, p.router) {
      ChooseKeepsCovered(x, p, q, d, current.value, heard, ticks);
    }
    if Frontier(x, p.router) && HeardNear(x, p.router, heard + {d.source}) {
      ChooseKeepsFrontier(x, p, q, d, current, heard, ticks);
    }
  }

  // ----- packets

  lemma DeliverTidy(c: Core, d: Delivery, k: RouteKey)
    requires Tidy(c, k)
    ensures Tidy(Deliver(c, d), k)
  {
    hide HandleEntry, KeysMatch;
    EntryIsLocal(c, d.entry, d.source, d.ifInfo, d.now);
    DeliverKeepsDisjoint(c, d, k);
  }

  lemma DeliverKeepsDisjoint(c: Core, d: Delivery, k: RouteKey)
    requires KeysMatch(c.db) && !(k in c.db.okRoutes && k in c.db.garbageRoutes)
    requires k in c.db.garbageRoutes ==> c.db.garbageRoutes[k].ripEntry.metric == RIP_INFINITY_METRIC
    ensures var db := Deliver(c, d).db;
            && !(k in db.okRoutes && k in db.garbageRoutes)
            && (k in db.garbageRoutes ==> db.garbageRoutes[k].ripEntry.metric == RIP_INFINITY_METRIC)
  {
    hide BuildRouteMessage, IsEntryValid, UpdateMetric;
  }

  lemma TidyKeysMatch(c: Core, k: RouteKey)
    requires Tidy(c, k)
    ensures KeysMatch(c.db)
  {
  }

  lemma DeliverKeeps(x: Course, p: Port, q: Port, c: Core, d: Delivery, heard: set<u32>, ticks: nat)
    requires IsCourse(x) && SentBy(x, p, q, d) && NodeOk(x, p.router, c, heard, ticks)
    ensures NodeOk(x, p.router, Deliver(c, d), if Speaks(d, x.k) then heard + {d.source} else heard, ticks)
  {
    hide Tidy, RouteOk, HandleEntry, Choose, IsEntryValid, ResponseEntryToRoute, SentBy;
    DeliverTidy(c, d, x.k);
    TidyKeysMatch(c, x.k);
    HandlerRefinesChoose(c, d, x.k);
    if Speaks(d, x.k) {
      ChooseKeeps(x, p, q, d, Active(c, x.k), heard, ticks);
    }
  }

  /** A response has something valid to say about the destination. */
  ghost predicate Mentions(entries: seq<RipEntry>, k: RouteKey) {
    exists e :: e in entries && KeyOf(e) == k && IsEntryValid(e)
  }

  lemma {:induction false} EntriesKeep(x: Course, p: Port, q: Port, c: Core, entries: seq<RipEntry>, source: u32,
      ifInfo: RipIfInfo, now: nat, heard: set<u32>, ticks: nat)
    requires IsCourse(x) && NodeOk(x, p.router, c, heard, ticks)
    requires Adjacent(x.t, p, q) && q in x.t.address && source == x.t.address[q] && ifInfo.ifIndex == p.ifIndex
    requires forall e :: e in entries ==> EntryOk(x, q.router, e)
    ensures NodeOk(x, p.router, HandleEntries(c, entries, source, ifInfo, now),
                   if Mentions(entries, x.k) then heard + {source} else heard, ticks)
  {
    hide NodeOk, EntryOk, HandleEntry, IsEntryValid, IsCourse, Adjacent;
    if entries == [] {
    } else {
      var n := |entries| - 1;
      var last, before := entries[n], HandleEntries(c, entries[..n], source, ifInfo, now);
      assert entries == entries[..n] + [last];
      EntriesKeep(x, p, q, c, entries[..n], source, ifInfo, now, heard, ticks);
      var heard' := if Mentions(entries[..n], x.k) then heard + {source} else heard;
      var d := Delivery(last, source, ifInfo, now);
      DeliverKeeps(x, p, q, before, d, heard', ticks);
      assert heard' + {source} == heard + {source};
    }
  }

  // ----- ticks and the other arms

  lemma TickedCounter(x: Course, r: nat, route: RipDbEntry, heard: set<u32>, ticks: nat)
    requires RemoteOk(x, r, route, heard, ticks)
    ensures var after := Ticked(route, x.pace.increment);
            after.timeoutCnt < x.pace.limit && !route.isLocal ==> RemoteOk(x, r, after, heard, ticks + 1)
  {
    hide Within;
    var inc := x.pace.increment;
    var after := Ticked(route, inc);
    if after.timeoutCnt < x.pace.limit && !route.isLocal {
      assert (ticks + 1) * inc == ticks * inc + inc;
      PaidGrows(x, ticks);
      if Sound(x.t, r, x.k, route) {
        var p, q :| LearnedOver(x.t, r, route, p, q) && Within(x.t, q.router, x.k, route.ripEntry.metric - 2);
        assert LearnedOver(x.t, r, after, p, q);
      }
    }
  }

  lemma PaidGrows(x: Course, ticks: nat)
    ensures AtMost(ticks + 1, x.pace.least) * x.pace.increment
            <= AtMost(ticks, x.pace.least) * x.pace.increment + x.pace.increment
  {
    var inc := x.pace.increment;
    assert (ticks + 1) * inc == ticks * inc + inc;
  }

  /** A timeout tick keeps the invariant; a covered route, and one at the frontier whose next hop
      has been heard, is too young to time out. */
  lemma AgedKeeps(x: Course, r: nat, current: Option<RipDbEntry>, heard: set<u32>, ticks: nat)
    requires IsCourse(x) && RouteOk(x, r, current, heard, ticks) && (x.levels > 0 ==> ticks < x.pace.most)
    ensures RouteOk(x, r, AgedRoute(x.pace.increment, x.pace.limit, current), heard, ticks + 1)
  {
    hide Within, Sound, AtDistance, HeardNear, RemoteOk;
    if current.Some? && !current.value.isLocal {
      var route := current.value;
      TickedCounter(x, r, route, heard, ticks);
      if Covered(x, r) {
        CoveredIsYoung(x, r, route, ticks);
      }
      if Frontier(x, r) && HeardNear(x, r, heard) {
        FrontierIsYoung(x, r, route, heard, ticks);
      }
    }
  }

  lemma CoveredIsYoung(x: Course, r: nat, route: RipDbEntry, ticks: nat)
    requires IsCourse(x) && Covered(x, r) && ticks < x.pace.most
    requires route.timeoutCnt <= (x.pace.most + ticks) * x.pace.increment
    ensures route.timeoutCnt + x.pace.increment <= (x.pace.most + ticks + 1) * x.pace.increment < x.pace.limit
  {
    hide Within;
    var inc := x.pace.increment;
    assert (x.pace.most + ticks + 1) * inc == (x.pace.most + ticks) * inc + inc;
    MulMonotone(x.pace.most + ticks + 1, 2 * x.pace.most, inc);
  }

  lemma FrontierIsYoung(x: Course, r: nat, route: RipDbEntry, heard: set<u32>, ticks: nat)
    requires IsCourse(x) && Frontier(x, r) && HeardNear(x, r, heard) && ticks < x.pace.most
    requires !route.isLocal && RemoteOk(x, r, route, heard, ticks) && Exact(x, r, route)
    ensures route.timeoutCnt + x.pace.increment < x.pace.limit
  {
    hide Within, Sound;
    RemoteIsSound(x, r, route, heard, ticks);
    FrontierMetric(x, r, route);
    var q := FrontierNextHop(x, r, route);
    assert route.ripEntry.nextHop in heard;
    var inc := x.pace.increment;
    assert (ticks + 1) * inc == ticks * inc + inc;
    MulMonotone(ticks + 1, 2 * x.pace.most, inc);
  }

  lemma StableKeeps(x: Course, r: nat, route: RipDbEntry, after: RipDbEntry, heard: set<u32>, ticks: nat)
    requires RouteOk(x, r, Some(route), heard, ticks) && Stable(route, after)
    ensures RouteOk(x, r, Some(after), heard, ticks)
  {
    hide Within, Covered, Frontier, HeardNear;
    if !route.isLocal && Sound(x.t, r, x.k, route) {
      var p, q :| LearnedOver(x.t, r, route, p, q) && Within(x.t, q.router, x.k, route.ripEntry.metric - 2);
      assert LearnedOver(x.t, r, after, p, q);
    }
  }

  lemma KeepsKeeps(x: Course, r: nat, c: Core, c': Core, heard: set<u32>, ticks: nat)
    requires NodeOk(x, r, c, heard, ticks) && Keeps(c, c', x.k)
    ensures NodeOk(x, r, c', heard, ticks)
  {
    hide RouteOk;
    if x.k in c.db.okRoutes {
      StableKeeps(x, r, c.db.okRoutes[x.k], c'.db.okRoutes[x.k], heard, ticks);
    }
  }

  // ----- one step of a router

  /** The neighbours from which a router has heard of the destination, by address. */
  ghost function HeardIn(actions: seq<Action>, r: nat, k: RouteKey): set<u32> {
    if actions == [] then {}
    else HeardIn(actions[..|actions| - 1], r, k) + HeardAt(actions[|actions| - 1], r, k)
  }

  ghost function HeardAt(a: Action, r: nat, k: RouteKey): set<u32> {
    if a.router == r && Processed(a.event) && Mentions(a.event.packet.data.entries, k)
        then {a.event.packet.source} else {}
  }

  function TickAt(a: Action, r: nat): nat {
    if a.router == r && a.event == TimeoutTick then 1 else 0
  }

  /** The routers on course in the middle of a round. */
  ghost predicate Holds(x: Course, start: Nodes, nodes: Nodes, actions: seq<Action>) {
    && nodes.Keys == start.Keys
    && forall r :: r in nodes ==>
         && start[r].sent <= nodes[r].sent && LogOk(x, r, Tail(start, nodes, r))
         && NodeOk(x, r, nodes[r].core, HeardIn(actions, r, x.k), Ticks(actions, r))
  }

  lemma PacketKeeps(x: Course, start: Nodes, nodes: Nodes, a: Action, c: Core, heard: set<u32>, ticks: nat)
    requires IsCourse(x) && Processed(a.event) && Arrives(x.t, start, nodes, a.router, a.event.packet)
    requires NodeOk(x, a.router, c, heard, ticks)
    requires forall r :: r in nodes ==> LogOk(x, r, Tail(start, nodes, r))
    ensures NodeOk(x, a.router, HandleResponse(c, a.event.packet, a.now), heard + HeardAt(a, a.router, x.k), ticks)
  {
    hide NodeOk, EntryOk, HandleEntries, IsCourse, Mentions, Adjacent, WellAddressed;
    var packet := a.event.packet;
    var p: Port, q: Port, d: Datagram :| p.router == a.router && Carries(x.t, p, q, d, packet)
        && d in Tail(start, nodes, q.router);
    assert EntriesIn([d.data]) == packet.data.entries + [] == packet.data.entries;
    EntriesKeep(x, p, q, c, packet.data.entries, packet.source, packet.ifInfo, a.now, heard, ticks);
    assert heard + {} == heard;
  }

  lemma TimeoutKeeps(x: Course, cfg: Config, r: nat, s: State, now: nat, s': State, heard: set<u32>, ticks: nat)
    requires IsCourse(x) && cfg.timeoutIncrement == x.pace.increment && cfg.timeoutLimit == x.pace.limit
    requires NodeOk(x, r, s.core, heard, ticks) && TimeoutStep(cfg, s, now, s')
        && (x.levels > 0 ==> ticks < x.pace.most)
    ensures NodeOk(x, r, s'.core, heard, ticks + 1) && s'.sent == s.sent
  {
    hide RouteOk, TimeoutStep, KeysMatch, AgedRoute;
    TimeoutEffect(cfg, s, now, s', x.k);
    AgedKeeps(x, r, Active(s.core, x.k), heard, ticks);
    RetiredIsGone(x, s.core, s'.core, x.k);
  }

  lemma RetiredIsGone(x: Course, c: Core, c': Core, k: RouteKey)
    requires Active(c', k) == AgedRoute(x.pace.increment, x.pace.limit, Active(c, k))
    ensures k in c'.db.okRoutes ==> k in c.db.okRoutes
  {
  }

  lemma ArmKeeps(x: Course, cfgs: map<nat, Config>, start: Nodes, nodes: Nodes, a: Action, mid: State, heard: set<u32>,
      ticks: nat)
    requires IsCourse(x) && a.router in nodes && a.router in cfgs
    requires cfgs[a.router].timeoutIncrement == x.pace.increment && cfgs[a.router].timeoutLimit == x.pace.limit
    requires Allowed(x.t, x.k, start, nodes, a) && NodeOk(x, a.router, nodes[a.router].core, heard, ticks)
    requires forall r :: r in nodes ==> LogOk(x, r, Tail(start, nodes, r))
    requires Arm(cfgs[a.router], nodes[a.router], a.event, a.now, mid)
    requires x.levels > 0 && a.event == TimeoutTick ==> ticks < x.pace.most
    ensures NodeOk(x, a.router, mid.core, heard + HeardAt(a, a.router, x.k), ticks + TickAt(a, a.router))
    ensures Appends(nodes[a.router].core.db, nodes[a.router].sent, mid.sent)
  {
    hide RouteOk, LogOk, Tidy, Arrives, AddsOthers, TimeoutStep, Advertise, HandleEntries, IsSelection, Appends,
        AddNetwork,
         Mentions, IsCourse;
    var s := nodes[a.router];
    TidyKeysMatch(s.core, x.k);
    NothingAppended(s.core.db, s.sent);
    assert heard + {} == heard;
    if Processed(a.event) {
      PacketKeeps(x, start, nodes, a, s.core, heard, ticks);
    } else if a.event == TimeoutTick {
      TimeoutKeeps(x, cfgs[a.router], a.router, s, a.now, mid, heard, ticks);
    } else {
      OtherArmEffect(cfgs[a.router], s, a.event, a.now, mid, x.k);
      KeepsKeeps(x, a.router, s.core, mid.core, heard, ticks);
    }
  }

  lemma LogGrows(x: Course, r: nat, c: Core, heard: set<u32>, ticks: nat, start: seq<Datagram>, sent: seq<Datagram>,
      sent': seq<Datagram>)
    requires NodeOk(x, r, c, heard, ticks) && Appends(c.db, sent, sent')
    requires start <= sent && LogOk(x, r, sent[|start|..])
    ensures start <= sent' && LogOk(x, r, sent'[|start|..])
  {
    hide NodeOk, EntryOk, AllTell;
    NodeSays(x, r, c, heard, ticks, sent'[|sent|..]);
    assert sent'[|start|..] == sent[|start|..] + sent'[|sent|..];
  }

  lemma {:induction false} StepHolds(x: Course, cfgs: map<nat, Config>, start: Nodes, nodes: Nodes,
      actions: seq<Action>,
      a: Action, nodes': Nodes)
    requires IsCourse(x) && Holds(x, start, nodes, actions) && NodesNext(x.t, cfgs, x.k, start, nodes, a, nodes')
    requires cfgs[a.router].timeoutIncrement == x.pace.increment && cfgs[a.router].timeoutLimit == x.pace.limit
    requires x.levels > 0 ==> Ticks(actions + [a], a.router) <= x.pace.most
    ensures Holds(x, start, nodes', actions + [a])
  {
    hide IsCourse, Arm, Trigger, NodeOk, LogOk, Allowed, Appends;
    var r, cfg := a.router, cfgs[a.router];
    var s, s' := nodes[r], nodes'[r];
    var heard, ticks := HeardIn(actions, r, x.k), Ticks(actions, r);
    assert (actions + [a])[..|actions|] == actions;
    var mid :| Arm(cfg, s, a.event, a.now, mid) && Trigger(cfg, mid, s');
    ArmKeeps(x, cfgs, start, nodes, a, mid, heard, ticks);
    LogGrows(x, r, s.core, heard, ticks, start[r].sent, s.sent, mid.sent);
    var heard', ticks' := heard + HeardAt(a, r, x.k), ticks + TickAt(a, r);
    NodeKeysMatch(x, r, mid.core, heard', ticks');
    TriggerEffect(cfg, mid, s', x.k);
    KeepsKeeps(x, r, mid.core, s'.core, heard', ticks');
    LogGrows(x, r, mid.core, heard', ticks', start[r].sent, mid.sent, s'.sent);
    forall o | o in nodes' && o != r
      ensures HeardIn(actions + [a], o, x.k) == HeardIn(actions, o, x.k) && Ticks(actions + [a], o) == Ticks(actions, o)
    {
      assert HeardIn(actions, o, x.k) + {} == HeardIn(actions, o, x.k);
    }
  }

  lemma NodeKeysMatch(x: Course, r: nat, c: Core, heard: set<u32>, ticks: nat)
    requires NodeOk(x, r, c, heard, ticks)
    ensures KeysMatch(c.db)
  {
  }
}
