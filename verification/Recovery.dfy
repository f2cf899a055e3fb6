/** Recovery of a network from any state, however stale its routes: false routes count up and are
    gone after rounds that are worth 14 prices of a hop, and 14 rounds later every router has a
    shortest route again. */
module Recovery {
  import opened Address
  import opened RouteTables
  import opened Response
  import opened Steps
  import opened Invariants
  import opened Network
  import opened Rounds
  import opened Course
  import opened Convergence
  import History
  import Views

  // ----- where recovery starts

  /** What is known of a destination in every reachable state, when its originators have it on an
      interface without neighbours and over no garbage. The route may be false. */
  ghost predicate Anchored(t: Topology, pace: Pace, r: nat, k: RouteKey, c: Core) {
    && Tidy(c, k)
    && (Originates(t, r, k) <==> k in c.db.okRoutes && c.db.okRoutes[k].isLocal)
    && (k in c.db.okRoutes ==> OrdinaryRoute(t, pace, r, k, c.db.okRoutes[k]))
  }

  ghost predicate OrdinaryRoute(t: Topology, pace: Pace, r: nat, k: RouteKey, route: RipDbEntry) {
    if route.isLocal then IsStub(t, r, k, route)
    else 2 <= route.ripEntry.metric <= 15 && route.ripEntry.nextHop != 0 && route.timeoutCnt < pace.limit
  }

  /** Whatever run brought a router there, with whatever senders and lies: the state is anchored. */
  lemma ReachableIsAnchored(t: Topology, cfg: Config, pace: Pace, r: nat, k: RouteKey, states: seq<State>,
      events: seq<Timed>, i: nat)
    requires cfg.timeoutLimit == pace.limit > 0 && IsRun(cfg, states, events) && SourcesNonzero(events) && i <= |events|
    requires forall j :: 0 <= j < |events| ==> Views.AddsClear(states[j].core.db, events[j].event)
    requires var ok := states[i].core.db.okRoutes;
             && (Originates(t, r, k) <==> k in ok && ok[k].isLocal)
             && (Originates(t, r, k) ==> forall p :: p in t.link && p.router == r ==> p.ifIndex != ok[k].ifIndex)
    ensures Anchored(t, pace, r, k, states[i].core)
  {
    hide Next, Init, KernelAgrees, History.LastUpdate, History.TicksSince, Views.Coherent;
    RunConsistent(cfg, states, events, i);
    History.HistoryExplainsRoutes(cfg, states, events, i);
    Views.NeighbourViewIsCurrent(cfg, states, events, i);
    var db := states[i].core.db;
    if k in db.okRoutes && !db.okRoutes[k].isLocal {
      assert History.Explains(cfg, History.HistoryOf(events[..i]), k, db.okRoutes[k]);
    }
  }

  ghost predicate StartsAnchored(t: Topology, pace: Pace, nodes: Nodes, k: RouteKey) {
    forall r :: r in nodes ==> Anchored(t, pace, r, k, nodes[r].core)
  }

  lemma AnchoredIsReady(t: Topology, pace: Pace, nodes: Nodes, k: RouteKey)
    requires StartsAnchored(t, pace, nodes, k)
    ensures Ready(Course(t, k, pace, 0, 0), nodes)
  {
    hide Sound;
    var x := Course(t, k, pace, 0, 0);
    forall r | r in nodes ensures NodeOk(x, r, nodes[r].core, {}, 0) {
      var c := nodes[r].core;
      assert Anchored(t, pace, r, k, c);
      if k in c.db.okRoutes && !c.db.okRoutes[k].isLocal {
        NothingToPay(pace, c.db.okRoutes[k]);
      }
    }
  }

  lemma NothingToPay(pace: Pace, route: RipDbEntry)
    requires route.ripEntry.metric >= 2
    ensures Paid(pace, 0, route)
    ensures AtMost(0, pace.least) * pace.increment == 0
  {
    MulMonotone(0, route.ripEntry.metric - 2, Price(pace));
  }

  // ----- false routes count up and die

  lemma AgedCourse(t: Topology, cfgs: map<nat, Config>, pace: Pace, k: RouteKey, rounds: seq<Round>, n: nat)
    returns (x: Course)
    requires AreRounds(t, cfgs, pace, k, rounds) && n < |rounds| && pace.limit > 0
    requires |rounds[0].nets| > 0 && Wired(t, cfgs, pace, rounds[0].nets[0].Keys)
    requires StartsAnchored(t, pace, rounds[0].nets[0], k)
    ensures x == Course(t, k, pace, n * (pace.least * pace.increment), 0) && IsCourse(x)
    ensures |rounds[n].nets| > 0 && rounds[n].nets[0].Keys == rounds[0].nets[0].Keys && Ready(x, rounds[n].nets[0])
  {
    hide IsRound, StartsAnchored, Ready, WellAddressed;
    var x0 := Course(t, k, pace, 0, 0);
    AnchoredIsReady(t, pace, rounds[0].nets[0], k);
    RoundsAdvance(x0, cfgs, rounds, n);
    NetsExist(t, cfgs, pace, k, rounds);
    x := After(x0, n);
  }

  /** From any state, after rounds worth 14 prices, no false route is left at any moment: an active
      route of metric m is backed by an originator within m - 1 hops. */
  lemma FalseRoutesDie(t: Topology, cfgs: map<nat, Config>, pace: Pace, k: RouteKey, rounds: seq<Round>, n: nat, i: nat,
      r: nat)
    requires AreRounds(t, cfgs, pace, k, rounds) && n < |rounds| && i < |rounds[n].nets| && r in rounds[0].nets[0]
    requires Wired(t, cfgs, pace, rounds[0].nets[0].Keys) && pace.limit > 0
    requires StartsAnchored(t, pace, rounds[0].nets[0], k)
    requires n * (pace.least * pace.increment) >= 14 * Price(pace)
    ensures r in rounds[n].nets[i]
    ensures var ok := rounds[n].nets[i][r].core.db.okRoutes;
            k in ok ==> 1 <= ok[k].ripEntry.metric <= 15 && Within(t, r, k, ok[k].ripEntry.metric - 1)
  {
    hide AreRounds, OnRound, Wired, Ready, Within, IsCourse, StartsAnchored, Price;
    NetsExist(t, cfgs, pace, k, rounds);
    var x := AgedCourse(t, cfgs, pace, k, rounds, n);
    RoundIsOn(x, cfgs, rounds, n);
    MomentMeans(x, cfgs, rounds[n], i, r);
  }

  // ----- true routes grow back

  /** With all false routes gone, levels can be counted, beginning with the originators. */
  lemma LevelsBegin(x: Course, nodes: Nodes)
    requires IsCourse(x) && x.levels == 0 && Ready(x, nodes)
    requires x.age >= 14 * Price(x.pace) && 2 * x.pace.most * x.pace.increment < x.pace.limit
    ensures IsCourse(x.(levels := 1)) && Ready(x.(levels := 1), nodes)
  {
    var y := x.(levels := 1);
    forall r | r in nodes ensures NodeOk(y, r, nodes[r].core, {}, 0) {
      LevelsBeginAt(x, r, nodes[r].core);
    }
  }

  lemma LevelsBeginAt(x: Course, r: nat, c: Core)
    requires x.levels == 0 && NodeOk(x, r, c, {}, 0)
    ensures NodeOk(x.(levels := 1), r, c, {}, 0)
  {
    hide Sound;
    var y := x.(levels := 1);
    WithinZero(x.t, r, x.k);
    if Frontier(y, r) {
      NobodyNearIsHeard(y, r);
    }
    if x.k in c.db.okRoutes && !c.db.okRoutes[x.k].isLocal {
      assert RemoteOk(y, r, c.db.okRoutes[x.k], {}, 0);
    }
  }

  lemma RoundsFrom(t: Topology, cfgs: map<nat, Config>, pace: Pace, k: RouteKey, rounds: seq<Round>, n: nat)
    requires AreRounds(t, cfgs, pace, k, rounds) && n <= |rounds|
    ensures AreRounds(t, cfgs, pace, k, rounds[n..])
  {
    hide IsRound;
    NetsExist(t, cfgs, pace, k, rounds);
  }

  /** The network heals. Whatever false, stale or missing remote routes it starts with: at every
      moment after rounds worth 14 prices and j more, every route is a true one, and the routers
      within j hops, up to 14, have one of metric exactly the distance plus one. From j = 14 on a
      router has a route if and only if an originator is within 14 hops. */
  lemma NetworkHeals(t: Topology, cfgs: map<nat, Config>, pace: Pace, k: RouteKey, rounds: seq<Round>, n: nat, j: nat,
      i: nat, r: nat, h: nat)
    requires AreRounds(t, cfgs, pace, k, rounds) && n + j < |rounds| && i < |rounds[n + j].nets|
    requires r in rounds[0].nets[0] && Wired(t, cfgs, pace, rounds[0].nets[0].Keys) && Acceptable(k)
    requires 2 * pace.most * pace.increment < pace.limit
    requires StartsAnchored(t, pace, rounds[0].nets[0], k)
    requires n * (pace.least * pace.increment) >= 14 * Price(pace)
    ensures r in rounds[n + j].nets[i]
    ensures var ok := rounds[n + j].nets[i][r].core.db.okRoutes;
            && (AtDistance(t, r, k, h) && h <= j && h <= 14 ==> k in ok && ok[k].ripEntry.metric == h + 1)
            && (k in ok ==> Within(t, r, k, 14))
            && (j >= 14 ==> (k in ok <==> Within(t, r, k, 14)))
  {
    hide IsRound, Wired, Ready, Acceptable, Within, IsCourse, StartsAnchored, Price, Arrived;
    MulMonotone(0, 2 * pace.most, pace.increment);
    NetsExist(t, cfgs, pace, k, rounds);
    var x := AgedCourse(t, cfgs, pace, k, rounds, n);
    LevelsBegin(x, rounds[n].nets[0]);
    RoundsFrom(t, cfgs, pace, k, rounds, n);
    assert rounds[n..][0] == rounds[n] && rounds[n..][j] == rounds[n + j];
    OnCourse(x.(levels := 1), cfgs, rounds[n..], j, i, r);
    var c := rounds[n + j].nets[i][r].core;
    ArrivedMeans(t, k, r, c, AtMost(j, 14), h);
    ArrivedIsWithin(t, k, r, c, AtMost(j, 14));
  }

  lemma ArrivedIsWithin(t: Topology, k: RouteKey, r: nat, c: Core, reach: nat)
    requires Arrived(t, k, r, c, reach)
    ensures k in c.db.okRoutes ==> Within(t, r, k, 14)
    ensures Within(t, r, k, reach) ==> k in c.db.okRoutes
  {
    hide Within;
    if k in c.db.okRoutes {
      WithinMonotone(t, r, k, c.db.okRoutes[k].ripEntry.metric - 1, 14);
    }
  }
}
