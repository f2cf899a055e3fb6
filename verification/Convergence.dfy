/** Convergence of a static network: rounds carry shortest routes outwards, one hop a round, and
    what is shortest stays so at every moment. */
module Convergence {
  import opened Wrappers
  import opened RipPacket
  import opened Address
  import opened RouteTables
  import opened Updater
  import opened Response
  import opened Steps
  import opened Invariants
  import opened Stabilisation
  import opened Network
  import opened Rounds
  import opened Course
  import opened RoutingTables

  // ----- at every moment of a round

  /** The routers on course at the start of a round. */
  ghost predicate Ready(x: Course, nodes: Nodes) {
    forall r :: r in nodes ==> NodeOk(x, r, nodes[r].core, {}, 0)
  }

  ghost predicate OnRound(x: Course, cfgs: map<nat, Config>, round: Round) {
    && IsCourse(x) && (x.levels > 0 ==> Acceptable(x.k))
    && IsRound(x.t, cfgs, x.pace, x.k, round)
    && Wired(x.t, cfgs, x.pace, round.nets[0].Keys) && Ready(x, round.nets[0])
  }

  /** k is a destination that neighbours accept at all. */
  predicate Acceptable(k: RouteKey) {
    IsUnicastAddress(k.ipAddress) && IsNetMaskValid(k.subnetMask)
  }

  lemma ReadyHolds(x: Course, nodes: Nodes)
    requires Ready(x, nodes)
    ensures Holds(x, nodes, nodes, [])
  {
    hide NodeOk;
  }

  /** The invariant holds before and after every step of a round. */
  lemma {:induction false} RoundHolds(x: Course, cfgs: map<nat, Config>, round: Round, i: nat)
    requires OnRound(x, cfgs, round) && i <= |round.actions|
    ensures Holds(x, round.nets[0], round.nets[i], round.actions[..i])
  {
    hide OnRound, IsCourse, Ready, Holds, NodesNext;
    RoundParts(x, cfgs, round);
    if i == 0 {
      ReadyHolds(x, round.nets[0]);
    } else {
      RoundHolds(x, cfgs, round, i - 1);
      var a, before := round.actions[i - 1], round.nets[i - 1];
      HoldsKeys(x, round.nets[0], before, round.actions[..i - 1]);
      StepParts(x, cfgs, round, i - 1);
      TicksGrow(round.actions, i, a.router);
      assert round.actions[..i] == round.actions[..i - 1] + [a];
      StepHolds(x, cfgs, round.nets[0], before, round.actions[..i - 1], a, round.nets[i]);
    }
  }

  lemma StepParts(x: Course, cfgs: map<nat, Config>, round: Round, i: nat)
    requires OnRound(x, cfgs, round) && i < |round.actions| && i < |round.nets|
        && round.nets[i].Keys == round.nets[0].Keys
    ensures |round.nets| == |round.actions| + 1
    ensures var a := round.actions[i];
            && a.router in cfgs && cfgs[a.router].timeoutIncrement == x.pace.increment
            && cfgs[a.router].timeoutLimit == x.pace.limit
            && NodesNext(x.t, cfgs, x.k, round.nets[0], round.nets[i], a, round.nets[i + 1])
            && Ticks(round.actions, a.router) <= x.pace.most
  {
    hide IsCourse, IsUpdated, WellAddressed, Ready, Next, Allowed;
    assert NodesNext(x.t, cfgs, x.k, round.nets[0], round.nets[i], round.actions[i], round.nets[i + 1]);
  }

  lemma RoundParts(x: Course, cfgs: map<nat, Config>, round: Round)
    requires OnRound(x, cfgs, round)
    ensures IsCourse(x) && |round.nets| == |round.actions| + 1 && IsExecution(x.t, cfgs, x.k, round)
    ensures Ready(x, round.nets[0])
  {
    hide IsCourse, NodesNext, IsUpdated, Wired, Ready;
  }

  lemma HoldsKeys(x: Course, start: Nodes, nodes: Nodes, actions: seq<Action>)
    requires Holds(x, start, nodes, actions)
    ensures nodes.Keys == start.Keys
  {
  }

  // ----- who is heard in a round

  /** Split horizon never blocks a shortest path: a nearer neighbour has not learned its route on
      the shared link. */
  lemma SplitHorizonDoesNotBlock(x: Course, p: Port, q: Port, route: RipDbEntry, heard: set<u32>, ticks: nat, n: nat)
    requires IsCourse(x) && Adjacent(x.t, p, q) && Covered(x, q.router)
    requires RouteOk(x, q.router, Some(route), heard, ticks)
    requires AtDistance(x.t, q.router, x.k, n) && !Within(x.t, p.router, x.k, n)
    ensures route.ripEntry.metric == n + 1 && route.ifIndex != q.ifIndex
  {
    hide Within, Sound;
    SameDistance(x.t, q.router, x.k, n, route.ripEntry.metric - 1);
    if !route.isLocal && route.ifIndex == q.ifIndex {
      RemoteIsSound(x, q.router, route, heard, ticks);
      SharedLinkIsNearer(x, p, q, route, n);
    }
  }

  lemma SharedLinkIsNearer(x: Course, p: Port, q: Port, route: RipDbEntry, n: nat)
    requires Adjacent(x.t, p, q) && route.ripEntry.metric == n + 1 && n >= 1 && Sound(x.t, q.router, x.k, route)
    requires route.ifIndex == q.ifIndex
    ensures Within(x.t, p.router, x.k, n)
  {
    hide Within;
    var p', q' :| LearnedOver(x.t, q.router, route, p', q') && Within(x.t, q'.router, x.k, n - 1);
    assert p' == q;
    if q'.router == p.router {
      WithinMonotone(x.t, p.router, x.k, n - 1, n);
    } else {
      WithinNextHop(x.t, p, q', x.k, n - 1);
    }
  }

  lemma {:induction false} HeardInIncludes(actions: seq<Action>, v: nat, r: nat, k: RouteKey)
    requires v < |actions|
    ensures HeardAt(actions[v], r, k) <= HeardIn(actions, r, k)
  {
    hide HeardAt;
    var n := |actions| - 1;
    if v == n {
    } else {
      HeardInIncludes(actions[..n], v, r, k);
    }
  }

  /** What reaches the port in a packet is heard. */
  lemma CarriedIsHeard(t: Topology, k: RouteKey, p: Port, q: Port, d: Datagram, a: Action, e: RipEntry)
    requires Acceptable(k) && a.router == p.router && a.event.Received? && Carries(t, p, q, d, a.event.packet)
    requires e in EntriesIn([d.data]) && KeyOf(e) == k && 1 <= e.metric <= 15
    ensures t.address[q] in HeardAt(a, p.router, k)
  {
    hide IsNetMaskValid;
    var packet := a.event.packet;
    assert EntriesIn([d.data]) == packet.data.entries + [] == packet.data.entries;
    assert IsEntryValid(e);
    assert !packet.data.IsRequest();
  }

  /** The block of a full update that a router sends at step u. */
  lemma UpdateAt(t: Topology, cfgs: map<nat, Config>, k: RouteKey, round: Round, u: nat, r: nat)
    requires IsExecution(t, cfgs, k, round) && u < |round.actions|
    requires round.actions[u].router == r && round.actions[u].event == UpdateTimer
    ensures r in cfgs && r in round.nets[u]
    ensures IsAdvertisement(SentAt(round, u, r), round.nets[u][r].core.db, cfgs[r].interfaces, false)
  {
    hide IsAdvertisement, Next, Allowed;
    assert NodesNext(t, cfgs, k, round.nets[0], round.nets[u], round.actions[u], round.nets[u + 1]);
    var s, s' := round.nets[u][r], round.nets[u + 1][r];
    FullUpdateStep(cfgs[r], s, round.actions[u].now, s');
    var block :|
      && IsAdvertisement(block, s.core.db, cfgs[r].interfaces, false)
      && s' == s.(core := s.core.(db := s.core.db.MarkUnchanged()), sent := s.sent + block);
    assert s'.sent[|s.sent|..] == block;
  }

  /** A covered neighbour is heard by every router that is farther from the destination. */
  lemma CoveredIsHeard(x: Course, cfgs: map<nat, Config>, round: Round, p: Port, q: Port, n: nat)
    requires OnRound(x, cfgs, round)
    requires Adjacent(x.t, p, q) && Covered(x, q.router)
    requires AtDistance(x.t, q.router, x.k, n) && !Within(x.t, p.router, x.k, n)
    ensures q in x.t.address && x.t.address[q] in HeardIn(round.actions, p.router, x.k)
  {
    hide IsCourse, Ready, Within, IsExecution, NodeOk, Acceptable, IsAdvertisement, EntriesIn, HeardAt, Carries, Holds;
    RoundParts(x, cfgs, round);
    assert IsUpdated(x.t, round, p, q);
    var u: nat :|
      && u < |round.actions| && round.actions[u].router == q.router && round.actions[u].event == UpdateTimer
      && forall d :: d in SentAt(round, u, q.router) && Reaches(x.t, p, q, d) ==> IsReceived(x.t, round, u, p, q, d);
    RoundHolds(x, cfgs, round, u);
    UpdateAt(x.t, cfgs, x.k, round, u, q.router);
    var d, e := CoveredSays(x, cfgs, round, p, q, u, n);
    assert IsReceived(x.t, round, u, p, q, d);
    var v: nat :|
      && u < v < |round.actions| && round.actions[v].router == p.router
      && round.actions[v].event.Received? && Carries(x.t, p, q, d, round.actions[v].event.packet);
    CarriedIsHeard(x.t, x.k, p, q, d, round.actions[v], e);
    HeardInIncludes(round.actions, v, p.router, x.k);
  }

  lemma CoveredSays(x: Course, cfgs: map<nat, Config>, round: Round, p: Port, q: Port, u: nat, n: nat)
    returns (d: Datagram, e: RipEntry)
    requires |round.nets| == |round.actions| + 1 && u < |round.actions|
    requires IsCourse(x) && Wired(x.t, cfgs, x.pace, round.nets[0].Keys)
    requires Holds(x, round.nets[0], round.nets[u], round.actions[..u])
    requires q.router in cfgs && q.router in round.nets[u]
    requires IsAdvertisement(SentAt(round, u, q.router), round.nets[u][q.router].core.db, cfgs[q.router].interfaces,
        false)
    requires Adjacent(x.t, p, q) && Covered(x, q.router)
    requires AtDistance(x.t, q.router, x.k, n) && !Within(x.t, p.router, x.k, n)
    ensures d in SentAt(round, u, q.router) && Reaches(x.t, p, q, d) && q in x.t.address
    ensures e in EntriesIn([d.data]) && KeyOf(e) == x.k && 1 <= e.metric <= 15
  {
    hide Within, IsAdvertisement, EntriesIn, LogOk, HeardIn, Ticks, SentAt, RouteOk;
    var c := round.nets[u][q.router].core;
    var heard, ticks := HeardIn(round.actions[..u], q.router, x.k), Ticks(round.actions[..u], q.router);
    CoveredHasRoute(x, q.router, c, heard, ticks);
    var route := c.db.okRoutes[x.k];
    SplitHorizonDoesNotBlock(x, p, q, route, heard, ticks, n);
    CoveredMetric(x, q.router, route);
    UpdateReaches(c.db, SentAt(round, u, q.router), cfgs[q.router].interfaces, q.ifIndex, x.k);
    e := Advert(route);
    d :| d in SentAt(round, u, q.router) && d.target == Multicast && d.ifIndex == q.ifIndex && e in EntriesIn([d.data]);
  }

  lemma CoveredHasRoute(x: Course, r: nat, c: Core, heard: set<u32>, ticks: nat)
    requires NodeOk(x, r, c, heard, ticks) && Covered(x, r)
    ensures KeysMatch(c.db) && x.k in c.db.okRoutes && x.k !in c.db.garbageRoutes
    ensures RouteOk(x, r, Some(c.db.okRoutes[x.k]), heard, ticks) && Exact(x, r, c.db.okRoutes[x.k])
  {
    hide Within;
  }

  // ----- what a round achieves

  /** The course after a round. */
  function Onward(x: Course): Course {
    x.(age := x.age + x.pace.least * x.pace.increment, levels := if x.levels == 0 then 0 else AtMost(x.levels + 1, 15))
  }

  lemma NearIsHeard(x: Course, cfgs: map<nat, Config>, round: Round, r: nat)
    requires OnRound(x, cfgs, round) && Frontier(x, r)
    ensures HeardNear(x, r, HeardIn(round.actions, r, x.k))
  {
    hide OnRound, Within;
    forall q: Port | Near(x, r, q)
      ensures q in x.t.address && x.t.address[q] in HeardIn(round.actions, r, x.k)
    {
      var p: Port :| p.router == r && Adjacent(x.t, p, q);
      var n := DistanceExists(x.t, q.router, x.k, x.levels - 1);
      FartherThan(x.t, r, x.k, x.levels, n);
      CoveredIsHeard(x, cfgs, round, p, q, n);
    }
  }

  lemma FartherThan(t: Topology, r: nat, k: RouteKey, h: nat, n: nat)
    requires AtDistance(t, r, k, h) && n < h
    ensures !Within(t, r, k, n)
  {
    if Within(t, r, k, n) {
      WithinMonotone(t, r, k, n, h - 1);
    }
  }

  /** The next hop of an exact route is heard when its router is covered. */
  lemma NextHopIsHeard(x: Course, cfgs: map<nat, Config>, round: Round, r: nat, route: RipDbEntry, heard: set<u32>,
      ticks: nat)
    requires OnRound(x, cfgs, round) && x.levels > 0
    requires RemoteOk(x, r, route, heard, ticks) && Exact(x, r, route) && route.ripEntry.metric - 1 <= x.levels
    ensures route.ripEntry.nextHop in HeardIn(round.actions, r, x.k)
  {
    hide OnRound, Within, RemoteOk, Adjacent;
    RoundParts(x, cfgs, round);
    RemoteIsSound(x, r, route, heard, ticks);
    RemoteMetric(x, r, route, heard, ticks);
    var h := route.ripEntry.metric - 1;
    var p, q :| LearnedOver(x.t, r, route, p, q) && Within(x.t, q.router, x.k, h - 1);
    WithinMonotone(x.t, q.router, x.k, h - 1, x.levels - 1);
    var n := DistanceExists(x.t, q.router, x.k, h - 1);
    FartherThan(x.t, r, x.k, h, n);
    CoveredIsHeard(x, cfgs, round, p, q, n);
  }

  lemma RemoteMetric(x: Course, r: nat, route: RipDbEntry, heard: set<u32>, ticks: nat)
    requires RemoteOk(x, r, route, heard, ticks)
    ensures 2 <= route.ripEntry.metric <= 15
  {
    hide Sound;
  }

  /** A router at the end of the round. */
  lemma RouterAdvances(x: Course, cfgs: map<nat, Config>, round: Round, r: nat, current: Option<RipDbEntry>)
    requires OnRound(x, cfgs, round) && r in round.nets[0]
    requires RouteOk(x, r, current, HeardIn(round.actions, r, x.k), Ticks(round.actions, r))
    ensures RouteOk(Onward(x), r, current, {}, 0)
  {
    hide OnRound, Within, Sound, HeardNear, Near, Exact;
    var heard, ticks := HeardIn(round.actions, r, x.k), Ticks(round.actions, r);
    TicksInBounds(x, cfgs, round, r);
    if current.Some? && !current.value.isLocal {
      RemoteAdvances(x, r, current.value, heard, ticks);
    }
    if Covered(Onward(x), r) {
      NewlyCovered(x, cfgs, round, r, current);
    }
    if Frontier(Onward(x), r) {
      NobodyNearIsHeard(Onward(x), r);
    }
  }

  lemma TicksInBounds(x: Course, cfgs: map<nat, Config>, round: Round, r: nat)
    requires OnRound(x, cfgs, round) && r in round.nets[0]
    ensures x.pace.least <= Ticks(round.actions, r) <= x.pace.most
  {
    hide IsExecution, IsUpdated;
  }

  lemma RemoteAdvances(x: Course, r: nat, route: RipDbEntry, heard: set<u32>, ticks: nat)
    requires RemoteOk(x, r, route, heard, ticks) && x.pace.least <= ticks
    ensures RemoteOk(Onward(x), r, route, {}, 0)
  {
    hide Sound;
    assert AtMost(ticks, x.pace.least) == x.pace.least;
    assert AtMost(0, x.pace.least) * x.pace.increment == 0;
  }

  /** Without having heard anyone, nothing is claimed at the frontier. */
  lemma NobodyNearIsHeard(x: Course, r: nat)
    requires Frontier(x, r)
    ensures !HeardNear(x, r, {})
  {
    hide Within;
    var p, q := NearerPort(x.t, r, x.k, x.levels);
    assert Near(x, r, q);
  }

  lemma NewlyCovered(x: Course, cfgs: map<nat, Config>, round: Round, r: nat, current: Option<RipDbEntry>)
    requires OnRound(x, cfgs, round) && r in round.nets[0] && Covered(Onward(x), r)
    requires RouteOk(x, r, current, HeardIn(round.actions, r, x.k), Ticks(round.actions, r))
    ensures current.Some? && Exact(Onward(x), r, current.value)
    ensures current.value.isLocal || current.value.timeoutCnt <= x.pace.most * x.pace.increment
  {
    hide Ready, Within, IsRound, Acceptable, Wired, HeardNear, RemoteOk;
    var heard, ticks := HeardIn(round.actions, r, x.k), Ticks(round.actions, r);
    var h := DistanceExists(x.t, r, x.k, Onward(x).levels - 1);
    TicksInBounds(x, cfgs, round, r);
    if h < x.levels {
      WithinMonotone(x.t, r, x.k, h, x.levels - 1);
    } else {
      NearIsHeard(x, cfgs, round, r);
    }
    assert Exact(x, r, current.value);
    SameDistance(x.t, r, x.k, h, current.value.ripEntry.metric - 1);
    if !current.value.isLocal {
      NextHopIsHeard(x, cfgs, round, r, current.value, heard, ticks);
      HeardIsYoung(x, r, current.value, heard, ticks);
    }
  }

  lemma HeardIsYoung(x: Course, r: nat, route: RipDbEntry, heard: set<u32>, ticks: nat)
    requires RemoteOk(x, r, route, heard, ticks) && route.ripEntry.nextHop in heard && ticks <= x.pace.most
    ensures route.timeoutCnt <= x.pace.most * x.pace.increment
  {
    hide Sound;
    MulMonotone(ticks, x.pace.most, x.pace.increment);
  }

  /** A round takes every router one step further on the course. */
  lemma RoundAdvances(x: Course, cfgs: map<nat, Config>, round: Round)
    requires OnRound(x, cfgs, round)
    ensures IsCourse(Onward(x)) && Ready(Onward(x), Last(round)) && Last(round).Keys == round.nets[0].Keys
  {
    hide RouteOk, Tidy, LogOk, IsRound, Wired, Acceptable;
    var n := RoundLength(x, cfgs, round);
    RoundHolds(x, cfgs, round, n);
    assert round.actions[..n] == round.actions;
    assert Last(round) == round.nets[n];
    forall r | r in Last(round) ensures NodeOk(Onward(x), r, Last(round)[r].core, {}, 0) {
      RouterAdvances(x, cfgs, round, r, Active(Last(round)[r].core, x.k));
    }
  }

  lemma RoundLength(x: Course, cfgs: map<nat, Config>, round: Round) returns (n: nat)
    requires IsRound(x.t, cfgs, x.pace, x.k, round)
    ensures n == |round.actions| && |round.nets| == n + 1
  {
    hide NodesNext, IsUpdated;
    n := |round.actions|;
  }

  /** The course after some rounds. */
  function After(x: Course, j: nat): Course {
    x.(age := x.age + j * (x.pace.least * x.pace.increment), levels := if x.levels == 0 then 0
        else AtMost(x.levels + j, 15))
  }

  lemma NetsExist(t: Topology, cfgs: map<nat, Config>, pace: Pace, k: RouteKey, rounds: seq<Round>)
    requires AreRounds(t, cfgs, pace, k, rounds)
    ensures forall i :: 0 <= i < |rounds| ==> |rounds[i].nets| == |rounds[i].actions| + 1
  {
    hide NodesNext, IsUpdated;
  }

  lemma {:induction false} RoundsAdvance(x: Course, cfgs: map<nat, Config>, rounds: seq<Round>, j: nat)
    requires IsCourse(x) && AreRounds(x.t, cfgs, x.pace, x.k, rounds) && j < |rounds|
    requires Wired(x.t, cfgs, x.pace, rounds[0].nets[0].Keys)
    requires Ready(x, rounds[0].nets[0]) && (x.levels > 0 ==> Acceptable(x.k))
    ensures |rounds[j].nets| > 0 && rounds[j].nets[0].Keys == rounds[0].nets[0].Keys
    ensures IsCourse(After(x, j)) && Ready(After(x, j), rounds[j].nets[0])
  {
    hide IsCourse, Ready, IsRound, Wired, Acceptable;
    NetsExist(x.t, cfgs, x.pace, x.k, rounds);
    if j == 0 {
      assert After(x, 0) == x by {
        AfterNothing(x);
      }
    } else {
      RoundsAdvance(x, cfgs, rounds, j - 1);
      RoundAdvances(After(x, j - 1), cfgs, rounds[j - 1]);
      AfterOneMore(x, j - 1);
    }
  }

  lemma AfterNothing(x: Course)
    requires IsCourse(x)
    ensures After(x, 0) == x
  {
  }

  lemma AfterOneMore(x: Course, j: nat)
    requires IsCourse(x)
    ensures Onward(After(x, j)) == After(x, j + 1)
  {
    var unit := x.pace.least * x.pace.increment;
    assert (j + 1) * unit == j * unit + unit;
  }

  /** What the invariant says about a router, in plain words. */
  lemma CourseMeans(x: Course, r: nat, c: Core, heard: set<u32>, ticks: nat)
    requires x.age >= 14 * Price(x.pace) && NodeOk(x, r, c, heard, ticks)
    ensures x.k in c.db.okRoutes ==>
              var m := c.db.okRoutes[x.k].ripEntry.metric;
              1 <= m <= 15 && Within(x.t, r, x.k, m - 1)
    ensures Covered(x, r) ==> x.k in c.db.okRoutes && Exact(x, r, c.db.okRoutes[x.k])
  {
    hide Within;
    if x.k in c.db.okRoutes {
      var route := c.db.okRoutes[x.k];
      if route.isLocal {
        WithinZero(x.t, r, x.k);
      } else {
        OldRemoteIsSound(x, r, route, heard, ticks);
        SoundIsWithin(x.t, r, x.k, route);
      }
    }
  }

  /** A router at some moment, as a claim about its route: it is true, and within reach it is a
      shortest one. */
  ghost predicate Arrived(t: Topology, k: RouteKey, r: nat, c: Core, reach: nat) {
    && AllTrue(t, k, r, c)
    && (Within(t, r, k, reach) ==>
          && k in c.db.okRoutes && c.db.okRoutes[k].ripEntry.metric >= 1
          && AtDistance(t, r, k, c.db.okRoutes[k].ripEntry.metric - 1))
  }

  ghost predicate AllTrue(t: Topology, k: RouteKey, r: nat, c: Core) {
    k in c.db.okRoutes ==>
      var m := c.db.okRoutes[k].ripEntry.metric;
      1 <= m <= 15 && Within(t, r, k, m - 1)
  }

  /** What the invariant says about a router at any moment of a round, when no false route is left. */
  lemma MomentMeans(x: Course, cfgs: map<nat, Config>, round: Round, i: nat, r: nat)
    requires OnRound(x, cfgs, round) && i < |round.nets| && r in round.nets[0] && x.age >= 14 * Price(x.pace)
    ensures r in round.nets[i] && AllTrue(x.t, x.k, r, round.nets[i][r].core)
    ensures x.levels > 0 ==> Arrived(x.t, x.k, r, round.nets[i][r].core, x.levels - 1)
  {
    hide OnRound, NodeOk, Within, LogOk, Price;
    RoundParts(x, cfgs, round);
    RoundHolds(x, cfgs, round, i);
    CourseMeans(x, r, round.nets[i][r].core, HeardIn(round.actions[..i], r, x.k), Ticks(round.actions[..i], r));
  }

  lemma RoundIsOn(x: Course, cfgs: map<nat, Config>, rounds: seq<Round>, j: nat)
    requires AreRounds(x.t, cfgs, x.pace, x.k, rounds) && j < |rounds|
    requires IsCourse(x) && (x.levels > 0 ==> Acceptable(x.k))
    requires |rounds[j].nets| > 0 && Wired(x.t, cfgs, x.pace, rounds[j].nets[0].Keys) && Ready(x, rounds[j].nets[0])
    ensures OnRound(x, cfgs, rounds[j])
  {
    hide IsRound, IsCourse, Wired, Ready, Acceptable;
  }

  /** At every moment after j rounds on the course: every route is a true one, and the routers
      within j hops have shortest ones. */
  lemma OnCourse(x: Course, cfgs: map<nat, Config>, rounds: seq<Round>, j: nat, i: nat, r: nat)
    requires IsCourse(x) && x.levels == 1 && AreRounds(x.t, cfgs, x.pace, x.k, rounds) && Acceptable(x.k)
    requires j < |rounds| && i < |rounds[j].nets| && r in rounds[0].nets[0]
    requires Wired(x.t, cfgs, x.pace, rounds[0].nets[0].Keys) && Ready(x, rounds[0].nets[0])
    ensures r in rounds[j].nets[i] && Arrived(x.t, x.k, r, rounds[j].nets[i][r].core, AtMost(j, 14))
  {
    hide AreRounds, OnRound, Wired, Ready, Acceptable, IsCourse, After, Arrived, AtMost;
    RoundsAdvance(x, cfgs, rounds, j);
    AfterFirst(x, j);
    RoundIsOn(After(x, j), cfgs, rounds, j);
    MomentMeans(After(x, j), cfgs, rounds[j], i, r);
  }

  lemma AfterFirst(x: Course, j: nat)
    requires IsCourse(x) && x.levels == 1
    ensures var y := After(x, j);
            && y.t == x.t && y.k == x.k && y.pace == x.pace && y.levels - 1 == AtMost(j, 14)
            && y.age >= 14 * Price(y.pace)
  {
    hide Price;
    MulMonotone(0, x.pace.least, x.pace.increment);
    MulMonotone(0, j, x.pace.least * x.pace.increment);
  }

  lemma ArrivedMeans(t: Topology, k: RouteKey, r: nat, c: Core, reach: nat, h: nat)
    requires Arrived(t, k, r, c, reach)
    ensures AtDistance(t, r, k, h) && h <= reach ==> k in c.db.okRoutes && c.db.okRoutes[k].ripEntry.metric == h + 1
    ensures !Within(t, r, k, 14) ==> k !in c.db.okRoutes
    ensures k in c.db.okRoutes ==> AtDistance(t, r, k, h) ==> c.db.okRoutes[k].ripEntry.metric >= h + 1
  {
    hide Within;
    if AtDistance(t, r, k, h) && h <= reach {
      WithinMonotone(t, r, k, h, reach);
      SameDistance(t, r, k, h, c.db.okRoutes[k].ripEntry.metric - 1);
    }
    if k in c.db.okRoutes {
      var m := c.db.okRoutes[k].ripEntry.metric;
      WithinMonotone(t, r, k, m - 1, 14);
      if AtDistance(t, r, k, h) {
        DistanceIsLeast(t, r, k, h, m - 1);
      }
    }
  }

  // ----- from local routes only

  /** Local routes only; the originators of k have it on an interface without neighbours. */
  ghost predicate StartsLocal(t: Topology, nodes: Nodes, k: RouteKey) {
    forall r :: r in nodes ==>
      && KeysMatch(nodes[r].core.db)
      && nodes[r].core.db.garbageRoutes == map[]
      && var ok := nodes[r].core.db.okRoutes;
         && (forall j :: j in ok ==> ok[j].isLocal)
         && (k in ok <==> Originates(t, r, k))
         && (k in ok ==> IsStub(t, r, k, ok[k]))
  }

  /** So starts every network of routers fresh from `setup`, whose stub interfaces are stubs. */
  lemma FreshNetworkStartsLocal(t: Topology, nodes: Nodes, k: RouteKey)
    requires forall r :: r in nodes ==> Init(nodes[r])
    requires forall r :: r in nodes ==> (k in nodes[r].core.db.okRoutes <==> Originates(t, r, k))
    requires forall r, p :: r in nodes && k in nodes[r].core.db.okRoutes && p in t.link && p.router == r ==>
               p.ifIndex != nodes[r].core.db.okRoutes[k].ifIndex
    ensures StartsLocal(t, nodes, k)
  {
    hide Init;
    forall r | r in nodes
      ensures KeysMatch(nodes[r].core.db) && nodes[r].core.db.garbageRoutes == map[]
      ensures forall j :: j in nodes[r].core.db.okRoutes ==>
                var e := nodes[r].core.db.okRoutes[j];
                e.isLocal && e.ripEntry.metric == 1 && e.ripEntry.nextHop == 0
    {
      InitIsLocal(nodes[r]);
    }
  }

  lemma InitIsLocal(s: State)
    requires Init(s)
    ensures KeysMatch(s.core.db) && s.core.db.garbageRoutes == map[]
    ensures forall j :: j in s.core.db.okRoutes ==>
              var e := s.core.db.okRoutes[j];
              e.isLocal && e.ripEntry.metric == 1 && e.ripEntry.nextHop == 0
  {
    var networks :| Setup(networks).Success? && s == State(Core(Setup(networks).value, EMPTY_KERNEL), false, false, []);
    SetupConsistent(networks);
    SetupOnlyLocal(networks);
  }

  lemma LocalIsReady(x: Course, nodes: Nodes)
    requires IsCourse(x) && x.levels == 1 && StartsLocal(x.t, nodes, x.k)
    ensures Ready(x, nodes)
  {
    forall r | r in nodes ensures NodeOk(x, r, nodes[r].core, {}, 0) {
      WithinZero(x.t, r, x.k);
      if Frontier(x, r) {
        NobodyNearIsHeard(x, r);
      }
    }
  }

  lemma FirstCourse(t: Topology, cfgs: map<nat, Config>, k: RouteKey, pace: Pace, routers: set<nat>) returns (x: Course)
    requires Wired(t, cfgs, pace, routers) && 2 * pace.most * pace.increment < pace.limit
    ensures x.t == t && x.k == k && x.pace == pace && x.levels == 1 && IsCourse(x)
  {
    hide WellAddressed;
    MulMonotone(0, 2 * pace.most, pace.increment);
    x := Course(t, k, pace, 14 * Price(pace), 1);
  }

  /** Section 3.4 of RFC 2453. A network starts from local routes and goes through rounds, with
      triggered updates, timeouts and all else in between; a route lives longer than two rounds.
      At every moment after j rounds, a router h hops from the destination, h <= j and h <= 14,
      has an active route of metric exactly h + 1; a router not within 14 hops has none; and no
      metric is ever below the distance. */
  lemma NetworkConverges(t: Topology, cfgs: map<nat, Config>, pace: Pace, k: RouteKey, rounds: seq<Round>, j: nat,
      i: nat,
      r: nat, h: nat)
    requires AreRounds(t, cfgs, pace, k, rounds) && j < |rounds| && i < |rounds[j].nets| && r in rounds[0].nets[0]
    requires Wired(t, cfgs, pace, rounds[0].nets[0].Keys) && Acceptable(k)
    requires 2 * pace.most * pace.increment < pace.limit
    requires StartsLocal(t, rounds[0].nets[0], k)
    ensures r in rounds[j].nets[i]
    ensures var ok := rounds[j].nets[i][r].core.db.okRoutes;
            && (AtDistance(t, r, k, h) && h <= j && h <= 14 ==> k in ok && ok[k].ripEntry.metric == h + 1)
            && (!Within(t, r, k, 14) ==> k !in ok)
            && (AtDistance(t, r, k, h) && k in ok ==> ok[k].ripEntry.metric >= h + 1)
  {
    hide IsRound, Wired, StartsLocal, Acceptable, Within, Ready, Arrived, IsCourse;
    NetsExist(t, cfgs, pace, k, rounds);
    var x := FirstCourse(t, cfgs, k, pace, rounds[0].nets[0].Keys);
    LocalIsReady(x, rounds[0].nets[0]);
    OnCourse(x, cfgs, rounds, j, i, r);
    ArrivedMeans(t, k, r, rounds[j].nets[i][r].core, AtMost(j, 14), h);
  }

  /** A destination that validation refuses, such as a host or default route, never travels: no
      delivery whatever changes its active route. */
  lemma {:induction false} UnacceptableStaysPut(c: Core, ds: seq<Delivery>, k: RouteKey)
    requires KeysMatch(c.db) && !Acceptable(k)
    ensures Active(DeliverAll(c, ds), k) == Active(c, k)
  {
    hide KeysMatch, HandleEntry, IsUnicastAddress, IsNetMaskValid, Choose;
    if ds == [] {
    } else {
      var m := |ds| - 1;
      UnacceptableStaysPut(c, ds[..m], k);
      DeliverAllKeepsKeys(c, ds[..m]);
      HandlerRefinesChoose(DeliverAll(c, ds[..m]), ds[m], k);
    }
  }
}
