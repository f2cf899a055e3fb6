/** Rounds exist: from every state of a wired network some execution makes up a round. */
module RoundExistence {
  import opened Wrappers
  import opened RipPacket
  import opened RouteTables
  import opened Updater
  import opened Steps
  import opened Network
  import opened Rounds
  import opened Existence

  // ----- logs only grow

  lemma {:induction false} LogsGrow(t: Topology, cfgs: map<nat, Config>, k: RouteKey, round: Round, i: nat, j: nat,
      r: nat)
    requires IsExecution(t, cfgs, k, round) && i <= j < |round.nets| && r in round.nets[i]
    ensures r in round.nets[j] && round.nets[i][r].sent <= round.nets[j][r].sent
    decreases j
  {
    hide Next, Allowed;
    if i == j {
    } else {
      LogsGrow(t, cfgs, k, round, i, j - 1, r);
      assert NodesNext(t, cfgs, k, round.nets[0], round.nets[j - 1], round.actions[j - 1], round.nets[j]);
      var a := round.actions[j - 1];
      StepLogGrows(cfgs[a.router], round.nets[j - 1][a.router], a.event, a.now, round.nets[j][a.router]);
    }
  }

  lemma {:induction false} SameRouters(t: Topology, cfgs: map<nat, Config>, k: RouteKey, round: Round, i: nat)
    requires IsExecution(t, cfgs, k, round) && i < |round.nets|
    ensures round.nets[i].Keys == round.nets[0].Keys
  {
    hide Next, Allowed;
    if i == 0 {
    } else {
      SameRouters(t, cfgs, k, round, i - 1);
      assert NodesNext(t, cfgs, k, round.nets[0], round.nets[i - 1], round.actions[i - 1], round.nets[i]);
    }
  }

  // ----- one more action

  ghost predicate Extends(round: Round, round': Round) {
    round.nets <= round'.nets && round.actions <= round'.actions
  }

  lemma Perform(t: Topology, cfgs: map<nat, Config>, k: RouteKey, round: Round, a: Action) returns (round': Round)
    requires IsExecution(t, cfgs, k, round) && a.router in round.nets[0] && a.router in cfgs
    requires a.router in Last(round) ==>
               Allowed(t, k, round.nets[0], Last(round), a) && Enabled(Last(round)[a.router], a.event)
    requires WellFormed(a.event)
    ensures IsExecution(t, cfgs, k, round') && Extends(round, round') && round'.actions == round.actions + [a]
    ensures round'.nets[0] == round.nets[0]
  {
    hide Next, Allowed, WellFormed;
    var n := |round.actions|;
    SameRouters(t, cfgs, k, round, n);
    var nodes := round.nets[n];
    var s' := StepExists(cfgs[a.router], nodes[a.router], a.event, a.now);
    var nodes' := nodes[a.router := s'];
    round' := Round(round.nets + [nodes'], round.actions + [a]);
    assert NodesNext(t, cfgs, k, round.nets[0], nodes, a, nodes');
    forall i | 0 <= i < |round'.actions|
      ensures NodesNext(t, cfgs, k, round'.nets[0], round'.nets[i], round'.actions[i], round'.nets[i + 1])
    {
      if i < n {
        assert NodesNext(t, cfgs, k, round.nets[0], round.nets[i], round.actions[i], round.nets[i + 1]);
      }
    }
  }

  // ----- everybody sends a full update

  ghost predicate HasUpdated(round: Round, r: nat) {
    exists u :: 0 <= u < |round.actions| && round.actions[u] == Action(r, UpdateTimer, 0)
  }

  lemma {:induction false} Update(t: Topology, cfgs: map<nat, Config>, k: RouteKey, nodes: Nodes, routers: set<nat>)
    returns (round: Round)
    requires routers <= nodes.Keys && forall r :: r in nodes ==> r in cfgs
    ensures IsExecution(t, cfgs, k, round) && round.nets[0] == nodes
    ensures forall r :: r in routers ==> HasUpdated(round, r)
    ensures forall a :: a in round.actions ==> a.event == UpdateTimer
  {
    hide NodesNext;
    if routers == {} {
      round := Round([nodes], []);
    } else {
      var r :| r in routers;
      var before := Update(t, cfgs, k, nodes, routers - {r});
      round := Perform(t, cfgs, k, before, Action(r, UpdateTimer, 0));
      assert round.actions[|before.actions|] == Action(r, UpdateTimer, 0);
      forall o | o in routers - {r} ensures HasUpdated(round, o) {
        UpdatedStays(before, round, o);
      }
    }
  }

  lemma UpdatedStays(round: Round, round': Round, r: nat)
    requires HasUpdated(round, r) && Extends(round, round')
    ensures HasUpdated(round', r)
  {
    var u :| 0 <= u < |round.actions| && round.actions[u] == Action(r, UpdateTimer, 0);
    assert round'.actions[u] == round.actions[u];
  }

  // ----- everybody receives the updates

  datatype Item = Item(u: nat, p: Port, q: Port, d: Datagram)

  ghost predicate IsItem(t: Topology, round: Round, i: Item) {
    && i.u + 1 < |round.nets| == |round.actions| + 1
    && round.actions[i.u].router == i.q.router && round.actions[i.u].event == UpdateTimer
    && i.d in SentAt(round, i.u, i.q.router) && Reaches(t, i.p, i.q, i.d) && i.p.router in round.nets[0]
  }

  lemma ItemStays(t: Topology, round: Round, round': Round, i: Item)
    requires IsItem(t, round, i) && Extends(round, round') && |round'.nets| == |round'.actions| + 1
    ensures IsItem(t, round', i)
    ensures IsReceived(t, round, i.u, i.p, i.q, i.d) ==> IsReceived(t, round', i.u, i.p, i.q, i.d)
  {
    hide Carries, Reaches, Tail;
    assert round'.nets[i.u] == round.nets[i.u] && round'.nets[i.u + 1] == round.nets[i.u + 1];
    assert round'.actions[i.u] == round.actions[i.u];
    if IsReceived(t, round, i.u, i.p, i.q, i.d) {
      var v :|
        && i.u < v < |round.actions| && round.actions[v].router == i.p.router
        && round.actions[v].event.Received? && Carries(t, i.p, i.q, i.d, round.actions[v].event.packet);
      assert round'.actions[v] == round.actions[v];
    }
  }

  /** The datagrams of an advertisement are responses. */
  lemma {:induction false} BlockParses(interfaces: seq<u32>, selections: seq<seq<RipEntry>>, d: Datagram)
    returns (entries: seq<RipEntry>)
    requires |interfaces| == |selections| && d in AdvertisementBlock(interfaces, selections)
    ensures ParsePacket(d.data) == Success(RipPacketData(RESPONSE_HEADER, entries))
  {
    var n := |interfaces| - 1;
    if d in AdvertisementBlock(interfaces[..n], selections[..n]) {
      entries := BlockParses(interfaces[..n], selections[..n], d);
    } else {
      var chunks := Chunks(selections[n]);
      var i :| 0 <= i < |chunks| && d == Datagram(interfaces[n], Multicast, ResponseBytes(chunks[i]));
      entries := chunks[i];
      ParseResponse(entries);
    }
  }

  lemma ItemParses(t: Topology, cfgs: map<nat, Config>, k: RouteKey, round: Round, i: Item)
    returns (data: RipPacketData)
    requires IsExecution(t, cfgs, k, round) && IsItem(t, round, i)
    ensures ParsePacket(i.d.data) == Success(data) && data.header == RESPONSE_HEADER
  {
    hide IsSelection, Next, Allowed, ParsePacket, Reaches;
    assert NodesNext(t, cfgs, k, round.nets[0], round.nets[i.u], round.actions[i.u], round.nets[i.u + 1]);
    var r := i.q.router;
    var s, s' := round.nets[i.u][r], round.nets[i.u + 1][r];
    FullUpdateStep(cfgs[r], s, round.actions[i.u].now, s');
    var block :|
      && IsAdvertisement(block, s.core.db, cfgs[r].interfaces, false)
      && s' == s.(core := s.core.(db := s.core.db.MarkUnchanged()), sent := s.sent + block);
    assert s'.sent[|s.sent|..] == block;
    var selections :|
      AreSelections(selections, s.core.db, cfgs[r].interfaces, false)
          && block == AdvertisementBlock(cfgs[r].interfaces, selections);
    var entries := BlockParses(cfgs[r].interfaces, selections, i.d);
    data := RipPacketData(RESPONSE_HEADER, entries);
  }

  lemma ItemIsInTail(t: Topology, cfgs: map<nat, Config>, k: RouteKey, round: Round, i: Item)
    requires IsExecution(t, cfgs, k, round) && IsItem(t, round, i)
    ensures i.d in Tail(round.nets[0], Last(round), i.q.router)
  {
    hide NodesNext, Reaches;
    var r, n := i.q.router, |round.actions|;
    SameRouters(t, cfgs, k, round, i.u);
    LogsGrow(t, cfgs, k, round, 0, i.u, r);
    LogsGrow(t, cfgs, k, round, i.u, i.u + 1, r);
    LogsGrow(t, cfgs, k, round, i.u + 1, n, r);
    var start, s, s', end := round.nets[0][r].sent, round.nets[i.u][r].sent, round.nets[i.u + 1][r].sent,
        Last(round)[r].sent;
    var j :| 0 <= j < |s'| - |s| && s'[|s|..][j] == i.d;
    assert end[|start|..][|s| - |start| + j] == s'[|s| + j];
  }

  /** Items are received one after another; nothing but packets is handled. */
  lemma {:induction false} Receive(t: Topology, cfgs: map<nat, Config>, k: RouteKey, round: Round, items: set<Item>)
    returns (round': Round)
    requires IsExecution(t, cfgs, k, round) && forall i :: i in items ==> IsItem(t, round, i)
    requires forall r :: r in round.nets[0] ==> r in cfgs
    ensures IsExecution(t, cfgs, k, round') && Extends(round, round') && round'.nets[0] == round.nets[0]
    ensures forall i :: i in items ==> IsReceived(t, round', i.u, i.p, i.q, i.d)
    ensures forall a :: a in round'.actions[|round.actions|..] ==> a.event.Received?
  {
    hide NodesNext, IsItem, IsReceived;
    if items == {} {
      round' := round;
    } else {
      var i :| i in items;
      var before := Receive(t, cfgs, k, round, items - {i});
      ItemStays(t, round, before, i);
      round' := ReceiveOne(t, cfgs, k, before, i);
      forall o | o in items - {i} ensures IsReceived(t, round', o.u, o.p, o.q, o.d) {
        ItemStays(t, round, before, o);
        ItemStays(t, before, round', o);
      }
      assert round'.actions[|round.actions|..] == before.actions[|round.actions|..]
          + round'.actions[|before.actions|..];
    }
  }

  lemma ReceiveOne(t: Topology, cfgs: map<nat, Config>, k: RouteKey, round: Round, i: Item) returns (round': Round)
    requires IsExecution(t, cfgs, k, round) && IsItem(t, round, i) && forall r :: r in round.nets[0] ==> r in cfgs
    ensures IsExecution(t, cfgs, k, round') && Extends(round, round') && round'.nets[0] == round.nets[0]
    ensures IsReceived(t, round', i.u, i.p, i.q, i.d)
    ensures |round'.actions| == |round.actions| + 1 && round'.actions[|round.actions|].event.Received?
  {
    hide NodesNext, ParsePacket;
    var data := ItemParses(t, cfgs, k, round, i);
    var packet := RipPacket(data, RipIfInfo("", i.p.ifIndex), t.address[i.q], RIP_UDP_PORT);
    var a := Action(i.p.router, Received(packet), 0);
    ItemIsInTail(t, cfgs, k, round, i);
    assert Carries(t, i.p, i.q, i.d, packet);
    assert Arrives(t, round.nets[0], Last(round), i.p.router, packet);
    round' := Perform(t, cfgs, k, round, a);
    assert round'.actions[|round.actions|] == a;
  }

  // ----- the timers fire

  lemma {:induction false} TicksAppend(actions: seq<Action>, more: seq<Action>, r: nat)
    ensures Ticks(actions + more, r) == Ticks(actions, r) + Ticks(more, r)
  {
    if more == [] {
      assert actions + more == actions;
    } else {
      var n := |more| - 1;
      assert (actions + more)[..|actions| + n] == actions + more[..n];
      TicksAppend(actions, more[..n], r);
    }
  }

  lemma {:induction false} NoTicks(actions: seq<Action>, r: nat)
    requires forall a :: a in actions ==> a.event != TimeoutTick
    ensures Ticks(actions, r) == 0
  {
    if actions == [] {
    } else {
      NoTicks(actions[..|actions| - 1], r);
    }
  }

  lemma {:induction false} TickRouter(t: Topology, cfgs: map<nat, Config>, k: RouteKey, round: Round, r: nat, n: nat)
    returns (round': Round)
    requires IsExecution(t, cfgs, k, round) && r in round.nets[0] && r in cfgs
    ensures IsExecution(t, cfgs, k, round') && Extends(round, round') && round'.nets[0] == round.nets[0]
    ensures forall o :: Ticks(round'.actions, o) == Ticks(round.actions, o) + if o == r then n else 0
  {
    hide NodesNext;
    if n == 0 {
      round' := round;
    } else {
      var before := TickRouter(t, cfgs, k, round, r, n - 1);
      round' := Perform(t, cfgs, k, before, Action(r, TimeoutTick, 0));
      assert round'.actions[..|before.actions|] == before.actions;
    }
  }

  lemma {:induction false} TickAll(t: Topology, cfgs: map<nat, Config>, k: RouteKey, round: Round, routers: set<nat>,
      n: nat)
    returns (round': Round)
    requires IsExecution(t, cfgs, k, round) && routers <= round.nets[0].Keys
    requires forall r :: r in round.nets[0] ==> r in cfgs
    ensures IsExecution(t, cfgs, k, round') && Extends(round, round') && round'.nets[0] == round.nets[0]
    ensures forall o :: Ticks(round'.actions, o) == Ticks(round.actions, o) + if o in routers then n else 0
  {
    hide NodesNext, Ticks;
    if routers == {} {
      round' := round;
    } else {
      var r :| r in routers;
      var before := TickAll(t, cfgs, k, round, routers - {r}, n);
      round' := TickRouter(t, cfgs, k, before, r, n);
    }
  }

  // ----- the round

  /** Every state of a network has a round: the full updates, their receipt, and the ticks. */
  lemma RoundExists(t: Topology, cfgs: map<nat, Config>, pace: Pace, k: RouteKey, nodes: Nodes) returns (round: Round)
    requires Wired(t, cfgs, pace, nodes.Keys) && pace.least <= pace.most
    ensures IsRound(t, cfgs, pace, k, round) && round.nets[0] == nodes
  {
    hide NodesNext, Ticks, IsReceived, IsItem, HasUpdated, WellAddressed;
    var updated := Update(t, cfgs, k, nodes, nodes.Keys);
    var items := AllItems(t, updated);
    var received := Receive(t, cfgs, k, updated, items);
    round := TickAll(t, cfgs, k, received, nodes.Keys, pace.least);
    forall r | r in nodes ensures Ticks(round.actions, r) == pace.least {
      assert received.actions == updated.actions + received.actions[|updated.actions|..];
      NoTicks(received.actions, r);
    }
    forall p: Port, q: Port | Adjacent(t, p, q) && p.router in nodes && q.router in nodes
      ensures IsUpdated(t, round, p, q)
    {
      PairIsUpdated(t, updated, received, round, items, p, q);
    }
  }

  lemma AllItems(t: Topology, round: Round) returns (items: set<Item>)
    requires |round.nets| == |round.actions| + 1
    ensures forall i :: i in items <==> IsItem(t, round, i)
  {
    hide Tail;
    items := set u: nat, p, q, d | u < |round.actions| && p in t.link && q in t.link && d in SentAt(round, u, q.router)
                                   && IsItem(t, round, Item(u, p, q, d)) :: Item(u, p, q, d);
  }

  lemma PairIsUpdated(t: Topology, updated: Round, received: Round, round: Round, items: set<Item>, p: Port, q: Port)
    requires |updated.nets| == |updated.actions| + 1 && |received.nets| == |received.actions| + 1
    requires |round.nets| == |round.actions| + 1
    requires Extends(updated, received) && Extends(received, round)
    requires HasUpdated(updated, q.router) && p.router in updated.nets[0]
    requires forall i :: i in items <==> IsItem(t, updated, i)
    requires forall i :: i in items ==> IsReceived(t, received, i.u, i.p, i.q, i.d)
    ensures IsUpdated(t, round, p, q)
  {
    hide Tail, Reaches, Carries, IsReceived;
    var u: nat :| u < |updated.actions| && updated.actions[u] == Action(q.router, UpdateTimer, 0);
    assert round.nets[u] == updated.nets[u] && round.nets[u + 1] == updated.nets[u + 1];
    assert round.actions[u] == updated.actions[u];
    forall d | d in SentAt(round, u, q.router) && Reaches(t, p, q, d) ensures IsReceived(t, round, u, p, q, d) {
      var i := Item(u, p, q, d);
      assert IsItem(t, updated, i) && i in items;
      ItemStays(t, updated, received, i);
      ItemStays(t, received, round, i);
    }
  }

  /** Hence any number of rounds can follow one another. */
  lemma {:induction false} RoundsExist(t: Topology, cfgs: map<nat, Config>, pace: Pace, k: RouteKey, nodes: Nodes,
      n: nat)
    returns (rounds: seq<Round>)
    requires Wired(t, cfgs, pace, nodes.Keys) && pace.least <= pace.most
    ensures AreRounds(t, cfgs, pace, k, rounds) && |rounds| == n + 1 && rounds[0].nets != []
        && rounds[0].nets[0] == nodes
  {
    hide NodesNext, IsUpdated, Wired, Ticks;
    var first := RoundExists(t, cfgs, pace, k, nodes);
    if n == 0 {
      rounds := [first];
    } else {
      SameRouters(t, cfgs, k, first, |first.actions|);
      var rest := RoundsExist(t, cfgs, pace, k, Last(first), n - 1);
      rounds := [first] + rest;
    }
  }
}
