/** The two-map and kernel invariant over whole runs. */
module Invariants {
  import opened Wrappers
  import opened Address
  import opened RipRoute
  import opened RouteTables
  import opened RoutingTables
  import opened Response
  import opened ResponseLaws
  import opened Steps

  /** A change of the tables that leaves keys, locality and messages of the active routes alone
      leaves the kernel in agreement. */
  lemma SameMessagesAgree(a: Tables, b: Tables, table: set<RouteMessage>)
    requires KernelAgrees(a, table) && a.okRoutes.Keys == b.okRoutes.Keys
    requires forall k :: k in a.okRoutes ==>
               && a.okRoutes[k].isLocal == b.okRoutes[k].isLocal
               && BuildRouteMessage(a.okRoutes[k]) == BuildRouteMessage(b.okRoutes[k])
    ensures KernelAgrees(b, table)
  {
    hide BuildRouteMessage, OwnerKey;
    assert forall m :: Owned(a, m) <==> Owned(b, m);
  }

  lemma MessageIgnoresFlags(a: RipDbEntry, b: RipDbEntry)
    requires a.ripEntry == b.ripEntry && a.ifIndex == b.ifIndex
    ensures BuildRouteMessage(a) == BuildRouteMessage(b)
  {
  }

  lemma MarkUnchangedPreserves(c: Core)
    requires Consistent(c)
    ensures Consistent(c.(db := c.db.MarkUnchanged()))
  {
    hide BuildRouteMessage, IsNetMaskValid, IsUnicastAddress;
    var db := c.db.MarkUnchanged();
    forall k | k in c.db.okRoutes ensures BuildRouteMessage(c.db.okRoutes[k]) == BuildRouteMessage(db.okRoutes[k]) {
      MessageIgnoresFlags(c.db.okRoutes[k], db.okRoutes[k]);
    }
    SameMessagesAgree(c.db, db, c.kernel.table);
  }

  lemma TickPreserves(c: Core, increment: u64)
    requires Consistent(c)
    ensures Consistent(Ticking(c, increment))
  {
    hide BuildRouteMessage, IsNetMaskValid, IsUnicastAddress;
    var db := c.db.Tick(increment);
    forall k | k in c.db.okRoutes ensures BuildRouteMessage(c.db.okRoutes[k]) == BuildRouteMessage(db.okRoutes[k]) {
      MessageIgnoresFlags(c.db.okRoutes[k], db.okRoutes[k]);
    }
    SameMessagesAgree(c.db, db, c.kernel.table);
  }

  lemma GarbageStepPreserves(c: Core, now: nat, lifetime: nat)
    requires Consistent(c)
    ensures Consistent(c.(db := c.db.RemoveExpiredGarbage(now, lifetime)))
  {
    SameMessagesAgree(c.db, c.db.RemoveExpiredGarbage(now, lifetime), c.kernel.table);
  }

  lemma AddNetworkPreserves(c: Core, n: AdvertisedNetwork)
    requires Consistent(c)
    ensures Consistent(c.(db := AddNetwork(c.db, n)))
  {
    hide BuildRouteMessage, OwnerKey, IsNetMaskValid, IsUnicastAddress;
    assert forall m :: Owned(c.db, m) <==> Owned(AddNetwork(c.db, n), m);
  }

  /** What the timeout loop leaves behind: the listed routes in garbage, all others as before. */
  lemma {:induction false} RetireAllResult(c: Core, order: seq<RouteKey>, now: nat)
    requires forall k :: k in order ==> k in c.db.okRoutes
    requires forall i, j :: 0 <= i < j < |order| ==> order[i] != order[j]
    ensures var db := RetireAll(c, order, now).db;
            && (forall k :: k in order ==> SlotAt(db, k) == Slot(None, Some(Expired(c.db.okRoutes[k], now))))
            && (forall k :: k !in order ==> SlotAt(db, k) == SlotAt(c.db, k))
            && db.anyRouteChanged == (c.db.anyRouteChanged || order != [])
  {
    hide BuildRouteMessage, Expired;
    if order == [] {
    } else {
      var n := |order| - 1;
      RetireAllResult(c, order[..n], now);
      var before := RetireAll(c, order[..n], now);
      assert order == order[..n] + [order[n]];
      assert SlotAt(before.db, order[n]) == SlotAt(c.db, order[n]);
    }
  }

  lemma {:induction false} RetireAllPreserves(c: Core, order: seq<RouteKey>, now: nat)
    requires Consistent(c)
    requires forall k :: k in order ==> k in c.db.okRoutes && !c.db.okRoutes[k].isLocal
    requires forall i, j :: 0 <= i < j < |order| ==> order[i] != order[j]
    ensures Consistent(RetireAll(c, order, now))
  {
    hide Consistent, RetireRoute;
    if order == [] {
    } else {
      var n := |order| - 1;
      var before := RetireAll(c, order[..n], now);
      RetireAllPreserves(c, order[..n], now);
      RetireAllResult(c, order[..n], now);
      assert SlotAt(before.db, order[n]) == SlotAt(c.db, order[n]);
      assert order[n] in order;
      RetirePreserves(before, order[n], now);
    }
  }

  lemma TimeoutStepPreserves(cfg: Config, s: State, now: nat, s': State)
    requires Consistent(s.core) && TimeoutStep(cfg, s, now, s')
    ensures Consistent(s'.core)
  {
    hide Consistent;
    var ticked := Ticking(s.core, cfg.timeoutIncrement);
    var order :|
      && IsOrder(order, ticked.db.TimedOut(cfg.timeoutLimit))
      && s' == s.(core := RetireAll(ticked, order, now), gcArmed := s.gcArmed || order != []);
    TickPreserves(s.core, cfg.timeoutIncrement);
    RetireAllPreserves(ticked, order, now);
  }

  lemma ArmPreserves(cfg: Config, s: State, e: Event, now: nat, s': State)
    requires Consistent(s.core) && Arm(cfg, s, e, now, s') && NonzeroSource(e)
    ensures Consistent(s'.core)
  {
    hide Consistent, TimeoutStep, IsSelection;
    match e
    case UpdateTimer => MarkUnchangedPreserves(s.core);
    case TimeoutTick => TimeoutStepPreserves(cfg, s, now, s');
    case GarbageTick => GarbageStepPreserves(s.core, now, cfg.garbageLifetime);
    case Received(p) => HandleEntriesPreserves(s.core, p.data.entries, p.source, p.ifInfo, now);
    case AddLocal(n) => AddNetworkPreserves(s.core, n);
    case _ =>
  }

  lemma NextPreserves(cfg: Config, s: State, e: Event, now: nat, s': State)
    requires Consistent(s.core) && Next(cfg, s, e, now, s') && NonzeroSource(e)
    ensures Consistent(s'.core)
  {
    hide Consistent, Arm;
    var mid :| Arm(cfg, s, e, now, mid) && Trigger(cfg, mid, s');
    ArmPreserves(cfg, s, e, now, mid);
    MarkUnchangedPreserves(mid.core);
  }

  lemma {:induction false} SetupConsistent(networks: seq<AdvertisedNetwork>)
    requires Setup(networks).Success?
    ensures Consistent(Core(Setup(networks).value, EMPTY_KERNEL))
    ensures Setup(networks).value.garbageRoutes == map[]
  {
    hide BuildRouteMessage, OwnerKey;
    if networks == [] {
    } else {
      var n := |networks| - 1;
      SetupConsistent(networks[..n]);
      AddNetworkPreserves(Core(Setup(networks[..n]).value, EMPTY_KERNEL), networks[n]);
    }
  }

  lemma {:induction false} SetupOnlyLocal(networks: seq<AdvertisedNetwork>)
    requires Setup(networks).Success?
    ensures forall k :: k in Setup(networks).value.okRoutes ==> Setup(networks).value.okRoutes[k].isLocal
  {
    hide AdvertisedNetworkToLocalRoute;
    if networks == [] {
    } else {
      SetupOnlyLocal(networks[..|networks| - 1]);
    }
  }

  lemma InitConsistent(s: State)
    requires Init(s)
    ensures Consistent(s.core)
  {
    var networks :| Setup(networks).Success? && s == State(Core(Setup(networks).value, EMPTY_KERNEL), false, false, []);
    SetupConsistent(networks);
  }

  /** In every run, at every loop head: the two maps are in order, the kernel holds exactly the
      active remote routes, every add so far was of a free identity and every delete of a route
      that was there. */
  lemma {:induction false} RunConsistent(cfg: Config, states: seq<State>, events: seq<Timed>, i: nat)
    requires IsRun(cfg, states, events) && SourcesNonzero(events) && i <= |events|
    ensures Consistent(states[i].core)
  {
    hide Consistent, Next, Init;
    if i == 0 {
      InitConsistent(states[0]);
    } else {
      RunConsistent(cfg, states, events, i - 1);
      NextPreserves(cfg, states[i - 1], events[i - 1].event, events[i - 1].now, states[i]);
    }
  }
}
