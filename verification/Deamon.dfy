/** `rip_deamon.rs` in its own form: the handlers update the database, the kernel table and the
    optional timers in place, and are proved against the functions of Response and Steps. */
module Deamon {
  import opened Wrappers
  import opened RipPacket
  import opened RipRoute
  import opened RouteTables
  import opened RoutingTables
  import opened Database
  import opened Updater
  import opened Response
  import opened ResponseLaws
  import opened Steps
  import opened Invariants
  import opened Outcomes
  import opened StepLaws

  class RipDeamon {
    const cfg: Config
    const database: RipDatabase
    const routingTable: RoutingTable
    const updater: RipUpdater

    constructor (cfg: Config, host: HostOrder)
      ensures this.cfg == cfg && fresh(database) && fresh(routingTable) && fresh(updater)
      ensures Value() == Core(EMPTY_TABLES, EMPTY_KERNEL) && Refused() == Refusals([], [])
      ensures updater.sent == [] && updater.requests == []
    {
      this.cfg := cfg;
      database := new RipDatabase();
      routingTable := new RoutingTable();
      updater := new RipUpdater(host);
    }

    ghost function Value(): Core
      reads database, routingTable
    {
      Core(database.Value(), routingTable.kernel)
    }

    ghost predicate Valid()
      reads database
    {
      KeysMatch(database.Value())
    }

    /** Everything the kernel and the sockets have refused so far. */
    ghost function Refused(): Refusals
      reads routingTable, updater
    {
      Refusals(routingTable.rejected, updater.failed)
    }

    ghost function StateWith(lockArmed: bool, gcArmed: bool): State
      reads database, routingTable, updater
    {
      State(Value(), lockArmed, gcArmed, updater.sent)
    }

    method SetupAdvertisedNetwork(network: AdvertisedNetwork) returns (r: RipResult<()>)
      modifies database
      ensures database.Value() == AddNetwork(old(database.Value()), network)
      ensures old(Valid()) ==> Valid()
      ensures r.Success? <==>
              && AdvertisedNetworkToLocalRoute(network).Success?
              && KeyOf(AdvertisedNetworkToLocalRoute(network).value.entry) !in old(database.okRoutes)
    {
      var local := AdvertisedNetworkToLocalRoute(network);
      if local.Failure? {
        return Failure(local.error);
      }
      r := database.AddLocalRoute(local.value.entry, local.value.ifIndex, local.value.ifName);
    }

    /** The part of `setup` after the sockets. */
    method SetupNetworks(networks: seq<AdvertisedNetwork>) returns (r: RipResult<()>)
      requires database.Value() == EMPTY_TABLES
      modifies database
      ensures r.Success? <==> Setup(networks).Success?
      ensures r.Success? ==> database.Value() == Setup(networks).value
    {
      assert networks[..|networks|] == networks;
      for i := 0 to |networks|
        invariant Setup(networks[..i]) == Success(database.Value())
      {
        assert networks[..i + 1][..i] == networks[..i];
        r := SetupAdvertisedNetwork(networks[i]);
        if r.Failure? {
          SetupFailsEarly(networks, i + 1);
          return;
        }
      }
      r := Success(());
    }

    static lemma {:induction false} SetupFailsEarly(networks: seq<AdvertisedNetwork>, i: nat)
      requires i <= |networks| && Setup(networks[..i]).Failure?
      ensures Setup(networks).Failure?
      decreases |networks| - i
    {
      if i < |networks| {
        assert networks[..i + 1][..i] == networks[..i];
        SetupFailsEarly(networks, i + 1);
      } else {
        assert networks[..i] == networks;
      }
    }

    // ----- responses

    /** The only internal error is a garbage entry under an active route, which the two-map
        invariant allows for local routes alone. */
    method HandlePoisonedRouteFromResponse(e: RipEntry, now: nat) returns (r: RipResult<()>)
      requires Valid()
      modifies database, routingTable
      ensures r.Success? ==> Value() == HandlePoisonedRoute(old(Value()), e, now) && Refused() == old(Refused())
      ensures r.Failure? ==> r.error != MalformedPacket
      ensures Consistent(old(Value())) && e.nextHop != 0 && r.Failure? ==>
                r.error == IoError && CutShort(old(Refused()), Refused(), Value())
    {
      hide BuildRouteMessage, KernelAgrees;
      var oldRoute := database.GetRoute(e);
      if oldRoute.Some? {
        if !RouteIsFromCurrentNextHop(oldRoute.value, e) {
          return Success(());
        }
        r := routingTable.DeleteRoute(oldRoute.value);
        if r.Failure? {
          RefusedDeleteInterrupts(old(Refused()), Refused(), Value(), BuildRouteMessage(oldRoute.value));
          return;
        }
        var _ :- database.MoveRouteToGarbage(oldRoute.value.ripEntry, now);
        return Success(());
      }
      if database.HasGarbageRoute(e) {
        return Success(());
      }
      r := Success(());
    }

    /** On failure either the delete was refused and nothing has changed, or the add was, and the
        new route is in the database but not in the kernel. */
    method ReplaceRouteFromResponse(oldRoute: RipDbEntry, e: RipEntry, ifInfo: RipIfInfo) returns (r: RipResult<()>)
      requires Key(oldRoute) == KeyOf(e) && KeyOf(e) in database.okRoutes
      modifies database, routingTable
      ensures r.Success? ==> Value() == ReplaceRoute(old(Value()), oldRoute, e, ifInfo) && Refused() == old(Refused())
      ensures r.Failure? ==> r.error == IoError && updater.failed == old(updater.failed)
      ensures r.Failure? ==>
                var was, message := BuildRouteMessage(oldRoute), BuildRouteMessage(RemoteRoute(e, ifInfo));
                || (Value() == old(Value()) && routingTable.rejected == old(routingTable.rejected) + [DeleteCall(was)])
                || (&& Value() == ReplaceRoute(old(Value()), oldRoute, e, ifInfo).(kernel :=
                    old(Value()).kernel.Delete(was))
                    && routingTable.rejected == old(routingTable.rejected) + [AddCall(message)])
    {
      hide BuildRouteMessage;
      var _ :- routingTable.DeleteRoute(oldRoute);
      var removed := database.RemoveRoute(oldRoute.ripEntry);
      var newRoute := database.AddRemoteRoute(e, ifInfo.ifIndex, ifInfo.ifName);
      r := routingTable.AddRoute(newRoute.value);
    }

    method UpdateRouteFromResponse(e: RipEntry, ifInfo: RipIfInfo, now: nat) returns (r: RipResult<()>)
      requires Valid()
      modifies database, routingTable
      ensures r.Success? ==> Value() == UpdateRoute(old(Value()), e, ifInfo, now) && Refused() == old(Refused())
      ensures r.Failure? ==> r.error != MalformedPacket
      ensures Consistent(old(Value())) && IsUpdate(e) && r.Failure? ==>
                r.error == IoError && CutShort(old(Refused()), Refused(), Value())
    {
      hide BuildRouteMessage, Consistent, CutShort;
      if e.metric >= RIP_INFINITY_METRIC {
        r := HandlePoisonedRouteFromResponse(e, now);
        return;
      }
      var oldRoute := database.GetRoute(e);
      match oldRoute
      case None =>
        database.RemoveGarbageRoute(e);
        ghost var before := Value();
        var newRoute := database.AddRemoteRoute(e, ifInfo.ifIndex, ifInfo.ifName);
        r := routingTable.AddRoute(newRoute.value);
        if r.Failure? && Consistent(old(Value())) && IsUpdate(e) {
          RemoveGarbagePreserves(old(Value()), KeyOf(e));
          RefusedAddInterrupts(old(Refused()), Refused(), before, Value(), e, ifInfo);
        }
      case Some(current) =>
        if RouteIsFromCurrentNextHop(current, e) {
          database.RefreshRouteTimeout(e);
          if SameRoute(current, e, ifInfo) {
            return Success(());
          }
          ghost var before := Value();
          RefreshKeepsMessage(old(database.Value()), KeyOf(e));
          r := ReplaceRouteFromResponse(current, e, ifInfo);
          if r.Failure? && Consistent(old(Value())) && IsUpdate(e) {
            UpdateIsOfRemote(old(Value()), e);
            RefreshPreserves(old(Value()), KeyOf(e));
            ReplaceInterrupted(old(Refused()), Refused(), before, Value(), current, e, ifInfo);
          }
        } else if current.ripEntry.metric > e.metric {
          r := ReplaceRouteFromResponse(current, e, ifInfo);
          if r.Failure? && Consistent(old(Value())) && IsUpdate(e) {
            UpdateIsOfRemote(old(Value()), e);
            ReplaceInterrupted(old(Refused()), Refused(), old(Value()), Value(), current, e, ifInfo);
          }
        } else {
          r := Success(());
        }
    }

    method HandleResponsePacket(p: RipPacket, now: nat) returns (r: RipResult<()>)
      requires Valid()
      modifies database, routingTable
      ensures r.Success? ==> Valid() && Value() == HandleResponse(old(Value()), p, now) && Refused() == old(Refused())
      ensures r == Failure(MalformedPacket) <==> p.data.header.version != RIP_2_VERSION
      ensures r == Failure(MalformedPacket) ==> Value() == old(Value()) && Refused() == old(Refused())
      ensures Consistent(old(Value())) && p.source != 0 && r.Failure? && r.error != MalformedPacket ==>
                r.error == IoError && CutShort(old(Refused()), Refused(), Value())
    {
      hide CutShort, Consistent, IsEntryValid;
      if p.data.header.version != RIP_2_VERSION {
        return Failure(MalformedPacket);
      }
      if p.port != RIP_UDP_PORT {
        return Success(());
      }
      var entries := p.data.entries;
      assert entries[..|entries|] == entries;
      for i := 0 to |entries|
        invariant Valid() && Refused() == old(Refused())
        invariant Value() == HandleEntries(old(Value()), entries[..i], p.source, p.ifInfo, now)
      {
        assert entries[..i + 1][..i] == entries[..i];
        EntryIsLocal(Value(), entries[i], p.source, p.ifInfo, now);
        var e := ResponseEntryToRoute(entries[i], p.source);
        if e.None? {
          continue;
        }
        if Consistent(old(Value())) && p.source != 0 {
          HandleEntriesPreserves(old(Value()), entries[..i], p.source, p.ifInfo, now);
          UpdateOfValidEntry(entries[i], p.source);
        }
        var _ :- UpdateRouteFromResponse(e.value, p.ifInfo, now);
      }
      r := Success(());
    }

    /** A packet that is neither a request nor a version-2 response ends the daemon, and exactly
        such a packet does so with this error: nothing is touched, all routes stay installed. */
    method HandlePacket(p: RipPacket, now: nat, ghost lockArmed: bool, ghost gcArmed: bool) returns (r: RipResult<()>)
      requires Valid()
      modifies database, routingTable, updater`sent, updater`failed
      ensures r.Success? ==> PacketStep(old(StateWith(lockArmed, gcArmed)), p, now, StateWith(lockArmed, gcArmed))
      ensures r.Success? && IsWholeTableRequest(p) ==>
                exists reply ::
                  IsReply(old(StateWith(lockArmed, gcArmed)), p, reply, StateWith(lockArmed, gcArmed))
      ensures r.Success? && !IsWholeTableRequest(p) ==>
                IsProcessed(old(StateWith(lockArmed, gcArmed)), p, now, StateWith(lockArmed, gcArmed))
      ensures r.Success? ==> Valid() && Refused() == old(Refused())
      ensures r == Failure(MalformedPacket) <==> !WellFormed(Received(p))
      ensures r == Failure(MalformedPacket) ==>
                StateWith(lockArmed, gcArmed) == old(StateWith(lockArmed, gcArmed)) && Refused() == old(Refused())
      ensures Consistent(old(Value())) && p.source != 0 && r.Failure? && r.error != MalformedPacket ==>
                r.error == IoError && CutShort(old(Refused()), Refused(), Value())
    {
      hide Consistent, CutShort, Transmitted, IsSelection, Datagrams, IsWholeTableRequest, IsReply, IsProcessed;
      if p.data.IsRequest() {
        ghost var entries;
        r, entries := updater.SendResponseUnicast(database, Unicast(p.source, p.port), p.ifInfo.ifIndex);
        ghost var reply := Datagrams(p.ifInfo.ifIndex, Unicast(p.source, p.port), entries);
        SentOrOneFailure(reply, old(updater.sent), updater.sent, old(updater.failed), updater.failed, r.Success?);
        if r.Failure? {
          RefusedSendCutsShort(old(Refused()), Refused(), Value());
        }
      } else if p.data.IsResponse() {
        r := HandleResponsePacket(p, now);
      } else {
        r := Failure(MalformedPacket);
      }
      if r.Success? {
        PacketHasMeaning(cfg, old(StateWith(lockArmed, gcArmed)), p, now, StateWith(lockArmed, gcArmed));
      }
    }

    // ----- timers

    /** Flags are cleared only when everything went out. */
    method SendMulticastAdvertisement(changedOnly: bool, ghost lockArmed: bool, ghost gcArmed: bool)
      returns (r: RipResult<()>, ghost block: seq<Datagram>)
      modifies database, updater`sent, updater`failed
      ensures IsAdvertisement(block, old(database.Value()), cfg.interfaces, changedOnly)
      ensures Transmitted(block, old(updater.sent), updater.sent, old(updater.failed), updater.failed, r.Success?)
      ensures database.Value() == if r.Success? then old(database.Value()).MarkUnchanged() else old(database.Value())
      ensures r.Success? ==>
                Advertise(cfg, old(StateWith(lockArmed, gcArmed)), changedOnly, StateWith(lockArmed, gcArmed))
      ensures old(Valid()) ==> Valid()
      ensures r.Failure? ==> r.error == IoError
    {
      hide IsAdvertisement;
      r, block := updater.SendAdvertisementMulticast(database, cfg.interfaces, changedOnly);
      if r.Success? {
        database.MarkAllRoutesAsUnchanged();
      }
    }

    method SendMulticastRequest() returns (r: RipResult<()>)
      modifies updater`requests, updater`failed
      ensures r.Success? ==> updater.requests == old(updater.requests) + Requests(cfg.interfaces)
      ensures r.Success? ==> updater.failed == old(updater.failed)
      ensures r.Failure? ==> r.error == IoError && exists d :: updater.failed == old(updater.failed) + [d]
    {
      hide RequestBytes;
      r := Success(());
      for i := 0 to |cfg.interfaces|
        invariant r.Success? && updater.failed == old(updater.failed)
        invariant updater.requests == old(updater.requests) + Requests(cfg.interfaces[..i])
      {
        r := updater.SendRequestMulticast(cfg.interfaces[i]);
        if r.Failure? {
          return;
        }
        assert Requests(cfg.interfaces[..i + 1])
            == Requests(cfg.interfaces[..i]) + [Datagram(cfg.interfaces[i], Multicast, RequestBytes())];
      }
      assert cfg.interfaces[..|cfg.interfaces|] == cfg.interfaces;
    }

    method MaybeSendTriggeredUpdate(lockArmed: bool, ghost gcArmed: bool) returns (r: RipResult<()>, lockArmed': bool)
      modifies database, updater`sent, updater`failed
      ensures r.Success? ==> Trigger(cfg, old(StateWith(lockArmed, gcArmed)), StateWith(lockArmed', gcArmed))
      ensures r.Success? && Consistent(old(Value())) ==>
                FollowUp(cfg, old(StateWith(lockArmed, gcArmed)), StateWith(lockArmed', gcArmed))
      ensures r.Success? ==> Refused() == old(Refused())
      ensures old(Valid()) ==> Valid()
      ensures r.Failure? ==>
                && r.error == IoError && Value() == old(Value())
                && exists d :: updater.failed == old(updater.failed) + [d]
    {
      hide IsAdvertisement, IsTold, KernelAgrees, Replay, GoodActive, GoodGarbage;
      lockArmed' := lockArmed;
      if lockArmed || !database.anyRouteChanged {
        return Success(()), lockArmed;
      }
      ghost var block;
      r, block := SendMulticastAdvertisement(true, lockArmed, gcArmed);
      if r.Success? {
        ghost var mid := StateWith(lockArmed, gcArmed);
        lockArmed' := true;
        if Consistent(old(Value())) {
          TriggeredUpdateTellsChanges(cfg, old(StateWith(lockArmed, gcArmed)), StateWith(lockArmed', gcArmed));
        }
      }
    }

    method HandleRouteTimeoutTick(now: nat, gcArmed: bool, ghost lockArmed: bool)
      returns (r: RipResult<()>, gcArmed': bool)
      requires Valid()
      modifies database, routingTable
      ensures r.Success? ==>
                TimeoutStep(cfg, old(StateWith(lockArmed, gcArmed)), now, StateWith(lockArmed, gcArmed'))
      ensures r.Success? ==> Valid() && Refused() == old(Refused())
      ensures r.Failure? ==> r.error != MalformedPacket
      ensures Consistent(old(Value())) && r.Failure? ==>
                r.error == IoError && CutShort(old(Refused()), Refused(), Value())
    {
      hide Consistent, CutShort;
      gcArmed' := gcArmed;
      var timedOut;
      ghost var order;
      timedOut, order := database.CollectTimedOutRoutes(cfg.timeoutIncrement, cfg.timeoutLimit);
      assert Value() == Ticking(old(Value()), cfg.timeoutIncrement);
      if Consistent(old(Value())) {
        TickPreserves(old(Value()), cfg.timeoutIncrement);
      }
      var shouldStart := |timedOut| > 0 && !gcArmed;
      assert forall j :: 0 <= j < |order| ==>
               order[j] in order && order[j] in database.Value().TimedOut(cfg.timeoutLimit);
      r := RetireTimedOutRoutes(timedOut, order, now);
      if r.Success? && shouldStart {
        gcArmed' := true;
      }
    }

    /** The loop over the collected snapshot: each route is still where it was when its turn comes. */
    method RetireTimedOutRoutes(timedOut: seq<RipDbEntry>, ghost order: seq<RouteKey>, now: nat)
      returns (r: RipResult<()>)
      requires Valid() && |timedOut| == |order|
      requires forall j :: 0 <= j < |order| ==>
                 && order[j] in database.okRoutes && database.okRoutes[order[j]] == timedOut[j]
                 && !timedOut[j].isLocal
      requires forall j, l :: 0 <= j < l < |order| ==> order[j] != order[l]
      modifies database, routingTable
      ensures r.Success? ==> Value() == RetireAll(old(Value()), order, now) && Valid() && Refused() == old(Refused())
      ensures r.Failure? ==> r.error != MalformedPacket
      ensures Consistent(old(Value())) && r.Failure? ==>
                r.error == IoError && CutShort(old(Refused()), Refused(), Value())
    {
      hide BuildRouteMessage, CutShort, KernelAgrees, Replay;
      assert order[..|order|] == order;
      for i := 0 to |timedOut|
        invariant Valid() && Refused() == old(Refused())
        invariant Value() == RetireAll(old(Value()), order[..i], now)
        invariant forall j :: i <= j < |order| ==>
                    order[j] in database.okRoutes && database.okRoutes[order[j]] == timedOut[j]
        invariant Consistent(old(Value())) ==> Consistent(Value())
      {
        var route := timedOut[i];
        assert order[..i + 1][..i] == order[..i];
        ghost var before := Value();
        if Consistent(old(Value())) {
          RetirePreserves(before, order[i], now);
          assert order[i] !in database.garbageRoutes;
        }
        r := routingTable.DeleteRoute(route);
        if r.Failure? {
          RefusedDeleteInterrupts(old(Refused()), Refused(), Value(), BuildRouteMessage(route));
          return;
        }
        var _ :- database.MoveRouteToGarbage(route.ripEntry, now);
      }
      r := Success(());
    }

    /** The timer has just fired, so it is absent when the handler runs. */
    method HandleGarbageCollectionTick(now: nat, ghost lockArmed: bool) returns (gcArmed: bool)
      modifies database
      ensures StateWith(lockArmed, gcArmed) == GarbageStep(cfg, old(StateWith(lockArmed, true)), now)
      ensures Collects(cfg, old(StateWith(lockArmed, true)), now, StateWith(lockArmed, gcArmed))
      ensures old(Valid()) ==> Valid()
    {
      hide Collects;
      gcArmed := false;
      var removed := database.RemoveExpiredGarbageRoutes(now, cfg.garbageLifetime);
      if database.HasGarbageRoutes() {
        gcArmed := true;
      }
      GarbageTickCollects(cfg, old(StateWith(lockArmed, true)), now);
    }

    /** A refused send or delete is logged and does not stop the shutdown. */
    method HandleShutdown()
      requires Valid()
      modifies database, routingTable, updater`sent, updater`failed
      ensures old(routingTable.rejected) <= routingTable.rejected && old(updater.failed) <= updater.failed
      ensures var refused := Refusals(
                routingTable.rejected[|old(routingTable.rejected)|..], updater.failed[|old(updater.failed)|..]);
              && PoisonIsTold(cfg, old(StateWith(false, false)), refused, StateWith(false, false))
              && (Consistent(old(Value())) ==> InstalledAreDeleted(old(Value()).kernel, refused, Value().kernel))
    {
      hide BuildRouteMessage, IsAdvertisement, Consistent, KeysMatch, Transmitted, Messages, Distinct, ArePoisoned,
           Deleted, InstalledAreDeleted;
      var routes := database.GetRoutesInRoutingTable();
      ghost var ok, garbage :|
        && IsOrder(ok, database.Value().InRoutingTable().0)
        && IsOrder(garbage, database.Value().InRoutingTable().1)
        && routes == Values(ok, database.okRoutes) + Values(garbage, database.garbageRoutes);
      if Consistent(Value()) {
        InstalledRoutesAreListed(Value(), ok, garbage, routes);
      }
      database.PoisonAllRoutes();
      var result;
      ghost var block;
      result, block := SendMulticastAdvertisement(false, false, false);
      DeleteRoutes(routes);
      PoisonLog(block, old(updater.sent), updater.sent, old(updater.failed), updater.failed, result.Success?);
      if Consistent(old(Value())) {
        var refused := Refusals(
          routingTable.rejected[|old(routingTable.rejected)|..], updater.failed[|old(updater.failed)|..]);
        ListedAreDeleted(old(Value()).kernel, Messages(routes), refused, Value().kernel);
      }
    }

    /** The last loop of the shutdown. */
    method DeleteRoutes(routes: seq<RipDbEntry>)
      modifies routingTable
      ensures old(routingTable.rejected) <= routingTable.rejected
      ensures Deleted(Messages(routes), old(routingTable.kernel.table), routingTable.kernel.table,
                      routingTable.rejected[|old(routingTable.rejected)|..])
    {
      hide BuildRouteMessage, Deleted;
      NothingDeleted(routingTable.kernel.table);
      assert Messages(routes)[..0] == [] && routingTable.rejected[|routingTable.rejected|..] == [];
      for i := 0 to |routes|
        invariant old(routingTable.rejected) <= routingTable.rejected
        invariant Deleted(Messages(routes)[..i], old(routingTable.kernel.table), routingTable.kernel.table,
                          routingTable.rejected[|old(routingTable.rejected)|..])
      {
        ghost var table, refused := routingTable.kernel.table, routingTable.rejected[|old(routingTable.rejected)|..];
        ghost var m := BuildRouteMessage(routes[i]);
        assert Messages(routes)[..i + 1] == Messages(routes)[..i] + [m];
        var result := routingTable.DeleteRoute(routes[i]);
        OneMoreDeleted(Messages(routes)[..i], m, old(routingTable.kernel.table), table, refused,
            routingTable.kernel.table,
                       routingTable.rejected[|old(routingTable.rejected)|..]);
      }
      assert Messages(routes)[..|routes|] == Messages(routes);
    }

    // ----- the loop

    /** The arm of the `select!` loop that the environment picked. */
    method HandleArm(e: Event, now: nat, lockArmed: bool, gcArmed: bool)
      returns (r: RipResult<()>, lockArmed': bool, gcArmed': bool)
      requires Valid() && Enabled(StateWith(lockArmed, gcArmed), e)
      modifies database, routingTable, updater
      ensures r.Success? ==> Arm(cfg, old(StateWith(lockArmed, gcArmed)), e, now, StateWith(lockArmed', gcArmed'))
      ensures r.Success? ==> Valid() && Refused() == old(Refused())
      ensures r.Success? && e == RequestWarmup ==>
                updater.requests == old(updater.requests) + Requests(cfg.interfaces)
      ensures r == Failure(MalformedPacket) <==> !WellFormed(e)
      ensures r == Failure(MalformedPacket) ==>
                StateWith(lockArmed, gcArmed) == old(StateWith(lockArmed, gcArmed)) && Refused() == old(Refused())
      ensures Consistent(old(Value())) && NonzeroSource(e) && r.Failure? && r.error != MalformedPacket ==>
                r.error == IoError && CutShort(old(Refused()), Refused(), Value())
    {
      hide Advertise, TimeoutStep, PacketStep, AddNetwork, KeysMatch, Consistent, CutShort, Transmitted,
          IsAdvertisement,
           Requests;
      lockArmed', gcArmed' := lockArmed, gcArmed;
      r := Success(());
      match e {
        case RequestWarmup =>
          r := SendMulticastRequest();
          if r.Failure? {
            RefusedSendCutsShort(old(Refused()), Refused(), Value());
          }
        case UpdateTimer =>
          ghost var block;
          r, block := SendMulticastAdvertisement(false, lockArmed, gcArmed);
          SentOrOneFailure(block, old(updater.sent), updater.sent, old(updater.failed), updater.failed, r.Success?);
          if r.Failure? {
            RefusedSendCutsShort(old(Refused()), Refused(), Value());
          }
        case LockExpired =>
          lockArmed' := false;
        case TimeoutTick =>
          r, gcArmed' := HandleRouteTimeoutTick(now, gcArmed, lockArmed);
        case GarbageTick =>
          gcArmed' := HandleGarbageCollectionTick(now, lockArmed);
        case Received(p) =>
          r := HandlePacket(p, now, lockArmed, gcArmed);
        case AddLocal(n) =>
          var reply := SetupAdvertisedNetwork(n);
        case OtherHttp =>
      }
    }

    /** One turn of the loop. It is one step of the relation, or it ends the run: because of a
        malformed packet, and then nothing has changed, or because of one refusal, after which the
        kernel still holds the active remote routes, but for one that it refused to add. */
    method HandleEvent(e: Event, now: nat, lockArmed: bool, gcArmed: bool)
      returns (r: RipResult<()>, lockArmed': bool, gcArmed': bool)
      requires Valid() && Enabled(StateWith(lockArmed, gcArmed), e)
      modifies database, routingTable, updater
      ensures r.Success? ==>
                Next(cfg, old(StateWith(lockArmed, gcArmed)), e, now, StateWith(lockArmed', gcArmed'))
      ensures r.Success? ==> Valid() && Refused() == old(Refused())
      ensures r.Success? && e == RequestWarmup ==>
                updater.requests == old(updater.requests) + Requests(cfg.interfaces)
      ensures r == Failure(MalformedPacket) <==> !WellFormed(e)
      ensures r == Failure(MalformedPacket) ==>
                StateWith(lockArmed, gcArmed) == old(StateWith(lockArmed, gcArmed)) && Refused() == old(Refused())
      ensures Consistent(old(Value())) && NonzeroSource(e) && r.Failure? && r.error != MalformedPacket ==>
                r.error == IoError && CutShort(old(Refused()), Refused(), Value())
    {
      hide Arm, Trigger, KeysMatch, Consistent, CutShort, WellFormed, Requests;
      r, lockArmed', gcArmed' := HandleArm(e, now, lockArmed, gcArmed);
      if r.Failure? {
        return;
      }
      ghost var mid := StateWith(lockArmed', gcArmed');
      if Consistent(old(Value())) && NonzeroSource(e) {
        ArmPreserves(cfg, old(StateWith(lockArmed, gcArmed)), e, now, mid);
      }
      r, lockArmed' := MaybeSendTriggeredUpdate(lockArmed', gcArmed');
      if r.Failure? {
        RefusedSendCutsShort(old(Refused()), Refused(), Value());
      }
    }

    /** The loop of `run`, for the events that the environment produces up to the termination
        signal; a timer that is not armed does not fire. `handled` inputs have been taken up by the
        steps of the run. With an error the next input has ended it, as HandleEvent says. */
    method HandleInputs(inputs: seq<Timed>)
      returns (r: RipResult<()>, lockArmed: bool, gcArmed: bool, ghost states: seq<State>, ghost events: seq<Timed>,
               ghost handled: nat)
      requires Valid() && Init(StateWith(false, false)) && Consistent(Value()) && Refused() == Refusals([], [])
      modifies database, routingTable, updater
      ensures IsRun(cfg, states, events) && states[0] == old(StateWith(false, false))
      ensures handled <= |inputs| && Follows(inputs[..handled], states, events)
      ensures r.Success? ==>
                && handled == |inputs| && states[|events|] == StateWith(lockArmed, gcArmed)
                && Valid() && Refused() == Refusals([], [])
                && (SourcesNonzero(inputs) ==> Consistent(Value()))
      ensures r.Failure? ==>
                && handled < |inputs| && Enabled(states[|events|], inputs[handled].event)
                && (r.error == MalformedPacket <==> !WellFormed(inputs[handled].event))
                && (r.error == MalformedPacket ==> Value() == states[|events|].core && Refused() == Refusals([], []))
                && (SourcesNonzero(inputs[..handled + 1]) && r.error != MalformedPacket ==>
                      r.error == IoError && CutShort(Refusals([], []), Refused(), Value()))
    {
      hide IsAdvertisement, Next, Consistent, KeysMatch, CutShort, Transmitted, Init;
      lockArmed, gcArmed := false, false;
      states, events, handled := [StateWith(false, false)], [], 0;
      r := Success(());
      for i := 0 to |inputs|
        invariant Valid() && r.Success? && handled == i && Refused() == Refusals([], [])
        invariant |states| == |events| + 1 && IsRun(cfg, states, events) && states[0] == old(StateWith(false, false))
        invariant states[|events|] == StateWith(lockArmed, gcArmed)
        invariant Follows(inputs[..i], states, events)
        invariant SourcesNonzero(inputs[..i]) ==> Consistent(Value())
      {
        hide IsRun, Follows, SourcesNonzero, NonzeroSource;
        var input := inputs[i];
        assert inputs[..i + 1] == inputs[..i] + [input];
        SourcesSoFar(inputs[..i], input);
        if (input.event.LockExpired? && !lockArmed) || (input.event.GarbageTick? && !gcArmed) {
          FollowsIdle(inputs[..i], input, states, events);
          handled := i + 1;
          continue;
        }
        ghost var before := StateWith(lockArmed, gcArmed);
        r, lockArmed, gcArmed := HandleEvent(input.event, input.now, lockArmed, gcArmed);
        if r.Failure? {
          return;
        }
        ghost var after := StateWith(lockArmed, gcArmed);
        if SourcesNonzero(inputs[..i + 1]) {
          NextPreserves(cfg, before, input.event, input.now, after);
        }
        FollowsStep(inputs[..i], input, states, events, after);
        RunStep(cfg, states, events, input, after);
        states, events, handled := states + [after], events + [input], i + 1;
      }
      assert inputs[..|inputs|] == inputs;
    }

    /** `setup` and `run`. Without error all inputs have been taken up, and a shutdown has followed
        from the last state of the run. */
    method Run(networks: seq<AdvertisedNetwork>, inputs: seq<Timed>)
      returns (r: RipResult<()>, ghost states: seq<State>, ghost events: seq<Timed>, ghost handled: nat)
      requires Value() == Core(EMPTY_TABLES, EMPTY_KERNEL) && updater.sent == [] && Refused() == Refusals([], [])
      modifies database, routingTable, updater
      ensures Setup(networks).Failure? ==> r.Failure? && Value().kernel == EMPTY_KERNEL && updater.sent == []
      ensures Setup(networks).Success? ==>
                IsRun(cfg, states, events) && states[0].core.db == Setup(networks).value
      ensures Setup(networks).Success? ==> handled <= |inputs| && Follows(inputs[..handled], states, events)
      ensures r.Success? ==>
                && handled == |inputs|
                && PoisonIsTold(cfg, states[|events|], Refused(),
                    StateWith(states[|events|].lockArmed, states[|events|].gcArmed))
                && (SourcesNonzero(inputs) ==> InstalledAreDeleted(states[|events|].core.kernel, Refused(),
                    Value().kernel))
      ensures Setup(networks).Success? && r.Failure? ==>
                && handled < |inputs| && Enabled(states[|events|], inputs[handled].event)
                && (r.error == MalformedPacket <==> !WellFormed(inputs[handled].event))
                && (r.error == MalformedPacket ==> Value() == states[|events|].core && Refused() == Refusals([], []))
                && (SourcesNonzero(inputs[..handled + 1]) && r.error != MalformedPacket ==>
                      r.error == IoError && CutShort(Refusals([], []), Refused(), Value()))
    {
      hide IsAdvertisement, Next, Consistent, KeysMatch, CutShort, Transmitted, Follows, IsRun;
      states, events, handled := [], [], 0;
      r := SetupNetworks(networks);
      if r.Failure? {
        return;
      }
      SetupKeysMatch(networks);
      SetupConsistent(networks);
      var lockArmed, gcArmed;
      r, lockArmed, gcArmed, states, events, handled := HandleInputs(inputs);
      if r.Failure? {
        return;
      }
      assert inputs[..|inputs|] == inputs;
      HandleShutdown();
      assert Refused() == Refusals(routingTable.rejected[0..], updater.failed[0..]);
    }

    static lemma {:induction false} SetupKeysMatch(networks: seq<AdvertisedNetwork>)
      ensures Setup(networks).Success? ==> KeysMatch(Setup(networks).value)
    {
      if networks == [] {
      } else {
        SetupKeysMatch(networks[..|networks| - 1]);
      }
    }
  }
}
