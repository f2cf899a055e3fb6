/** `rip_database.rs` in its own form: an object whose methods update the two maps in place.
    Every method is proved against the functions of RouteTables. */
module Database {
  import opened Wrappers
  import opened RipPacket
  import opened RouteTables

  /** Visits every value of a hash map once and updates it in place. */
  method UpdateAll(m: map<RouteKey, RipDbEntry>, f: RipDbEntry -> RipDbEntry)
    returns (updated: map<RouteKey, RipDbEntry>)
    ensures updated == map k | k in m :: f(m[k])
  {
    updated := m;
    var pending := m.Keys;
    while pending != {}
      invariant pending <= m.Keys == updated.Keys
      invariant forall k :: k in m ==> updated[k] == if k in pending then m[k] else f(m[k])
    {
      var key :| key in pending;
      pending := pending - {key};
      updated := updated[key := f(updated[key])];
    }
  }

  /** Visits the keys of a hash map in an unspecified order. */
  method VisitKeys(keys: set<RouteKey>) returns (order: seq<RouteKey>)
    ensures IsOrder(order, keys)
  {
    order := [];
    var pending := keys;
    while pending != {}
      invariant pending <= keys
      invariant IsOrder(order, keys - pending)
    {
      var key :| key in pending;
      pending := pending - {key};
      order := order + [key];
    }
  }

  predicate IsDue(r: RipDbEntry, limit: u64) {
    !r.isLocal && r.timeoutCnt >= limit
  }

  lemma EmptyOrder()
    ensures IsOrder([], {})
  {
  }

  /** One more key is visited. */
  lemma OrderExtends(order: seq<RouteKey>, keys: set<RouteKey>, key: RouteKey)
    requires IsOrder(order, keys) && key !in keys
    ensures IsOrder(order + [key], keys + {key})
  {
  }

  /** The pass of `collect_timed_out_routes`: advances every remote counter and picks out the
      routes that reach the limit, in the order of the visit. */
  method AdvanceCounters(m: map<RouteKey, RipDbEntry>, increment: u64, limit: u64)
    returns (ticked: map<RouteKey, RipDbEntry>, timedOut: seq<RipDbEntry>, ghost order: seq<RouteKey>)
    ensures ticked == map k | k in m :: Ticked(m[k], increment)
    ensures IsOrder(order, set k | k in ticked && IsDue(ticked[k], limit))
    ensures timedOut == Values(order, ticked)
  {
    hide SaturatingAdd, IsOrder;
    ticked, timedOut, order := m, [], [];
    var pending := m.Keys;
    ghost var due: set<RouteKey> := {};
    EmptyOrder();
    while pending != {}
      invariant pending <= m.Keys == ticked.Keys
      invariant forall k :: k in m ==> ticked[k] == if k in pending then m[k] else Ticked(m[k], increment)
      invariant forall k :: k in due <==> k in m && k !in pending && IsDue(ticked[k], limit)
      invariant IsOrder(order, due) && forall k :: k in order ==> k in due
      invariant timedOut == Values(order, ticked)
    {
      var key :| key in pending;
      pending := pending - {key};
      var route := ticked[key];
      if !route.isLocal {
        route := route.(timeoutCnt := SaturatingAdd(route.timeoutCnt, increment));
        ticked := ticked[key := route];
        if route.timeoutCnt >= limit {
          OrderExtends(order, due, key);
          timedOut, order, due := timedOut + [route], order + [key], due + {key};
        }
      }
    }
    assert due == set k | k in ticked && IsDue(ticked[k], limit);
  }

  /** The filter and map of `get_routes_for_advertisement` over one of the two maps. */
  method SelectRoutes(order: seq<RouteKey>, m: map<RouteKey, RipDbEntry>, target: u32, changedOnly: bool)
    returns (entries: seq<RipEntry>)
    requires forall k :: k in order ==> k in m
    ensures entries == SelectFrom(order, m, target, changedOnly)
  {
    entries := [];
    for i := 0 to |order|
      invariant entries == SelectFrom(order[..i], m, target, changedOnly)
    {
      var route := m[order[i]];
      assert order[..i + 1][..i] == order[..i];
      if !(changedOnly && !route.changed) && route.ifIndex != target {
        var entry := route.ripEntry;
        entry := entry.(nextHop := 0);
        entries := entries + [entry];
      }
    }
    assert order[..|order|] == order;
  }

  /** The same route at infinity, to be told. */
  predicate IsPoisoned(r: RipDbEntry, poisoned: RipDbEntry) {
    poisoned.ripEntry.metric == 16 && poisoned.changed
    && poisoned.(changed := r.changed, ripEntry := poisoned.ripEntry.(metric := r.ripEntry.metric)) == r
  }

  /** All routes are kept, at infinity and to be told. */
  ghost predicate ArePoisoned(a: Tables, b: Tables) {
    && b.okRoutes.Keys == a.okRoutes.Keys && b.garbageRoutes.Keys == a.garbageRoutes.Keys
    && (forall k :: k in a.okRoutes ==> IsPoisoned(a.okRoutes[k], b.okRoutes[k]))
    && (forall k :: k in a.garbageRoutes ==> IsPoisoned(a.garbageRoutes[k], b.garbageRoutes[k]))
    && (b.anyRouteChanged <==>
        a.anyRouteChanged || (exists k :: k in a.okRoutes) || exists k :: k in a.garbageRoutes)
  }

  lemma PoisonAllPoisons(db: Tables)
    ensures ArePoisoned(db, db.PoisonAll())
  {
  }

  class RipDatabase {
    var okRoutes: map<RouteKey, RipDbEntry>
    var garbageRoutes: map<RouteKey, RipDbEntry>
    var anyRouteChanged: bool

    function Value(): Tables
      reads this
    {
      Tables(okRoutes, garbageRoutes, anyRouteChanged)
    }

    constructor ()
      ensures Value() == EMPTY_TABLES
    {
      okRoutes, garbageRoutes, anyRouteChanged := map[], map[], false;
    }

    method AddLocalRoute(entry: RipEntry, ifIndex: u32, ifName: string) returns (r: RipResult<()>)
      modifies this
      ensures r == if KeyOf(entry) in old(okRoutes) then Failure(InvalidConfiguration) else Success(())
      ensures Value() == if r.Success? then old(Value()).Insert(NewLocal(entry, ifIndex, ifName)) else old(Value())
    {
      var added := AddRoute(entry, ifIndex, ifName, true, true, false);
      r := if added.Success? then Success(()) else Failure(added.error);
    }

    function GetRoute(entry: RipEntry): Option<RipDbEntry>
      reads this
    {
      if KeyOf(entry) in okRoutes then Some(okRoutes[KeyOf(entry)]) else None
    }

    method AddRemoteRoute(entry: RipEntry, ifIndex: u32, ifName: string) returns (r: RipResult<RipDbEntry>)
      modifies this
      ensures r == if KeyOf(entry) in old(okRoutes) then Failure(InvalidConfiguration)
          else Success(NewRemote(entry, ifIndex, ifName))
      ensures Value() == if r.Success? then old(Value()).Insert(r.value) else old(Value())
    {
      r := AddRoute(entry, ifIndex, ifName, true, false, true);
    }

    method AddRoute(entry: RipEntry, ifIndex: u32, ifName: string, changed: bool, isLocal: bool, inRoutingTable: bool)
      returns (r: RipResult<RipDbEntry>)
      modifies this
      ensures r == if KeyOf(entry) in old(okRoutes) then Failure(InvalidConfiguration)
                   else Success(NewRoute(entry, ifIndex, ifName, changed, isLocal, inRoutingTable))
      ensures Value() == if r.Success? then old(Value()).Insert(r.value) else old(Value())
    {
      var key := KeyOf(entry);
      var value := NewRoute(entry, ifIndex, ifName, changed, isLocal, inRoutingTable);
      if key in okRoutes {
        return Failure(InvalidConfiguration);
      }
      okRoutes := okRoutes[key := value];
      if value.changed {
        anyRouteChanged := true;
      }
      r := Success(value);
    }

    method RemoveRoute(entry: RipEntry) returns (r: RipResult<RipDbEntry>)
      modifies this
      ensures var k := KeyOf(entry);
              if k in old(okRoutes) then
                r == Success(old(okRoutes)[k]) && Value() == old(Value()).RemoveOk(k)
              else if k in old(garbageRoutes) then
                r == Success(old(garbageRoutes)[k]) && Value() == old(Value()).RemoveGarbage(k)
              else
                r == Failure(InvalidConfiguration) && Value() == old(Value())
    {
      var key := KeyOf(entry);
      if key in okRoutes {
        r := Success(okRoutes[key]);
        okRoutes := okRoutes - {key};
        return;
      }
      if key in garbageRoutes {
        r := Success(garbageRoutes[key]);
        garbageRoutes := garbageRoutes - {key};
      } else {
        r := Failure(InvalidConfiguration);
      }
    }

    method RemoveGarbageRoute(entry: RipEntry)
      modifies this
      ensures Value() == old(Value()).RemoveGarbage(KeyOf(entry))
    {
      garbageRoutes := garbageRoutes - {KeyOf(entry)};
    }

    predicate HasGarbageRoute(entry: RipEntry)
      reads this
    {
      KeyOf(entry) in garbageRoutes
    }

    method RefreshRouteTimeout(entry: RipEntry)
      modifies this
      ensures Value() == old(Value()).Refresh(KeyOf(entry))
    {
      var key := KeyOf(entry);
      if key in okRoutes {
        okRoutes := okRoutes[key := okRoutes[key].(timeoutCnt := 0)];
      }
    }

    /** Advances every remote counter once; `order` is the order the report is in. */
    method CollectTimedOutRoutes(increment: u64, limit: u64)
      returns (timedOut: seq<RipDbEntry>, ghost order: seq<RouteKey>)
      modifies this
      ensures Value() == old(Value()).Tick(increment)
      ensures IsOrder(order, Value().TimedOut(limit))
      ensures timedOut == Values(order, okRoutes)
    {
      okRoutes, timedOut, order := AdvanceCounters(okRoutes, increment, limit);
    }

    /** On a key that is already in garbage the active route is lost and an error returned. */
    method MoveRouteToGarbage(entry: RipEntry, garbageStartedAt: nat) returns (r: RipResult<RipDbEntry>)
      modifies this
      ensures var k := KeyOf(entry);
              if k !in old(okRoutes) then
                r == Failure(InvalidConfiguration) && Value() == old(Value())
              else if k in old(garbageRoutes) then
                r == Failure(InvalidConfiguration) && Value() == old(Value()).RemoveOk(k).(anyRouteChanged := true)
              else
                r == Success(Expired(old(okRoutes)[k], garbageStartedAt))
                    && Value() == old(Value()).MoveToGarbage(k, garbageStartedAt)
    {
      var key := KeyOf(entry);
      if key !in okRoutes {
        return Failure(InvalidConfiguration);
      }
      var route := okRoutes[key];
      okRoutes := okRoutes - {key};
      route := route.(changed := true);
      route := route.(ripEntry := route.ripEntry.(metric := 16));
      route := route.(inRoutingTable := false);
      route := route.(garbageStartedAt := Some(garbageStartedAt));
      anyRouteChanged := true;
      if key in garbageRoutes {
        return Failure(InvalidConfiguration);
      }
      garbageRoutes := garbageRoutes[key := route];
      r := Success(route);
    }

    /** Removes and returns the expired routes, in the order their keys were collected. */
    method RemoveExpiredGarbageRoutes(now: nat, lifetime: nat) returns (removed: seq<RipDbEntry>)
      modifies this
      ensures Value() == old(Value()).RemoveExpiredGarbage(now, lifetime)
      ensures exists order ::
                && IsOrder(order, old(Value()).ExpiredGarbage(now, lifetime))
                && removed == Values(order, old(garbageRoutes))
      ensures forall r :: r in removed <==>
                && (exists k :: k in old(garbageRoutes) && r == old(garbageRoutes)[k])
                && r.garbageStartedAt.Some? && (lifetime == 0 || r.garbageStartedAt.value + lifetime <= now)
    {
      var expired := VisitKeys(Value().ExpiredGarbage(now, lifetime));
      removed := [];
      for i := 0 to |expired|
        invariant okRoutes == old(okRoutes) && anyRouteChanged == old(anyRouteChanged)
        invariant forall k :: k in garbageRoutes <==> k in old(garbageRoutes) && k !in expired[..i]
        invariant forall k :: k in garbageRoutes ==> garbageRoutes[k] == old(garbageRoutes)[k]
        invariant forall k :: k in expired ==> k in old(garbageRoutes)
        invariant removed == Values(expired[..i], old(garbageRoutes))
      {
        assert expired[i] in expired && expired[i] !in expired[..i];
        removed := removed + [garbageRoutes[expired[i]]];
        garbageRoutes := garbageRoutes - {expired[i]};
      }
      assert expired[..|expired|] == expired;
      ValuesMembers(expired, old(garbageRoutes));
    }

    predicate HasGarbageRoutes()
      reads this
    {
      garbageRoutes != map[]
    }

    method PoisonAllRoutes()
      modifies this
      ensures Value() == old(Value()).PoisonAll()
      ensures ArePoisoned(old(Value()), Value())
    {
      hide IsPoisoned, ArePoisoned;
      PoisonAllPoisons(Value());
      if okRoutes == map[] && garbageRoutes == map[] {
        return;
      }
      okRoutes := UpdateAll(okRoutes, Poisoned);
      garbageRoutes := UpdateAll(garbageRoutes, Poisoned);
      anyRouteChanged := true;
    }

    /** The routes that are in the kernel, in the order the two maps are visited. */
    method GetRoutesInRoutingTable() returns (routes: seq<RipDbEntry>)
      ensures exists ok, garbage ::
                && IsOrder(ok, Value().InRoutingTable().0)
                && IsOrder(garbage, Value().InRoutingTable().1)
                && routes == Values(ok, okRoutes) + Values(garbage, garbageRoutes)
    {
      var ok := VisitKeys(Value().InRoutingTable().0);
      var garbage := VisitKeys(Value().InRoutingTable().1);
      routes := Values(ok, okRoutes) + Values(garbage, garbageRoutes);
    }

    method GetRoutesForAdvertisement(target: u32, changedOnly: bool) returns (entries: seq<RipEntry>)
      ensures IsSelection(entries, Value(), target, changedOnly)
    {
      var ok := VisitKeys(okRoutes.Keys);
      var garbage := VisitKeys(garbageRoutes.Keys);
      var first := SelectRoutes(ok, okRoutes, target, changedOnly);
      var second := SelectRoutes(garbage, garbageRoutes, target, changedOnly);
      entries := first + second;
    }

    method MarkAllRoutesAsUnchanged()
      modifies this
      ensures Value() == old(Value()).MarkUnchanged()
    {
      if !anyRouteChanged {
        return;
      }
      var clear := (r: RipDbEntry) => r.(changed := false);
      okRoutes := UpdateAll(okRoutes, clear);
      garbageRoutes := UpdateAll(garbageRoutes, clear);
      anyRouteChanged := false;
    }
  }
}
