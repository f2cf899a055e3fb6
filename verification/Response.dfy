/** The response handlers of `rip_deamon.rs` on values: what one entry of a received response
    does to the route tables and to the kernel. */
module Response {
  import opened Wrappers
  import opened RipPacket
  import opened Address
  import opened RouteTables
  import opened RoutingTables

  const RIP_INFINITY_METRIC: u32 := 16

  /** The database and the kernel table, which the handlers change together. */
  datatype Core = Core(db: Tables, kernel: Kernel)

  predicate IsMetricValid(metric: u32) {
    1 <= metric <= RIP_INFINITY_METRIC
  }

  predicate IsEntryValid(entry: RipEntry) {
    IsUnicastAddress(entry.ipAddress) && IsNetMaskValid(entry.subnetMask) && IsMetricValid(entry.metric)
  }

  function UpdateMetric(metric: u32): u32 {
    var next: u32 := if metric < U32_COUNT - 1 then metric + 1 else metric;
    if next < RIP_INFINITY_METRIC then next else RIP_INFINITY_METRIC
  }

  function ResponseEntryToRoute(entry: RipEntry, source: u32): Option<RipEntry> {
    if !IsEntryValid(entry) then None
    else Some(entry.(metric := UpdateMetric(entry.metric), nextHop := source))
  }

  predicate RouteIsFromCurrentNextHop(oldRoute: RipDbEntry, e: RipEntry) {
    oldRoute.ripEntry.nextHop == e.nextHop
  }

  /** Kernel delete, then `move_route_to_garbage`: the common end of poison and timeout. */
  function RetireRoute(c: Core, k: RouteKey, now: nat): Core
    requires k in c.db.okRoutes
  {
    Core(c.db.MoveToGarbage(k, now), c.kernel.Delete(BuildRouteMessage(c.db.okRoutes[k])))
  }

  function HandlePoisonedRoute(c: Core, e: RipEntry, now: nat): Core {
    var k := KeyOf(e);
    if k in c.db.okRoutes && RouteIsFromCurrentNextHop(c.db.okRoutes[k], e) then RetireRoute(c, k, now) else c
  }

  function RemoteRoute(e: RipEntry, ifInfo: RipIfInfo): RipDbEntry {
    NewRemote(e, ifInfo.ifIndex, ifInfo.ifName)
  }

  function LearnRoute(c: Core, e: RipEntry, ifInfo: RipIfInfo): Core {
    var route := RemoteRoute(e, ifInfo);
    Core(c.db.Insert(route), c.kernel.Add(BuildRouteMessage(route)))
  }

  function ReplaceRoute(c: Core, oldRoute: RipDbEntry, e: RipEntry, ifInfo: RipIfInfo): Core {
    LearnRoute(Core(c.db.RemoveOk(Key(oldRoute)), c.kernel.Delete(BuildRouteMessage(oldRoute))), e, ifInfo)
  }

  predicate SameRoute(oldRoute: RipDbEntry, e: RipEntry, ifInfo: RipIfInfo) {
    oldRoute.ripEntry == e && oldRoute.ifIndex == ifInfo.ifIndex && oldRoute.ifName == ifInfo.ifName
  }

  /** `update_route_from_response`, for an entry that already carries the cost of the hop. */
  function UpdateRoute(c: Core, e: RipEntry, ifInfo: RipIfInfo, now: nat): Core {
    var k := KeyOf(e);
    if e.metric >= RIP_INFINITY_METRIC then HandlePoisonedRoute(c, e, now)
    else if k !in c.db.okRoutes then LearnRoute(c.(db := c.db.RemoveGarbage(k)), e, ifInfo)
    else
      var oldRoute := c.db.okRoutes[k];
      if RouteIsFromCurrentNextHop(oldRoute, e) then
        var refreshed := c.(db := c.db.Refresh(k));
        if SameRoute(oldRoute, e, ifInfo) then refreshed else ReplaceRoute(refreshed, oldRoute, e, ifInfo)
      else if oldRoute.ripEntry.metric > e.metric then ReplaceRoute(c, oldRoute, e, ifInfo)
      else c
  }

  /** One iteration of the loop of `handle_response_packet`. */
  function HandleEntry(c: Core, entry: RipEntry, source: u32, ifInfo: RipIfInfo, now: nat): Core {
    match ResponseEntryToRoute(entry, source)
    case None => c
    case Some(e) => UpdateRoute(c, e, ifInfo, now)
  }

  function HandleEntries(c: Core, entries: seq<RipEntry>, source: u32, ifInfo: RipIfInfo, now: nat): Core {
    if entries == [] then c
    else
      var n := |entries| - 1;
      HandleEntry(HandleEntries(c, entries[..n], source, ifInfo, now), entries[n], source, ifInfo, now)
  }

  // ----- the invariant of the two maps

  ghost predicate GoodActive(k: RouteKey, r: RipDbEntry) {
    && Key(r) == k
    && r.garbageStartedAt == None
    && if r.isLocal then
         r.ripEntry.metric == 1 && r.ripEntry.nextHop == 0 && !r.inRoutingTable && r.timeoutCnt == 0
       else
         && 2 <= r.ripEntry.metric <= 15 && r.ripEntry.nextHop != 0 && r.inRoutingTable
         && IsUnicastAddress(k.ipAddress) && IsNetMaskValid(k.subnetMask)
  }

  ghost predicate GoodGarbage(k: RouteKey, r: RipDbEntry) {
    Key(r) == k && r.garbageStartedAt.Some? && !r.isLocal && r.ripEntry.metric == 16 && !r.inRoutingTable
  }

  /** Keys match the stored entries; local, active remote and garbage routes look as they should;
      a destination in both maps is local in the active one; no change escapes the dirty flag. */
  ghost predicate TwoMaps(db: Tables) {
    && (forall k :: k in db.okRoutes ==> GoodActive(k, db.okRoutes[k]))
    && (forall k :: k in db.garbageRoutes ==> GoodGarbage(k, db.garbageRoutes[k]))
    && (forall k :: k in db.garbageRoutes && k in db.okRoutes ==> db.okRoutes[k].isLocal)
    && (forall k :: k in db.okRoutes && db.okRoutes[k].changed ==> db.anyRouteChanged)
    && (forall k :: k in db.garbageRoutes && db.garbageRoutes[k].changed ==> db.anyRouteChanged)
  }

  ghost predicate Owned(db: Tables, m: RouteMessage) {
    var k := OwnerKey(m);
    k in db.okRoutes && !db.okRoutes[k].isLocal && BuildRouteMessage(db.okRoutes[k]) == m
  }

  /** The kernel holds the messages of the active remote routes and nothing else. */
  ghost predicate KernelAgrees(db: Tables, table: set<RouteMessage>) {
    forall m :: m in table <==> Owned(db, m)
  }

  /** The invariant of every handler: the two maps are in order, the kernel table agrees with
      them, and no kernel call so far met a soft error. */
  ghost predicate Consistent(c: Core) {
    && TwoMaps(c.db)
    && KernelAgrees(c.db, c.kernel.table)
    && Replay(c.kernel.calls) == Some(c.kernel.table)
  }

  /** What a handler leaves behind when the kernel refuses a call: the maps are in order and the
      kernel holds the active remote routes, but for the one it refused to add. */
  ghost predicate Interrupted(c: Core, refused: KernelCall) {
    TwoMaps(c.db) && forall m :: m in c.kernel.table <==> Owned(c.db, m) && refused != AddCall(m)
  }

  /** Some active remote route has this message, by its fields. */
  ghost predicate IsInstalled(db: Tables, m: RouteMessage) {
    exists k :: k in db.okRoutes && !db.okRoutes[k].isLocal && RoutesTo(m, db.okRoutes[k])
  }

  /** Agreement in the plain reading: the table is the image of the active remote routes, each
      with its destination, next hop, interface and metric. */
  lemma KernelIsImageOfActiveRoutes(c: Core)
    requires TwoMaps(c.db)
    ensures KernelAgrees(c.db, c.kernel.table) <==>
            c.kernel.table
              == set k | k in c.db.okRoutes && !c.db.okRoutes[k].isLocal :: BuildRouteMessage(c.db.okRoutes[k])
    ensures KernelAgrees(c.db, c.kernel.table) <==> forall m :: m in c.kernel.table <==> IsInstalled(c.db, m)
  {
    hide BuildRouteMessage, OwnerKey, RoutesTo, IsUnicastAddress, IsNetMaskValid;
    forall k | k in c.db.okRoutes && !c.db.okRoutes[k].isLocal
      ensures OwnerKey(BuildRouteMessage(c.db.okRoutes[k])) == k
    {
      OwnerKeyOfMessage(c.db.okRoutes[k]);
    }
    forall m ensures Owned(c.db, m) <==> IsInstalled(c.db, m) {
      OwnedIsInstalled(c.db, m);
    }
  }

  lemma OwnedIsInstalled(db: Tables, m: RouteMessage)
    requires TwoMaps(db)
    ensures Owned(db, m) <==> IsInstalled(db, m)
  {
    hide BuildRouteMessage, OwnerKey, RoutesTo, IsUnicastAddress, IsNetMaskValid;
    forall k | k in db.okRoutes && !db.okRoutes[k].isLocal
      ensures RoutesTo(m, db.okRoutes[k]) <==> m == BuildRouteMessage(db.okRoutes[k])
      ensures OwnerKey(BuildRouteMessage(db.okRoutes[k])) == k
    {
      MessageIsDetermined(m, db.okRoutes[k]);
      OwnerKeyOfMessage(db.okRoutes[k]);
    }
  }

  // ----- the invariant is kept by the parts of the handlers

  lemma KernelDeletePreserves(db: Tables, kernel: Kernel, k: RouteKey)
    requires TwoMaps(db) && KernelAgrees(db, kernel.table) && Replay(kernel.calls) == Some(kernel.table)
    requires k in db.okRoutes && !db.okRoutes[k].isLocal
    ensures var kernel' := kernel.Delete(BuildRouteMessage(db.okRoutes[k]));
            KernelAgrees(db.RemoveOk(k), kernel'.table) && Replay(kernel'.calls) == Some(kernel'.table)
  {
    hide BuildRouteMessage, OwnerKey;
    var m := BuildRouteMessage(db.okRoutes[k]);
    OwnerKeyOfMessage(db.okRoutes[k]);
    assert Owned(db, m);
    ReplayDelete(kernel, m);
    forall o ensures o in kernel.Delete(m).table <==> Owned(db.RemoveOk(k), o) {
      assert o in kernel.table <==> Owned(db, o);
    }
  }

  lemma CollisionSharesOwner(a: RouteMessage, b: RouteMessage)
    requires Collides(a, b)
    ensures OwnerKey(a) == OwnerKey(b)
  {
  }

  lemma NewKeyDoesNotCollide(db: Tables, table: set<RouteMessage>, r: RipDbEntry)
    requires KernelAgrees(db, table)
    requires Key(r) !in db.okRoutes && IsNetMaskValid(r.ripEntry.subnetMask)
    ensures forall o :: o in table ==> !Collides(o, BuildRouteMessage(r))
  {
    hide BuildRouteMessage, OwnerKey, IsNetMaskValid, Collides;
    var m := BuildRouteMessage(r);
    OwnerKeyOfMessage(r);
    forall o | o in table ensures !Collides(o, m) {
      assert Owned(db, o);
      if Collides(o, m) {
        CollisionSharesOwner(o, m);
      }
    }
  }

  lemma KernelAddPreserves(db: Tables, kernel: Kernel, r: RipDbEntry)
    requires KernelAgrees(db, kernel.table) && Replay(kernel.calls) == Some(kernel.table)
    requires Key(r) !in db.okRoutes && !r.isLocal && IsNetMaskValid(r.ripEntry.subnetMask)
    ensures var kernel' := kernel.Add(BuildRouteMessage(r));
            KernelAgrees(db.Insert(r), kernel'.table) && Replay(kernel'.calls) == Some(kernel'.table)
  {
    hide BuildRouteMessage, OwnerKey, IsNetMaskValid, Collides, Replay;
    var m := BuildRouteMessage(r);
    NewKeyDoesNotCollide(db, kernel.table, r);
    OwnerKeyOfMessage(r);
    ReplayAdd(kernel, m);
    forall o ensures o in kernel.Add(m).table <==> Owned(db.Insert(r), o) {
      assert o in kernel.table <==> Owned(db, o);
    }
  }

  lemma RetirePreserves(c: Core, k: RouteKey, now: nat)
    requires Consistent(c) && k in c.db.okRoutes && !c.db.okRoutes[k].isLocal
    ensures Consistent(RetireRoute(c, k, now))
  {
    hide BuildRouteMessage, OwnerKey, IsNetMaskValid, IsUnicastAddress;
    KernelDeletePreserves(c.db, c.kernel, k);
    var table := RetireRoute(c, k, now).kernel.table;
    assert forall m :: Owned(c.db.RemoveOk(k), m) <==> Owned(c.db.MoveToGarbage(k, now), m);
  }

  lemma LearnPreserves(c: Core, e: RipEntry, ifInfo: RipIfInfo)
    requires Consistent(c) && KeyOf(e) !in c.db.okRoutes && KeyOf(e) !in c.db.garbageRoutes
    requires 2 <= e.metric <= 15 && e.nextHop != 0 && IsUnicastAddress(e.ipAddress) && IsNetMaskValid(e.subnetMask)
    ensures Consistent(LearnRoute(c, e, ifInfo))
  {
    KernelAddPreserves(c.db, c.kernel, NewRemote(e, ifInfo.ifIndex, ifInfo.ifName));
  }

  /** What the handlers make of a valid entry from a nonzero source. */
  predicate IsUpdate(e: RipEntry) {
    2 <= e.metric <= 16 && e.nextHop != 0 && IsUnicastAddress(e.ipAddress) && IsNetMaskValid(e.subnetMask)
  }

  /** A route that was learned, but not installed, is all that the kernel lacks. */
  lemma RefusedAddLeaves(c: Core, e: RipEntry, ifInfo: RipIfInfo)
    requires Consistent(c) && KeyOf(e) !in c.db.okRoutes && KeyOf(e) !in c.db.garbageRoutes
    requires IsUpdate(e) && e.metric < RIP_INFINITY_METRIC
    ensures Interrupted(LearnRoute(c, e, ifInfo).(kernel := c.kernel),
        AddCall(BuildRouteMessage(RemoteRoute(e, ifInfo))))
  {
    hide BuildRouteMessage, OwnerKey, IsNetMaskValid, IsUnicastAddress, Collides, Replay;
    var r := RemoteRoute(e, ifInfo);
    var m := BuildRouteMessage(r);
    LearnPreserves(c, e, ifInfo);
    OwnerKeyOfMessage(r);
    var db := LearnRoute(c, e, ifInfo).db;
    forall o ensures o in c.kernel.table <==> Owned(db, o) && o != m {
      assert o in c.kernel.table <==> Owned(c.db, o);
    }
  }

  lemma RemoveGarbagePreserves(c: Core, k: RouteKey)
    requires Consistent(c)
    ensures Consistent(c.(db := c.db.RemoveGarbage(k)))
  {
    assert forall m :: Owned(c.db, m) <==> Owned(c.db.RemoveGarbage(k), m);
  }

  lemma ReplacePreserves(c: Core, k: RouteKey, oldRoute: RipDbEntry, e: RipEntry, ifInfo: RipIfInfo)
    requires Consistent(c) && KeyOf(e) == k && k in c.db.okRoutes && !c.db.okRoutes[k].isLocal
    requires Key(oldRoute) == k && BuildRouteMessage(oldRoute) == BuildRouteMessage(c.db.okRoutes[k])
    requires 2 <= e.metric <= 15 && e.nextHop != 0
    ensures Consistent(ReplaceRoute(c, oldRoute, e, ifInfo))
  {
    KernelDeletePreserves(c.db, c.kernel, k);
    LearnPreserves(Core(c.db.RemoveOk(k), c.kernel.Delete(BuildRouteMessage(oldRoute))), e, ifInfo);
  }

  lemma RefreshPreserves(c: Core, k: RouteKey)
    requires Consistent(c)
    ensures Consistent(c.(db := c.db.Refresh(k)))
  {
    assert forall m :: Owned(c.db, m) <==> Owned(c.db.Refresh(k), m);
  }

  /** Every branch of the response handler keeps the invariant. */
  lemma HandleEntryPreserves(c: Core, entry: RipEntry, source: u32, ifInfo: RipIfInfo, now: nat)
    requires Consistent(c) && source != 0
    ensures Consistent(HandleEntry(c, entry, source, ifInfo, now))
  {
    hide BuildRouteMessage, OwnerKey, IsNetMaskValid, IsUnicastAddress;
    if IsEntryValid(entry) {
      var e := ResponseEntryToRoute(entry, source).value;
      var k := KeyOf(e);
      if e.metric >= RIP_INFINITY_METRIC {
        if k in c.db.okRoutes && RouteIsFromCurrentNextHop(c.db.okRoutes[k], e) {
          RetirePreserves(c, k, now);
        }
      } else if k !in c.db.okRoutes {
        RemoveGarbagePreserves(c, k);
        LearnPreserves(c.(db := c.db.RemoveGarbage(k)), e, ifInfo);
      } else if RouteIsFromCurrentNextHop(c.db.okRoutes[k], e) {
        RefreshPreserves(c, k);
        if !SameRoute(c.db.okRoutes[k], e, ifInfo) {
          RefreshKeepsMessage(c.db, k);
          ReplacePreserves(c.(db := c.db.Refresh(k)), k, c.db.okRoutes[k], e, ifInfo);
        }
      } else if c.db.okRoutes[k].ripEntry.metric > e.metric {
        ReplacePreserves(c, k, c.db.okRoutes[k], e, ifInfo);
      }
    }
  }

  lemma RefreshKeepsMessage(db: Tables, k: RouteKey)
    requires k in db.okRoutes
    ensures BuildRouteMessage(db.Refresh(k).okRoutes[k]) == BuildRouteMessage(db.okRoutes[k])
  {
  }

  lemma {:induction false} HandleEntriesPreserves(c: Core, entries: seq<RipEntry>, source: u32, ifInfo: RipIfInfo,
      now: nat)
    requires Consistent(c) && source != 0
    ensures Consistent(HandleEntries(c, entries, source, ifInfo, now))
  {
    hide Consistent, HandleEntry;
    if entries == [] {
    } else {
      var n := |entries| - 1;
      HandleEntriesPreserves(c, entries[..n], source, ifInfo, now);
      HandleEntryPreserves(HandleEntries(c, entries[..n], source, ifInfo, now), entries[n], source, ifInfo, now);
    }
  }
}
