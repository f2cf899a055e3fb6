/** `rip_database.rs` on values: the two route maps, the dirty flag, and what each operation of
    the database makes of them. The class in Database.dfy is proved against these functions. */
module RouteTables {
  import opened Wrappers
  import opened RipPacket

  datatype RouteKey = RouteKey(ipAddress: u32, subnetMask: u32)

  datatype RipDbEntry = RipDbEntry(
    ripEntry: RipEntry,
    ifIndex: u32,
    ifName: string,
    changed: bool,
    isLocal: bool,
    inRoutingTable: bool,
    timeoutCnt: u64,
    garbageStartedAt: Option<nat>)

  /** `build_route_key` */
  function KeyOf(e: RipEntry): RouteKey {
    RouteKey(e.ipAddress, e.subnetMask)
  }

  function Key(r: RipDbEntry): RouteKey {
    KeyOf(r.ripEntry)
  }

  /** The record that `add_route` inserts. */
  function NewRoute(e: RipEntry, ifIndex: u32, ifName: string, changed: bool, isLocal: bool, inRoutingTable: bool)
    : RipDbEntry
  {
    RipDbEntry(e, ifIndex, ifName, changed, isLocal, inRoutingTable, 0, None)
  }

  function NewLocal(e: RipEntry, ifIndex: u32, ifName: string): RipDbEntry {
    NewRoute(e, ifIndex, ifName, true, true, false)
  }

  function NewRemote(e: RipEntry, ifIndex: u32, ifName: string): RipDbEntry {
    NewRoute(e, ifIndex, ifName, true, false, true)
  }

  function SaturatingAdd(x: u64, y: u64): u64 {
    if x as int + y < U64_COUNT then x as int + y else U64_COUNT - 1
  }

  function Ticked(r: RipDbEntry, increment: u64): RipDbEntry {
    if r.isLocal then r else r.(timeoutCnt := SaturatingAdd(r.timeoutCnt, increment))
  }

  /** A route on its way to the garbage map. */
  function Expired(r: RipDbEntry, now: nat): RipDbEntry {
    r.(changed := true, ripEntry := r.ripEntry.(metric := 16), inRoutingTable := false, garbageStartedAt := Some(now))
  }

  function Poisoned(r: RipDbEntry): RipDbEntry {
    r.(ripEntry := r.ripEntry.(metric := 16), changed := true)
  }

  /** Nothing but the changed flag of a route differs. */
  predicate Stable(a: RipDbEntry, b: RipDbEntry) {
    b == a.(changed := b.changed)
  }

  /** `Instant::duration_since`, which saturates at zero. */
  function Age(startedAt: nat, now: nat): nat {
    if startedAt <= now then now - startedAt else 0
  }

  /** A lifetime of zero is over at once, whatever the clock says. */
  predicate OutlivedGarbage(r: RipDbEntry, now: nat, lifetime: nat): (outlived: bool)
    ensures outlived <==>
            r.garbageStartedAt.Some? && (lifetime == 0 || r.garbageStartedAt.value + lifetime <= now)
  {
    r.garbageStartedAt.Some? && Age(r.garbageStartedAt.value, now) >= lifetime
  }

  datatype Tables = Tables(
    okRoutes: map<RouteKey, RipDbEntry>,
    garbageRoutes: map<RouteKey, RipDbEntry>,
    anyRouteChanged: bool)
  {
    function Insert(r: RipDbEntry): Tables {
      this.(okRoutes := okRoutes[Key(r) := r], anyRouteChanged := anyRouteChanged || r.changed)
    }

    function RemoveOk(k: RouteKey): Tables {
      this.(okRoutes := okRoutes - {k})
    }

    function RemoveGarbage(k: RouteKey): Tables {
      this.(garbageRoutes := garbageRoutes - {k})
    }

    function Refresh(k: RouteKey): Tables {
      if k in okRoutes then this.(okRoutes := okRoutes[k := okRoutes[k].(timeoutCnt := 0)]) else this
    }

    function Tick(increment: u64): Tables {
      this.(okRoutes := map k | k in okRoutes :: Ticked(okRoutes[k], increment))
    }

    /** The keys that `collect_timed_out_routes` reports, after the counters went up. */
    function TimedOut(limit: u64): set<RouteKey> {
      set k | k in okRoutes && !okRoutes[k].isLocal && okRoutes[k].timeoutCnt >= limit
    }

    function MoveToGarbage(k: RouteKey, now: nat): Tables
      requires k in okRoutes
    {
      Tables(okRoutes - {k}, garbageRoutes[k := Expired(okRoutes[k], now)], true)
    }

    function ExpiredGarbage(now: nat, lifetime: nat): set<RouteKey> {
      set k | k in garbageRoutes && OutlivedGarbage(garbageRoutes[k], now, lifetime)
    }

    function RemoveExpiredGarbage(now: nat, lifetime: nat): Tables {
      var kept := map k | k in garbageRoutes && !OutlivedGarbage(garbageRoutes[k], now, lifetime) :: garbageRoutes[k];
      this.(garbageRoutes := kept)
    }

    function PoisonAll(): Tables {
      if okRoutes == map[] && garbageRoutes == map[] then this
      else Tables(
        map k | k in okRoutes :: Poisoned(okRoutes[k]),
        map k | k in garbageRoutes :: Poisoned(garbageRoutes[k]),
        true)
    }

    /** The keys, in each map, of the routes flagged as being in the kernel. */
    function InRoutingTable(): (set<RouteKey>, set<RouteKey>) {
      (set k | k in okRoutes && okRoutes[k].inRoutingTable,
       set k | k in garbageRoutes && garbageRoutes[k].inRoutingTable)
    }

    function MarkUnchanged(): Tables {
      if !anyRouteChanged then this
      else Tables(
        map k | k in okRoutes :: okRoutes[k].(changed := false),
        map k | k in garbageRoutes :: garbageRoutes[k].(changed := false),
        false)
    }
  }

  const EMPTY_TABLES := Tables(map[], map[], false)

  // ----- iteration in the unspecified order of a hash map

  /** An order in which an iterator may visit the given keys: each exactly once. */
  ghost predicate IsOrder(order: seq<RouteKey>, keys: set<RouteKey>) {
    && (forall k :: k in order <==> k in keys)
    && (forall i, j :: 0 <= i < j < |order| ==> order[i] != order[j])
  }

  function Values(order: seq<RouteKey>, m: map<RouteKey, RipDbEntry>): (rs: seq<RipDbEntry>)
    requires forall k :: k in order ==> k in m
    ensures |rs| == |order|
  {
    seq(|order|, i requires 0 <= i < |order| => m[order[i]])
  }

  lemma ValuesMembers(order: seq<RouteKey>, m: map<RouteKey, RipDbEntry>)
    requires forall k :: k in order ==> k in m
    ensures forall r :: r in Values(order, m) <==> exists k :: k in order && m[k] == r
  {
    forall k | k in order ensures m[k] in Values(order, m) {
      var i :| 0 <= i < |order| && order[i] == k;
      assert Values(order, m)[i] == m[k];
    }
  }

  // ----- split-horizon selection

  predicate Selected(r: RipDbEntry, targetIfIndex: u32, changedOnly: bool) {
    if changedOnly && !r.changed then false else r.ifIndex != targetIfIndex
  }

  /** An advertised entry carries no next hop. */
  function Advert(r: RipDbEntry): RipEntry {
    r.ripEntry.(nextHop := 0)
  }

  function SelectFrom(order: seq<RouteKey>, m: map<RouteKey, RipDbEntry>, target: u32, changedOnly: bool): seq<RipEntry>
    requires forall k :: k in order ==> k in m
  {
    if order == [] then []
    else
      var rest := SelectFrom(order[..|order| - 1], m, target, changedOnly);
      var r := m[order[|order| - 1]];
      if Selected(r, target, changedOnly) then rest + [Advert(r)] else rest
  }

  /** What one pass of `get_routes_for_advertisement` may yield: active routes, then garbage. */
  ghost predicate IsSelection(entries: seq<RipEntry>, db: Tables, target: u32, changedOnly: bool) {
    exists ok, garbage ::
      && IsOrder(ok, db.okRoutes.Keys)
      && IsOrder(garbage, db.garbageRoutes.Keys)
      && entries == SelectFrom(ok, db.okRoutes, target, changedOnly)
          + SelectFrom(garbage, db.garbageRoutes, target, changedOnly)
  }

  lemma {:induction false} SelectFromMembers(order: seq<RouteKey>, m: map<RouteKey, RipDbEntry>, target: u32,
      changedOnly: bool, e: RipEntry)
    requires forall k :: k in order ==> k in m
    ensures e in SelectFrom(order, m, target, changedOnly)
            <==> exists k :: k in order && Selected(m[k], target, changedOnly) && e == Advert(m[k])
  {
    if order == [] {
    } else {
      var init, last := order[..|order| - 1], order[|order| - 1];
      assert order == init + [last];
      SelectFromMembers(init, m, target, changedOnly, e);
    }
  }

  /** Split horizon, in either order of iteration: an entry is advertised on an interface exactly
      when some stored route of another interface carries it, and it changed if that is asked. */
  lemma SelectionMembers(entries: seq<RipEntry>, db: Tables, target: u32, changedOnly: bool, e: RipEntry)
    requires IsSelection(entries, db, target, changedOnly)
    ensures e in entries <==>
            || (exists k ::
                  k in db.okRoutes && Selected(db.okRoutes[k], target, changedOnly) && e == Advert(db.okRoutes[k]))
            || (exists k ::
                  && k in db.garbageRoutes && Selected(db.garbageRoutes[k], target, changedOnly)
                  && e == Advert(db.garbageRoutes[k]))
  {
    var ok, garbage :|
      && IsOrder(ok, db.okRoutes.Keys)
      && IsOrder(garbage, db.garbageRoutes.Keys)
      && entries == SelectFrom(ok, db.okRoutes, target, changedOnly)
          + SelectFrom(garbage, db.garbageRoutes, target, changedOnly);
    SelectFromMembers(ok, db.okRoutes, target, changedOnly, e);
    SelectFromMembers(garbage, db.garbageRoutes, target, changedOnly, e);
  }

  lemma {:induction false} OrderExists(keys: set<RouteKey>) returns (order: seq<RouteKey>)
    ensures IsOrder(order, keys)
  {
    if keys == {} {
      order := [];
    } else {
      var k :| k in keys;
      order := OrderExists(keys - {k});
      order := order + [k];
    }
  }

  lemma SelectionExists(db: Tables, target: u32, changedOnly: bool) returns (entries: seq<RipEntry>)
    ensures IsSelection(entries, db, target, changedOnly)
  {
    var ok := OrderExists(db.okRoutes.Keys);
    var garbage := OrderExists(db.garbageRoutes.Keys);
    entries := SelectFrom(ok, db.okRoutes, target, changedOnly)
        + SelectFrom(garbage, db.garbageRoutes, target, changedOnly);
  }

  /** The last entry for a key in a list, as a neighbour remembers it. */
  function LastFor(entries: seq<RipEntry>, k: RouteKey): Option<RipEntry> {
    if entries == [] then None
    else
      var last := entries[|entries| - 1];
      if KeyOf(last) == k then Some(last) else LastFor(entries[..|entries| - 1], k)
  }

  lemma {:induction false} LastForAppend(a: seq<RipEntry>, b: seq<RipEntry>, k: RouteKey)
    ensures LastFor(a + b, k) == if LastFor(b, k).Some? then LastFor(b, k) else LastFor(a, k)
  {
    if b == [] {
      assert a + b == a;
    } else {
      var n := |b| - 1;
      assert (a + b)[..|a| + n] == a + b[..n];
      LastForAppend(a, b[..n], k);
    }
  }

  lemma {:induction false} LastForSelectFrom(order: seq<RouteKey>, m: map<RouteKey, RipDbEntry>, target: u32,
      changedOnly: bool, k: RouteKey)
    requires forall j :: j in order ==> j in m && Key(m[j]) == j
    ensures LastFor(SelectFrom(order, m, target, changedOnly), k)
            == if k in order && Selected(m[k], target, changedOnly) then Some(Advert(m[k])) else None
  {
    if order == [] {
    } else {
      var init, last := order[..|order| - 1], order[|order| - 1];
      assert order == init + [last];
      LastForSelectFrom(init, m, target, changedOnly, k);
      if Selected(m[last], target, changedOnly) {
        LastForAppend(SelectFrom(init, m, target, changedOnly), [Advert(m[last])], k);
      }
    }
  }

  /** The entry for k that survives in a receiver of one advertisement. */
  function Announced(db: Tables, target: u32, changedOnly: bool, k: RouteKey): Option<RipEntry> {
    if k in db.garbageRoutes && Selected(db.garbageRoutes[k], target, changedOnly)
        then Some(Advert(db.garbageRoutes[k]))
    else if k in db.okRoutes && Selected(db.okRoutes[k], target, changedOnly) then Some(Advert(db.okRoutes[k]))
    else None
  }

  ghost predicate KeysMatch(db: Tables) {
    && (forall k :: k in db.okRoutes ==> Key(db.okRoutes[k]) == k)
    && (forall k :: k in db.garbageRoutes ==> Key(db.garbageRoutes[k]) == k)
  }

  lemma LastForSelection(entries: seq<RipEntry>, db: Tables, target: u32, changedOnly: bool, k: RouteKey)
    requires KeysMatch(db) && IsSelection(entries, db, target, changedOnly)
    ensures LastFor(entries, k) == Announced(db, target, changedOnly, k)
  {
    var ok, garbage :|
      && IsOrder(ok, db.okRoutes.Keys)
      && IsOrder(garbage, db.garbageRoutes.Keys)
      && entries == SelectFrom(ok, db.okRoutes, target, changedOnly)
          + SelectFrom(garbage, db.garbageRoutes, target, changedOnly);
    var a, b := SelectFrom(ok, db.okRoutes, target, changedOnly),
        SelectFrom(garbage, db.garbageRoutes, target, changedOnly);
    LastForAppend(a, b, k);
    LastForSelectFrom(ok, db.okRoutes, target, changedOnly, k);
    LastForSelectFrom(garbage, db.garbageRoutes, target, changedOnly, k);
  }
}
