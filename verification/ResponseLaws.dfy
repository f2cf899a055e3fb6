/** Laws of response processing: an entry acts on its own destination only; a response handled
    twice changes nothing the second time; the order of its entries does not matter. */
module ResponseLaws {
  import opened Wrappers
  import opened RipPacket
  import opened RouteTables
  import opened RoutingTables
  import opened Response

  /** What the two maps hold for one destination. */
  datatype Slot = Slot(ok: Option<RipDbEntry>, garbage: Option<RipDbEntry>)

  function Lookup(m: map<RouteKey, RipDbEntry>, k: RouteKey): Option<RipDbEntry> {
    if k in m then Some(m[k]) else None
  }

  function SlotAt(db: Tables, k: RouteKey): Slot {
    Slot(Lookup(db.okRoutes, k), Lookup(db.garbageRoutes, k))
  }

  /** The part of the tables that concerns one destination, as a clean database of its own. */
  function Isolated(db: Tables, k: RouteKey): Tables {
    Tables(
      if k in db.okRoutes then map[k := db.okRoutes[k]] else map[],
      if k in db.garbageRoutes then map[k := db.garbageRoutes[k]] else map[],
      false)
  }

  /** What an entry makes of its destination, seen in isolation. */
  function Effect(db: Tables, entry: RipEntry, source: u32, ifInfo: RipIfInfo, now: nat): Tables {
    HandleEntry(Core(Isolated(db, KeyOf(entry)), EMPTY_KERNEL), entry, source, ifInfo, now).db
  }

  lemma TablesBySlots(a: Tables, b: Tables)
    requires forall k :: SlotAt(a, k) == SlotAt(b, k)
    requires a.anyRouteChanged == b.anyRouteChanged
    ensures a == b
  {
    forall k ensures k in a.okRoutes <==> k in b.okRoutes {
      assert SlotAt(a, k) == SlotAt(b, k);
    }
    forall k ensures k in a.garbageRoutes <==> k in b.garbageRoutes {
      assert SlotAt(a, k) == SlotAt(b, k);
    }
    forall k | k in a.okRoutes ensures a.okRoutes[k] == b.okRoutes[k] {
      assert SlotAt(a, k) == SlotAt(b, k);
    }
    forall k | k in a.garbageRoutes ensures a.garbageRoutes[k] == b.garbageRoutes[k] {
      assert SlotAt(a, k) == SlotAt(b, k);
    }
    assert a.okRoutes == b.okRoutes && a.garbageRoutes == b.garbageRoutes;
  }

  lemma UpdateKeepsKeys(c: Core, e: RipEntry, ifInfo: RipIfInfo, now: nat)
    requires KeysMatch(c.db)
    ensures KeysMatch(UpdateRoute(c, e, ifInfo, now).db)
  {
    hide BuildRouteMessage, SameRoute;
  }

  lemma UpdateFrame(c: Core, e: RipEntry, ifInfo: RipIfInfo, now: nat, k: RouteKey)
    requires KeysMatch(c.db) && k != KeyOf(e)
    ensures SlotAt(UpdateRoute(c, e, ifInfo, now).db, k) == SlotAt(c.db, k)
  {
    hide BuildRouteMessage, SameRoute, Expired, ReplaceRoute, LearnRoute, RetireRoute;
    var own := KeyOf(e);
    if own in c.db.okRoutes {
      var oldRoute, refreshed := c.db.okRoutes[own], c.(db := c.db.Refresh(own));
      RetireFrame(c, own, now, k);
      ReplaceFrame(c, oldRoute, e, ifInfo, k);
      ReplaceFrame(refreshed, oldRoute, e, ifInfo, k);
    } else {
      LearnFrame(c.(db := c.db.RemoveGarbage(own)), e, ifInfo, k);
    }
  }

  lemma RetireFrame(c: Core, own: RouteKey, now: nat, k: RouteKey)
    requires own in c.db.okRoutes && k != own
    ensures SlotAt(RetireRoute(c, own, now).db, k) == SlotAt(c.db, k)
  {
  }

  lemma ReplaceFrame(c: Core, oldRoute: RipDbEntry, e: RipEntry, ifInfo: RipIfInfo, k: RouteKey)
    requires Key(oldRoute) == KeyOf(e) && k != KeyOf(e)
    ensures SlotAt(ReplaceRoute(c, oldRoute, e, ifInfo).db, k) == SlotAt(c.db, k)
  {
  }

  lemma LearnFrame(c: Core, e: RipEntry, ifInfo: RipIfInfo, k: RouteKey)
    requires k != KeyOf(e)
    ensures SlotAt(LearnRoute(c, e, ifInfo).db, k) == SlotAt(c.db, k)
  {
  }

  lemma UpdateOwn(c: Core, d: Core, e: RipEntry, ifInfo: RipIfInfo, now: nat)
    requires KeysMatch(c.db) && d.db == Isolated(c.db, KeyOf(e))
    ensures SlotAt(UpdateRoute(c, e, ifInfo, now).db, KeyOf(e)) == SlotAt(UpdateRoute(d, e, ifInfo, now).db, KeyOf(e))
    ensures UpdateRoute(c, e, ifInfo, now).db.anyRouteChanged
            == (c.db.anyRouteChanged || UpdateRoute(d, e, ifInfo, now).db.anyRouteChanged)
  {
    hide BuildRouteMessage;
    var k := KeyOf(e);
    assert k in c.db.okRoutes ==> d.db.okRoutes[k] == c.db.okRoutes[k];
    if e.metric >= RIP_INFINITY_METRIC {
    } else if k !in c.db.okRoutes {
    } else if RouteIsFromCurrentNextHop(c.db.okRoutes[k], e) {
    }
  }

  /** The frame of one entry. Its effect on its own destination, and whether it raises the dirty
      flag, depend on nothing but what is stored for that destination. */
  lemma EntryIsLocal(c: Core, entry: RipEntry, source: u32, ifInfo: RipIfInfo, now: nat)
    requires KeysMatch(c.db)
    ensures var after := HandleEntry(c, entry, source, ifInfo, now).db;
            && SlotAt(after, KeyOf(entry)) == SlotAt(Effect(c.db, entry, source, ifInfo, now), KeyOf(entry))
            && after.anyRouteChanged
               == (c.db.anyRouteChanged || Effect(c.db, entry, source, ifInfo, now).anyRouteChanged)
            && KeysMatch(after)
    ensures forall k :: k != KeyOf(entry) ==>
              SlotAt(HandleEntry(c, entry, source, ifInfo, now).db, k) == SlotAt(c.db, k)
  {
    hide IsEntryValid, UpdateMetric, UpdateRoute, KeysMatch;
    var d := Core(Isolated(c.db, KeyOf(entry)), EMPTY_KERNEL);
    match ResponseEntryToRoute(entry, source)
    case None =>
    case Some(e) =>
      UpdateKeepsKeys(c, e, ifInfo, now);
      forall k | k != KeyOf(e) ensures SlotAt(UpdateRoute(c, e, ifInfo, now).db, k) == SlotAt(c.db, k) {
        UpdateFrame(c, e, ifInfo, now, k);
      }
      UpdateOwn(c, d, e, ifInfo, now);
  }

  ghost predicate DistinctDestinations(entries: seq<RipEntry>) {
    forall i, j :: 0 <= i < j < |entries| ==> KeyOf(entries[i]) != KeyOf(entries[j])
  }

  /** A response with pairwise distinct destinations acts on each of them as if it were alone. */
  lemma {:induction false} PacketIsPointwise(c: Core, entries: seq<RipEntry>, source: u32, ifInfo: RipIfInfo, now: nat)
    requires KeysMatch(c.db) && DistinctDestinations(entries)
    ensures KeysMatch(HandleEntries(c, entries, source, ifInfo, now).db)
    ensures forall e :: e in entries ==>
              SlotAt(HandleEntries(c, entries, source, ifInfo, now).db, KeyOf(e))
                  == SlotAt(Effect(c.db, e, source, ifInfo, now), KeyOf(e))
    ensures forall k :: (forall e :: e in entries ==> KeyOf(e) != k) ==>
              SlotAt(HandleEntries(c, entries, source, ifInfo, now).db, k) == SlotAt(c.db, k)
    ensures HandleEntries(c, entries, source, ifInfo, now).db.anyRouteChanged
            <==> || c.db.anyRouteChanged
                 || exists e :: e in entries && Effect(c.db, e, source, ifInfo, now).anyRouteChanged
  {
    hide HandleEntry, SlotAt, KeysMatch, Effect;
    if entries == [] {
    } else {
      var n := |entries| - 1;
      var init, last := entries[..n], entries[n];
      var before := HandleEntries(c, init, source, ifInfo, now);
      PacketIsPointwise(c, init, source, ifInfo, now);
      EntryIsLocal(before, last, source, ifInfo, now);
      EffectDependsOnSlot(c.db, before.db, last, source, ifInfo, now);
      assert entries == init + [last];
    }
  }

  lemma EffectDependsOnSlot(a: Tables, b: Tables, entry: RipEntry, source: u32, ifInfo: RipIfInfo, now: nat)
    ensures SlotAt(a, KeyOf(entry)) == SlotAt(b, KeyOf(entry)) ==>
              Effect(a, entry, source, ifInfo, now) == Effect(b, entry, source, ifInfo, now)
  {
    hide HandleEntry;
    if SlotAt(a, KeyOf(entry)) == SlotAt(b, KeyOf(entry)) {
      assert Isolated(a, KeyOf(entry)) == Isolated(b, KeyOf(entry));
    }
  }

  /** Order does not matter: any permutation of the entries leads to the same database and, when
      the kernel agreed with the database before, to the same kernel table. */
  lemma PacketOrderIrrelevant(c: Core, p: seq<RipEntry>, q: seq<RipEntry>, source: u32, ifInfo: RipIfInfo, now: nat)
    requires KeysMatch(c.db) && DistinctDestinations(p) && DistinctDestinations(q) && multiset(p) == multiset(q)
    ensures HandleEntries(c, p, source, ifInfo, now).db == HandleEntries(c, q, source, ifInfo, now).db
    ensures Consistent(c) && source != 0 ==>
              HandleEntries(c, p, source, ifInfo, now).kernel.table
                  == HandleEntries(c, q, source, ifInfo, now).kernel.table
  {
    hide HandleEntry, SlotAt, Effect, TwoMaps, Owned;
    var cp, cq := HandleEntries(c, p, source, ifInfo, now), HandleEntries(c, q, source, ifInfo, now);
    assert forall e :: e in p <==> e in q by {
      forall e ensures e in p <==> e in q {
        assert e in p <==> e in multiset(p);
        assert e in q <==> e in multiset(q);
      }
    }
    PacketIsPointwise(c, p, source, ifInfo, now);
    PacketIsPointwise(c, q, source, ifInfo, now);
    forall k ensures SlotAt(cp.db, k) == SlotAt(cq.db, k) {
      if e :| e in p && KeyOf(e) == k {
        assert e in q;
      }
    }
    TablesBySlots(cp.db, cq.db);
    if Consistent(c) && source != 0 {
      HandleEntriesPreserves(c, p, source, ifInfo, now);
      HandleEntriesPreserves(c, q, source, ifInfo, now);
      assert forall m :: m in cp.kernel.table <==> m in cq.kernel.table;
    }
  }

  // ----- idempotence

  /** The stored route already reflects the entry. */
  predicate Settled(s: Slot, entry: RipEntry, source: u32, ifInfo: RipIfInfo) {
    match ResponseEntryToRoute(entry, source)
    case None => true
    case Some(e) =>
      if e.metric >= RIP_INFINITY_METRIC then s.ok.None? || s.ok.value.ripEntry.nextHop != source
      else
        && s.ok.Some?
        && if s.ok.value.ripEntry.nextHop == source then SameRoute(s.ok.value, e, ifInfo) && s.ok.value.timeoutCnt == 0
           else s.ok.value.ripEntry.metric <= e.metric
  }

  /** A settled entry is a no-op: not even a kernel call is made. */
  lemma SettledEntryIsIgnored(c: Core, entry: RipEntry, source: u32, ifInfo: RipIfInfo, now: nat)
    requires Settled(SlotAt(c.db, KeyOf(entry)), entry, source, ifInfo)
    ensures HandleEntry(c, entry, source, ifInfo, now) == c
  {
    hide IsEntryValid, UpdateMetric, BuildRouteMessage;
    var k := KeyOf(entry);
    if IsEntryValid(entry) && k in c.db.okRoutes && c.db.okRoutes[k].timeoutCnt == 0 {
      assert c.db.okRoutes[k].(timeoutCnt := 0) == c.db.okRoutes[k];
      assert c.db.okRoutes[k := c.db.okRoutes[k]] == c.db.okRoutes;
      assert c.db.Refresh(k) == c.db;
    }
  }

  lemma HandledEntryIsSettled(c: Core, entry: RipEntry, source: u32, ifInfo: RipIfInfo, now: nat)
    requires KeysMatch(c.db)
    ensures Settled(SlotAt(HandleEntry(c, entry, source, ifInfo, now).db, KeyOf(entry)), entry, source, ifInfo)
  {
    hide BuildRouteMessage, IsEntryValid, Expired;
  }

  lemma {:induction false} HandledPacketIsSettled(c: Core, entries: seq<RipEntry>, source: u32, ifInfo: RipIfInfo,
      now: nat)
    requires KeysMatch(c.db) && DistinctDestinations(entries)
    ensures forall e :: e in entries ==>
              Settled(SlotAt(HandleEntries(c, entries, source, ifInfo, now).db, KeyOf(e)), e, source, ifInfo)
  {
    hide HandleEntry, SlotAt, Settled, KeysMatch;
    if entries == [] {
    } else {
      var n := |entries| - 1;
      var init, last := entries[..n], entries[n];
      var before := HandleEntries(c, init, source, ifInfo, now);
      HandledPacketIsSettled(c, init, source, ifInfo, now);
      PacketIsPointwise(c, init, source, ifInfo, now);
      HandledEntryIsSettled(before, last, source, ifInfo, now);
      EntryIsLocal(before, last, source, ifInfo, now);
      assert entries == init + [last];
    }
  }

  lemma TwoMapsKeysMatch(db: Tables)
    requires TwoMaps(db)
    ensures KeysMatch(db)
  {
  }

  lemma {:induction false} SettledPacketIsIgnored(c: Core, entries: seq<RipEntry>, source: u32, ifInfo: RipIfInfo,
      now: nat)
    requires forall e :: e in entries ==> Settled(SlotAt(c.db, KeyOf(e)), e, source, ifInfo)
    ensures HandleEntries(c, entries, source, ifInfo, now) == c
  {
    hide HandleEntry, SlotAt, Settled;
    if entries == [] {
    } else {
      var n := |entries| - 1;
      SettledPacketIsIgnored(c, entries[..n], source, ifInfo, now);
      SettledEntryIsIgnored(c, entries[n], source, ifInfo, now);
    }
  }

  /** Handling a response again, at whatever time, changes neither database nor kernel and makes
      no kernel call. */
  lemma PacketIsIdempotent(c: Core, entries: seq<RipEntry>, source: u32, ifInfo: RipIfInfo, now: nat, later: nat)
    requires KeysMatch(c.db) && DistinctDestinations(entries)
    ensures var once := HandleEntries(c, entries, source, ifInfo, now);
            HandleEntries(once, entries, source, ifInfo, later) == once
  {
    HandledPacketIsSettled(c, entries, source, ifInfo, now);
    SettledPacketIsIgnored(HandleEntries(c, entries, source, ifInfo, now), entries, source, ifInfo, later);
  }
}
