/** What one entry of a response does, field by field: which entries are valid, and what becomes of
    the routes of their destination. */
module EntryLaws {
  import opened Wrappers
  import opened RipPacket
  import opened Address
  import opened RouteTables
  import opened RoutingTables
  import opened Response
  import opened ResponseLaws

  /** A valid entry: a unicast address, the mask of a prefix from 1 to 31, a metric from 1 to 16. */
  ghost predicate IsValid(e: RipEntry) {
    && (0x0100_0000 <= e.ipAddress < 0x7F00_0000 || 0x8000_0000 <= e.ipAddress < 0xE000_0000)
    && (exists n: nat :: HasLength(e.subnetMask, n))
    && 1 <= e.metric <= 16
  }

  /** The mask of a prefix from 1 to 31. */
  predicate HasLength(mask: u32, prefixLen: nat) {
    1 <= prefixLen <= 31 && mask == 0x1_0000_0000 - Pow2(32 - prefixLen)
  }

  lemma ValidityByFields(e: RipEntry)
    ensures IsEntryValid(e) <==> IsValid(e)
  {
    hide PrefixToMask, Pow2, LeadingOnes;
    NetMaskValidIffPrefixMask(e.subnetMask);
    if p: u32 :| 1 <= p <= 31 && PrefixToMask(p) == Success(e.subnetMask) {
      MaskValue(p);
      assert HasLength(e.subnetMask, p);
    }
    if n: nat :| HasLength(e.subnetMask, n) {
      MaskValue(n);
    }
  }

  /** A record on its way to garbage. */
  predicate IsBuried(r: RipDbEntry, now: nat, g: RipDbEntry) {
    && g.ripEntry == r.ripEntry.(metric := 16) && g.ifIndex == r.ifIndex && g.ifName == r.ifName
    && g.changed && g.isLocal == r.isLocal && !g.inRoutingTable && g.garbageStartedAt == Some(now)
  }

  /** The route that a valid entry stands for, once the hop to its sender is added. */
  function Learned(e: RipEntry, source: u32, ifInfo: RipIfInfo): RipDbEntry
    requires e.metric <= 16
  {
    var entry := RipEntry(e.routingFamilyId, e.routeTag, e.ipAddress, e.subnetMask, source, e.metric + 1);
    RipDbEntry(entry, ifInfo.ifIndex, ifInfo.ifName, true, false, true, 0, None)
  }

  predicate ComesFrom(r: Option<RipDbEntry>, source: u32) {
    r.Some? && r.value.ripEntry.nextHop == source
  }

  /** What a valid entry makes of its destination. From 15 on its metric is infinite after the hop:
      it buries the route of its sender. Otherwise it is learned where nothing is active, it
      refreshes or replaces the route of its sender, and it replaces a worse route. */
  ghost predicate Updates(a: Slot, e: RipEntry, source: u32, ifInfo: RipIfInfo, now: nat, b: Slot)
    requires e.metric <= 16
  {
    var learned := Learned(e, source, ifInfo);
    if e.metric >= 15 then
      if ComesFrom(a.ok, source) then b.ok.None? && b.garbage.Some? && IsBuried(a.ok.value, now, b.garbage.value)
      else b == a
    else if a.ok.None? then b == Slot(Some(learned), None)
    else if ComesFrom(a.ok, source) then
      && b.garbage == a.garbage
      && b.ok == Some(if IsSame(a.ok.value, learned) then a.ok.value.(timeoutCnt := 0) else learned)
    else if a.ok.value.ripEntry.metric > e.metric + 1 then b == Slot(Some(learned), a.garbage)
    else b == a
  }

  predicate IsSame(r: RipDbEntry, learned: RipDbEntry) {
    r.ripEntry == learned.ripEntry && r.ifIndex == learned.ifIndex && r.ifName == learned.ifName
  }

  /** The active route came, went, or was replaced; a refresh is no news. */
  predicate HasNews(a: Slot, b: Slot) {
    if a.ok.None? || b.ok.None? then a.ok != b.ok
    else b.ok != a.ok && b.ok.value != a.ok.value.(timeoutCnt := 0)
  }

  function DestinationOf(e: RipEntry): RouteKey {
    RouteKey(e.ipAddress, e.subnetMask)
  }

  /** What an entry does to the tables: nothing, if it is not valid; else it updates its own
      destination and no other, and news raise the dirty flag. */
  ghost predicate EntryActs(a: Tables, e: RipEntry, source: u32, ifInfo: RipIfInfo, now: nat, b: Tables) {
    if !IsValid(e) then b == a
    else
      var k := DestinationOf(e);
      && Updates(SlotAt(a, k), e, source, ifInfo, now, SlotAt(b, k))
      && (forall j :: j != k ==> SlotAt(b, j) == SlotAt(a, j))
      && (b.anyRouteChanged <==> a.anyRouteChanged || HasNews(SlotAt(a, k), SlotAt(b, k)))
  }

  lemma ValidEntryHops(e: RipEntry, source: u32)
    requires IsValid(e)
    ensures 1 <= e.metric <= 16
    ensures ResponseEntryToRoute(e, source)
            == Some(e.(nextHop := source, metric := if e.metric < 15 then e.metric + 1 else 16))
  {
    ValidityByFields(e);
  }

  lemma PoisonBuries(c: Core, e: RipEntry, source: u32, ifInfo: RipIfInfo, now: nat)
    requires KeysMatch(c.db) && 15 <= e.metric <= 16
    ensures var a := SlotAt(c.db, DestinationOf(e));
            var db := UpdateRoute(c, e.(nextHop := source, metric := 16), ifInfo, now).db;
            var b := SlotAt(db, DestinationOf(e));
            && Updates(a, e, source, ifInfo, now, b)
            && (db.anyRouteChanged <==> c.db.anyRouteChanged || HasNews(a, b))
  {
    hide BuildRouteMessage;
  }

  lemma OfferIsWeighed(c: Core, e: RipEntry, source: u32, ifInfo: RipIfInfo, now: nat)
    requires KeysMatch(c.db) && e.metric < 15
    ensures var a := SlotAt(c.db, DestinationOf(e));
            var db := UpdateRoute(c, e.(nextHop := source, metric := e.metric + 1), ifInfo, now).db;
            var b := SlotAt(db, DestinationOf(e));
            && Updates(a, e, source, ifInfo, now, b)
            && (db.anyRouteChanged <==> c.db.anyRouteChanged || HasNews(a, b))
  {
    hide BuildRouteMessage;
  }

  lemma ValidEntryUpdates(c: Core, e: RipEntry, source: u32, ifInfo: RipIfInfo, now: nat)
    requires KeysMatch(c.db) && IsValid(e)
    ensures e.metric <= 16
    ensures var a := SlotAt(c.db, DestinationOf(e));
            var db := HandleEntry(c, e, source, ifInfo, now).db;
            var b := SlotAt(db, DestinationOf(e));
            && Updates(a, e, source, ifInfo, now, b)
            && (db.anyRouteChanged <==> c.db.anyRouteChanged || HasNews(a, b))
  {
    hide UpdateRoute, KeysMatch, Updates, HasNews, SlotAt;
    ValidEntryHops(e, source);
    if e.metric < 15 {
      OfferIsWeighed(c, e, source, ifInfo, now);
    } else {
      PoisonBuries(c, e, source, ifInfo, now);
    }
  }

  lemma EntryEffect(c: Core, e: RipEntry, source: u32, ifInfo: RipIfInfo, now: nat)
    requires KeysMatch(c.db)
    ensures EntryActs(c.db, e, source, ifInfo, now, HandleEntry(c, e, source, ifInfo, now).db)
  {
    hide UpdateRoute, IsEntryValid, KeysMatch, Updates, IsValid, HasNews, SlotAt;
    ValidityByFields(e);
    if IsValid(e) {
      EntryIsLocal(c, e, source, ifInfo, now);
      ValidEntryUpdates(c, e, source, ifInfo, now);
    }
  }
}
