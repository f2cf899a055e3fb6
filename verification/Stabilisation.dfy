/** Route selection as a distance-vector rule, and its convergence against fixed neighbours. */
module Stabilisation {
  import opened Wrappers
  import opened RipPacket
  import opened RouteTables
  import opened RoutingTables
  import opened Response
  import opened ResponseLaws

  /** One received entry, with its sender, interface and time of arrival. */
  datatype Delivery = Delivery(entry: RipEntry, source: u32, ifInfo: RipIfInfo, now: nat)

  function Deliver(c: Core, d: Delivery): Core {
    HandleEntry(c, d.entry, d.source, d.ifInfo, d.now)
  }

  function DeliverAll(c: Core, ds: seq<Delivery>): Core {
    if ds == [] then c else Deliver(DeliverAll(c, ds[..|ds| - 1]), ds[|ds| - 1])
  }

  /** The active route for a destination. */
  function Active(c: Core, k: RouteKey): Option<RipDbEntry> {
    SlotAt(c.db, k).ok
  }

  /** The rule of section 3.9.2 of RFC 2453 on one destination: trust the current next hop, from
      anyone else take only what is strictly better, and never take infinity. */
  function Choose(current: Option<RipDbEntry>, e: RipEntry, ifInfo: RipIfInfo): Option<RipDbEntry> {
    var offered := if e.metric < RIP_INFINITY_METRIC then Some(NewRemote(e, ifInfo.ifIndex, ifInfo.ifName)) else None;
    if current.None? then offered
    else if current.value.ripEntry.nextHop == e.nextHop then
      if SameRoute(current.value, e, ifInfo) && offered.Some? then Some(current.value.(timeoutCnt := 0)) else offered
    else if offered.Some? && current.value.ripEntry.metric > e.metric then offered
    else current
  }

  /** The four-case handler with its map, kernel and timer traffic refines that rule, and an
      entry for one destination leaves every other active route alone. */
  lemma HandlerRefinesChoose(c: Core, d: Delivery, k: RouteKey)
    requires KeysMatch(c.db)
    ensures Active(Deliver(c, d), k)
            == if IsEntryValid(d.entry) && KeyOf(d.entry) == k
               then Choose(Active(c, k), ResponseEntryToRoute(d.entry, d.source).value, d.ifInfo)
               else Active(c, k)
  {
    hide BuildRouteMessage, IsEntryValid, UpdateMetric, UpdateRoute, Choose;
    EntryIsLocal(c, d.entry, d.source, d.ifInfo, d.now);
    if IsEntryValid(d.entry) && KeyOf(d.entry) == k {
      UpdateRefinesChoose(c, ResponseEntryToRoute(d.entry, d.source).value, d.ifInfo, d.now);
    }
  }

  lemma UpdateRefinesChoose(c: Core, e: RipEntry, ifInfo: RipIfInfo, now: nat)
    requires KeysMatch(c.db)
    ensures Active(UpdateRoute(c, e, ifInfo, now), KeyOf(e)) == Choose(Active(c, KeyOf(e)), e, ifInfo)
  {
    hide BuildRouteMessage, Expired;
  }

  // ----- a router among fixed neighbours

  /** What a neighbour keeps advertising for the destination, and where it is heard. */
  datatype Ad = Ad(entry: RipEntry, ifInfo: RipIfInfo)

  ghost predicate ValidAds(ads: map<u32, Ad>, k: RouteKey) {
    0 !in ads && forall n :: n in ads ==> IsEntryValid(ads[n].entry) && KeyOf(ads[n].entry) == k
  }

  /** The route that the neighbour offers, and its cost. */
  function Offer(ads: map<u32, Ad>, n: u32): RipEntry
    requires n in ads && IsEntryValid(ads[n].entry)
  {
    ResponseEntryToRoute(ads[n].entry, n).value
  }

  /** Whatever arrives for the destination is the advertisement of one of the neighbours. */
  ghost predicate FromAds(ads: map<u32, Ad>, k: RouteKey, ds: seq<Delivery>) {
    forall i :: 0 <= i < |ds| && IsEntryValid(ds[i].entry) && KeyOf(ds[i].entry) == k ==>
      ds[i].source in ads && ads[ds[i].source] == Ad(ds[i].entry, ds[i].ifInfo)
  }

  ghost predicate Hears(ads: map<u32, Ad>, ds: seq<Delivery>, n: u32)
    requires n in ads
  {
    exists i :: 0 <= i < |ds| && ds[i].source == n && ds[i].entry == ads[n].entry && ds[i].ifInfo == ads[n].ifInfo
  }

  /** A round: every neighbour is heard at least once, in any order, among entries for any other
      destinations. */
  ghost predicate IsRoundOfAds(ads: map<u32, Ad>, k: RouteKey, ds: seq<Delivery>) {
    FromAds(ads, k, ds) && forall n :: n in ads ==> Hears(ads, ds, n)
  }

  /** The active route says what its next hop now says. */
  ghost predicate Truthful(ads: map<u32, Ad>, k: RouteKey, current: Option<RipDbEntry>)
    requires ValidAds(ads, k)
  {
    current.Some? ==>
      var r := current.value;
      && r.ripEntry.nextHop in ads
      && r.ripEntry.metric < RIP_INFINITY_METRIC
      && SameRoute(r, Offer(ads, r.ripEntry.nextHop), ads[r.ripEntry.nextHop].ifInfo)
  }

  /** A best route among the offers, or none if all are at infinity. */
  ghost predicate Best(ads: map<u32, Ad>, k: RouteKey, current: Option<RipDbEntry>)
    requires ValidAds(ads, k)
  {
    && Truthful(ads, k, current)
    && forall n :: n in ads ==>
         if current.Some? then current.value.ripEntry.metric <= Offer(ads, n).metric
         else Offer(ads, n).metric == RIP_INFINITY_METRIC
  }

  /** The route may be stale, but then its next hop is a neighbour that was not heard yet. */
  ghost predicate StaleUntilHeard(ads: map<u32, Ad>, k: RouteKey, current: Option<RipDbEntry>, heard: seq<Delivery>)
    requires ValidAds(ads, k)
  {
    Truthful(ads, k, current) || (
      && current.value.ripEntry.nextHop in ads
      && !Hears(ads, heard, current.value.ripEntry.nextHop))
  }

  lemma {:induction false} DeliverAllKeepsKeys(c: Core, ds: seq<Delivery>)
    requires KeysMatch(c.db)
    ensures KeysMatch(DeliverAll(c, ds).db)
  {
    hide KeysMatch, HandleEntry;
    if ds == [] {
    } else {
      var n := |ds| - 1;
      DeliverAllKeepsKeys(c, ds[..n]);
      EntryIsLocal(DeliverAll(c, ds[..n]), ds[n].entry, ds[n].source, ds[n].ifInfo, ds[n].now);
    }
  }

  lemma ChooseRestoresTruth(ads: map<u32, Ad>, k: RouteKey, current: Option<RipDbEntry>, n: u32)
    requires ValidAds(ads, k) && n in ads
    requires current.Some? ==> current.value.ripEntry.nextHop in ads
    ensures var after := Choose(current, Offer(ads, n), ads[n].ifInfo);
            || Truthful(ads, k, after)
            || (after == current && current.value.ripEntry.nextHop != n)
  {
    hide IsEntryValid;
  }

  lemma ChooseKeepsTruth(ads: map<u32, Ad>, k: RouteKey, current: Option<RipDbEntry>, n: u32)
    requires ValidAds(ads, k) && n in ads && Truthful(ads, k, current)
    ensures var after := Choose(current, Offer(ads, n), ads[n].ifInfo);
            && Truthful(ads, k, after)
            && (current.Some? ==> after.Some? && after.value.ripEntry.metric <= current.value.ripEntry.metric)
            && (if after.Some? then after.value.ripEntry.metric <= Offer(ads, n).metric
                else Offer(ads, n).metric == RIP_INFINITY_METRIC)
  {
    hide IsEntryValid;
  }

  lemma HearsStep(ads: map<u32, Ad>, ds: seq<Delivery>, n: u32)
    requires n in ads && ds != []
    ensures var last := ds[|ds| - 1];
            Hears(ads, ds, n) <==>
            || Hears(ads, ds[..|ds| - 1], n)
            || (last.source == n && last.entry == ads[n].entry && last.ifInfo == ads[n].ifInfo)
  {
    var init := ds[..|ds| - 1];
    if Hears(ads, init, n) {
      var i :| 0 <= i < |init| && init[i].source == n && init[i].entry == ads[n].entry
          && init[i].ifInfo == ads[n].ifInfo;
      assert ds[i] == init[i];
    }
  }

  lemma {:induction false} FirstRound(ads: map<u32, Ad>, k: RouteKey, c: Core, ds: seq<Delivery>)
    requires ValidAds(ads, k) && KeysMatch(c.db) && FromAds(ads, k, ds)
    requires Active(c, k).Some? ==> Active(c, k).value.ripEntry.nextHop in ads
    ensures StaleUntilHeard(ads, k, Active(DeliverAll(c, ds), k), ds)
  {
    hide KeysMatch, HandleEntry, IsEntryValid, Choose, SameRoute, ResponseEntryToRoute;
    if ds == [] {
    } else {
      var m := |ds| - 1;
      var d, before := ds[m], DeliverAll(c, ds[..m]);
      FirstRound(ads, k, c, ds[..m]);
      DeliverAllKeepsKeys(c, ds[..m]);
      HandlerRefinesChoose(before, d, k);
      if Active(before, k).Some? {
        HearsStep(ads, ds, Active(before, k).value.ripEntry.nextHop);
      }
      if IsEntryValid(d.entry) && KeyOf(d.entry) == k {
        ChooseRestoresTruth(ads, k, Active(before, k), d.source);
      }
    }
  }

  /** From a truthful state, every neighbour heard so far is no better than the active route. */
  lemma {:induction false} SecondRound(ads: map<u32, Ad>, k: RouteKey, c: Core, ds: seq<Delivery>)
    requires ValidAds(ads, k) && KeysMatch(c.db) && FromAds(ads, k, ds) && Truthful(ads, k, Active(c, k))
    ensures var after := Active(DeliverAll(c, ds), k);
            && Truthful(ads, k, after)
            && (Active(c, k).Some? ==> after.Some? && after.value.ripEntry.metric <= Active(c, k).value.ripEntry.metric)
            && forall n :: n in ads && Hears(ads, ds, n) ==>
                 if after.Some? then after.value.ripEntry.metric <= Offer(ads, n).metric
                 else Offer(ads, n).metric == RIP_INFINITY_METRIC
  {
    hide KeysMatch, HandleEntry, IsEntryValid, Choose, ResponseEntryToRoute, Hears;
    if ds == [] {
      forall n | n in ads ensures !Hears(ads, ds, n) {
        NothingHeard(ads, n);
      }
    } else {
      var m := |ds| - 1;
      var d, before := ds[m], DeliverAll(c, ds[..m]);
      SecondRound(ads, k, c, ds[..m]);
      DeliverAllKeepsKeys(c, ds[..m]);
      HandlerRefinesChoose(before, d, k);
      if IsEntryValid(d.entry) && KeyOf(d.entry) == k {
        ChooseKeepsTruth(ads, k, Active(before, k), d.source);
      }
      forall n | n in ads ensures Hears(ads, ds, n) ==> Hears(ads, ds[..m], n) || d.source == n {
        HearsStep(ads, ds, n);
      }
      forall n | n in ads && Hears(ads, ds, n) && !Hears(ads, ds[..m], n)
        ensures IsEntryValid(d.entry) && KeyOf(d.entry) == k
      {
        HearsStep(ads, ds, n);
      }
    }
  }

  lemma NothingHeard(ads: map<u32, Ad>, n: u32)
    requires n in ads
    ensures !Hears(ads, [], n)
  {
  }

  /** Two rounds suffice: from any state whose active next hop for a non-local destination, if
      any, is a neighbour, two rounds of fixed advertisements in any order leave a best route,
      or none if every neighbour is at infinity. */
  lemma TwoRoundsStabilise(ads: map<u32, Ad>, k: RouteKey, c: Core, first: seq<Delivery>, second: seq<Delivery>)
    requires ValidAds(ads, k) && KeysMatch(c.db) && IsRoundOfAds(ads, k, first) && IsRoundOfAds(ads, k, second)
    requires Active(c, k).Some? ==> Active(c, k).value.ripEntry.nextHop in ads
    ensures Best(ads, k, Active(DeliverAll(DeliverAll(c, first), second), k))
  {
    hide KeysMatch, HandleEntry, IsEntryValid, SameRoute, ResponseEntryToRoute;
    FirstRound(ads, k, c, first);
    DeliverAllKeepsKeys(c, first);
    SecondRound(ads, k, DeliverAll(c, first), second);
  }

  /** Best in numbers: one more than the least advertised metric, or no route at 16. */
  lemma BestIsOnePlusMinimum(ads: map<u32, Ad>, k: RouteKey, current: Option<RipDbEntry>, n: u32)
    requires ValidAds(ads, k) && Best(ads, k, current) && n in ads
    ensures if current.None? then ads[n].entry.metric >= 15
            else
              && current.value.ripEntry.nextHop in ads
              && current.value.ripEntry.metric == ads[current.value.ripEntry.nextHop].entry.metric + 1 <= 15
              && current.value.ripEntry.metric <= ads[n].entry.metric + 1
  {
  }

  /** Then nothing moves any more: further advertisements change no route, its counter aside. */
  lemma {:induction false} BestIsStable(ads: map<u32, Ad>, k: RouteKey, c: Core, ds: seq<Delivery>)
    requires ValidAds(ads, k) && KeysMatch(c.db) && FromAds(ads, k, ds) && Best(ads, k, Active(c, k))
    ensures var before, after := Active(c, k), Active(DeliverAll(c, ds), k);
            if before.None? then after.None?
            else after.Some? && after.value == before.value.(timeoutCnt := after.value.timeoutCnt)
  {
    hide KeysMatch, HandleEntry, IsEntryValid;
    if ds == [] {
    } else {
      var m := |ds| - 1;
      BestIsStable(ads, k, c, ds[..m]);
      DeliverAllKeepsKeys(c, ds[..m]);
      HandlerRefinesChoose(DeliverAll(c, ds[..m]), ds[m], k);
    }
  }

  // ----- when one round is enough

  /** Without an active route to begin with, one round always is. */
  lemma OneRoundFromNothing(ads: map<u32, Ad>, k: RouteKey, c: Core, ds: seq<Delivery>)
    requires ValidAds(ads, k) && KeysMatch(c.db) && IsRoundOfAds(ads, k, ds) && Active(c, k).None?
    ensures Best(ads, k, Active(DeliverAll(c, ds), k))
  {
    hide KeysMatch, HandleEntry, IsEntryValid, SameRoute, ResponseEntryToRoute;
    SecondRound(ads, k, c, ds);
  }

  predicate IsFrom(d: Delivery, k: RouteKey, n: u32) {
    d.source == n && IsEntryValid(d.entry) && KeyOf(d.entry) == k
  }

  /** Where a neighbour is heard of the destination first. */
  function FirstFrom(ds: seq<Delivery>, k: RouteKey, n: u32): (f: nat)
    ensures f <= |ds| && (f < |ds| ==> IsFrom(ds[f], k, n)) && forall i :: 0 <= i < f ==> !IsFrom(ds[i], k, n)
  {
    if ds == [] || IsFrom(ds[0], k, n) then 0 else 1 + FirstFrom(ds[1..], k, n)
  }

  /** Some neighbour that was heard offers a finite metric below the bound. */
  ghost predicate Undercut(ads: map<u32, Ad>, k: RouteKey, heard: seq<Delivery>, bound: int)
    requires ValidAds(ads, k)
  {
    exists n :: n in ads && Hears(ads, heard, n) && Offer(ads, n).metric < RIP_INFINITY_METRIC
        && Offer(ads, n).metric < bound
  }

  /** Some offer heard early is below every offer heard late. */
  ghost predicate Overlooked(ads: map<u32, Ad>, k: RouteKey, early: seq<Delivery>, late: seq<Delivery>)
    requires ValidAds(ads, k)
  {
    exists n :: n in ads && Hears(ads, early, n) && BelowAll(ads, k, late, n)
  }

  ghost predicate BelowAll(ads: map<u32, Ad>, k: RouteKey, late: seq<Delivery>, n: u32)
    requires ValidAds(ads, k) && n in ads
  {
    forall o :: o in ads && Hears(ads, late, o) ==> Offer(ads, n).metric < Offer(ads, o).metric
  }

  /** Before the current next hop is heard, the route stays as it is until an offer undercuts it,
      and from then on it is the best one heard. */
  ghost predicate Waits(ads: map<u32, Ad>, k: RouteKey, start: RipDbEntry, current: Option<RipDbEntry>,
      heard: seq<Delivery>)
    requires ValidAds(ads, k)
  {
    if !Undercut(ads, k, heard, start.ripEntry.metric) then current == Some(start)
    else
      && Truthful(ads, k, current) && current.Some?
      && forall n :: n in ads && Hears(ads, heard, n) ==> current.value.ripEntry.metric <= Offer(ads, n).metric
  }

  lemma ChooseWaits(ads: map<u32, Ad>, k: RouteKey, start: RipDbEntry, n: u32)
    requires ValidAds(ads, k) && n in ads && start.ripEntry.nextHop != n
    ensures var after := Choose(Some(start), Offer(ads, n), ads[n].ifInfo);
            if Offer(ads, n).metric < RIP_INFINITY_METRIC && Offer(ads, n).metric < start.ripEntry.metric then
              Truthful(ads, k, after) && after.Some? && after.value.ripEntry.metric == Offer(ads, n).metric
            else after == Some(start)
  {
    hide IsEntryValid;
  }

  lemma OfferAtMostInfinity(ads: map<u32, Ad>, k: RouteKey, n: u32)
    requires ValidAds(ads, k) && n in ads
    ensures Offer(ads, n).metric <= RIP_INFINITY_METRIC
  {
    hide IsEntryValid;
  }

  lemma {:induction false} BeforeCurrentNextHop(ads: map<u32, Ad>, k: RouteKey, c: Core, ds: seq<Delivery>)
    requires ValidAds(ads, k) && KeysMatch(c.db) && FromAds(ads, k, ds) && Active(c, k).Some?
    requires forall i :: 0 <= i < |ds| ==> !IsFrom(ds[i], k, Active(c, k).value.ripEntry.nextHop)
    ensures Waits(ads, k, Active(c, k).value, Active(DeliverAll(c, ds), k), ds)
  {
    hide KeysMatch, HandleEntry, IsEntryValid, Choose, SameRoute, ResponseEntryToRoute, Hears;
    var start := Active(c, k).value;
    if ds == [] {
      forall n | n in ads ensures !Hears(ads, ds, n) {
        NothingHeard(ads, n);
      }
    } else {
      var m := |ds| - 1;
      var d, before := ds[m], DeliverAll(c, ds[..m]);
      BeforeCurrentNextHop(ads, k, c, ds[..m]);
      DeliverAllKeepsKeys(c, ds[..m]);
      HandlerRefinesChoose(before, d, k);
      forall n | n in ads ensures Hears(ads, ds, n) <==> Hears(ads, ds[..m], n) || IsAd(ads, d, n) {
        HearsStep(ads, ds, n);
      }
      forall n | n in ads ensures Offer(ads, n).metric <= RIP_INFINITY_METRIC {
        OfferAtMostInfinity(ads, k, n);
      }
      if IsEntryValid(d.entry) && KeyOf(d.entry) == k {
        assert d.source in ads && IsAd(ads, d, d.source);
        if Undercut(ads, k, ds[..m], start.ripEntry.metric) {
          ChooseKeepsTruth(ads, k, Active(before, k), d.source);
        } else {
          ChooseWaits(ads, k, start, d.source);
        }
      } else {
        AdIsValid(ads, k, d);
      }
    }
  }

  predicate IsAd(ads: map<u32, Ad>, d: Delivery, n: u32)
    requires n in ads
  {
    d.source == n && d.entry == ads[n].entry && d.ifInfo == ads[n].ifInfo
  }

  lemma AdIsValid(ads: map<u32, Ad>, k: RouteKey, d: Delivery)
    requires ValidAds(ads, k)
    ensures forall n :: n in ads && IsAd(ads, d, n) ==> IsEntryValid(d.entry) && KeyOf(d.entry) == k
  {
  }

  /** The route belongs to a neighbour that was heard, and no offer heard is below it. */
  ghost predicate BestHeard(ads: map<u32, Ad>, k: RouteKey, current: Option<RipDbEntry>, heard: seq<Delivery>)
    requires ValidAds(ads, k)
  {
    && Truthful(ads, k, current)
    && (current.Some? ==> Hears(ads, heard, current.value.ripEntry.nextHop))
    && forall n :: n in ads && Hears(ads, heard, n) ==>
         if current.Some? then current.value.ripEntry.metric <= Offer(ads, n).metric
         else Offer(ads, n).metric == RIP_INFINITY_METRIC
  }

  lemma ChooseStepsToOffer(ads: map<u32, Ad>, k: RouteKey, current: Option<RipDbEntry>, n: u32)
    requires ValidAds(ads, k) && n in ads && Truthful(ads, k, current)
    ensures var after := Choose(current, Offer(ads, n), ads[n].ifInfo);
            after.Some? ==> after.value.ripEntry.nextHop == n
                            || (current.Some? && after.value.ripEntry.nextHop == current.value.ripEntry.nextHop)
  {
    hide IsEntryValid;
  }

  lemma CurrentNextHopIsTrusted(ads: map<u32, Ad>, k: RouteKey, start: RipDbEntry, n: u32)
    requires ValidAds(ads, k) && n in ads && start.ripEntry.nextHop == n
    ensures var after := Choose(Some(start), Offer(ads, n), ads[n].ifInfo);
            && Truthful(ads, k, after)
            && if after.Some? then after.value.ripEntry.nextHop == n
                && after.value.ripEntry.metric == Offer(ads, n).metric
               else Offer(ads, n).metric == RIP_INFINITY_METRIC
  {
    hide IsEntryValid;
    OfferAtMostInfinity(ads, k, n);
  }

  /** Once the current next hop has been heard, the route is the best one heard since. */
  lemma {:induction false} FromCurrentNextHop(ads: map<u32, Ad>, k: RouteKey, c: Core, ds: seq<Delivery>)
    requires ValidAds(ads, k) && KeysMatch(c.db) && FromAds(ads, k, ds) && ds != []
    requires Active(c, k).Some? && Active(c, k).value.ripEntry.nextHop in ads
    requires IsFrom(ds[0], k, Active(c, k).value.ripEntry.nextHop)
    ensures BestHeard(ads, k, Active(DeliverAll(c, ds), k), ds)
  {
    hide KeysMatch, HandleEntry, IsEntryValid, Choose, SameRoute, ResponseEntryToRoute, Hears;
    var m := |ds| - 1;
    var d, before := ds[m], DeliverAll(c, ds[..m]);
    DeliverAllKeepsKeys(c, ds[..m]);
    HandlerRefinesChoose(before, d, k);
    forall n | n in ads ensures Hears(ads, ds, n) <==> Hears(ads, ds[..m], n) || IsAd(ads, d, n) {
      HearsStep(ads, ds, n);
    }
    if m == 0 {
      forall n | n in ads ensures !Hears(ads, ds[..m], n) {
        NothingHeard(ads, n);
      }
      CurrentNextHopIsTrusted(ads, k, Active(c, k).value, d.source);
    } else {
      FromCurrentNextHop(ads, k, c, ds[..m]);
      if IsEntryValid(d.entry) && KeyOf(d.entry) == k {
        assert d.source in ads && IsAd(ads, d, d.source);
        ChooseKeepsTruth(ads, k, Active(before, k), d.source);
        ChooseStepsToOffer(ads, k, Active(before, k), d.source);
      } else {
        AdIsValid(ads, k, d);
      }
    }
  }

  lemma {:induction false} DeliverAllAppend(c: Core, a: seq<Delivery>, b: seq<Delivery>)
    ensures DeliverAll(c, a + b) == DeliverAll(DeliverAll(c, a), b)
  {
    hide HandleEntry;
    if b == [] {
      assert a + b == a;
    } else {
      var n := |b| - 1;
      assert (a + b)[..|a| + n] == a + b[..n];
      DeliverAllAppend(c, a, b[..n]);
    }
  }

  lemma HearsInTwoParts(ads: map<u32, Ad>, ds: seq<Delivery>, f: nat, n: u32)
    requires n in ads && f <= |ds|
    ensures Hears(ads, ds, n) <==> Hears(ads, ds[..f], n) || Hears(ads, ds[f..], n)
  {
    if Hears(ads, ds, n) {
      var i :| 0 <= i < |ds| && ds[i].source == n && ds[i].entry == ads[n].entry && ds[i].ifInfo == ads[n].ifInfo;
      if i < f {
        assert ds[..f][i] == ds[i];
      } else {
        assert ds[f..][i - f] == ds[i];
      }
    }
  }

  /** Exactly when one round is not enough. The current next hop is first heard at f: no offer
      heard before undercuts the stored metric, so the route stays, and one of them is below
      every offer heard from f on, after its next hop has said what the route costs now. */
  lemma OneRoundMisses(ads: map<u32, Ad>, k: RouteKey, c: Core, ds: seq<Delivery>)
    requires ValidAds(ads, k) && KeysMatch(c.db) && IsRoundOfAds(ads, k, ds)
    requires Active(c, k).Some? && Active(c, k).value.ripEntry.nextHop in ads
    ensures var start := Active(c, k).value.ripEntry;
            var f := FirstFrom(ds, k, start.nextHop);
            !Best(ads, k, Active(DeliverAll(c, ds), k)) <==>
            !Undercut(ads, k, ds[..f], start.metric) && Overlooked(ads, k, ds[..f], ds[f..])
  {
    hide KeysMatch, HandleEntry, FromAds, Choose, Hears, ValidAds, Active, DeliverAll, Best, Overlooked, Undercut,
        Waits,
         FirstFrom, IsFrom;
    var n0 := Active(c, k).value.ripEntry.nextHop;
    var f := FirstFrom(ds, k, n0);
    var early, late := ds[..f], ds[f..];
    CurrentIsHeard(ads, k, ds, n0);
    PartsFromAds(ads, k, ds, f);
    assert early + late == ds;
    DeliverAllAppend(c, early, late);
    DeliverAllKeepsKeys(c, early);
    BeforeCurrentNextHop(ads, k, c, early);
    forall n | n in ads ensures Hears(ads, early, n) || Hears(ads, late, n) {
      HearsInTwoParts(ads, ds, f, n);
    }
    assert late[0] == ds[f];
    LateDecides(ads, k, Active(c, k).value, DeliverAll(c, early), early, late);
  }

  lemma PartsFromAds(ads: map<u32, Ad>, k: RouteKey, ds: seq<Delivery>, f: nat)
    requires FromAds(ads, k, ds) && f <= |ds|
    ensures FromAds(ads, k, ds[..f]) && FromAds(ads, k, ds[f..])
  {
    hide IsEntryValid;
    forall i | 0 <= i < |ds| - f && IsEntryValid(ds[f..][i].entry) && KeyOf(ds[f..][i].entry) == k
      ensures ds[f..][i].source in ads && ads[ds[f..][i].source] == Ad(ds[f..][i].entry, ds[f..][i].ifInfo)
    {
      assert ds[f..][i] == ds[f + i];
    }
  }

  lemma LateDecides(ads: map<u32, Ad>, k: RouteKey, start: RipDbEntry, mid: Core, early: seq<Delivery>,
      late: seq<Delivery>)
    requires ValidAds(ads, k) && KeysMatch(mid.db) && FromAds(ads, k, late) && late != []
    requires start.ripEntry.nextHop in ads && IsFrom(late[0], k, start.ripEntry.nextHop)
    requires Waits(ads, k, start, Active(mid, k), early)
    requires forall n :: n in ads ==> Hears(ads, early, n) || Hears(ads, late, n)
    ensures !Best(ads, k, Active(DeliverAll(mid, late), k)) <==>
            !Undercut(ads, k, early, start.ripEntry.metric) && Overlooked(ads, k, early, late)
  {
    hide KeysMatch, HandleEntry, FromAds, IsEntryValid, Hears, ResponseEntryToRoute, Active, DeliverAll, SameRoute;
    if Undercut(ads, k, early, start.ripEntry.metric) {
      SecondRound(ads, k, mid, late);
    } else {
      FromCurrentNextHop(ads, k, mid, late);
      FirstIsHeard(ads, k, late);
      OverlookedIsNotBest(ads, k, Active(DeliverAll(mid, late), k), early, late, start.ripEntry.nextHop);
    }
  }

  lemma FirstIsHeard(ads: map<u32, Ad>, k: RouteKey, ds: seq<Delivery>)
    requires FromAds(ads, k, ds) && ds != [] && IsFrom(ds[0], k, ds[0].source) && ds[0].source in ads
    ensures Hears(ads, ds, ds[0].source)
  {
  }

  lemma CurrentIsHeard(ads: map<u32, Ad>, k: RouteKey, ds: seq<Delivery>, n: u32)
    requires ValidAds(ads, k) && n in ads && Hears(ads, ds, n)
    ensures FirstFrom(ds, k, n) < |ds|
  {
    hide IsEntryValid, FirstFrom;
    var i :| 0 <= i < |ds| && ds[i].source == n && ds[i].entry == ads[n].entry && ds[i].ifInfo == ads[n].ifInfo;
    assert IsFrom(ds[i], k, n);
  }

  lemma OverlookedIsNotBest(ads: map<u32, Ad>, k: RouteKey, current: Option<RipDbEntry>, early: seq<Delivery>,
      late: seq<Delivery>, heardLate: u32)
    requires ValidAds(ads, k) && BestHeard(ads, k, current, late) && heardLate in ads && Hears(ads, late, heardLate)
    requires forall n :: n in ads ==> Hears(ads, early, n) || Hears(ads, late, n)
    ensures !Best(ads, k, current) <==> Overlooked(ads, k, early, late)
  {
    hide IsEntryValid, Hears, ResponseEntryToRoute;
    forall n | n in ads ensures Offer(ads, n).metric <= RIP_INFINITY_METRIC {
      OfferAtMostInfinity(ads, k, n);
    }
    if !Best(ads, k, current) {
      var n :| n in ads && !(if current.Some? then current.value.ripEntry.metric <= Offer(ads, n).metric
                             else Offer(ads, n).metric == RIP_INFINITY_METRIC);
      assert Hears(ads, early, n) && BelowAll(ads, k, late, n);
    }
    if Overlooked(ads, k, early, late) {
      var n :| n in ads && Hears(ads, early, n) && BelowAll(ads, k, late, n);
      var o := if current.Some? then current.value.ripEntry.nextHop else heardLate;
      assert Offer(ads, n).metric < Offer(ads, o).metric;
    }
  }

  /** One round is not enough: a route that looks no worse than the alternative when that is
      heard, and is then made worse by its own next hop, ends above the best offer. */
  lemma OneRoundMayMiss(ads: map<u32, Ad>, k: RouteKey, c: Core, current: u32, other: u32, now: nat)
    requires ValidAds(ads, k) && KeysMatch(c.db) && ads.Keys == {current, other} && current != other
    requires Active(c, k).Some? && Active(c, k).value.ripEntry.nextHop == current
    requires Active(c, k).value.ripEntry.metric <= Offer(ads, other).metric
    requires Offer(ads, other).metric < Offer(ads, current).metric < RIP_INFINITY_METRIC
    ensures var round := [
              Delivery(ads[other].entry, other, ads[other].ifInfo, now),
              Delivery(ads[current].entry, current, ads[current].ifInfo, now)];
            && IsRoundOfAds(ads, k, round)
            && !Best(ads, k, Active(DeliverAll(c, round), k))
  {
    hide KeysMatch, HandleEntry, IsEntryValid;
    var a := Delivery(ads[other].entry, other, ads[other].ifInfo, now);
    var b := Delivery(ads[current].entry, current, ads[current].ifInfo, now);
    var round := [a, b];
    assert round[0] == a && round[1] == b;
    assert Hears(ads, round, other) && Hears(ads, round, current);
    assert round[..1] == [a] && [a][..0] == [];
    assert DeliverAll(c, [a]) == Deliver(c, a);
    DeliverAllKeepsKeys(c, [a]);
    HandlerRefinesChoose(c, a, k);
    HandlerRefinesChoose(Deliver(c, a), b, k);
  }
}
