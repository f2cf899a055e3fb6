/** What is told to whom, field by field: split horizon, changes only, and each route once. */
module Announcements {
  import opened Wrappers
  import opened RipPacket
  import opened RouteTables
  import opened Updater

  /** The entry is the stored one of the route, but for the next hop. */
  predicate Announces(e: RipEntry, r: RipDbEntry) {
    && e.routingFamilyId == r.ripEntry.routingFamilyId && e.routeTag == r.ripEntry.routeTag
    && e.ipAddress == r.ripEntry.ipAddress && e.subnetMask == r.ripEntry.subnetMask
    && e.metric == r.ripEntry.metric && e.nextHop == 0
  }

  /** The keys of a map whose routes lie on another interface and, if that is asked, have changed. */
  function KeysElsewhere(m: map<RouteKey, RipDbEntry>, ifIndex: u32, changedOnly: bool): set<RouteKey> {
    set k | k in m && m[k].ifIndex != ifIndex && (changedOnly ==> m[k].changed)
  }

  /** Some route of another interface has this entry. */
  ghost predicate StoredElsewhere(db: Tables, e: RipEntry, ifIndex: u32, changedOnly: bool) {
    || (exists k :: k in KeysElsewhere(db.okRoutes, ifIndex, changedOnly) && Announces(e, db.okRoutes[k]))
    || (exists k :: k in KeysElsewhere(db.garbageRoutes, ifIndex, changedOnly) && Announces(e, db.garbageRoutes[k]))
  }

  function CountElsewhere(db: Tables, ifIndex: u32, changedOnly: bool): nat {
    |KeysElsewhere(db.okRoutes, ifIndex, changedOnly)| + |KeysElsewhere(db.garbageRoutes, ifIndex, changedOnly)|
  }

  // ----- a selection

  /** Split horizon: a selection for an interface holds the entries of the routes of all other
      interfaces, active or garbage, and nothing else. */
  lemma SelectionIsSplitHorizon(entries: seq<RipEntry>, db: Tables, ifIndex: u32, changedOnly: bool, e: RipEntry)
    requires IsSelection(entries, db, ifIndex, changedOnly)
    ensures e in entries <==> StoredElsewhere(db, e, ifIndex, changedOnly)
  {
    hide IsSelection;
    SelectionMembers(entries, db, ifIndex, changedOnly, e);
    forall r: RipDbEntry ensures e == Advert(r) <==> Announces(e, r) {
    }
    forall k ensures k in db.okRoutes && Selected(db.okRoutes[k], ifIndex, changedOnly) <==>
                       k in KeysElsewhere(db.okRoutes, ifIndex, changedOnly) {
    }
    forall k ensures k in db.garbageRoutes && Selected(db.garbageRoutes[k], ifIndex, changedOnly) <==>
                       k in KeysElsewhere(db.garbageRoutes, ifIndex, changedOnly) {
    }
  }

  /** The visited keys among those elsewhere. */
  function VisitedElsewhere(order: seq<RouteKey>, elsewhere: set<RouteKey>): set<RouteKey> {
    set k | k in order && k in elsewhere
  }

  lemma VisitOneMore(order: seq<RouteKey>, last: RouteKey, elsewhere: set<RouteKey>)
    requires last !in order
    ensures |VisitedElsewhere(order + [last], elsewhere)|
            == |VisitedElsewhere(order, elsewhere)| + if last in elsewhere then 1 else 0
  {
    assert VisitedElsewhere(order + [last], elsewhere)
        == VisitedElsewhere(order, elsewhere) + if last in elsewhere then {last} else {};
  }

  lemma {:induction false} SelectFromSize(order: seq<RouteKey>, m: map<RouteKey, RipDbEntry>, ifIndex: u32,
      changedOnly: bool)
    requires forall k :: k in order ==> k in m
    requires forall i, j :: 0 <= i < j < |order| ==> order[i] != order[j]
    ensures |SelectFrom(order, m, ifIndex, changedOnly)|
            == |VisitedElsewhere(order, KeysElsewhere(m, ifIndex, changedOnly))|
  {
    hide Selected, KeysElsewhere, Advert, VisitedElsewhere;
    if order == [] {
      NothingVisited(KeysElsewhere(m, ifIndex, changedOnly));
    } else {
      var init, last := order[..|order| - 1], order[|order| - 1];
      SelectedIsElsewhere(m, last, ifIndex, changedOnly);
      SelectFromSize(init, m, ifIndex, changedOnly);
      assert order == init + [last];
      VisitOneMore(init, last, KeysElsewhere(m, ifIndex, changedOnly));
    }
  }

  lemma NothingVisited(elsewhere: set<RouteKey>)
    ensures VisitedElsewhere([], elsewhere) == {}
  {
  }

  lemma SelectedIsElsewhere(m: map<RouteKey, RipDbEntry>, k: RouteKey, ifIndex: u32, changedOnly: bool)
    requires k in m
    ensures Selected(m[k], ifIndex, changedOnly) <==> k in KeysElsewhere(m, ifIndex, changedOnly)
  {
  }

  /** Each of those routes is selected once. */
  lemma SelectionSize(entries: seq<RipEntry>, db: Tables, ifIndex: u32, changedOnly: bool)
    requires IsSelection(entries, db, ifIndex, changedOnly)
    ensures |entries| == CountElsewhere(db, ifIndex, changedOnly)
  {
    var ok, garbage :|
      && IsOrder(ok, db.okRoutes.Keys)
      && IsOrder(garbage, db.garbageRoutes.Keys)
      && entries == SelectFrom(ok, db.okRoutes, ifIndex, changedOnly)
                    + SelectFrom(garbage, db.garbageRoutes, ifIndex, changedOnly);
    SelectFromSize(ok, db.okRoutes, ifIndex, changedOnly);
    SelectFromSize(garbage, db.garbageRoutes, ifIndex, changedOnly);
    assert VisitedElsewhere(ok, KeysElsewhere(db.okRoutes, ifIndex, changedOnly))
        == KeysElsewhere(db.okRoutes, ifIndex, changedOnly);
    assert VisitedElsewhere(garbage, KeysElsewhere(db.garbageRoutes, ifIndex, changedOnly))
        == KeysElsewhere(db.garbageRoutes, ifIndex, changedOnly);
  }

  // ----- datagrams

  function Datas(sent: seq<Datagram>): (ds: seq<seq<byte>>)
    ensures |ds| == |sent| && forall i :: 0 <= i < |sent| ==> ds[i] == sent[i].data
  {
    seq(|sent|, i requires 0 <= i < |sent| => sent[i].data)
  }

  /** The datagram is a version-2 response. */
  predicate IsResponseDatagram(d: Datagram) {
    ParsePacket(d.data).Success? && ParsePacket(d.data).value.header == RipHeader(2, 2, 0)
  }

  lemma DatagramsAreResponses(ifIndex: u32, target: Target, entries: seq<RipEntry>)
    ensures EntriesIn(Datas(Datagrams(ifIndex, target, entries))) == entries
    ensures forall d :: d in Datagrams(ifIndex, target, entries) ==>
              d.target == target && d.ifIndex == ifIndex && IsResponseDatagram(d)
  {
    hide ParsePacket, EntriesIn, ResponseBytes;
    var ds := Datagrams(ifIndex, target, entries);
    assert Datas(ds) == ResponseBuffers(entries);
    BuffersRoundTrip(entries);
    forall d | d in ds ensures d.target == target && d.ifIndex == ifIndex && IsResponseDatagram(d) {
      var i :| 0 <= i < |ds| && ds[i] == d;
      ParseResponse(Chunks(entries)[i]);
    }
  }

  /** Everything in the block is a response, multicast on one of the interfaces. */
  ghost predicate OnlyMulticast(block: seq<Datagram>, interfaces: seq<u32>) {
    forall d :: d in block ==> d.target == Multicast && d.ifIndex in interfaces && IsResponseDatagram(d)
  }

  lemma {:induction false} BlockIsMulticast(interfaces: seq<u32>, selections: seq<seq<RipEntry>>)
    requires |interfaces| == |selections|
    ensures OnlyMulticast(AdvertisementBlock(interfaces, selections), interfaces)
  {
    hide Datagrams, IsResponseDatagram;
    if interfaces == [] {
    } else {
      var n := |interfaces| - 1;
      BlockIsMulticast(interfaces[..n], selections[..n]);
      DatagramsAreResponses(interfaces[n], Multicast, selections[n]);
    }
  }

  lemma {:induction false} BlockIsHeard(interfaces: seq<u32>, selections: seq<seq<RipEntry>>, ifIndex: u32, e: RipEntry)
    requires |interfaces| == |selections|
    ensures e in Heard(AdvertisementBlock(interfaces, selections), ifIndex) <==>
            exists n :: 0 <= n < |interfaces| && interfaces[n] == ifIndex && e in selections[n]
  {
    hide Datagrams, Heard;
    if interfaces == [] {
      HeardNothing(ifIndex);
    } else {
      var n := |interfaces| - 1;
      var init := AdvertisementBlock(interfaces[..n], selections[..n]);
      BlockIsHeard(interfaces[..n], selections[..n], ifIndex, e);
      HeardAppend(init, Datagrams(interfaces[n], Multicast, selections[n]), ifIndex);
      HeardDatagrams(interfaces[n], Multicast, selections[n], ifIndex);
      if i :| 0 <= i < n && interfaces[..n][i] == ifIndex && e in selections[..n][i] {
        assert interfaces[i] == ifIndex && e in selections[i];
      }
      if i :| 0 <= i < |interfaces| && interfaces[i] == ifIndex && e in selections[i] {
        if i < n {
          assert interfaces[..n][i] == ifIndex && e in selections[..n][i];
        }
      }
    }
  }

  lemma HeardNothing(ifIndex: u32)
    ensures Heard([], ifIndex) == []
  {
  }

  /** What an advertisement tells: on each interface the routes of all others, on no other
      interface anything. */
  ghost predicate TellsElsewhere(block: seq<Datagram>, db: Tables, interfaces: seq<u32>, changedOnly: bool) {
    && OnlyMulticast(block, interfaces)
    && forall i, e :: e in Heard(block, i) <==> i in interfaces && StoredElsewhere(db, e, i, changedOnly)
  }

  lemma AdvertisementIsSplitHorizon(block: seq<Datagram>, db: Tables, interfaces: seq<u32>, changedOnly: bool)
    requires IsAdvertisement(block, db, interfaces, changedOnly)
    ensures TellsElsewhere(block, db, interfaces, changedOnly)
  {
    hide IsSelection, StoredElsewhere, OnlyMulticast, Heard;
    var selections :|
      AreSelections(selections, db, interfaces, changedOnly) && block == AdvertisementBlock(interfaces, selections);
    BlockIsMulticast(interfaces, selections);
    forall i, e ensures e in Heard(block, i) <==> i in interfaces && StoredElsewhere(db, e, i, changedOnly) {
      BlockIsHeard(interfaces, selections, i, e);
      forall n | 0 <= n < |interfaces| && interfaces[n] == i
        ensures e in selections[n] <==> StoredElsewhere(db, e, i, changedOnly)
      {
        SelectionIsSplitHorizon(selections[n], db, i, changedOnly, e);
      }
    }
  }

  /** By destination: something is told of it on an interface exactly if one of its stored routes
      lies on another one, and has changed if that is asked. */
  lemma DestinationIsTold(block: seq<Datagram>, db: Tables, interfaces: seq<u32>, changedOnly: bool, ifIndex: u32,
      k: RouteKey)
    requires KeysMatch(db) && IsAdvertisement(block, db, interfaces, changedOnly)
    ensures (exists e :: e in Heard(block, ifIndex) && e.ipAddress == k.ipAddress && e.subnetMask == k.subnetMask) <==>
            && ifIndex in interfaces
            && (|| (k in db.okRoutes && db.okRoutes[k].ifIndex != ifIndex && (changedOnly ==> db.okRoutes[k].changed))
                || (k in db.garbageRoutes && db.garbageRoutes[k].ifIndex != ifIndex
                    && (changedOnly ==> db.garbageRoutes[k].changed)))
  {
    hide IsAdvertisement, Heard, OnlyMulticast;
    AdvertisementIsSplitHorizon(block, db, interfaces, changedOnly);
    if k in KeysElsewhere(db.okRoutes, ifIndex, changedOnly) {
      assert Announces(Advert(db.okRoutes[k]), db.okRoutes[k]);
      assert StoredElsewhere(db, Advert(db.okRoutes[k]), ifIndex, changedOnly);
    }
    if k in KeysElsewhere(db.garbageRoutes, ifIndex, changedOnly) {
      assert Announces(Advert(db.garbageRoutes[k]), db.garbageRoutes[k]);
      assert StoredElsewhere(db, Advert(db.garbageRoutes[k]), ifIndex, changedOnly);
    }
  }

  // ----- order

  /** The interfaces are served one after the other, each with the datagrams of its selection. */
  lemma {:induction false} InterfacesInOrder(a: seq<u32>, s: seq<seq<RipEntry>>, b: seq<u32>, t: seq<seq<RipEntry>>)
    requires |a| == |s| && |b| == |t|
    ensures AdvertisementBlock(a + b, s + t) == AdvertisementBlock(a, s) + AdvertisementBlock(b, t)
    ensures |b| == 1 ==> AdvertisementBlock(b, t) == Datagrams(b[0], Multicast, t[0])
  {
    hide Datagrams;
    if b == [] {
      assert a + b == a && s + t == s;
    } else {
      var n := |b| - 1;
      InterfacesInOrder(a, s, b[..n], t[..n]);
      assert (a + b)[..|a| + n] == a + b[..n] && (s + t)[..|a| + n] == s + t[..n];
    }
  }

  // ----- each route once

  lemma {:induction false} BlockOnOneInterface(interfaces: seq<u32>, selections: seq<seq<RipEntry>>, n: nat)
    requires |interfaces| == |selections| && n < |interfaces|
    requires forall i, j :: 0 <= i < j < |interfaces| ==> interfaces[i] != interfaces[j]
    ensures Heard(AdvertisementBlock(interfaces, selections), interfaces[n]) == selections[n]
  {
    hide Datagrams, Heard;
    var m := |interfaces| - 1;
    var init := AdvertisementBlock(interfaces[..m], selections[..m]);
    HeardAppend(init, Datagrams(interfaces[m], Multicast, selections[m]), interfaces[n]);
    HeardDatagrams(interfaces[m], Multicast, selections[m], interfaces[n]);
    if n == m {
      NotInBlock(interfaces[..m], selections[..m], interfaces[n]);
    } else {
      BlockOnOneInterface(interfaces[..m], selections[..m], n);
    }
  }

  lemma NotInBlock(interfaces: seq<u32>, selections: seq<seq<RipEntry>>, ifIndex: u32)
    requires |interfaces| == |selections| && ifIndex !in interfaces
    ensures Heard(AdvertisementBlock(interfaces, selections), ifIndex) == []
  {
    hide Heard;
    var heard := Heard(AdvertisementBlock(interfaces, selections), ifIndex);
    if |heard| > 0 {
      BlockIsHeard(interfaces, selections, ifIndex, heard[0]);
    }
  }

  /** An advertisement on distinct interfaces tells each of the routes of the others once. */
  lemma AdvertisementSize(block: seq<Datagram>, db: Tables, interfaces: seq<u32>, changedOnly: bool, n: nat)
    requires IsAdvertisement(block, db, interfaces, changedOnly) && n < |interfaces|
    requires forall i, j :: 0 <= i < j < |interfaces| ==> interfaces[i] != interfaces[j]
    ensures |Heard(block, interfaces[n])| == CountElsewhere(db, interfaces[n], changedOnly)
  {
    hide IsSelection, Heard;
    var selections :|
      AreSelections(selections, db, interfaces, changedOnly) && block == AdvertisementBlock(interfaces, selections);
    BlockOnOneInterface(interfaces, selections, n);
    SelectionSize(selections[n], db, interfaces[n], changedOnly);
  }
}
