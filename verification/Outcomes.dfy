/** How a handler or the whole run may end when the environment refuses something: the kernel
    answers a call with a hard error, or a datagram cannot be sent. */
module Outcomes {
  import opened Wrappers
  import opened RipPacket
  import opened Address
  import opened RouteTables
  import opened RoutingTables
  import opened Updater
  import opened Response
  import opened Steps

  /** The kernel calls and the datagrams that ended in a hard error, oldest first. */
  datatype Refusals = Refusals(calls: seq<KernelCall>, sends: seq<Datagram>)

  /** A handler ended early because of one refusal. */
  ghost predicate CutShort(before: Refusals, after: Refusals, c: Core) {
    || (exists call :: after == before.(calls := before.calls + [call]) && Interrupted(c, call))
    || (exists d :: after == before.(sends := before.sends + [d]) && Consistent(c))
  }

  /** The first half of a shutdown: all routes are poisoned and advertised as such; the sending
      stops at the first refusal, and only without one the flags are cleared. */
  ghost predicate PoisonIsTold(cfg: Config, s: State, refused: Refusals, s': State) {
    var poisoned := s.core.db.PoisonAll();
    && s'.core.db == (if refused.sends == [] then poisoned.MarkUnchanged() else poisoned)
    && exists block ::
         && IsAdvertisement(block, poisoned, cfg.interfaces, false)
         && Transmitted(block, s.sent, s'.sent, [], refused.sends, refused.sends == [])
  }

  /** The second half: of the installed routes exactly those stay whose delete was refused. */
  ghost predicate InstalledAreDeleted(kernel: Kernel, refused: Refusals, kernel': Kernel) {
    && (forall call :: call in refused.calls ==> exists m :: m in kernel.table && call == DeleteCall(m))
    && (forall m :: m in kernel'.table <==> m in kernel.table && DeleteCall(m) in refused.calls)
  }

  // ----- refusals in the middle of a handler

  lemma RefusedDeleteInterrupts(before: Refusals, after: Refusals, c: Core, m: RouteMessage)
    requires after == before.(calls := before.calls + [DeleteCall(m)])
    ensures Consistent(c) ==> CutShort(before, after, c)
  {
    hide BuildRouteMessage, OwnerKey;
    if Consistent(c) {
      assert Interrupted(c, DeleteCall(m));
    }
  }

  lemma RefusedAddInterrupts(before: Refusals, after: Refusals, c: Core, c': Core, e: RipEntry, ifInfo: RipIfInfo)
    requires Consistent(c) && KeyOf(e) !in c.db.okRoutes && KeyOf(e) !in c.db.garbageRoutes
    requires IsUpdate(e) && e.metric < RIP_INFINITY_METRIC
    requires c' == LearnRoute(c, e, ifInfo).(kernel := c.kernel)
    requires after == before.(calls := before.calls + [AddCall(BuildRouteMessage(RemoteRoute(e, ifInfo)))])
    ensures CutShort(before, after, c')
  {
    hide Consistent, Interrupted, IsUnicastAddress, IsNetMaskValid, BuildRouteMessage;
    RefusedAddLeaves(c, e, ifInfo);
  }

  lemma ReplaceInterrupted(before: Refusals, after: Refusals, c: Core, c': Core, current: RipDbEntry, e: RipEntry,
      ifInfo: RipIfInfo)
    requires Consistent(c) && KeyOf(e) in c.db.okRoutes && Key(current) == KeyOf(e) && !c.db.okRoutes[KeyOf(e)].isLocal
    requires BuildRouteMessage(current) == BuildRouteMessage(c.db.okRoutes[KeyOf(e)])
    requires IsUpdate(e) && e.metric < RIP_INFINITY_METRIC
    requires var was, message := BuildRouteMessage(current), BuildRouteMessage(RemoteRoute(e, ifInfo));
             || (c' == c && after == before.(calls := before.calls + [DeleteCall(was)]))
             || (&& c' == ReplaceRoute(c, current, e, ifInfo).(kernel := c.kernel.Delete(was))
                 && after == before.(calls := before.calls + [AddCall(message)]))
    ensures CutShort(before, after, c')
  {
    hide BuildRouteMessage, CutShort, KernelAgrees, IsUnicastAddress, IsNetMaskValid;
    var k := KeyOf(e);
    if c' == c && after == before.(calls := before.calls + [DeleteCall(BuildRouteMessage(current))]) {
      RefusedDeleteInterrupts(before, after, c, BuildRouteMessage(current));
    } else {
      KernelDeletePreserves(c.db, c.kernel, k);
      var mid := Core(c.db.RemoveOk(k), c.kernel.Delete(BuildRouteMessage(current)));
      assert Consistent(mid);
      RefusedAddInterrupts(before, after, mid, c', e, ifInfo);
    }
  }

  /** What an update replaces or refreshes is never local. */
  lemma UpdateIsOfRemote(c: Core, e: RipEntry)
    requires Consistent(c) && IsUpdate(e) && KeyOf(e) in c.db.okRoutes
    requires var current := c.db.okRoutes[KeyOf(e)];
             RouteIsFromCurrentNextHop(current, e) || current.ripEntry.metric > e.metric
    ensures !c.db.okRoutes[KeyOf(e)].isLocal
  {
  }

  lemma UpdateOfValidEntry(entry: RipEntry, source: u32)
    requires ResponseEntryToRoute(entry, source).Some? && source != 0
    ensures IsUpdate(ResponseEntryToRoute(entry, source).value)
  {
  }

  lemma RefusedSendCutsShort(before: Refusals, after: Refusals, c: Core)
    requires after.calls == before.calls && exists d :: after.sends == before.sends + [d]
    ensures Consistent(c) ==> CutShort(before, after, c)
  {
    hide Consistent;
    var d :| after.sends == before.sends + [d];
    assert after == before.(sends := before.sends + [d]);
  }

  lemma SentOrOneFailure(block: seq<Datagram>, sent: seq<Datagram>, sent': seq<Datagram>, failed: seq<Datagram>,
      failed': seq<Datagram>, success: bool)
    requires Transmitted(block, sent, sent', failed, failed', success)
    ensures if success then sent' == sent + block && failed' == failed else exists d :: failed' == failed + [d]
  {
  }

  lemma PoisonLog(block: seq<Datagram>, sent: seq<Datagram>, sent': seq<Datagram>, failed: seq<Datagram>,
      failed': seq<Datagram>, success: bool)
    requires Transmitted(block, sent, sent', failed, failed', success)
    ensures failed <= failed' && (failed'[|failed|..] == [] <==> success)
    ensures Transmitted(block, sent, sent', [], failed'[|failed|..], success)
  {
  }

  ghost function Messages(routes: seq<RipDbEntry>): (ms: seq<RouteMessage>)
    ensures |ms| == |routes|
  {
    seq(|routes|, i requires 0 <= i < |routes| => BuildRouteMessage(routes[i]))
  }

  ghost predicate Distinct(ms: seq<RouteMessage>) {
    forall i, j :: 0 <= i < j < |ms| ==> ms[i] != ms[j]
  }

  /** One delete was tried for each message: it succeeded, or its refusal is on record. */
  ghost predicate Deleted(ms: seq<RouteMessage>, table: set<RouteMessage>, table': set<RouteMessage>,
      refused: seq<KernelCall>) {
    && table' <= table
    && (forall m :: m in table && m !in ms ==> m in table')
    && (forall call :: call in refused ==> exists m :: m in ms && call == DeleteCall(m))
    && (Distinct(ms) ==> forall m :: m in ms ==> (m in table' <==> m in table && DeleteCall(m) in refused))
  }

  lemma NothingDeleted(table: set<RouteMessage>)
    ensures Deleted([], table, table, [])
  {
  }

  lemma OneMoreDeleted(ms: seq<RouteMessage>, m: RouteMessage, table: set<RouteMessage>, before: set<RouteMessage>,
      refused: seq<KernelCall>, after: set<RouteMessage>, refused': seq<KernelCall>)
    requires Deleted(ms, table, before, refused)
    requires || (after == before - {m} && refused' == refused)
             || (after == before && refused' == refused + [DeleteCall(m)])
    ensures Deleted(ms + [m], table, after, refused')
  {
    if Distinct(ms + [m]) {
      assert forall i, j :: 0 <= i < j < |ms| ==> (ms + [m])[i] == ms[i] && (ms + [m])[j] == ms[j];
      assert Distinct(ms);
      forall o | o in ms ensures o != m {
        var i :| 0 <= i < |ms| && ms[i] == o;
        assert (ms + [m])[i] == o && (ms + [m])[|ms|] == m;
      }
    }
  }

  lemma ListedAreDeleted(kernel: Kernel, ms: seq<RouteMessage>, refused: Refusals, kernel': Kernel)
    requires Distinct(ms) && (forall m :: m in ms <==> m in kernel.table)
    requires Deleted(ms, kernel.table, kernel'.table, refused.calls)
    ensures InstalledAreDeleted(kernel, refused, kernel')
  {
    hide Distinct;
  }

  lemma NothingToVisit(order: seq<RouteKey>)
    requires IsOrder(order, {})
    ensures order == []
  {
    SomethingToVisit(order);
  }

  lemma SomethingToVisit(order: seq<RouteKey>)
    ensures order != [] ==> exists k :: k in order
  {
    if order != [] {
      assert order[0] in order;
    }
  }

  lemma InstalledRoutesAreListed(c: Core, ok: seq<RouteKey>, garbage: seq<RouteKey>, routes: seq<RipDbEntry>)
    requires Consistent(c)
    requires IsOrder(ok, c.db.InRoutingTable().0) && IsOrder(garbage, c.db.InRoutingTable().1)
    requires routes == Values(ok, c.db.okRoutes) + Values(garbage, c.db.garbageRoutes)
    ensures Distinct(Messages(routes)) && forall m :: m in Messages(routes) <==> m in c.kernel.table
  {
    hide BuildRouteMessage, OwnerKey, IsNetMaskValid, IsUnicastAddress;
    assert c.db.InRoutingTable().1 == {};
    NothingToVisit(garbage);
    forall j | 0 <= j < |ok| ensures ok[j] in c.db.okRoutes && c.db.okRoutes[ok[j]].inRoutingTable {
      assert ok[j] in ok;
    }
    forall j | 0 <= j < |ok|
      ensures routes[j] == c.db.okRoutes[ok[j]] && OwnerKey(Messages(routes)[j]) == ok[j]
          && Messages(routes)[j] in c.kernel.table
    {
      OwnerKeyOfMessage(routes[j]);
      assert Owned(c.db, Messages(routes)[j]);
    }
    forall m | m in c.kernel.table ensures m in Messages(routes) {
      assert Owned(c.db, m);
      assert OwnerKey(m) in ok;
      var j :| 0 <= j < |ok| && ok[j] == OwnerKey(m);
      assert Messages(routes)[j] == m;
    }
  }
}
