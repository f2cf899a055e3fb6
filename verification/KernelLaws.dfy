/** What the kernel holds and is told over whole runs, by the fields of the messages and of the
    entries they come from. */
module KernelLaws {
  import opened Wrappers
  import opened Address
  import opened RouteTables
  import opened RoutingTables
  import opened Response
  import opened EntryLaws
  import opened Steps
  import opened Invariants
  import opened History

  // ----- where a route comes from

  /** The observation is a valid response entry for the destination, from the given neighbour, the
      last such one in the history, and `silence` timeout ticks followed it. */
  ghost predicate IsLastWord(h: seq<Observation>, i: nat, k: RouteKey, nextHop: u32, silence: nat) {
    && i < |h| && IsWord(h[i], k, nextHop)
    && (forall j :: i < j < |h| ==> !IsWord(h[j], k, nextHop))
    && silence == |TicksAfter(h, i)|
  }

  function TicksAfter(h: seq<Observation>, i: nat): set<int> {
    set j | i < j < |h| && h[j] == Tick
  }

  ghost predicate IsWord(o: Observation, k: RouteKey, nextHop: u32) {
    && o.Entry? && o.source == nextHop && IsValid(o.entry)
    && o.entry.ipAddress == k.ipAddress && o.entry.subnetMask == k.subnetMask
  }

  lemma WordIsUpdate(o: Observation, k: RouteKey, nextHop: u32)
    ensures IsUpdateFor(o, k, nextHop) <==> IsWord(o, k, nextHop)
  {
    if o.Entry? {
      ValidityByFields(o.entry);
    }
  }

  lemma {:induction false} LastUpdateIsLastWord(h: seq<Observation>, k: RouteKey, nextHop: u32) returns (i: nat)
    requires LastUpdate(h, k, nextHop).Some?
    ensures IsLastWord(h, i, k, nextHop, TicksSince(h, k, nextHop)) && h[i] == LastUpdate(h, k, nextHop).value
  {
    hide IsUpdateFor, IsWord, TicksAfter;
    var n := |h| - 1;
    WordIsUpdate(h[n], k, nextHop);
    if IsUpdateFor(h[n], k, nextHop) {
      i := n;
      NoTicksAfterEnd(h);
    } else {
      i := LastUpdateIsLastWord(h[..n], k, nextHop);
      TicksAfterStep(h, i);
      assert forall j :: i < j < n ==> h[..n][j] == h[j];
    }
  }

  lemma NoTicksAfterEnd(h: seq<Observation>)
    requires h != []
    ensures TicksAfter(h, |h| - 1) == {}
  {
  }

  lemma TicksAfterStep(h: seq<Observation>, i: nat)
    requires i < |h| - 1
    ensures var n := |h| - 1; |TicksAfter(h, i)| == |TicksAfter(h[..n], i)| + if h[n] == Tick then 1 else 0
  {
    var n := |h| - 1;
    assert TicksAfter(h, i) == TicksAfter(h[..n], i) + if h[n] == Tick then {n} else {};
  }

  /** The route is what its next hop said last: the entry with the sender as next hop and one more
      hop, still below infinity, the interface it came by, and a counter of the silence since. */
  ghost predicate IsFrom(cfg: Config, o: Observation, silence: nat, r: RipDbEntry) {
    && o.Entry?
    && r.ripEntry.routingFamilyId == o.entry.routingFamilyId && r.ripEntry.routeTag == o.entry.routeTag
    && r.ripEntry.ipAddress == o.entry.ipAddress && r.ripEntry.subnetMask == o.entry.subnetMask
    && r.ripEntry.nextHop == o.source
    && r.ripEntry.metric == o.entry.metric + 1 && o.entry.metric <= 14
    && r.ifIndex == o.ifInfo.ifIndex && r.ifName == o.ifInfo.ifName
    && r.timeoutCnt == cfg.timeoutIncrement * silence && r.timeoutCnt < cfg.timeoutLimit
  }

  ghost predicate IsActiveRemote(db: Tables, k: RouteKey) {
    k in db.okRoutes && !db.okRoutes[k].isLocal
  }

  lemma ExplainedIsFrom(cfg: Config, h: seq<Observation>, k: RouteKey, r: RipDbEntry) returns (i: nat, silence: nat)
    requires Explains(cfg, h, k, r) && r.ripEntry.metric <= 15
    ensures IsLastWord(h, i, k, r.ripEntry.nextHop, silence) && IsFrom(cfg, h[i], silence, r)
  {
    hide IsWord, IsEntryValid, LastUpdate, TicksSince;
    silence := TicksSince(h, k, r.ripEntry.nextHop);
    i := LastUpdateIsLastWord(h, k, r.ripEntry.nextHop);
  }

  /** Over every run: each active remote route is, field by field, the last word of its next hop. */
  lemma RouteIsLastWord(cfg: Config, states: seq<State>, events: seq<Timed>, n: nat, k: RouteKey)
    returns (i: nat, silence: nat)
    requires cfg.timeoutLimit > 0 && IsRun(cfg, states, events) && SourcesNonzero(events) && n <= |events|
    requires IsActiveRemote(states[n].core.db, k)
    ensures var h, r := HistoryOf(events[..n]), states[n].core.db.okRoutes[k];
            IsLastWord(h, i, k, r.ripEntry.nextHop, silence) && IsFrom(cfg, h[i], silence, r)
  {
    hide Explains, IsLastWord, IsFrom, IsUnicastAddress, IsNetMaskValid;
    HistoryExplainsRoutes(cfg, states, events, n);
    RunConsistent(cfg, states, events, n);
    i, silence := ExplainedIsFrom(cfg, HistoryOf(events[..n]), k, states[n].core.db.okRoutes[k]);
  }

  // ----- the kernel table

  /** The message that installs a route to the entry's destination by way of its sender. */
  ghost predicate Forwards(m: RouteMessage, o: Observation) {
    && o.Entry?
    && m.destination == o.entry.ipAddress && HasLength(o.entry.subnetMask, m.prefixLen)
    && m.gateway == o.source && m.outputInterface == o.ifInfo.ifIndex
    && m.priority == 20 + o.entry.metric + 1
  }

  ghost predicate IsForwarded(h: seq<Observation>, db: Tables, m: RouteMessage) {
    exists k, i: nat, silence: nat ::
      && IsActiveRemote(db, k) && i < |h|
      && IsLastWord(h, i, k, db.okRoutes[k].ripEntry.nextHop, silence)
      && Forwards(m, h[i])
  }

  /** Over every run: the kernel holds a message if and only if it forwards the destination of some
      active remote route to the sender of the last valid entry for it, on the interface which that
      packet came by, with a priority of 20 plus one more than its metric. */
  lemma KernelForwardsLastWords(cfg: Config, states: seq<State>, events: seq<Timed>, n: nat, m: RouteMessage)
    requires cfg.timeoutLimit > 0 && IsRun(cfg, states, events) && SourcesNonzero(events) && n <= |events|
    ensures m in states[n].core.kernel.table <==> IsForwarded(HistoryOf(events[..n]), states[n].core.db, m)
  {
    hide IsLastWord, IsUnicastAddress, IsNetMaskValid, Next, Init, HistoryOf, Pow2, Replay;
    RunConsistent(cfg, states, events, n);
    var h, c := HistoryOf(events[..n]), states[n].core;
    KernelIsImageOfActiveRoutes(c);
    assert m in c.kernel.table <==> IsInstalled(c.db, m);
    if m in c.kernel.table {
      var k :| k in c.db.okRoutes && !c.db.okRoutes[k].isLocal && RoutesTo(m, c.db.okRoutes[k]);
      var i, silence := RouteIsLastWord(cfg, states, events, n, k);
      LastWordIsInHistory(h, i, k, c.db.okRoutes[k].ripEntry.nextHop, silence);
      assert Forwards(m, h[i]);
    }
    if IsForwarded(h, c.db, m) {
      var k, i: nat, silence: nat :|
        && IsActiveRemote(c.db, k) && i < |h| && IsLastWord(h, i, k, c.db.okRoutes[k].ripEntry.nextHop, silence)
        && Forwards(m, h[i]);
      var i', silence' := RouteIsLastWord(cfg, states, events, n, k);
      LastWordIsUnique(h, i, i', k, c.db.okRoutes[k].ripEntry.nextHop, silence, silence');
      assert RoutesTo(m, c.db.okRoutes[k]);
    }
  }

  lemma LastWordIsInHistory(h: seq<Observation>, i: nat, k: RouteKey, nextHop: u32, silence: nat)
    requires IsLastWord(h, i, k, nextHop, silence)
    ensures i < |h|
  {
  }

  lemma LastWordIsUnique(h: seq<Observation>, i: nat, j: nat, k: RouteKey, nextHop: u32, a: nat, b: nat)
    requires IsLastWord(h, i, k, nextHop, a) && IsLastWord(h, j, k, nextHop, b)
    ensures i == j && a == b
  {
    hide IsWord;
  }

  // ----- the calls

  /** The message was added, and not deleted since. */
  ghost predicate IsPresent(calls: seq<KernelCall>, m: RouteMessage) {
    exists i :: 0 <= i < |calls| && calls[i] == AddCall(m) && forall j :: i < j < |calls| ==> calls[j] != DeleteCall(m)
  }

  /** The call does what it says: no other route has the identity that it adds, and the route that
      it deletes is there. */
  ghost predicate TakesEffect(before: seq<KernelCall>, call: KernelCall) {
    match call
    case AddCall(m) =>
      forall o :: IsPresent(before, o) ==>
        o.destination != m.destination || o.prefixLen != m.prefixLen || o.priority != m.priority
    case DeleteCall(m) => IsPresent(before, m)
  }

  lemma PresentStep(calls: seq<KernelCall>, call: KernelCall, m: RouteMessage)
    ensures IsPresent(calls + [call], m) <==> call == AddCall(m) || (IsPresent(calls, m) && call != DeleteCall(m))
  {
    var all := calls + [call];
    assert all[|calls|] == call;
    if IsPresent(calls, m) && call != DeleteCall(m) {
      var i :| 0 <= i < |calls| && calls[i] == AddCall(m) && forall j :: i < j < |calls| ==> calls[j] != DeleteCall(m);
      assert all[i] == AddCall(m);
    }
    if IsPresent(all, m) && call != AddCall(m) {
      var i :| 0 <= i < |all| && all[i] == AddCall(m) && forall j :: i < j < |all| ==> all[j] != DeleteCall(m);
      assert calls[i] == AddCall(m);
      assert forall j :: i < j < |calls| ==> calls[j] == all[j];
    }
  }

  ghost predicate AllTakeEffect(calls: seq<KernelCall>) {
    forall i :: 0 <= i < |calls| ==> TakesEffect(calls[..i], calls[i])
  }

  lemma AllTakeEffectStep(calls: seq<KernelCall>, call: KernelCall)
    ensures AllTakeEffect(calls + [call]) <==> AllTakeEffect(calls) && TakesEffect(calls, call)
  {
    hide TakesEffect;
    var all := calls + [call];
    assert all[..|calls|] == calls && all[|calls|] == call;
    assert forall i :: 0 <= i < |calls| ==> all[..i] == calls[..i] && all[i] == calls[i];
  }

  lemma ReplayStep(calls: seq<KernelCall>, call: KernelCall)
    ensures Replay(calls + [call])
            == match Replay(calls)
               case None => None
               case Some(table) =>
                 match call
                 case AddCall(m) => if exists o :: o in table && Collides(o, m) then None else Some(table + {m})
                 case DeleteCall(m) => if m in table then Some(table - {m}) else None
  {
    assert (calls + [call])[..|calls|] == calls;
  }

  /** What a history of calls without soft errors means. */
  lemma {:induction false} ReplayMeans(calls: seq<KernelCall>)
    ensures Replay(calls).Some? <==> AllTakeEffect(calls)
    ensures Replay(calls).Some? ==> forall m :: m in Replay(calls).value <==> IsPresent(calls, m)
  {
    if calls == [] {
    } else {
      hide IsPresent, Replay, AllTakeEffect;
      var init, last := calls[..|calls| - 1], calls[|calls| - 1];
      ReplayMeans(init);
      assert calls == init + [last];
      AllTakeEffectStep(init, last);
      ReplayStep(init, last);
      forall m ensures IsPresent(calls, m) <==> last == AddCall(m) || (IsPresent(init, m) && last != DeleteCall(m)) {
        PresentStep(init, last, m);
      }
    }
  }

  /** Over every run each call to the kernel takes effect, and the table is what they left. */
  lemma CallsTakeEffect(cfg: Config, states: seq<State>, events: seq<Timed>, n: nat)
    requires IsRun(cfg, states, events) && SourcesNonzero(events) && n <= |events|
    ensures var kernel := states[n].core.kernel;
            && AllTakeEffect(kernel.calls)
            && (forall m :: m in kernel.table <==> IsPresent(kernel.calls, m))
  {
    hide AllTakeEffect, IsPresent, TwoMaps, KernelAgrees;
    RunConsistent(cfg, states, events, n);
    ReplayMeans(states[n].core.kernel.calls);
  }
}
