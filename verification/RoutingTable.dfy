/** `routing_table_rtnetlink.rs`: the kernel's identity of a route, and the kernel table as a set
    of route messages. Errno decoding is not modelled: an existing route on add and a missing
    route on delete are soft errors and leave the table alone; any other errno is an I/O error. */
module RoutingTables {
  import opened Wrappers
  import opened Address
  import opened RouteTables

  const RIP_ROUTE_PRIORITY_BASE := 20

  datatype RouteMessage = RouteMessage(
    destination: u32,
    prefixLen: nat,
    gateway: u32,
    outputInterface: u32,
    priority: u32)

  function BuildRouteMessage(route: RipDbEntry): RouteMessage {
    var entry := route.ripEntry;
    RouteMessage(
      entry.ipAddress, LeadingOnes(entry.subnetMask), entry.nextHop, route.ifIndex,
      (RIP_ROUTE_PRIORITY_BASE + entry.metric) % U32_COUNT)
  }

  /** The kernel refuses (EEXIST) a second route with the same destination, length and priority,
      whatever its gateway. */
  predicate Collides(a: RouteMessage, b: RouteMessage) {
    a.destination == b.destination && a.prefixLen == b.prefixLen && a.priority == b.priority
  }

  datatype KernelCall = AddCall(message: RouteMessage) | DeleteCall(message: RouteMessage)

  /** The daemon's part of the kernel table, and every call the kernel has accepted. */
  datatype Kernel = Kernel(table: set<RouteMessage>, calls: seq<KernelCall>) {
    function Add(m: RouteMessage): Kernel {
      Kernel(if exists o :: o in table && Collides(o, m) then table else table + {m}, calls + [AddCall(m)])
    }

    function Delete(m: RouteMessage): Kernel {
      Kernel(table - {m}, calls + [DeleteCall(m)])
    }
  }

  const EMPTY_KERNEL := Kernel({}, [])

  /** The table that a list of calls builds up, or None if one of them met a soft error: an add
      of a taken identity or a delete of an absent route. */
  function Replay(calls: seq<KernelCall>): Option<set<RouteMessage>> {
    if calls == [] then Some({})
    else
      match Replay(calls[..|calls| - 1])
      case None => None
      case Some(table) =>
        match calls[|calls| - 1]
        case AddCall(m) => if exists o :: o in table && Collides(o, m) then None else Some(table + {m})
        case DeleteCall(m) => if m in table then Some(table - {m}) else None
  }

  lemma ReplayAdd(k: Kernel, m: RouteMessage)
    requires Replay(k.calls) == Some(k.table)
    requires !exists o :: o in k.table && Collides(o, m)
    ensures Replay(k.Add(m).calls) == Some(k.Add(m).table)
    ensures k.Add(m).table == k.table + {m}
  {
    assert k.Add(m).calls[..|k.calls|] == k.calls;
  }

  lemma ReplayDelete(k: Kernel, m: RouteMessage)
    requires Replay(k.calls) == Some(k.table) && m in k.table
    ensures Replay(k.Delete(m).calls) == Some(k.Delete(m).table)
  {
    assert k.Delete(m).calls[..|k.calls|] == k.calls;
  }

  /** The key of the route that a message was built from, if its mask is valid. */
  function OwnerKey(m: RouteMessage): RouteKey {
    if m.prefixLen <= 32 && PrefixToMask(m.prefixLen).Success?
    then RouteKey(m.destination, PrefixToMask(m.prefixLen).value)
    else RouteKey(m.destination, 0)
  }

  lemma OwnerKeyOfMessage(r: RipDbEntry)
    requires IsNetMaskValid(r.ripEntry.subnetMask)
    ensures OwnerKey(BuildRouteMessage(r)) == Key(r)
  {
    ValidMaskIsPrefixMask(r.ripEntry.subnetMask);
  }

  /** Routes of different keys never share a kernel destination and prefix length. */
  lemma DistinctKeysDistinctKernelRoutes(a: RipDbEntry, b: RipDbEntry)
    requires IsNetMaskValid(a.ripEntry.subnetMask) && IsNetMaskValid(b.ripEntry.subnetMask)
    ensures Key(a) == Key(b) <==>
            && BuildRouteMessage(a).destination == BuildRouteMessage(b).destination
            && BuildRouteMessage(a).prefixLen == BuildRouteMessage(b).prefixLen
  {
    OwnerKeyOfMessage(a);
    OwnerKeyOfMessage(b);
  }

  /** The message of a route, by its fields: the priority is 20 plus the metric, and the prefix
      length the one whose mask the route has. */
  ghost predicate RoutesTo(m: RouteMessage, r: RipDbEntry) {
    && m.destination == r.ripEntry.ipAddress
    && m.gateway == r.ripEntry.nextHop && m.outputInterface == r.ifIndex
    && m.priority == 20 + r.ripEntry.metric
    && 1 <= m.prefixLen <= 31 && r.ripEntry.subnetMask == 0x1_0000_0000 - Pow2(32 - m.prefixLen)
  }

  /** A mask and a metric that a stored route may have. */
  predicate IsRoutable(r: RipDbEntry) {
    IsNetMaskValid(r.ripEntry.subnetMask) && r.ripEntry.metric <= 16
  }

  /** Such a route has exactly one message. */
  lemma MessageIsDetermined(m: RouteMessage, r: RipDbEntry)
    requires IsRoutable(r)
    ensures RoutesTo(m, r) <==> m == BuildRouteMessage(r)
  {
    hide LeadingOnes, Pow2, IsNetMaskValid;
    var mask := r.ripEntry.subnetMask;
    ValidMaskIsPrefixMask(mask);
    MaskValue(LeadingOnes(mask));
    if RoutesTo(m, r) {
      MaskValue(m.prefixLen);
      LeadingOnesInvertsPrefixToMask(m.prefixLen);
    }
  }

  lemma AddByFields(kernel: Kernel, route: RipDbEntry)
    requires IsRoutable(route)
    ensures forall m :: m in kernel.Add(BuildRouteMessage(route)).table <==>
              || m in kernel.table
              || (RoutesTo(m, route) && forall o :: o in kernel.table ==>
                    o.destination != m.destination || o.prefixLen != m.prefixLen || o.priority != m.priority)
  {
    hide BuildRouteMessage, RoutesTo, IsNetMaskValid;
    forall m ensures RoutesTo(m, route) <==> m == BuildRouteMessage(route) {
      MessageIsDetermined(m, route);
    }
  }

  lemma DeleteByFields(kernel: Kernel, route: RipDbEntry)
    requires IsRoutable(route)
    ensures forall m :: m in kernel.Delete(BuildRouteMessage(route)).table <==> m in kernel.table && !RoutesTo(m, route)
  {
    hide BuildRouteMessage, RoutesTo, IsNetMaskValid;
    forall m ensures RoutesTo(m, route) <==> m == BuildRouteMessage(route) {
      MessageIsDetermined(m, route);
    }
  }

  class RoutingTable {
    var kernel: Kernel
    /** The calls that ended in a hard error, oldest first. */
    var rejected: seq<KernelCall>

    constructor ()
      ensures kernel == EMPTY_KERNEL && rejected == []
    {
      kernel, rejected := EMPTY_KERNEL, [];
    }

    /** The outcome of the netlink call itself is up to the environment. */
    method AddRoute(route: RipDbEntry) returns (r: RipResult<()>)
      modifies this
      ensures r.Success? ==> kernel == old(kernel).Add(BuildRouteMessage(route)) && rejected == old(rejected)
      ensures r.Failure? ==>
                && r.error == IoError && kernel == old(kernel)
                && rejected == old(rejected) + [AddCall(BuildRouteMessage(route))]
      ensures r.Success? && IsRoutable(route) ==> forall m :: m in kernel.table <==>
                || m in old(kernel).table
                || (RoutesTo(m, route) && forall o :: o in old(kernel).table ==>
                      o.destination != m.destination || o.prefixLen != m.prefixLen || o.priority != m.priority)
    {
      hide BuildRouteMessage, RoutesTo, IsRoutable;
      if * {
        rejected := rejected + [AddCall(BuildRouteMessage(route))];
        return Failure(IoError);
      }
      if IsRoutable(route) {
        AddByFields(kernel, route);
      }
      kernel := kernel.Add(BuildRouteMessage(route));
      r := Success(());
    }

    method DeleteRoute(route: RipDbEntry) returns (r: RipResult<()>)
      modifies this
      ensures r.Success? ==> kernel == old(kernel).Delete(BuildRouteMessage(route)) && rejected == old(rejected)
      ensures r.Failure? ==>
                && r.error == IoError && kernel == old(kernel)
                && rejected == old(rejected) + [DeleteCall(BuildRouteMessage(route))]
      ensures r.Success? && IsRoutable(route) ==>
                forall m :: m in kernel.table <==> m in old(kernel).table && !RoutesTo(m, route)
    {
      hide BuildRouteMessage, RoutesTo, IsRoutable;
      if * {
        rejected := rejected + [DeleteCall(BuildRouteMessage(route))];
        return Failure(IoError);
      }
      if IsRoutable(route) {
        DeleteByFields(kernel, route);
      }
      kernel := kernel.Delete(BuildRouteMessage(route));
      r := Success(());
    }
  }
}
