# A verified model of the RIPv2 daemon

This project models the RIPv2 routing daemon (RFC 2453) of the repository in Dafny and proves what
it keeps over whole runs, on one router and in a network of routers. To verify it:

    dafny verify dfyconfig.toml

## What is modelled

One router, bottom up, one module per source file:

- `Address`, `RipPacket`, `RipRoute`: masks and addresses, the wire form of headers and entries, the
  local route of a configured network. Integers are `u16`/`u32`/`u64` subset types; wrapping and
  saturating operations are written out.
- `RouteTables` and `Database`: the two route maps with their per-route flags and counters and the
  global dirty flag. `RouteTables` gives each operation as a function on values, `Database` the
  object that updates its maps in place, proved against those functions. A hash map is visited in
  an arbitrary order (`IsOrder`, `VisitKeys`), active routes before garbage routes.
- `RoutingTables`: the kernel table as a set of route messages. An add whose destination, prefix
  length and priority are taken (EEXIST) and a delete of an absent message (ENOENT, ESRCH) change
  nothing and count as success; every other failure is nondeterministic, and put on record.
- `Updater`: datagrams of at most 25 entries, filled in place in a byte array, and the logs of what
  was sent and of what could not be sent.
- `Response`: the response handler on values (`HandleEntry`), the invariant of the two maps
  (`TwoMaps`), the agreement with the kernel (`KernelAgrees`) and both together with the history of
  kernel calls (`Consistent`).
- `Steps`: the `select!` loop as a step relation `Next` (one arm, then the triggered-update check)
  and runs `IsRun`. `Outcomes`: what a refusal by the kernel or a socket does to a handler and to
  the shutdown. `Deamon`: the daemon object itself, whose handlers and whose loop `Run` are proved
  to take exactly these steps, or to end as `Outcomes` says.

On top of it:

- `ResponseLaws`, `Invariants`, `History`, `Runs`, `Views`, `Stabilisation`: laws of one router.
- `WireLayout`, `Announcements`, `EntryLaws`, `StepLaws`, `KernelLaws`: what the functions above
  amount to, stated by the fields of entries, records, datagrams and messages and with the numbers
  written out, without speaking of those functions: where each octet lies, who is told what, what an
  entry, an event and a whole step change, what the kernel holds and is told. `StepHasMeaning`
  describes every step of the loop in these terms, `RunHasMeaning` every run.
- `Existence`: the step relation is never blocked, and concrete runs that refute tempting claims.
- `Network`, `Safety`: routers on shared links. `Within(t, r, k, n)` says that an originator of
  destination k is at most n hops from router r.
- `Rounds`, `RoundExistence`: rounds of a network without failures, as stretches of its executions.
  The routers take steps of the loop in any interleaving, triggered updates, timeouts, garbage
  collection and requests included. It makes a round that every response is processed in the round
  in which it was sent (in any order, repeatedly, or not at all), that each router sends a full
  update that each neighbour receives, and that each timeout timer fires between `least` and `most`
  times.
- `Course`, `Convergence`, `Recovery`: the invariant of such rounds, and what it leads to.

## What is false of the code, and what holds instead

- Garbage does not imply an armed collection timer. A neighbour that announces a route and then
  poisons it leaves garbage that no timer covers (`UncoveredGarbageIsReachable`). A step from a
  covered state does this exactly if it is a response, no timer is armed, and for some destination
  the last valid entry of the response has metric 15 or 16 while its sender is the next hop, at the
  start or because of an entry of the same response that is better than what is stored
  (`UncoveredGarbageArises`). Garbage that a timeout creates is always covered
  (`TimedOutGarbageIsCovered`).
- A route that is in garbage before and after a step need not be the same one: a response that names
  its destination twice, usable and then poisoned, restarts its clock (`RepeatRestartsGarbage`). A
  response does this exactly if it offers the destination, which is in garbage only, with a metric
  of at most 14 (`PacketGarbageRecord`); no other event touches the record (`StepKeepsGarbage`,
  `GarbageStartTimeIsFixed`).
- A full update does not always tell the truth about an active route: it fails exactly if a garbage
  route of the same destination, over which a local route was added, is advertised on the same
  interface, because garbage is sent last (`FullUpdateTellsActiveRoute`); a run gets there
  (`MisledNeighbourIsReachable`). `NeighbourViewIsCurrent`
  therefore supposes that no local route is added over a garbage destination.
- A local route is not safe from a packet with source 0.0.0.0, which equals its next hop; it survives
  an entry for its destination exactly if the source is another address
  (`LocalSurvivesUnlessSourceIsZero`). Run theorems about responses suppose nonzero sources.
- One round of fixed advertisements need not end in the best route (`OneRoundMayMiss`). It fails
  exactly if no offer heard before the current next hop is below the stored metric, and one of them
  is below every offer heard from the current next hop on (`OneRoundMisses`). Without a route at the
  start one round is enough (`OneRoundFromNothing`); two rounds always are.

## Model

| member | source | states |
|---|---|---|
| Address.MaskValue | src/address.rs:3-16 | for every prefix up to 32 the mask is 2^32 - 2^(32 - prefix) as a number, although the shift overflows the word |
| Address.LeadingOnesInvertsPrefixToMask | src/address.rs:3-16 | counting leading ones gives back every prefix from its mask |
| Address.IsUnicastAddress | src/address.rs:18-34 | as an address range: 1.0.0.0 up to 126.255.255.255 and 128.0.0.0 up to 223.255.255.255, nothing else |
| Address.NetMaskValidIffPrefixMask | src/address.rs:36-42 | a mask is accepted if and only if it is the mask of some prefix from 1 to 31 |
| Address.ValidMaskIsPrefixMask | src/address.rs:36-42 | an accepted mask is determined by its number of leading ones, which lies between 1 and 31 |
| Address.AndMask | src/rip_route.rs:31 | masking with the mask of a prefix clears exactly the host bits |
| RipRoute.LocalRouteIsTheNetwork | src/rip_route.rs:19-47 | fails only on a prefix above 32; otherwise the route is the network of the address, with next hop 0, metric 1 and a mask of exactly the given length |
| RipPacket.WireFormIsHostIndependent | src/rip_packet.rs:109-116 | converting and then viewing an entry as raw memory yields the big-endian wire form on hosts of either byte order |
| RipPacket.EntryRoundTrip | src/rip_packet.rs:118-135 | parsing the wire form of any entry returns that entry |
| RipPacket.FromSlice | src/rip_packet.rs:64-81 | the loop accepts exactly a header followed by whole entries, and yields the entries in order; anything else, datagrams shorter than a header included, is malformed |
| RipPacket.ParseInvertsEncode | src/rip_packet.rs:64-81 | a list of entries survives encoding and parsing |
| RipPacket.EncodeInvertsParse | src/rip_packet.rs:64-81 | any body of whole entries survives parsing and encoding |
| RouteTables.SelectionMembers | src/rip_database.rs:278-298 | split horizon for every iteration order: an entry is selected for an interface if and only if some stored route of another interface carries it, with next hop 0, and is flagged if only changes are asked for |
| Announcements.SelectionIsSplitHorizon | src/rip_database.rs:278-298 | by fields: a selection for an interface holds the family, tag, address, mask and metric of exactly the stored routes, active or garbage, whose interface is another one, with next hop 0, and of flagged ones only if that is asked |
| Announcements.SelectionSize | src/rip_database.rs:278-298 | each of these routes is selected once |
| Announcements.AdvertisementIsSplitHorizon | src/rip_updater.rs:131-155 | the same of what is heard on each interface after an advertisement: all of it multicast version-2 responses, on the daemon's interfaces, of the routes of other interfaces, and nothing on any other interface |
| Announcements.AdvertisementSize | src/rip_updater.rs:131-155 | on distinct interfaces each such route is heard once per interface |
| Announcements.InterfacesInOrder | src/rip_updater.rs:135-152 | the interfaces are served one after the other, each with its own selection |
| Announcements.DestinationIsTold | src/rip_database.rs:286-292 | an advertisement says something about a destination on an interface if and only if one of its stored routes lies on another interface, and is flagged if only changes are asked for; so a destination whose routes all lie on an interface is never heard there |
| RouteTables.OutlivedGarbage | src/rip_database.rs:231-236 | with a clock difference that saturates at zero: a dated route has outlived the lifetime if and only if the lifetime is zero or the date plus the lifetime is not after the clock |
| RouteTables.LastForSelection | src/rip_database.rs:278-298 | what a receiver is left with for a destination after a selection does not depend on iteration order: the garbage route's entry if that is selected, else the active route's |
| Database.UpdateAll | src/rip_database.rs:257-267 | a pass over a hash map in an arbitrary order changes every value once and no key |
| Database.VisitKeys | src/rip_database.rs:283-285 | an iteration meets every key of the map exactly once |
| Database.SelectRoutes | src/rip_database.rs:286-297 | the loop with its filter and its changed next hop selects what SelectFrom does, for which split horizon is proved by fields (Announcements.SelectionIsSplitHorizon) |
| Database.RipDatabase.AddLocalRoute | src/rip_database.rs:55-74 | adds a flagged local route and raises the dirty flag, or refuses a destination that is active and changes nothing; garbage is not looked at |
| Database.RipDatabase.AddRemoteRoute | src/rip_database.rs:81-99 | the same for a remote route, which is marked as in the kernel |
| Database.RipDatabase.AddRoute | src/rip_database.rs:101-136 | insertion with counter 0 and no garbage time, or an error and no change |
| Database.RipDatabase.RemoveRoute | src/rip_database.rs:138-151 | takes the active route, else the garbage route of the destination, else fails; never both |
| Database.RipDatabase.RefreshRouteTimeout | src/rip_database.rs:163-168 | resets the counter of that destination's active route alone |
| Database.RipDatabase.CollectTimedOutRoutes | src/rip_database.rs:170-190 | every remote counter advances once, saturating; exactly the routes that reached the limit are reported, each once, in an arbitrary order, with their new counters |
| Database.RipDatabase.MoveRouteToGarbage | src/rip_database.rs:192-222 | the route moves with metric 16, flagged and dated; the two error cases, of which the second loses the active route |
| Database.RipDatabase.RemoveExpiredGarbageRoutes | src/rip_database.rs:224-246 | the routes that go, and are returned, are exactly the garbage routes with a start time, if the lifetime is zero or the start time plus the lifetime is not after now; all others stay |
| Database.RipDatabase.PoisonAllRoutes | src/rip_database.rs:252-267 | every stored route gets metric 16 and is flagged, and keeps all else; the dirty flag goes up unless nothing is stored |
| Database.RipDatabase.GetRoutesInRoutingTable | src/rip_database.rs:269-276 | the routes marked as in the kernel, each once, active before garbage |
| Database.RipDatabase.GetRoutesForAdvertisement | src/rip_database.rs:278-298 | yields a selection as Announcements.SelectionIsSplitHorizon and SelectionSize describe it |
| Database.RipDatabase.MarkAllRoutesAsUnchanged | src/rip_database.rs:304-317 | clears all flags, or nothing when the dirty flag is down |
| RoutingTables.DistinctKeysDistinctKernelRoutes | src/routing_table_rtnetlink.rs:95-109 | for valid masks, two routes share a kernel destination and prefix length if and only if they have the same key |
| RoutingTables.OwnerKeyOfMessage | src/routing_table_rtnetlink.rs:95-109 | the key of a route can be read back from its kernel message |
| RoutingTables.MessageIsDetermined | src/routing_table_rtnetlink.rs:95-109 | by fields: the message of a route with a valid mask is the one with its address as destination, its next hop as gateway, its interface as output interface, a priority of 20 plus its metric, and the prefix length n of 1 to 31 for which its mask is 2^32 - 2^(32 - n) |
| RoutingTables.RoutingTable.AddRoute | src/routing_table_rtnetlink.rs:31-48 | the message, whose fields MessageIsDetermined gives, joins the kernel's set unless its identity is taken; a hard error changes nothing but the record of refused calls |
| RoutingTables.RoutingTable.DeleteRoute | src/routing_table_rtnetlink.rs:50-70 | the message, whose fields MessageIsDetermined gives, is gone from the kernel's set afterwards; a hard error changes nothing but the record of refused calls |
| WireLayout.PacketLayout | src/rip_packet.rs:64-81 | a datagram is a packet if and only if it has 4 octets and a multiple of 20 more; command, version, padding and each field of each entry lie in network order at their fixed offsets |
| WireLayout.ResponseLayout | src/rip_updater.rs:32-50 | a response is the octets 2, 2, 0, 0 and 20 octets for each entry, family, tag, address, mask, next hop and metric at their offsets |
| WireLayout.RequestLayout | src/rip_updater.rs:74-91 | a whole-table request is 24 octets, all zero but the command 1, the version 2 and the metric 16, one multicast on each interface |
| Updater.BuildResponseBuffer | src/rip_updater.rs:32-50 | the buffer filled in place by offset is the wire form of the response, on either host |
| Updater.BuildResponseBuffers | src/rip_updater.rs:52-65 | the chunks of one selection, encoded |
| Updater.ParseResponse | src/rip_updater.rs:32-50 | a receiver parses a response back into its entries |
| Updater.ReencodeResponse | src/rip_packet.rs:64-81 | re-encoding any received version-2 response with zero padding restores its bytes |
| Updater.BuffersRoundTrip | src/rip_updater.rs:52-65 | parsing all datagrams of a selection and concatenating gives exactly that selection |
| Updater.BufferSizes | src/rip_updater.rs:61-64 | no datagram is empty or longer than 504 bytes, and all but the last are full |
| Updater.AdvertisementHeard | src/rip_updater.rs:131-155 | after a multicast advertisement, a neighbour's last entry for a destination is the announced one if there is one, else the one it had |
| Updater.RipUpdater.SendBuffers | src/rip_updater.rs:144-151 | all datagrams are sent in order, or those before the first failure, which is recorded and returned |
| Updater.RipUpdater.SendResponseUnicast | src/rip_updater.rs:93-129 | exactly one full selection for the interface goes to the requester, or its beginning up to a recorded failure |
| Updater.RipUpdater.SendRequestMulticast | src/rip_updater.rs:74-91 | one whole-table request goes out, or its failure is recorded |
| Updater.ParseRequest | src/rip_packet.rs:83-87 | a receiver recognises that request |
| Updater.UpdateReaches | src/rip_updater.rs:131-155 | a full update carries every active route that no garbage shadows to every interface but its own |
| Updater.RipUpdater.SendAdvertisementMulticast | src/rip_updater.rs:131-155 | one selection per interface goes out, in the order of the interfaces, or the beginning of that up to a recorded failure |
| Response.KernelIsImageOfActiveRoutes | src/rip_deamon.rs:338-340 | agreement with the kernel means: the table is the image of the active remote routes, and holds a message if and only if some active remote route has its destination, prefix length, gateway, interface and priority |
| Response.NewKeyDoesNotCollide | src/routing_table_rtnetlink.rs:36-44 | while the kernel agrees with the database, a route for a new destination never meets EEXIST |
| Response.HandleEntryPreserves | src/rip_deamon.rs:316-456 | every branch of the handler keeps the two-map invariant, the kernel agreement, and a call history without soft errors |
| EntryLaws.ValidityByFields | src/rip_deamon.rs:105-113 | an entry is accepted if and only if its address is in 1.0.0.0 to 126.255.255.255 or 128.0.0.0 to 223.255.255.255, its mask that of a prefix from 1 to 31, and its metric from 1 to 16 |
| EntryLaws.EntryEffect | src/rip_deamon.rs:304-456 | by fields: an entry that is not accepted does nothing; else, by metric 15 or more it buries the route of its sender, dated now; it is learned with every field given where nothing is active, clearing garbage; it refreshes the route of its sender or replaces it if anything differs; it replaces a route that is worse than it with one more hop; nothing else changes, and the dirty flag goes up if and only if the active route came, went or was replaced |
| ResponseLaws.EntryIsLocal | src/rip_deamon.rs:379-456 | an entry touches its own destination only, and what it does there depends only on what is stored there |
| ResponseLaws.PacketIsPointwise | src/rip_deamon.rs:304-313 | a response with distinct destinations acts on each of them as if it were alone |
| ResponseLaws.PacketOrderIrrelevant | src/rip_deamon.rs:304-313 | any permutation of such a response gives the same database and the same kernel table |
| ResponseLaws.PacketIsIdempotent | src/rip_deamon.rs:304-456 | handling such a response again, at any time, changes nothing and makes no kernel call |
| Deamon.RipDeamon.SetupAdvertisedNetwork | src/rip_deamon.rs:236-246 | succeeds exactly for a good prefix and a destination that is not active |
| Deamon.RipDeamon.SetupNetworks | src/rip_deamon.rs:248-257 | the configured networks are added in order, up to the first refused one, which ends the start with an error |
| Deamon.RipDeamon.HandlePoisonedRouteFromResponse | src/rip_deamon.rs:316-359 | kernel delete and move to garbage, for the current next hop only; from a consistent state it fails only by a refused delete |
| Deamon.RipDeamon.ReplaceRouteFromResponse | src/rip_deamon.rs:361-377 | the old message leaves the kernel, the new route replaces the old one, its message enters; a refused delete leaves everything as it was, a refused add only the kernel without the new message |
| Deamon.RipDeamon.UpdateRouteFromResponse | src/rip_deamon.rs:379-456 | the four cases and the poison case; from a consistent state the only failures are refused calls, after which the kernel lacks at most the route it refused |
| Deamon.RipDeamon.HandleResponsePacket | src/rip_deamon.rs:287-314 | refuses exactly other versions, ignores other ports, else handles the entries in order, up to the first refused call |
| Deamon.RipDeamon.HandlePacket | src/rip_deamon.rs:267-285 | a whole-table request adds to the log, by unicast to the sender on the packet's interface, responses with an entry for each route of another interface, and changes nothing else; a response has its entries act in order, or is ignored if not from port 520; fails as malformed if and only if the packet is neither, or of another version, and then all routes stay installed |
| Deamon.RipDeamon.SendMulticastAdvertisement | src/rip_deamon.rs:458-471 | flags are cleared if and only if everything was sent |
| Deamon.RipDeamon.SendMulticastRequest | src/rip_deamon.rs:473-485 | one request on each interface, or a recorded failure |
| Deamon.RipDeamon.MaybeSendTriggeredUpdate | src/rip_deamon.rs:487-503 | if and only if the lock is free and the dirty flag is up, the flagged routes and no others are told on every interface but their own, the flags are cleared, and the lock is armed |
| Deamon.RipDeamon.HandleRouteTimeoutTick | src/rip_deamon.rs:505-536 | one timeout step; the timer for garbage is armed if anything timed out |
| Deamon.RipDeamon.RetireTimedOutRoutes | src/rip_deamon.rs:517-526 | no route of the collected snapshot has moved when its turn comes, so no lookup in the loop fails |
| Deamon.RipDeamon.HandleGarbageCollectionTick | src/rip_deamon.rs:538-559 | garbage put there at t stays if and only if the lifetime is positive and now is before t plus the lifetime; the timer is armed again exactly if garbage is left; nothing else changes |
| Deamon.RipDeamon.HandleShutdown | src/rip_deamon.rs:561-589 | poisons everything and advertises it, up to the first recorded send failure; then, from a consistent state, exactly those installed routes stay in the kernel whose delete was refused on record during this shutdown, so none if none was |
| Outcomes.InstalledRoutesAreListed | src/rip_deamon.rs:563 | the delete list taken before the poisoning names every installed route exactly once |
| Outcomes.OneMoreDeleted | src/rip_deamon.rs:574-588 | each delete of the loop removes its own route or leaves a record of the refusal |
| Deamon.RipDeamon.HandleArm | src/rip_deamon.rs:644-728 | each arm of the loop is an arm of the relation; its failures are malformed packets and refusals |
| Deamon.RipDeamon.HandleEvent | src/rip_deamon.rs:643-733 | one turn of the loop is one step of the relation, or ends the run because of a malformed packet, with nothing changed, or of one refusal, with the kernel lacking at most the route it refused |
| Deamon.RipDeamon.HandleInputs | src/rip_deamon.rs:643-733 | the loop takes up its inputs one by one as steps of a run, but for timers that are not armed; an error is due to the next input, malformed if and only if the error says so, else to one refusal on record |
| Deamon.RipDeamon.Run | src/rip_deamon.rs:623-734 | the whole daemon: without error all inputs have made up a run, and a shutdown from its last state has left in the kernel exactly the routes whose delete was refused |
| Invariants.RetireAllResult | src/rip_deamon.rs:517-526 | after the timeout loop the listed routes are in garbage and every other destination is as before |
| Invariants.NextPreserves | src/rip_deamon.rs:643-733 | every step keeps the two-map and kernel invariant |
| Invariants.RunConsistent | src/rip_deamon.rs:623-734 | at every loop head of every run: keys match, local routes have metric 1 and are not in the kernel, active remote routes have metric 2 to 15 and are exactly the kernel's routes, garbage is remote, dated, of metric 16; a destination in both maps is local; every flag is covered by the dirty flag; every delete so far hit the message that had been added |
| History.HistoryExplainsRoutes | src/rip_deamon.rs:193-208 | over every run, each active remote route is what its next hop's last valid entry makes of it, with that packet's interface, and its counter is the saturated product of increment and ticks since, below the limit |
| History.TimeoutIsExact | src/rip_deamon.rs:505-526 | a tick retires an active remote route if and only if it is the ceil(limit / increment)-th since that entry; local routes never |
| KernelLaws.RouteIsLastWord | src/rip_deamon.rs:193-208 | over every run and by fields: an active remote route has family, tag, address, mask, interface and one more than the metric of the last valid entry for it from its next hop, who is the sender, and its counter is the increment times the ticks since, counted in the history |
| KernelLaws.KernelForwardsLastWords | src/routing_table_rtnetlink.rs:95-109 | over every run: the kernel holds a message if and only if, for some active remote destination, it has the destination, mask length, sender, interface and 20 plus one more than the metric of that entry |
| KernelLaws.ReplayMeans | src/routing_table_rtnetlink.rs:31-70 | calls meet no soft error if and only if each add is of an identity that no present message has and each delete of a present message, present being added and not deleted since |
| KernelLaws.CallsTakeEffect | src/rip_deamon.rs:623-734 | over every run all calls to the kernel are of this kind, and its table is what they leave present |
| StepLaws.AdvertiseIsTold | src/rip_deamon.rs:458-471 | a sent advertisement tells all routes, or the flagged ones, on every interface but their own, clears all flags and changes nothing else |
| StepLaws.TriggeredUpdateTellsChanges | src/rip_deamon.rs:487-503 | what follows an arm: nothing if the lock is armed or nothing is dirty, else every flagged route and no other is told on every interface but its own, the flags are cleared and the lock is armed |
| StepLaws.RequestIsAnswered | src/rip_updater.rs:93-129 | what a whole-table request adds to the log: responses by unicast to the sender's address and port on the packet's interface, whose entries are, with next hop 0, those of all stored routes of other interfaces, each once; nothing else changes |
| StepLaws.WellFormedByFields | src/rip_deamon.rs:267-292 | the packets that do not end the daemon are the whole-table requests, one entry that is zero but for metric 16, and the packets of command 2 and version 2 |
| StepLaws.EntriesActInOrder | src/rip_deamon.rs:304-314 | the entries of a response act one after the other, each as EntryEffect says |
| StepLaws.TimeoutTicks | src/rip_deamon.rs:505-536 | by destination: local routes stay; a remote counter goes up, or, if that reaches the limit, its route is buried with metric 16, flagged and dated now; the garbage timer is armed if it was or any route was buried |
| StepLaws.GarbageTickCollects | src/rip_deamon.rs:538-559 | the garbage map keeps, unchanged, the routes whose lifetime is not over, and the timer is armed if and only if one is left |
| StepLaws.NetworkIsAdded | src/rip_deamon.rs:236-246 | a network of prefix at most 32 whose masked destination is not active is stored with every field given and raises the dirty flag; else nothing changes |
| StepLaws.SetupHoldsNetworks | src/rip_deamon.rs:248-257 | the daemon starts if and only if all prefixes are at most 32 and no two networks have the same masked destination; it then holds exactly their records |
| StepLaws.ShutdownTellsPoison | src/rip_deamon.rs:561-572 | without a refused send, a shutdown says on every interface exactly the stored routes of all others, with next hop 0 and metric 16 |
| StepLaws.StepHasMeaning | src/rip_deamon.rs:643-733 | every step of the loop, whatever its event: its arm changes what is said above for that event, then the triggered update follows, and the kernel holds the active remote routes by their fields after either |
| StepLaws.RunHasMeaning | src/rip_deamon.rs:623-734 | the same of every step of every run |
| Runs.LocalRoutesArePermanent | src/rip_deamon.rs:379-456 | once added, a local route keeps its entry and interface for the rest of the run |
| Runs.LocalSurvivesUnlessSourceIsZero | src/rip_deamon.rs:206-208 | a valid entry for a local destination leaves the route intact if and only if its source is not 0.0.0.0 |
| Runs.ChangesWaitOnlyForTheLock | src/rip_deamon.rs:730-732 | at every loop head but the first, the lock is armed or no route is flagged |
| Runs.TriggeredUpdatesAreSeparated | src/rip_deamon.rs:487-503 | between two triggered updates of a run the lock has expired (section 3.10.1 of RFC 2453) |
| Runs.GarbageTickIsExact | src/rip_deamon.rs:538-559 | after a collection tick at some time a destination is in garbage if and only if it was, with a start time less than a positive lifetime before; nothing else in the tables changes but flags |
| Runs.EntryKeepsGarbage | src/rip_deamon.rs:344-351 | a route in garbage before and after an entry is the same record |
| Runs.PacketGarbageRecord | src/rip_deamon.rs:304-359 | a response leaves the record of a destination in garbage alone unless it offers that destination; if it does and the destination ends in garbage again, it is dated anew |
| Runs.LocalShieldsGarbage | src/rip_deamon.rs:327-336 | garbage below a local route is out of reach of every response |
| Runs.StepKeepsGarbage | src/rip_deamon.rs:643-733 | the same dichotomy for every event of the loop |
| Runs.GarbageStartTimeIsFixed | src/rip_deamon.rs:344-351 | over a run in which no response offers the destination, a route that stays in garbage keeps its start time |
| Runs.RepeatRestartsGarbage | src/rip_deamon.rs:304-313 | a response that names the destination twice, usable and then poisoned, restarts the clock |
| Runs.OnlyEmptyGarbageDisarms | src/rip_deamon.rs:553-558 | an armed collection timer is only given up by a tick that leaves garbage empty |
| Runs.TimedOutGarbageIsCovered | src/rip_deamon.rs:514-536 | a route that timed out is covered by the collection timer for as long as it stays in garbage |
| Runs.PacketOnSlot | src/rip_deamon.rs:304-456 | what a whole response makes of a destination outside garbage, repetitions included: left alone, taken over, or taken over and buried |
| Runs.PoisonCreatesGarbage | src/rip_deamon.rs:316-342 | from empty garbage a response creates garbage if and only if its sender takes over some destination, or has it, and poisons it last |
| Runs.UncoveredGarbageArises | src/rip_deamon.rs:338-341 | exactly which steps leave garbage without a timer |
| Existence.StepExists | src/rip_deamon.rs:643-733 | every event that the loop accepts has a step: nothing else blocks a run |
| Existence.DeliveryIsPossible | src/rip_deamon.rs:643-733 | the network of the safety theorem is not silent: any response in the log of a router may be handled by any router next to the port it left by, at any time |
| Existence.UncoveredGarbageIsReachable | src/rip_deamon.rs:338-341 | a run that ends with garbage and no armed timer |
| Existence.MisledNeighbourIsReachable | src/rip_database.rs:123-135 | a run after whose last full update the neighbours on an interface have been told another entry than that of an active local route |
| Views.NeighbourViewIsCurrent | src/rip_deamon.rs:458-471 | over every run that adds no local route over garbage: the maps are disjoint, and each unflagged route is, with next hop 0, the last entry multicast for its destination on every interface but its own |
| Views.AdvertiseKeepsCoherent | src/rip_deamon.rs:458-471 | clearing the flags after a full or triggered update drops no change |
| Views.FullUpdateTellsActiveRoute | src/rip_database.rs:283-285 | exactly when a full update tells the truth about an active route |
| Views.ShutdownPoisonsEverywhere | src/rip_deamon.rs:561-572 | after the poison of a shutdown every stored destination is last heard of with metric 16 on every interface other than its own |
| Stabilisation.HandlerRefinesChoose | src/rip_deamon.rs:379-456 | the handler with its maps, kernel calls and counters refines the distance-vector rule of section 3.9.2 of RFC 2453 |
| Stabilisation.TwoRoundsStabilise | src/rip_deamon.rs:379-456 | from any state whose next hop, if any, is a current neighbour, two rounds of fixed advertisements in any order leave a best route, or none |
| Stabilisation.BestIsOnePlusMinimum | src/rip_deamon.rs:115-117 | a best route has one more than the least advertised metric; there is none exactly at 16 |
| Stabilisation.BestIsStable | src/rip_deamon.rs:405-453 | further advertisements then change no route but its counter |
| Stabilisation.OneRoundFromNothing | src/rip_deamon.rs:390-409 | without an active route, one round of fixed advertisements ends in a best one |
| Stabilisation.OneRoundMisses | src/rip_deamon.rs:405-453 | exactly when one round does not end in a best route |
| Stabilisation.OneRoundMayMiss | src/rip_deamon.rs:412-430 | a family of rounds that do not |
| Safety.NoMetricBelowDistance | src/rip_deamon.rs:193-204 | with messages delayed, lost, duplicated, reordered, with timeouts, poison, crashes and shutdowns at any time, no stored finite metric and no finite metric in any datagram is below the true distance |
| RoundExistence.RoundExists | src/rip_deamon.rs:643-733 | from every state of a wired network some execution of the loops makes up a round |
| Course.StepHolds | src/rip_deamon.rs:643-733 | whatever step a router takes in a round, the network stays on course: no false route younger than it should be, shortest routes where they have arrived, nothing else said |
| Course.AgedKeeps | src/rip_deamon.rs:505-526 | a shortest route whose next hop speaks once a round never times out, and a false route grows older with every tick |
| Course.CoveredStays | src/rip_deamon.rs:405-453 | the next hop of a shortest route repeats its metric, and nobody else offers a better one |
| Convergence.FreshNetworkStartsLocal | src/rip_deamon.rs:248-257 | a network of freshly started routers satisfies the start condition of the convergence theorem |
| Convergence.SplitHorizonDoesNotBlock | src/rip_database.rs:286-292 | a neighbour one hop nearer has not learned its route on the shared link, so it advertises it there |
| Convergence.RoundHolds | src/rip_deamon.rs:643-733 | the invariant holds before and after every step of a round |
| Convergence.RoundAdvances | src/rip_deamon.rs:379-456 | a round carries shortest routes one hop further and makes false routes a round older |
| Convergence.NetworkConverges | src/rip_deamon.rs:379-456 | from local routes only, at every moment after j rounds a router h hops away, h at most 14 and j, has metric exactly h + 1; a router not within 14 hops has no route; no metric is below the distance (section 3.4 of RFC 2453) |
| Convergence.UnacceptableStaysPut | src/rip_deamon.rs:109-113 | a destination that validation refuses is never learned, replaced or lost through any delivery |
| Recovery.ReachableIsAnchored | src/rip_deamon.rs:623-734 | whatever a router was told before, its reachable states meet the start condition of the recovery theorems |
| Recovery.FalseRoutesDie | src/rip_deamon.rs:505-526 | from any such states, once the rounds are worth 14 times the route timeout plus the least ageing of a round, no active route is false at any moment: one of metric m has an originator within m - 1 hops |
| Recovery.NetworkHeals | src/rip_deamon.rs:505-536 | at every moment after 14 more rounds a router has a route if and only if an originator is within 14 hops, and its metric is the distance plus one; after j rounds this holds within j hops |

## Conditions of the theorems

- Packets do not come from 0.0.0.0 (run theorems about responses).
- The timeout limit is positive, and for exact expiry the increment too; both can be set to 0 in the
  environment of the daemon.
- In the network theorems every port has a nonzero address of its own and is an interface of the
  protocol, the originators of the destination have it on an interface without neighbours, the set
  of originators does not change, and all routers share the timer settings.
- Convergence and the regrowth of routes need a timeout that no route reaches within two rounds:
  twice the greatest number of ticks in a round, times the increment, is below the limit. The
  defaults, a tick of 15 seconds, updates every 27.5 to 35 seconds and a timeout of 180, leave room
  for 5 ticks in a round.

## Left out

- Sockets, multicast membership, receive tasks: a received packet is an input, a sent datagram an
  entry of a log. A received datagram that does not parse stops its receive task and is no event.
- Real time: timers fire as nondeterministic events while they are armed, the clock is a parameter
  of each event. One clock value is used for a whole packet or tick, where the code reads the clock
  per route. Jitter and intervals are not modelled.
- Netlink connections and errno decoding: only the meaning of the soft errors. Routes that other
  programs put into or take out of the kernel are not modelled.
- Overflow checks: the length test of a datagram and the kernel priority wrap as in a release build,
  where a debug build panics on a datagram shorter than a header.
- HTTP server and user interface: adding a local route is an event, any other request changes nothing.
- Configuration files, environment parsing, logging, text forms of addresses, interface names.
- Request datagrams have a log of their own; they carry no routes. A socket that cannot be opened for
  a unicast reply counts as a failed first datagram.
- The protocol field of a kernel message, which is the same for all.
- The order of calls within a failed handler is described by what it leaves, not call by call.
- Convergence.NetworkConverges: does not say that a router farther than j hops has no route after j
  rounds, because triggered updates may carry a route over several hops within one round.
- In the round theorems no response outlives the round in which it was sent; arbitrary delay is
  covered by the safety theorem only.
- Remote destinations are not masked by the code, nor here: a destination is its raw address and mask.
- Authentication, route tags and the half-timeout rule of RFC 2453: the daemon does not have them.
