/** `rip_route.rs`: the local route of an advertised network. Text parsing and the lookup of the
    interface index are done; a failed lookup or parse never reaches this function. */
module RipRoute {
  import opened Wrappers
  import opened RipPacket
  import opened Address

  const AF_INET: u16 := 2

  datatype LocalRoute = LocalRoute(entry: RipEntry, ifIndex: u32, ifName: string)

  /** An advertised network of the configuration or of an HTTP request. */
  datatype AdvertisedNetwork = AdvertisedNetwork(address: u32, prefix: u32, ifIndex: u32, dev: string)

  function AdvertisedNetworkToLocalRoute(network: AdvertisedNetwork): RipResult<LocalRoute> {
    var subnetMask :- PrefixToMask(network.prefix);
    var ipAddress := And(network.address, subnetMask, 32);
    Success(LocalRoute(RipEntry(AF_INET, 0, ipAddress, subnetMask, 0, 1), network.ifIndex, network.dev))
  }

  /** The local route is the network itself: host bits cleared, prefix bits kept, and a mask of
      exactly the configured length. Only a prefix above 32 is refused. */
  lemma LocalRouteIsTheNetwork(n: AdvertisedNetwork)
    ensures var r := AdvertisedNetworkToLocalRoute(n);
            && (r.Success? <==> n.prefix <= 32)
            && (r.Success? ==>
                  var e := r.value.entry;
                  && e.metric == 1 && e.nextHop == 0
                  && e.ipAddress == n.address - n.address % Pow2(32 - n.prefix)
                  && LeadingOnes(e.subnetMask) == n.prefix)
  {
    if n.prefix <= 32 {
      MaskValue(n.prefix);
      LeadingOnesInvertsPrefixToMask(n.prefix);
      Pow2Values();
      AndMask(n.address, 32 - n.prefix, 32);
    }
  }
}
