/** Networks of such routers: ports on shared links, and distance in hops. */
module Network {
  import opened Wrappers
  import opened RouteTables

  /** An interface of a router. */
  datatype Port = Port(router: nat, ifIndex: u32)

  /** The static topology: the link each port is attached to, the address it sends from, and the
      destinations each router may add as local routes. */
  datatype Topology = Topology(link: map<Port, nat>, address: map<Port, u32>, origins: map<nat, set<RouteKey>>)

  /** Every port has a nonzero address of its own. */
  ghost predicate WellAddressed(t: Topology) {
    && t.address.Keys == t.link.Keys
    && (forall p :: p in t.address ==> t.address[p] != 0)
    && (forall p, q :: p in t.address && q in t.address && p != q ==> t.address[p] != t.address[q])
  }

  predicate Originates(t: Topology, r: nat, k: RouteKey) {
    r in t.origins && k in t.origins[r]
  }

  /** What is sent from one port arrives at the other. A router does not hear itself. */
  predicate Adjacent(t: Topology, p: Port, q: Port) {
    p in t.link && q in t.link && t.link[p] == t.link[q] && p.router != q.router
  }

  ghost predicate Neighbours(t: Topology, r: nat, s: nat) {
    exists p: Port, q: Port :: p.router == r && q.router == s && Adjacent(t, p, q)
  }

  /** Router r is at most n hops from a router that originates k. */
  ghost predicate Within(t: Topology, r: nat, k: RouteKey, n: nat)
    decreases n
  {
    if n == 0 then Originates(t, r, k)
    else Within(t, r, k, n - 1) || exists s :: Neighbours(t, r, s) && Within(t, s, k, n - 1)
  }

  /** Router r is exactly n hops from the nearest originator. */
  ghost predicate AtDistance(t: Topology, r: nat, k: RouteKey, n: nat) {
    Within(t, r, k, n) && (n > 0 ==> !Within(t, r, k, n - 1))
  }

  lemma {:induction false} WithinMonotone(t: Topology, r: nat, k: RouteKey, m: nat, n: nat)
    requires m <= n && Within(t, r, k, m)
    ensures Within(t, r, k, n)
    decreases n
  {
    if m == n {
    } else {
      WithinMonotone(t, r, k, m, n - 1);
    }
  }

  /** One hop further. */
  lemma WithinNextHop(t: Topology, p: Port, q: Port, k: RouteKey, n: nat)
    requires Adjacent(t, p, q) && Within(t, q.router, k, n)
    ensures Within(t, p.router, k, n + 1)
  {
    assert Neighbours(t, p.router, q.router);
  }

  lemma SameDistance(t: Topology, r: nat, k: RouteKey, m: nat, n: nat)
    requires AtDistance(t, r, k, m) && AtDistance(t, r, k, n)
    ensures m == n
  {
    if m < n {
      WithinMonotone(t, r, k, m, n - 1);
    } else if n < m {
      WithinMonotone(t, r, k, n, m - 1);
    }
  }

  lemma {:induction false} DistanceExists(t: Topology, r: nat, k: RouteKey, n: nat) returns (h: nat)
    requires Within(t, r, k, n)
    ensures h <= n && AtDistance(t, r, k, h)
  {
    if n == 0 || !Within(t, r, k, n - 1) {
      h := n;
    } else {
      h := DistanceExists(t, r, k, n - 1);
    }
  }

  /** Who is within reach is not nearer than its distance. */
  lemma DistanceIsLeast(t: Topology, r: nat, k: RouteKey, h: nat, n: nat)
    requires AtDistance(t, r, k, h) && Within(t, r, k, n)
    ensures h <= n
  {
    if n < h {
      WithinMonotone(t, r, k, n, h - 1);
    }
  }

  lemma NeighbourDistances(t: Topology, p: Port, q: Port, k: RouteKey, m: nat, n: nat)
    requires Adjacent(t, p, q) && AtDistance(t, p.router, k, m) && Within(t, q.router, k, n)
    ensures m <= n + 1
  {
    WithinNextHop(t, p, q, k, n);
    DistanceIsLeast(t, p.router, k, m, n + 1);
  }

  /** A router away from its destination has a neighbour one hop nearer. */
  lemma NearerPort(t: Topology, r: nat, k: RouteKey, h: nat) returns (p: Port, q: Port)
    requires h >= 1 && AtDistance(t, r, k, h)
    ensures p.router == r && Adjacent(t, p, q) && Within(t, q.router, k, h - 1)
  {
    hide Adjacent;
    var s :| Neighbours(t, r, s) && Within(t, s, k, h - 1);
    p, q :| p.router == r && q.router == s && Adjacent(t, p, q);
  }

  lemma WithinZero(t: Topology, r: nat, k: RouteKey)
    ensures Within(t, r, k, 0) <==> Originates(t, r, k)
  {
  }
}
