/** Children of one subnet: through which mother each reaches the other, and when the
    two directions agree. */
module MeshNeighbours {
  import opened Common
  import opened Prefixes
  import opened MeshSpec
  import opened MeshRouting

  ghost predicate Neighbours(e: Env, x: NodeId, y: NodeId)
  {
    Child(e, x) && Child(e, y) && x != y && e.nodes[x].subnet == e.nodes[y].subnet
  }

  /** The gateway a child has into its own subnet. */
  function OwnGateway(e: Env, x: NodeId): (g: Option<NodeId>)
    requires x in e.nodes
  {
    Gw(e, x, e.nodes[x].subnet)
  }

  // ----- homes

  /** A home is an exposed mother of the subnet, connected to the child and carrying its address. */
  lemma HomeIs(e: Env, y: NodeId, h: NodeId)
    requires Plain(e) && Child(e, y) && h in Homes(e, y)
    ensures Mother(e, h) && e.nodes[h].exposed && e.nodes[h].subnet == e.nodes[y].subnet
    ensures Peers(e, y, h) && Owner(e, h, y) == Some(y)
  {
    var s := e.nodes[y].subnet;
    if h in NearHomes(e, y, AttachList(e, e.links, y)) {
      AttachedByLink(e, e.links, y, h);
      assert Asks(e, y, h, CHILD_KEEPALIVE);
    } else {
      GwIs(e, y, s);
      GatewayIsPeer(e, y, s);
    }
  }

  /** The gateway a child picks in its own subnet is one of its homes. */
  lemma GatewayIsHome(e: Env, y: NodeId)
    requires Plain(e) && Child(e, y) && OwnGateway(e, y).Some?
    ensures OwnGateway(e, y).value in Homes(e, y)
  {
    var s, g := e.nodes[y].subnet, OwnGateway(e, y).value;
    CandsAre(e, y, s);
    assert g in Cands(e, y, s);
    GwIs(e, y, s);
    var near := NearHomes(e, y, AttachList(e, e.links, y));
    if near != [] {
      AttachedByLink(e, e.links, y, near[0]);
      assert near[0] in near && Serves(e, y, s, near[0]) && Attached(e, y, near[0]);
      assert g in near;
    }
  }

  /** A child with a gateway in its own subnet is connected to every exposed mother there. */
  lemma ConnectedToHomes(e: Env, x: NodeId, h: NodeId)
    requires Plain(e) && Child(e, x) && OwnGateway(e, x).Some?
    requires Mother(e, h) && e.nodes[h].exposed && e.nodes[h].subnet == e.nodes[x].subnet
    ensures Peers(e, x, h) && Owner(e, h, x) == Some(x)
  {
    assert DialsHome(e, x, h);
    assert Asks(e, x, h, CHILD_KEEPALIVE);
  }

  // ----- the way from one to the other

  /** The mother by which x reaches y: x's own gateway if it is a home of y, else y's
      gateway or first home that x is connected to, else x's gateway after all. */
  ghost function Way(e: Env, x: NodeId, y: NodeId): Option<NodeId>
    requires Neighbours(e, x, y)
  {
    var g := OwnGateway(e, x);
    if g.None? || g.value in Homes(e, y) || HomeVia(e, x, y).None? then g else HomeVia(e, x, y)
  }

  /** Only the subnet and y's host can match y's address at x. */
  lemma MatchesForNeighbour(e: Env, x: NodeId, y: NodeId, b: NodeId, p: Prefix)
    requires Plain(e) && Neighbours(e, x, y) && Grants(e, x, b, p) && Covers(p, e.nodes[y].host)
    ensures OwnGateway(e, x).Some?
    ensures (p == e.nodes[y].subnet && OwnGateway(e, x) == Some(b))
            || (p == e.nodes[y].host && OwnGateway(e, x).value !in Homes(e, y) && HomeVia(e, x, y) == Some(b))
  {
    var h := e.nodes[y].host;
    assert HostOk(e, y);
    var t := ChildGrantKind(e, x, b, p);
    if IsHostOf(e, t, p) {
      assert HostOk(e, t);
      assert p == h by { CoversComparable(p, h, h); }
      HostGrantAtChild(e, x, y, b);
    } else {
      var id :| id in e.nodes && e.nodes[id].subnet == p;
      assert SubnetsApart(e, id, y) && SubnetsApart(e, y, id);
      CoversComparable(p, e.nodes[y].subnet, h);
    }
  }

  lemma HostGrantAtChild(e: Env, x: NodeId, y: NodeId, b: NodeId)
    requires Plain(e) && Neighbours(e, x, y) && Grants(e, x, b, e.nodes[y].host)
    ensures NeighbourGrant(e, x, b, e.nodes[y].host, y)
  {
    var h := e.nodes[y].host;
    assert IsHostOf(e, y, h);
    HostIsNoSubnet(e, y, h);
    assert Gw(e, x, h).None? && !IsLan(e, x, h) && !IsLan(e, b, h);
    if exists t :: NeighbourGrant(e, x, b, h, t) {
      var t :| NeighbourGrant(e, x, b, h, t);
      HostIsUnique(e, t, y, h);
    } else if exists t :: PairGrant(e, x, b, h, t) {
      var t :| PairGrant(e, x, b, h, t);
      HostIsUnique(e, t, y, h);
    } else {
      HostIsUnique(e, b, y, h);
    }
  }

  /** x sends what is for y that way, and no other. */
  lemma WayIsRoute(e: Env, x: NodeId, y: NodeId, v: NodeId)
    requires Plain(e) && Neighbours(e, x, y)
    ensures RoutesTo(e, x, e.nodes[y].host, v) <==> Way(e, x, y) == Some(v)
  {
    var h, s, g := e.nodes[y].host, e.nodes[y].subnet, OwnGateway(e, x);
    assert HostOk(e, y) && SubnetOk(e, y);
    forall c, q | Grants(e, x, c, q) && Covers(q, h)
      ensures g.Some?
      ensures (q == s && g == Some(c)) || (q == h && g.value !in Homes(e, y) && HomeVia(e, x, y) == Some(c))
    {
      MatchesForNeighbour(e, x, y, c, q);
    }
    if g.Some? {
      GatewayIsPeer(e, x, s);
      WayIsGranted(e, x, y);
      var w := Way(e, x, y).value;
      assert BestGrant(e, x, h, w, if g.value in Homes(e, y) || HomeVia(e, x, y).None? then s else h);
      if RoutesTo(e, x, h, v) { RouteIsUnique(e, x, h, v, w); }
    }
  }

  lemma WayIsGranted(e: Env, x: NodeId, y: NodeId)
    requires Plain(e) && Neighbours(e, x, y) && OwnGateway(e, x).Some?
    ensures var g := OwnGateway(e, x).value; Grants(e, x, g, e.nodes[y].subnet)
    ensures var g := OwnGateway(e, x).value;
            g !in Homes(e, y) && HomeVia(e, x, y).Some? ==> Grants(e, x, HomeVia(e, x, y).value, e.nodes[y].host)
  {
    var g := OwnGateway(e, x).value;
    GatewayIsPeer(e, x, e.nodes[x].subnet);
    if g !in Homes(e, y) && HomeVia(e, x, y).Some? {
      assert NeighbourGrant(e, x, HomeVia(e, x, y).value, e.nodes[y].host, y) by {
        GwIs(e, x, e.nodes[x].subnet);
      }
    }
  }

  /** With gateways on both sides the way is x's gateway if it is a home of y, else y's. */
  lemma WayIsGateway(e: Env, x: NodeId, y: NodeId)
    requires Plain(e) && Neighbours(e, x, y) && OwnGateway(e, x).Some? && OwnGateway(e, y).Some?
    ensures Way(e, x, y) == if OwnGateway(e, x).value in Homes(e, y) then OwnGateway(e, x) else OwnGateway(e, y)
    ensures Way(e, x, y).value in Homes(e, y)
  {
    var g := OwnGateway(e, y).value;
    GatewayIsHome(e, y);
    HomeIs(e, y, g);
    ConnectedToHomes(e, x, g);
  }

  // ----- delivery

  /** A home hands what is for the child to the child, and accepts it from there. */
  lemma HomeDelivers(e: Env, z: NodeId, v: NodeId)
    requires Plain(e) && Child(e, z) && Mother(e, v) && Peers(e, z, v) && Owner(e, v, z) == Some(z)
    ensures RoutesTo(e, v, e.nodes[z].host, z)
  {
    assert OwnerGrant(e, v, z, e.nodes[z].host, z);
    PeersSymmetric(e, z, v);
    assert Grants(e, v, z, e.nodes[z].host);
    forall c | Grants(e, v, c, e.nodes[z].host) ensures c == z { MotherGrantIsOwner(e, v, z, c); }
    HostGrantWins(e, v, z, z);
  }

  /** What x sends to y reaches one of y's homes, which accepts it from x and hands it
      to y; so it does for every home of y and every child with a gateway. */
  lemma ReachesNeighbour(e: Env, x: NodeId, y: NodeId)
    requires Plain(e) && Neighbours(e, x, y) && OwnGateway(e, x).Some? && Homes(e, y) != []
    ensures Way(e, x, y).Some? && Way(e, x, y).value in Homes(e, y)
    ensures var v := Way(e, x, y).value;
            && RoutesTo(e, x, e.nodes[y].host, v) && RoutesTo(e, v, e.nodes[x].host, x)
            && RoutesTo(e, v, e.nodes[y].host, y)
  {
    var h := Homes(e, y)[0];
    assert h in Homes(e, y);
    HomeIs(e, y, h);
    ConnectedToHomes(e, x, h);
    var v := Way(e, x, y).value;
    WayIsRoute(e, x, y, v);
    HomeIs(e, y, v);
    ConnectedToHomes(e, x, v);
    HomeDelivers(e, x, v);
    HomeDelivers(e, y, v);
  }

  /** One mother carries x's packets to y past every source check if and only if it is
      the way in both directions. */
  lemma DeliversIffBothWays(e: Env, x: NodeId, y: NodeId, v: NodeId)
    requires Plain(e) && Neighbours(e, x, y)
    ensures Delivers(e, x, y, v) <==> Way(e, x, y) == Some(v) && Way(e, y, x) == Some(v)
  {
    WayIsRoute(e, x, y, v);
    WayIsRoute(e, y, x, v);
    if Way(e, x, y) == Some(v) && Way(e, y, x) == Some(v) {
      GatewayIsHome(e, y);
      ReachesNeighbour(e, x, y);
    }
  }

  /** Children of one subnet reach each other past every source check if and only if
      both have a gateway there, and it is the same, or exactly one's gateway is a home
      of the other. */
  lemma NeighbourDelivery(e: Env, x: NodeId, y: NodeId)
    requires Plain(e) && Neighbours(e, x, y)
    ensures (exists v :: Delivers(e, x, y, v) && Delivers(e, y, x, v)) <==>
            var gx, gy := OwnGateway(e, x), OwnGateway(e, y);
            && gx.Some? && gy.Some?
            && (gx == gy || (gx.value in Homes(e, y)) != (gy.value in Homes(e, x)))
    ensures (exists v :: Delivers(e, x, y, v)) <==> exists v :: TablesCarry(e, x, y, v)
  {
    var gx, gy := OwnGateway(e, x), OwnGateway(e, y);
    forall v ensures Delivers(e, x, y, v) <==> Way(e, x, y) == Some(v) && Way(e, y, x) == Some(v) {
      DeliversIffBothWays(e, x, y, v);
    }
    forall v ensures Delivers(e, y, x, v) <==> Way(e, x, y) == Some(v) && Way(e, y, x) == Some(v) {
      DeliversIffBothWays(e, y, x, v);
    }
    forall v ensures Delivers(e, x, y, v) <==> TablesCarry(e, x, y, v) { DeliveryIsLookup(e, x, y, v); }
    if gx.Some? && gy.Some? {
      WayIsGateway(e, x, y);
      BothWaysIff(e, x, y);
      var v := Way(e, x, y).value;
      assert Way(e, x, y) == Way(e, y, x) ==> Delivers(e, x, y, v) && Delivers(e, y, x, v);
    }
  }

  lemma BothWaysIff(e: Env, x: NodeId, y: NodeId)
    requires Plain(e) && Neighbours(e, x, y) && OwnGateway(e, x).Some? && OwnGateway(e, y).Some?
    ensures Way(e, x, y) == Way(e, y, x) <==>
            var gx, gy := OwnGateway(e, x), OwnGateway(e, y);
            gx == gy || (gx.value in Homes(e, y)) != (gy.value in Homes(e, x))
  {
    WayIsGateway(e, x, y);
    WayIsGateway(e, y, x);
    GatewayIsHome(e, x);
    GatewayIsHome(e, y);
  }
}
