/** Small meshes at which a promise fails that holds under a condition. */
module MeshExamples {
  import opened Common
  import opened Prefixes
  import opened MeshSpec
  import opened MeshRouting
  import opened MeshNeighbours
  import opened PlanConfig
  import MeshPlanner

  function Bits(n: nat, ones: nat): (b: seq<bool>) { seq(n, i => i < ones) }

  // ----- three mothers, one of them contested

  function ThreeMothers(): (e: Env)
  {
    var a, b := Prefix(V4, Bits(8, 0)), Prefix(V4, Bits(8, 8));
    Env([1, 2, 3],
        map[1 := PlanNode(a, Prefix(V4, Bits(32, 0)), true, true, false, false, None, [b]),
            2 := PlanNode(b, Prefix(V4, Bits(32, 8)), true, true, false, false, None, []),
            3 := PlanNode(b, Prefix(V4, Bits(32, 9)), true, true, false, false, None, [])],
        [], false, map[])
  }

  lemma BitsCover(n: nat, m: nat, ones: nat)
    requires n <= m
    ensures Bits(n, ones) <= Bits(m, ones)
  {
    assert Bits(m, ones)[..n] == Bits(n, ones);
  }

  lemma ThreeMothersArePlain()
    ensures Plain(ThreeMothers())
  {
    var e := ThreeMothers();
    BitsCover(8, 32, 0);
    assert Bits(8, 8) <= Bits(32, 8) && Bits(8, 8) <= Bits(32, 9);
    forall id | id in e.nodes ensures HostOk(e, id) && SubnetOk(e, id) {}
    assert Bits(32, 0)[8] != Bits(32, 9)[8] && Bits(32, 8)[8] != Bits(32, 9)[8] && Bits(32, 0)[0] != Bits(32, 8)[0];
    assert Bits(8, 0)[0] != Bits(8, 8)[0];
    forall a, b | a in e.nodes && b in e.nodes ensures HostsApart(e, a, b) && SubnetsApart(e, a, b) {}
    assert IsVpn(e, e.nodes[2].subnet);
    forall id, p ensures !IsLan(e, id, p) {}
  }

  /** Mother 1 routes into the subnet of 2 and 3 and uses 2; so 3 has her host on two peers. */
  lemma AContestedMother()
    ensures Plain(ThreeMothers()) && Contested(ThreeMothers(), 3, 1)
  {
    var e := ThreeMothers();
    ThreeMothersArePlain();
    var s := e.nodes[3].subnet;
    NoneAttached(e, 1, s, e.order);
    assert IsVpn(e, s);
    assert Bits(8, 0)[0] != Bits(8, 8)[0];
    assert e.order[..2] == [1, 2] && e.order[..2][..1] == [1] && [1][..0] == [];
    assert ExposedMothers(e, 1, s, [1]) == [];
    assert ExposedMothers(e, 1, s, [1, 2]) == [2];
    assert ExposedMothers(e, 1, s, e.order) == [2, 3];
    ForeignMotherIsContested(e, 1, 2, 3);
  }

  // ----- a negative keepalive

  /** Two children with one link of keepalive -5: it sticks, and the first dials. */
  lemma ANegativeLink() returns (e: Env)
    ensures Enrolled(e) && Peers(e, 1, 2) && Dials(e, 1, 2) && MeshPlanner.Stuck(e, 1, 2) == Some(-5)
  {
    var s := Prefix(V4, Bits(8, 8));
    e := Env([1, 2],
             map[1 := PlanNode(s, Prefix(V4, Bits(32, 8)), false, false, false, false, None, []),
                 2 := PlanNode(s, Prefix(V4, Bits(32, 9)), false, true, false, false, None, [])],
             [Link(1, 2, -5, None)], false, map[]);
    assert Bits(8, 8) <= Bits(32, 8) && Bits(8, 8) <= Bits(32, 9) && Bits(32, 8)[8] != Bits(32, 9)[8];
    var l := e.links[0];
    assert l in e.links && Generic(e, l);
    assert AsksGeneric(e, 1, 2, -5);
    assert Asks(e, 1, 2, -5);
    assert e.links[..0] == [];
    assert MeshPlanner.FirstGeneric(e, [], 1, 2) == None;
    forall ka ensures !MeshPlanner.AsksEarly(e, 1, 2, ka) {
      if Attached(e, 1, 2) { AttachedByLink(e, e.links, 1, 2); }
    }
  }

  // ----- a pair that is not served

  /** Child 1 routes into the subnet of mother 2 and child 3, but child 3 does not route
      its own subnet and is not connected to the mother. */
  lemma AnUnservedPair() returns (e: Env)
    ensures Plain(e) && Child(e, 1) && Child(e, 3) && e.nodes[1].subnet != e.nodes[3].subnet
    ensures Carrier(e, 1, 3) == Some(2) && Peers(e, 1, 2)
    ensures !exists v :: Delivers(e, 1, 3, v)
  {
    e := OneRoute();
    OneRouteIsPlain();
    assert Bits(8, 0)[0] != Bits(8, 8)[0];
    OneRouteGateway();
    GatewayIsPeer(e, 1, e.nodes[3].subnet);
    NotConnected();
    TwoWayDelivery(e, 1, 3);
    forall v ensures Delivers(e, 1, 3, v) <==> Delivers(e, 3, 1, v) {}
  }

  lemma OneRouteGateway()
    ensures var e := OneRoute(); Gw(e, 1, e.nodes[3].subnet) == Some(2)
  {
    var e := OneRoute();
    var s := e.nodes[3].subnet;
    assert IsVpn(e, s) && Bits(8, 0)[0] != Bits(8, 8)[0];
    var near := AttachedMothers(e, 1, s, e.order);
    assert AttachList(e, [], 1) == [];
    if near != [] { assert near[0] in near; }
    assert e.order[..2] == [1, 2] && e.order[..2][..1] == [1] && [1][..0] == [];
    assert ExposedMothers(e, 1, s, [1]) == [];
    assert ExposedMothers(e, 1, s, [1, 2]) == [2];
    assert ExposedMothers(e, 1, s, e.order) == [2];
  }

  lemma NotConnected()
    ensures !Peers(OneRoute(), 3, 2)
  {
    var e := OneRoute();
    assert AttachList(e, [], 3) == [] && AttachList(e, [], 2) == [];
    forall ka ensures !Asks(e, 3, 2, ka) && !Asks(e, 2, 3, ka) {}
  }

  function OneRoute(): (e: Env)
  {
    var a, b := Prefix(V4, Bits(8, 0)), Prefix(V4, Bits(8, 8));
    Env([1, 2, 3],
        map[1 := PlanNode(a, Prefix(V4, Bits(32, 0)), false, false, false, false, None, [b]),
            2 := PlanNode(b, Prefix(V4, Bits(32, 8)), true, true, false, false, None, []),
            3 := PlanNode(b, Prefix(V4, Bits(32, 9)), false, false, false, false, None, [])],
        [], false, map[])
  }

  lemma OneRouteIsPlain()
    ensures Plain(OneRoute())
  {
    var e := OneRoute();
    BitsCover(8, 32, 0);
    assert Bits(8, 8) <= Bits(32, 8) && Bits(8, 8) <= Bits(32, 9);
    forall id | id in e.nodes ensures HostOk(e, id) && SubnetOk(e, id) {}
    assert Bits(32, 0)[8] != Bits(32, 9)[8] && Bits(32, 8)[8] != Bits(32, 9)[8] && Bits(32, 0)[0] != Bits(32, 8)[0];
    assert Bits(8, 0)[0] != Bits(8, 8)[0];
    forall a, b | a in e.nodes && b in e.nodes ensures HostsApart(e, a, b) && SubnetsApart(e, a, b) {}
    assert IsVpn(e, e.nodes[2].subnet);
    forall id, p ensures !IsLan(e, id, p) {}
  }

  // ----- neighbours with different homes

  /** Mothers 1 and 2 of one subnet, child 3 linked to the one and child 4 to the other. */
  function TwoHomes(): (e: Env)
  {
    var s := Prefix(V4, Bits(8, 8));
    Env([1, 2, 3, 4],
        map[1 := PlanNode(s, Prefix(V4, Bits(32, 8)), true, true, false, false, None, []),
            2 := PlanNode(s, Prefix(V4, Bits(32, 9)), true, true, false, false, None, []),
            3 := PlanNode(s, Prefix(V4, Bits(32, 10)), false, false, false, false, None, [s]),
            4 := PlanNode(s, Prefix(V4, Bits(32, 11)), false, false, false, false, None, [s])],
        [Link(3, 1, 0, None), Link(4, 2, 0, None)], false, map[])
  }

  lemma TwoHomesArePlain()
    ensures Plain(TwoHomes())
  {
    var e := TwoHomes();
    forall id | id in e.nodes ensures HostOk(e, id) && SubnetOk(e, id) { TwoHomesHost(id); }
    forall a, b | a in e.nodes && b in e.nodes ensures HostsApart(e, a, b) && SubnetsApart(e, a, b) {
      TwoHomesHost(a);
      TwoHomesHost(b);
      if a < b { DifferentBits(7 + a, 7 + b); } else if b < a { DifferentBits(7 + b, 7 + a); }
    }
    assert IsVpn(e, e.nodes[1].subnet);
    forall id, p ensures !IsLan(e, id, p) {}
  }

  lemma TwoHomesHost(id: NodeId)
    requires id in TwoHomes().nodes
    ensures var e := TwoHomes();
            && 1 <= id <= 4 && e.nodes[id].subnet == Prefix(V4, Bits(8, 8))
            && e.nodes[id].host == Prefix(V4, Bits(32, 7 + id)) && HostOk(e, id) && SubnetOk(e, id)
  {
    assert Bits(8, 8) <= Bits(32, 7 + id);
  }

  lemma DifferentBits(a: nat, b: nat)
    requires a < b < 32
    ensures Bits(32, a) != Bits(32, b)
  {
    assert Bits(32, a)[a] != Bits(32, b)[a];
  }

  /** Each child's only home is the mother it is linked to. */
  lemma TwoHomesGateways()
    ensures var e := TwoHomes();
            && OwnGateway(e, 3) == Some(1) && OwnGateway(e, 4) == Some(2)
            && 1 !in Homes(e, 4) && 2 !in Homes(e, 3)
  {
    var e := TwoHomes();
    TwoHomesArePlain();
    TwoHomesAttached();
    assert IsVpn(e, e.nodes[1].subnet);
    OnlyHome(e, 3, 1);
    OnlyHome(e, 4, 2);
  }

  /** A child attached to one exposed mother of its subnet and routing into it. */
  lemma OnlyHome(e: Env, x: NodeId, g: NodeId)
    requires Plain(e) && Child(e, x) && Mother(e, g) && e.nodes[g].exposed && e.nodes[g].subnet == e.nodes[x].subnet
    requires e.nodes[x].subnet in e.nodes[x].routes && IsVpn(e, e.nodes[x].subnet) && (x, e.nodes[x].subnet) !in e.paths
    requires forall m :: Attached(e, x, m) <==> m == g
    ensures OwnGateway(e, x) == Some(g) && forall h :: h in Homes(e, x) ==> h == g
  {
    var s := e.nodes[x].subnet;
    CandsAre(e, x, s);
    assert Serves(e, x, s, g) && g in Cands(e, x, s);
    forall i | 0 <= i < |Cands(e, x, s)| ensures Cands(e, x, s)[i] == g { assert Cands(e, x, s)[i] in Cands(e, x, s); }
    OneCandidate(e, x, s, g);
    var near := NearHomes(e, x, AttachList(e, e.links, x));
    forall h | h in near ensures h == g { assert Attached(e, x, h); }
  }

  lemma TwoHomesAttached()
    ensures var e := TwoHomes(); forall m :: (Attached(e, 3, m) <==> m == 1) && (Attached(e, 4, m) <==> m == 2)
  {
    var e := TwoHomes();
    TwoHomesArePlain();
    assert e.links[0] == Link(3, 1, 0, None) && e.links[1] == Link(4, 2, 0, None);
    forall m ensures (Attached(e, 3, m) <==> m == 1) && (Attached(e, 4, m) <==> m == 2) {
      AttachedIff(e, 3, m);
      AttachedIff(e, 4, m);
    }
  }

  lemma OneCandidate(e: Env, x: NodeId, s: Prefix, g: NodeId)
    requires Plain(e) && Routable(e, x, s) && (x, s) !in e.paths
    requires forall i :: 0 <= i < |Cands(e, x, s)| ==> Cands(e, x, s)[i] == g
    ensures Gw(e, x, s) == Some(g)
  {
  }

  /** So the children send to each other by different mothers, and each drops what the
      other's mother hands it. */
  lemma ADroppedNeighbour()
    ensures var e := TwoHomes();
            && Plain(e) && Neighbours(e, 3, 4) && Way(e, 3, 4) == Some(2) && Way(e, 4, 3) == Some(1)
            && !exists v :: Delivers(e, 3, 4, v)
  {
    var e := TwoHomes();
    TwoHomesArePlain();
    TwoHomesGateways();
    WayIsGateway(e, 3, 4);
    WayIsGateway(e, 4, 3);
    forall v ensures !Delivers(e, 3, 4, v) { DeliversIffBothWays(e, 3, 4, v); }
  }
}
