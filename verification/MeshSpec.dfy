/** What the mesh planner decides, as definitions over a parsed mesh: gateways,
    dial intents, peers, owners and allowed prefixes. The planner object computes
    exactly these; the routing theorems are about them. */
module MeshSpec {
  import opened Common
  import opened Prefixes

  /** Node ids are integers in the order of the source's id strings; RELAY stands
      for the Master's relay, which is no mesh node. */
  type NodeId = int

  const RELAY: NodeId := -1
  const CHILD_KEEPALIVE := 5
  const MOTHER_KEEPALIVE := 25

  datatype PlanNode = PlanNode(
    subnet: Prefix, host: Prefix, mother: bool, exposed: bool, udpMode: bool, bindUdp: bool,
    cluster: Option<string>, routes: seq<Prefix>)

  /** allowed: the routes given for the link, none of them left if they are void, or
      None if none were given. */
  datatype Link = Link(from: NodeId, to: NodeId, keepalive: int, allowed: Option<seq<Prefix>>)

  /** The active nodes in mesh order, with the links, path choices and relay switch. */
  datatype Env = Env(
    order: seq<NodeId>, nodes: map<NodeId, PlanNode>, links: seq<Link>, relayOn: bool,
    paths: map<(NodeId, Prefix), NodeId>)

  ghost predicate HostOk(e: Env, id: NodeId)
    requires id in e.nodes
  {
    e.nodes[id].host.IsHost() && Covers(e.nodes[id].subnet, e.nodes[id].host)
  }

  ghost predicate HostsApart(e: Env, a: NodeId, b: NodeId)
    requires a in e.nodes && b in e.nodes
  {
    e.nodes[a].host == e.nodes[b].host ==> a == b
  }

  /** What enrolment and conflict resolution leave: unique ids, one node per host. */
  ghost predicate Enrolled(e: Env)
  {
    && NoDup(e.order)
    && (forall id {:trigger id in e.order} :: id in e.order <==> id in e.nodes)
    && RELAY !in e.nodes
    && (forall id {:trigger HostOk(e, id)} :: id in e.nodes ==> HostOk(e, id))
    && (forall a, b {:trigger HostsApart(e, a, b)} :: a in e.nodes && b in e.nodes ==> HostsApart(e, a, b))
    && (forall l :: l in e.links ==> l.from != RELAY && l.to != RELAY)
  }

  ghost predicate SubnetOk(e: Env, id: NodeId)
    requires id in e.nodes
  {
    |e.nodes[id].subnet.bits| <= 30
  }

  ghost predicate SubnetsApart(e: Env, a: NodeId, b: NodeId)
    requires a in e.nodes && b in e.nodes
  {
    Covers(e.nodes[a].subnet, e.nodes[b].subnet) ==> e.nodes[a].subnet == e.nodes[b].subnet
  }

  /** VPN subnets are equal or disjoint, and shorter than a host prefix. */
  ghost predicate Addressed(e: Env)
  {
    && (forall a {:trigger SubnetOk(e, a)} :: a in e.nodes ==> SubnetOk(e, a))
    && (forall a, b {:trigger SubnetsApart(e, a, b)} :: a in e.nodes && b in e.nodes ==> SubnetsApart(e, a, b))
  }

  predicate Mother(e: Env, id: NodeId) { id in e.nodes && e.nodes[id].mother }

  predicate Child(e: Env, id: NodeId) { id in e.nodes && !e.nodes[id].mother }

  predicate Exposed(e: Env, id: NodeId) { id == RELAY || (id in e.nodes && e.nodes[id].exposed) }

  // ----- attachments and generic links

  function AppendUnique(s: seq<NodeId>, v: NodeId): (r: seq<NodeId>)
    ensures forall x :: x in r <==> x in s || x == v
  {
    if v in s then s else s + [v]
  }

  function AppendAll(s: seq<NodeId>, vs: seq<NodeId>): (r: seq<NodeId>)
    ensures forall x :: x in r <==> x in s || x in vs
    decreases |vs|
  {
    if vs == [] then s else AppendUnique(AppendAll(s, vs[..|vs|-1]), vs[|vs|-1])
  }

  /** The mothers of cluster c among ms; a node without a cluster has no siblings. */
  function ClusterMothers(e: Env, c: Option<string>, ms: seq<NodeId>): (r: seq<NodeId>)
    ensures forall m :: m in r <==> m in ms && c.Some? && Mother(e, m) && e.nodes[m].cluster == c
  {
    if ms == [] then []
    else
      var prev, m := ClusterMothers(e, c, ms[..|ms|-1]), ms[|ms|-1];
      if c.Some? && Mother(e, m) && e.nodes[m].cluster == c then prev + [m] else prev
  }

  /** The mothers a child is attached to by the first links, in the order they were added. */
  function AttachList(e: Env, ls: seq<Link>, c: NodeId): (r: seq<NodeId>)
  {
    if ls == [] then []
    else
      var prev := AttachList(e, ls[..|ls|-1], c);
      var l := ls[|ls|-1];
      if Child(e, l.from) && Mother(e, l.to) && l.from == c
      then AppendAll(AppendUnique(prev, l.to), ClusterMothers(e, e.nodes[l.to].cluster, e.order))
      else prev
  }

  predicate Attached(e: Env, c: NodeId, m: NodeId) { m in AttachList(e, e.links, c) }

  /** Attachment in words: a link to the mother or to a mother of her cluster. */
  lemma {:induction false} AttachedByLink(e: Env, ls: seq<Link>, c: NodeId, m: NodeId)
    requires m in AttachList(e, ls, c)
    ensures Child(e, c) && Mother(e, m)
    ensures exists l :: l in ls && l.from == c && Mother(e, l.to) &&
              (m == l.to || (e.nodes[m].cluster.Some? && e.nodes[m].cluster == e.nodes[l.to].cluster))
  {
    var l := ls[|ls|-1];
    if m in AttachList(e, ls[..|ls|-1], c) { AttachedByLink(e, ls[..|ls|-1], c, m); } else { assert l in ls; }
  }

  /** A child is attached to exactly the mothers it links to and those of their clusters. */
  lemma AttachedIff(e: Env, c: NodeId, m: NodeId)
    requires Enrolled(e)
    ensures Attached(e, c, m) <==>
            && Child(e, c) && Mother(e, m)
            && exists l :: l in e.links && l.from == c && Mother(e, l.to) && (m == l.to || SameCluster(e, m, l.to))
  {
    if Attached(e, c, m) { AttachedByLink(e, e.links, c, m); }
    if Child(e, c) && Mother(e, m) &&
       exists l :: l in e.links && l.from == c && Mother(e, l.to) && (m == l.to || SameCluster(e, m, l.to))
    {
      var l :| l in e.links && l.from == c && Mother(e, l.to) && (m == l.to || SameCluster(e, m, l.to));
      LinkAttaches(e, e.links, l, m);
    }
  }

  predicate SameCluster(e: Env, a: NodeId, b: NodeId)
    requires a in e.nodes && b in e.nodes
  {
    e.nodes[a].cluster.Some? && e.nodes[a].cluster == e.nodes[b].cluster
  }

  lemma {:induction false} LinkAttaches(e: Env, ls: seq<Link>, l: Link, m: NodeId)
    requires Enrolled(e) && l in ls && Child(e, l.from) && Mother(e, l.to) && Mother(e, m)
    requires m == l.to || SameCluster(e, m, l.to)
    ensures m in AttachList(e, ls, l.from)
  {
    if ls[|ls|-1] == l {
      assert m in e.order;
    } else {
      LinkAttaches(e, ls[..|ls|-1], l, m);
    }
  }

  predicate Generic(e: Env, l: Link)
  {
    l.from in e.nodes && l.to in e.nodes && l.from != l.to && !(Child(e, l.from) && Mother(e, l.to))
  }

  // ----- gateways

  predicate IsVpn(e: Env, p: Prefix) { exists id :: id in e.nodes && e.nodes[id].subnet == p }

  /** An exposed mother of subnet p other than id. */
  predicate Serves(e: Env, id: NodeId, p: Prefix, m: NodeId)
  {
    Mother(e, m) && e.nodes[m].subnet == p && m != id && e.nodes[m].exposed
  }

  function AttachedMothers(e: Env, id: NodeId, p: Prefix, ms: seq<NodeId>): (r: seq<NodeId>)
    ensures forall m :: m in r <==> m in ms && Serves(e, id, p, m) && Attached(e, id, m)
  {
    if ms == [] then []
    else
      var prev, m := AttachedMothers(e, id, p, ms[..|ms|-1]), ms[|ms|-1];
      if Serves(e, id, p, m) && Attached(e, id, m) then prev + [m] else prev
  }

  function ExposedMothers(e: Env, id: NodeId, p: Prefix, ms: seq<NodeId>): (r: seq<NodeId>)
    ensures forall m :: m in r <==> m in ms && Serves(e, id, p, m)
  {
    if ms == [] then []
    else
      var prev, m := ExposedMothers(e, id, p, ms[..|ms|-1]), ms[|ms|-1];
      if Serves(e, id, p, m) then prev + [m] else prev
  }

  /** Gateway candidates of id into p: attached mothers there, else all exposed
      ones, and the relay as a last resort across subnets. */
  function Cands(e: Env, id: NodeId, p: Prefix): (r: seq<NodeId>)
    requires id in e.nodes
  {
    var near := AttachedMothers(e, id, p, e.order);
    var base := if near == [] then ExposedMothers(e, id, p, e.order) else near;
    if e.relayOn && p != e.nodes[id].subnet && !e.nodes[id].bindUdp then base + [RELAY] else base
  }

  /** a stands before b in the mesh order. */
  ghost predicate Before(order: seq<NodeId>, a: NodeId, b: NodeId)
  {
    exists i, j :: 0 <= i < j < |order| && order[i] == a && order[j] == b
  }

  ghost predicate InOrder(r: seq<NodeId>, order: seq<NodeId>)
  {
    forall i, j :: 0 <= i < j < |r| ==> Before(order, r[i], r[j])
  }

  lemma OrderGrows(r: seq<NodeId>, order: seq<NodeId>, m: NodeId)
    requires InOrder(r, order) && forall x :: x in r ==> x in order
    ensures InOrder(r + [m], order + [m]) && InOrder(r, order + [m])
  {
    var order' := order + [m];
    forall i, j | 0 <= i < j < |r| ensures Before(order', r[i], r[j]) {
      assert Before(order, r[i], r[j]);
      var a, b :| 0 <= a < b < |order| && order[a] == r[i] && order[b] == r[j];
      assert order'[a] == r[i] && order'[b] == r[j];
    }
    forall i | 0 <= i < |r| ensures Before(order', r[i], m) {
      assert r[i] in r;
      var a :| 0 <= a < |order| && order[a] == r[i];
      assert order'[a] == r[i] && order'[|order|] == m;
    }
  }

  lemma {:induction false} ServingInOrder(e: Env, id: NodeId, p: Prefix, ms: seq<NodeId>)
    ensures InOrder(AttachedMothers(e, id, p, ms), ms) && InOrder(ExposedMothers(e, id, p, ms), ms)
  {
    if ms != [] {
      var front, m := ms[..|ms|-1], ms[|ms|-1];
      ServingInOrder(e, id, p, front);
      OrderGrows(AttachedMothers(e, id, p, front), front, m);
      OrderGrows(ExposedMothers(e, id, p, front), front, m);
      assert front + [m] == ms;
    }
  }

  /** The candidates: the serving mothers a node is attached to, or all serving ones if
      it is attached to none, in mesh order; then the relay, across subnets, for a node
      that is not bound to UDP. */
  lemma CandsAre(e: Env, id: NodeId, p: Prefix)
    requires Enrolled(e) && id in e.nodes
    ensures forall m :: m != RELAY ==>
              (m in Cands(e, id, p) <==>
                 Serves(e, id, p, m) && (Attached(e, id, m) || forall z :: Serves(e, id, p, z) ==> !Attached(e, id, z)))
    ensures RELAY in Cands(e, id, p) <==> e.relayOn && p != e.nodes[id].subnet && !e.nodes[id].bindUdp
    ensures forall i, j :: 0 <= i < j < |Cands(e, id, p)| ==>
              && Cands(e, id, p)[i] != RELAY
              && (Cands(e, id, p)[j] == RELAY || Before(e.order, Cands(e, id, p)[i], Cands(e, id, p)[j]))
  {
    forall m | m != RELAY
      ensures m in Cands(e, id, p) <==>
              Serves(e, id, p, m) && (Attached(e, id, m) || forall z :: Serves(e, id, p, z) ==> !Attached(e, id, z))
    {
      CandIff(e, id, p, m);
    }
    ServingInOrder(e, id, p, e.order);
    assert RELAY !in AttachedMothers(e, id, p, e.order) && RELAY !in ExposedMothers(e, id, p, e.order);
  }

  lemma CandIff(e: Env, id: NodeId, p: Prefix, m: NodeId)
    requires Enrolled(e) && id in e.nodes && m != RELAY
    ensures m in Cands(e, id, p) <==>
            Serves(e, id, p, m) && (Attached(e, id, m) || forall z :: Serves(e, id, p, z) ==> !Attached(e, id, z))
  {
    var near := AttachedMothers(e, id, p, e.order);
    if near == [] {
      forall z | Serves(e, id, p, z) ensures !Attached(e, id, z) { assert z in e.order && z !in near; }
      assert Serves(e, id, p, m) ==> m in e.order;
    } else {
      var z := near[0];
      assert z in near && Serves(e, id, p, z) && Attached(e, id, z);
      assert Serves(e, id, p, m) ==> m in e.order;
    }
  }

  /** Without a stored path the gateway is the first of them: no other comes before it,
      and it is the relay only if no mother serves. */
  lemma GatewayIsFirst(e: Env, id: NodeId, p: Prefix)
    requires Enrolled(e) && Gw(e, id, p).Some?
    ensures (id, p) in e.paths && e.paths[(id, p)] in Cands(e, id, p) ==> Gw(e, id, p) == Some(e.paths[(id, p)])
    ensures !((id, p) in e.paths && e.paths[(id, p)] in Cands(e, id, p)) ==>
              var g := Gw(e, id, p).value;
              && g in Cands(e, id, p) && (g == RELAY ==> forall m :: !Serves(e, id, p, m))
              && forall m :: m in Cands(e, id, p) && m != g ==> m == RELAY || Before(e.order, g, m)
  {
    CandsAre(e, id, p);
    var r := Cands(e, id, p);
    forall m | m in r && m != r[0] ensures m == RELAY || Before(e.order, r[0], m) {
      var j :| 0 <= j < |r| && r[j] == m;
    }
    if r[0] == RELAY {
      forall m ensures !Serves(e, id, p, m) { RelayAlone(e, id, p, m); }
    }
  }

  lemma RelayAlone(e: Env, id: NodeId, p: Prefix, m: NodeId)
    requires Enrolled(e) && id in e.nodes && |Cands(e, id, p)| > 0 && Cands(e, id, p)[0] == RELAY
    ensures !Serves(e, id, p, m)
  {
    CandsAre(e, id, p);
  }

  predicate Routable(e: Env, id: NodeId, p: Prefix)
  {
    && id in e.nodes && p in e.nodes[id].routes && IsVpn(e, p)
    && !(e.nodes[id].mother && e.nodes[id].subnet == p)
    && Cands(e, id, p) != []
  }

  /** The gateway of id into p: the stored path choice if it is a candidate, else the first. */
  function Gw(e: Env, id: NodeId, p: Prefix): (g: Option<NodeId>)
  {
    if !Routable(e, id, p) then None
    else if (id, p) in e.paths && e.paths[(id, p)] in Cands(e, id, p) then Some(e.paths[(id, p)])
    else Some(Cands(e, id, p)[0])
  }

  predicate IsLan(e: Env, id: NodeId, p: Prefix) { id in e.nodes && p in e.nodes[id].routes && !IsVpn(e, p) }

  function LanRoutes(e: Env, id: NodeId, routes: seq<Prefix>): (r: seq<Prefix>)
    requires id in e.nodes
    ensures forall p :: p in r <==> p in routes && !IsVpn(e, p)
  {
    if routes == [] then []
    else
      var prev, p := LanRoutes(e, id, routes[..|routes|-1]), routes[|routes|-1];
      if IsVpn(e, p) then prev else prev + [p]
  }

  /** A gateway is the relay, used across subnets only, or an exposed mother of the subnet. */
  lemma GwIs(e: Env, id: NodeId, p: Prefix)
    requires Gw(e, id, p).Some?
    ensures var g := Gw(e, id, p).value;
            && id in e.nodes && p in e.nodes[id].routes && g in Cands(e, id, p)
            && (g == RELAY || Serves(e, id, p, g))
            && (g == RELAY ==> p != e.nodes[id].subnet || Serves(e, id, p, g))
  {
    var cands := Cands(e, id, p);
    assert forall m :: m in cands ==> m == RELAY || Serves(e, id, p, m);
    assert cands[0] in cands;
  }

  // ----- mother mesh

  predicate MeshEdge(e: Env, a: NodeId, b: NodeId)
  {
    && Mother(e, a) && Mother(e, b) && a != b
    && (e.nodes[a].exposed || e.nodes[b].exposed)
    && e.nodes[a].udpMode == e.nodes[b].udpMode
    && (e.nodes[a].subnet == e.nodes[b].subnet
      || (e.nodes[a].cluster.Some? && e.nodes[a].cluster == e.nodes[b].cluster))
  }

  /** Of two meshed mothers the lower id dials, unless only it is exposed. */
  predicate MeshDials(e: Env, a: NodeId, b: NodeId)
  {
    MeshEdge(e, a, b) && if a < b then Exposed(e, b) else !Exposed(e, a)
  }

  /** Of two meshing mothers exactly one dials, the one that is dialed is exposed, and if
      both are, the lower id dials. */
  lemma MeshDialIs(e: Env, a: NodeId, b: NodeId)
    requires MeshEdge(e, a, b)
    ensures MeshDials(e, a, b) <==> !MeshDials(e, b, a)
    ensures MeshDials(e, a, b) ==> Exposed(e, b)
    ensures Exposed(e, a) && Exposed(e, b) ==> (MeshDials(e, a, b) <==> a < b)
  {
  }

  // ----- dial intents

  predicate RelayServed(e: Env, p: Prefix) { exists id :: id in e.nodes && Gw(e, id, p) == Some(RELAY) }

  predicate DialsCandidate(e: Env, a: NodeId, b: NodeId, p: Prefix)
  {
    Gw(e, a, p).Some? && b in Cands(e, a, p) && (b == RELAY ==> Gw(e, a, p) == Some(RELAY))
  }

  predicate DialsHome(e: Env, a: NodeId, b: NodeId)
  {
    Child(e, a) && Gw(e, a, e.nodes[a].subnet).Some? && Serves(e, a, e.nodes[a].subnet, b)
  }

  function GenericKeepalive(e: Env, l: Link): int
  {
    if l.keepalive == 0 && !Mother(e, l.from) then CHILD_KEEPALIVE else l.keepalive
  }

  predicate AsksAttached(e: Env, a: NodeId, b: NodeId, ka: int) { Attached(e, a, b) && ka == CHILD_KEEPALIVE }

  predicate AsksCandidate(e: Env, a: NodeId, b: NodeId, ka: int)
  {
    && a in e.nodes && (exists p :: p in e.nodes[a].routes && DialsCandidate(e, a, b, p))
    && ka == if e.nodes[a].mother then MOTHER_KEEPALIVE else CHILD_KEEPALIVE
  }

  predicate AsksHome(e: Env, a: NodeId, b: NodeId, ka: int) { DialsHome(e, a, b) && ka == CHILD_KEEPALIVE }

  predicate AsksMesh(e: Env, a: NodeId, b: NodeId, ka: int) { MeshDials(e, a, b) && ka == MOTHER_KEEPALIVE }

  predicate AsksGeneric(e: Env, a: NodeId, b: NodeId, ka: int)
  {
    exists l :: l in e.links && Generic(e, l) && l.from == a && l.to == b && ka == GenericKeepalive(e, l)
  }

  predicate AsksRelay(e: Env, a: NodeId, b: NodeId, ka: int)
  {
    a in e.nodes && b == RELAY && RelayServed(e, e.nodes[a].subnet) && ka == CHILD_KEEPALIVE
  }

  /** a asks to dial b with keepalive ka. */
  predicate Asks(e: Env, a: NodeId, b: NodeId, ka: int)
  {
    || AsksAttached(e, a, b, ka) || AsksCandidate(e, a, b, ka) || AsksHome(e, a, b, ka)
    || AsksMesh(e, a, b, ka) || AsksGeneric(e, a, b, ka) || AsksRelay(e, a, b, ka)
  }

  ghost predicate Intends(e: Env, a: NodeId, b: NodeId) { exists ka :: Asks(e, a, b, ka) }

  ghost predicate Peers(e: Env, a: NodeId, b: NodeId) { Intends(e, a, b) || Intends(e, b, a) }

  /** The one side of a connected pair that dials. */
  ghost predicate Dials(e: Env, a: NodeId, b: NodeId)
  {
    && Intends(e, a, b)
    && (Intends(e, b, a) ==>
          if Exposed(e, a) == Exposed(e, b) then a < b else Exposed(e, b))
  }

  // ----- who carries whose address on a mother

  ghost function Owner(e: Env, m: NodeId, z: NodeId): (o: Option<NodeId>)
  {
    if !Mother(e, m) || z !in e.nodes || z == m then None
    else if e.nodes[z].mother && e.nodes[z].subnet == e.nodes[m].subnet then
      if MeshEdge(e, m, z) then Some(z) else None
    else
      var g := Gw(e, z, e.nodes[m].subnet);
      if g == Some(m) || (Attached(e, z, m) && e.nodes[m].exposed)
         || (e.nodes[z].subnet == e.nodes[m].subnet && Intends(e, z, m)) then Some(z)
      else if g.Some? && MeshEdge(e, m, g.value) then g
      else None
  }

  function NearHomes(e: Env, t: NodeId, ms: seq<NodeId>): (r: seq<NodeId>)
    requires t in e.nodes
    ensures forall m :: m in r <==> m in ms && Exposed(e, m) && m in e.nodes && e.nodes[m].subnet == e.nodes[t].subnet
  {
    if ms == [] then []
    else
      var prev, m := NearHomes(e, t, ms[..|ms|-1]), ms[|ms|-1];
      if Exposed(e, m) && m in e.nodes && e.nodes[m].subnet == e.nodes[t].subnet then prev + [m] else prev
  }

  /** The mothers a child lives under: exposed ones it is attached to in its own
      subnet, else the gateway it picked there. */
  function Homes(e: Env, t: NodeId): (r: seq<NodeId>)
    requires t in e.nodes
  {
    var near := NearHomes(e, t, AttachList(e, e.links, t));
    if near != [] then near
    else match Gw(e, t, e.nodes[t].subnet) case None => [] case Some(g) => [g]
  }

  ghost function FirstPeer(e: Env, a: NodeId, hs: seq<NodeId>): (v: Option<NodeId>)
    ensures v.Some? ==> v.value in hs && Peers(e, a, v.value)
    ensures v.None? ==> forall h :: h in hs ==> !Peers(e, a, h)
  {
    if hs == [] then None else if Peers(e, a, hs[0]) then Some(hs[0]) else FirstPeer(e, a, hs[1..])
  }

  /** Through which of t's homes a reaches t: t's own gateway if it is a peer, else the first peer. */
  ghost function HomeVia(e: Env, a: NodeId, t: NodeId): (v: Option<NodeId>)
    requires t in e.nodes
    ensures v.Some? ==> v.value in Homes(e, t) && Peers(e, a, v.value)
    ensures v.None? ==> forall h :: h in Homes(e, t) ==> !Peers(e, a, h)
  {
    var th := Gw(e, t, e.nodes[t].subnet);
    if th.Some? && th.value in Homes(e, t) && Peers(e, a, th.value) then th else FirstPeer(e, a, Homes(e, t))
  }

  // ----- both ends of a cross-subnet pair agree on one gateway

  function PairVia(x: NodeId, gx: Option<NodeId>, y: NodeId, gy: Option<NodeId>): (v: Option<NodeId>)
  {
    if gx.None? then gy
    else if gy.None? then gx
    else if gx == Some(RELAY) && gy != Some(RELAY) then gy
    else if gy == Some(RELAY) && gx != Some(RELAY) then gx
    else if x < y then gx else gy
  }

  /** The node that carries traffic between children x and y of different subnets. */
  function Carrier(e: Env, x: NodeId, y: NodeId): (v: Option<NodeId>)
    requires x in e.nodes && y in e.nodes
  {
    PairVia(x, Gw(e, x, e.nodes[y].subnet), y, Gw(e, y, e.nodes[x].subnet))
  }

  /** The carrier is a gateway of one of the two into the other's subnet; it is the relay
      only if no such gateway is a mother, and of two mothers the lower id's. */
  lemma CarrierIs(e: Env, x: NodeId, y: NodeId)
    requires x in e.nodes && y in e.nodes
    ensures var gx, gy, v := Gw(e, x, e.nodes[y].subnet), Gw(e, y, e.nodes[x].subnet), Carrier(e, x, y);
            && (v.None? <==> gx.None? && gy.None?) && (v.Some? ==> v == gx || v == gy)
            && (v == Some(RELAY) ==> (gx.None? || gx == Some(RELAY)) && (gy.None? || gy == Some(RELAY)))
            && (gx.Some? && gy.Some? && gx != Some(RELAY) && gy != Some(RELAY) && x < y ==> v == gx)
  {
  }

  // ----- allowed prefixes: the grant "a allows p on its peer b", rule by rule

  ghost predicate OwnerGrant(e: Env, a: NodeId, b: NodeId, p: Prefix, z: NodeId)
  {
    z in e.nodes && Owner(e, a, z) == Some(b) && p == e.nodes[z].host
  }

  /** Mother a may carry LAN route p of node z; the first such z in mesh order gets it. */
  ghost predicate ClaimsLan(e: Env, a: NodeId, z: NodeId, p: Prefix)
  {
    Owner(e, a, z) == Some(z) && Peers(e, a, z) && Gw(e, z, e.nodes[a].subnet) == Some(a) && IsLan(e, z, p)
  }

  ghost predicate LanClaimed(e: Env, a: NodeId, p: Prefix, n: nat)
    requires n <= |e.order|
  {
    exists j :: 0 <= j < n && ClaimsLan(e, a, e.order[j], p)
  }

  ghost predicate FirstClaim(e: Env, a: NodeId, b: NodeId, p: Prefix, k: nat)
  {
    k < |e.order| && e.order[k] == b && ClaimsLan(e, a, b, p) && !LanClaimed(e, a, p, k)
  }

  ghost predicate LanGrant(e: Env, a: NodeId, b: NodeId, p: Prefix) { exists k :: FirstClaim(e, a, b, p, k) }

  /** A LAN is carried by one node of those that claim it: the first in the mesh. */
  lemma LanGoesToFirst(e: Env, a: NodeId, b: NodeId, z: NodeId, p: Prefix)
    requires LanGrant(e, a, b, p) && z in e.order && ClaimsLan(e, a, z, p)
    ensures ClaimsLan(e, a, b, p) && (z == b || Before(e.order, b, z)) && (LanGrant(e, a, z, p) ==> z == b)
  {
    var k: nat :| FirstClaim(e, a, b, p, k);
    var j: nat :| j < |e.order| && e.order[j] == z;
    NoneBefore(e, a, p, k, j);
    assert z == b || Before(e.order, b, z);
    if LanGrant(e, a, z, p) {
      var i: nat :| FirstClaim(e, a, z, p, i);
      OneFirst(e, a, b, z, p, k, i);
    }
  }

  lemma OneFirst(e: Env, a: NodeId, b: NodeId, z: NodeId, p: Prefix, k: nat, i: nat)
    requires FirstClaim(e, a, b, p, k) && FirstClaim(e, a, z, p, i)
    ensures z == b
  {
    NoneBefore(e, a, p, k, i);
    NoneBefore(e, a, p, i, k);
  }

  lemma NoneBefore(e: Env, a: NodeId, p: Prefix, k: nat, j: nat)
    requires k <= |e.order| && j < |e.order| && !LanClaimed(e, a, p, k) && ClaimsLan(e, a, e.order[j], p)
    ensures k <= j
  {
  }

  /** Inside a child's own subnet: a mother directly, a child through one of its homes. */
  ghost predicate NeighbourGrant(e: Env, a: NodeId, b: NodeId, p: Prefix, t: NodeId)
  {
    && Child(e, a) && t in e.nodes && t != a && e.nodes[t].subnet == e.nodes[a].subnet && p == e.nodes[t].host
    && var g := Gw(e, a, e.nodes[a].subnet);
    && g.Some? && Peers(e, a, g.value) && t != g.value
    && if e.nodes[t].mother then b == t else g.value !in Homes(e, t) && HomeVia(e, a, t) == Some(b)
  }

  ghost predicate HomeLanGrant(e: Env, a: NodeId, b: NodeId, p: Prefix)
  {
    Child(e, a) && Gw(e, a, e.nodes[a].subnet) == Some(b) && IsLan(e, a, p)
  }

  ghost predicate PairGrant(e: Env, a: NodeId, b: NodeId, p: Prefix, y: NodeId)
  {
    && Child(e, a) && Child(e, y) && e.nodes[a].subnet != e.nodes[y].subnet && p == e.nodes[y].host
    && Carrier(e, a, y) == Some(b) && Gw(e, a, e.nodes[y].subnet) != Some(b)
  }

  ghost predicate GenericGrant(e: Env, a: NodeId, b: NodeId, p: Prefix, l: Link)
  {
    && l in e.links && Generic(e, l)
    && ((a == l.from && b == l.to && if l.allowed.Some? then p in l.allowed.value else p == e.nodes[b].host)
        || (a == l.to && b == l.from && !Mother(e, a) && p == e.nodes[b].host))
  }

  ghost predicate Rule(e: Env, a: NodeId, b: NodeId, p: Prefix)
  {
    || (exists z :: OwnerGrant(e, a, b, p, z))
    || LanGrant(e, a, b, p)
    || Gw(e, a, p) == Some(b)
    || (exists t :: NeighbourGrant(e, a, b, p, t))
    || HomeLanGrant(e, a, b, p)
    || (exists y :: PairGrant(e, a, b, p, y))
    || (a == RELAY && b in e.nodes && p == e.nodes[b].host)
    || (exists l :: GenericGrant(e, a, b, p, l))
    || (a in e.nodes && Mother(e, b) && p == e.nodes[b].host)
  }

  /** The plan: a has peer b, and some rule puts p on it. */
  ghost predicate Grants(e: Env, a: NodeId, b: NodeId, p: Prefix) { Peers(e, a, b) && Rule(e, a, b, p) }
}
