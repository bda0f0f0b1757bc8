/** Routing theorems about the plan: one owner per prefix, and forward path and
    source check agree for every pair of children in different subnets. */
module MeshRouting {
  import opened Common
  import opened Prefixes
  import opened MeshSpec

  /** No administrator-made dial links and no LAN routes. */
  ghost predicate Plain(e: Env)
  {
    && Enrolled(e) && Addressed(e) && NoGeneric(e)
    && (forall id, p {:trigger IsLan(e, id, p)} :: !IsLan(e, id, p))
  }

  ghost predicate NoGeneric(e: Env) { forall l {:trigger Generic(e, l)} :: l in e.links ==> !Generic(e, l) }

  // ----- who can be a peer of whom

  lemma CandidateIsUp(e: Env, a: NodeId, b: NodeId, p: Prefix)
    requires a in e.nodes && b in Cands(e, a, p)
    ensures b == RELAY || Serves(e, a, p, b)
  {
  }

  /** In a plain mesh nodes dial only mothers and the relay. */
  lemma DialsUp(e: Env, a: NodeId, b: NodeId, ka: int)
    requires NoGeneric(e) && Asks(e, a, b, ka)
    ensures a in e.nodes && (b == RELAY || Mother(e, b))
  {
    if Attached(e, a, b) {
      AttachedByLink(e, e.links, a, b);
    } else if a in e.nodes && exists p :: p in e.nodes[a].routes && DialsCandidate(e, a, b, p) {
      var p :| p in e.nodes[a].routes && DialsCandidate(e, a, b, p);
      CandidateIsUp(e, a, b, p);
    }
  }

  lemma PeersSymmetric(e: Env, a: NodeId, b: NodeId)
    ensures Peers(e, a, b) <==> Peers(e, b, a)
  {
  }

  /** Mothers and the relay never dial a child, so a child's link to them is its own. */
  lemma ChildDialsPeer(e: Env, x: NodeId, v: NodeId)
    requires NoGeneric(e) && Child(e, x) && RELAY !in e.nodes && Peers(e, x, v)
    ensures Intends(e, x, v)
  {
    if Intends(e, v, x) {
      var ka :| Asks(e, v, x, ka);
      DialsUp(e, v, x, ka);
    }
  }

  /** Every gateway is connected. */
  lemma GatewayIsPeer(e: Env, a: NodeId, p: Prefix)
    requires Gw(e, a, p).Some?
    ensures Peers(e, a, Gw(e, a, p).value)
  {
    var g := Gw(e, a, p).value;
    GwIs(e, a, p);
    assert DialsCandidate(e, a, g, p);
    assert Asks(e, a, g, if e.nodes[a].mother then MOTHER_KEEPALIVE else CHILD_KEEPALIVE);
  }

  // ----- one peer per prefix

  ghost predicate IsHostOf(e: Env, t: NodeId, p: Prefix) { t in e.nodes && e.nodes[t].host == p }

  /** The only peer of child a that can carry p, read off the gateways alone. */
  ghost function ChildRoute(e: Env, a: NodeId, p: Prefix): Option<NodeId>
    requires Child(e, a)
  {
    if exists t :: IsHostOf(e, t, p) then
      var t :| IsHostOf(e, t, p);
      if e.nodes[t].mother then Some(t)
      else if e.nodes[t].subnet == e.nodes[a].subnet then HomeVia(e, a, t)
      else Carrier(e, a, t)
    else Gw(e, a, p)
  }

  lemma HostIsNoSubnet(e: Env, t: NodeId, p: Prefix)
    requires Enrolled(e) && Addressed(e) && IsHostOf(e, t, p)
    ensures !IsVpn(e, p)
  {
    assert HostOk(e, t);
    forall id | id in e.nodes ensures e.nodes[id].subnet != p { assert SubnetOk(e, id); }
  }

  lemma HostIsUnique(e: Env, s: NodeId, t: NodeId, p: Prefix)
    requires Enrolled(e) && IsHostOf(e, s, p) && IsHostOf(e, t, p)
    ensures s == t
  {
    assert HostsApart(e, s, t);
  }

  /** What puts a prefix on a child's peer: it is host t, and the peer is fixed by
      the kind of t; or it is a subnet on its gateway. */
  lemma ChildGrantKind(e: Env, a: NodeId, b: NodeId, p: Prefix) returns (t: NodeId)
    requires Plain(e) && Child(e, a) && Grants(e, a, b, p)
    ensures (IsVpn(e, p) && Gw(e, a, p) == Some(b)) || IsHostOf(e, t, p)
    ensures IsHostOf(e, t, p) && Mother(e, t) ==> b == t
    ensures IsHostOf(e, t, p) && Child(e, t) && e.nodes[t].subnet == e.nodes[a].subnet ==> HomeVia(e, a, t) == Some(b)
    ensures IsHostOf(e, t, p) && Child(e, t) && e.nodes[t].subnet != e.nodes[a].subnet ==>
              Carrier(e, a, t) == Some(b) && Gw(e, a, e.nodes[t].subnet) != Some(b)
  {
    if Gw(e, a, p) == Some(b) {
      t := a;
      if IsHostOf(e, t, p) { HostIsNoSubnet(e, t, p); }
    } else if exists y :: PairGrant(e, a, b, p, y) {
      t :| PairGrant(e, a, b, p, t);
    } else if exists s :: NeighbourGrant(e, a, b, p, s) {
      t :| NeighbourGrant(e, a, b, p, t);
    } else {
      assert forall q :: !IsLan(e, a, q);
      t := b;
    }
  }

  lemma ChildGrantIsRoute(e: Env, a: NodeId, b: NodeId, p: Prefix)
    requires Plain(e) && Child(e, a) && Grants(e, a, b, p)
    ensures ChildRoute(e, a, p) == Some(b)
  {
    var t := ChildGrantKind(e, a, b, p);
    if IsHostOf(e, t, p) {
      var s :| IsHostOf(e, s, p) && ChildRoute(e, a, p) ==
        if e.nodes[s].mother then Some(s)
        else if e.nodes[s].subnet == e.nodes[a].subnet then HomeVia(e, a, s)
        else Carrier(e, a, s);
      HostIsUnique(e, s, t, p);
    } else if exists s :: IsHostOf(e, s, p) {
      var s :| IsHostOf(e, s, p);
      HostIsNoSubnet(e, s, p);
    }
  }

  /** No prefix is planned on two different peers of a child. */
  lemma ChildPrefixHasOnePeer(e: Env, a: NodeId, b: NodeId, c: NodeId, p: Prefix)
    requires Plain(e) && Child(e, a) && Grants(e, a, b, p) && Grants(e, a, c, p)
    ensures b == c
  {
    ChildGrantIsRoute(e, a, b, p);
    ChildGrantIsRoute(e, a, c, p);
  }

  /** On a mother, a child's address sits on its owner only. */
  lemma MotherGrantIsOwner(e: Env, m: NodeId, z: NodeId, b: NodeId)
    requires Plain(e) && Mother(e, m) && Child(e, z) && Grants(e, m, b, e.nodes[z].host)
    ensures Owner(e, m, z) == Some(b)
  {
    var p := e.nodes[z].host;
    assert IsHostOf(e, z, p);
    HostIsNoSubnet(e, z, p);
    assert Gw(e, m, p).None? && !IsLan(e, b, p);
    if exists s :: OwnerGrant(e, m, b, p, s) {
      var s :| OwnerGrant(e, m, b, p, s);
      HostIsUnique(e, s, z, p);
    } else if Mother(e, b) && p == e.nodes[b].host {
      HostIsUnique(e, b, z, p);
    }
  }

  /** No child's host prefix is planned on two different peers of a mother. */
  lemma MotherHostHasOnePeer(e: Env, m: NodeId, z: NodeId, b: NodeId, c: NodeId)
    requires Plain(e) && Mother(e, m) && Child(e, z)
    requires Grants(e, m, b, e.nodes[z].host) && Grants(e, m, c, e.nodes[z].host)
    ensures b == c
  {
    MotherGrantIsOwner(e, m, z, b);
    MotherGrantIsOwner(e, m, z, c);
  }

  // ----- longest-prefix match on planned tables

  /** Longest-prefix match at a sends an address to peer b, with no rival. */
  ghost predicate RoutesTo(e: Env, a: NodeId, ip: Prefix, b: NodeId)
  {
    exists p :: BestGrant(e, a, ip, b, p)
  }

  ghost predicate BestGrant(e: Env, a: NodeId, ip: Prefix, b: NodeId, p: Prefix)
  {
    && Grants(e, a, b, p) && Covers(p, ip)
    && forall c, q :: Grants(e, a, c, q) && Covers(q, ip) ==> |q.bits| < |p.bits| || (q == p && c == b)
  }

  lemma RouteIsUnique(e: Env, a: NodeId, ip: Prefix, b: NodeId, c: NodeId)
    requires RoutesTo(e, a, ip, b) && RoutesTo(e, a, ip, c)
    ensures b == c
  {
    var p :| BestGrant(e, a, ip, b, p);
    var q :| BestGrant(e, a, ip, c, q);
  }

  /** m is a table that a may end up with: every granted prefix, on some peer it is granted on. */
  ghost predicate TableOf(e: Env, a: NodeId, m: map<Prefix, NodeId>)
  {
    && (forall p :: p in m ==> Grants(e, a, m[p], p))
    && (forall p, c :: Grants(e, a, c, p) ==> p in m)
  }

  ghost predicate LooksUp(m: map<Prefix, NodeId>, ip: Prefix, b: NodeId)
  {
    exists p :: LongestMatch(m, ip, p) && m[p] == b
  }

  /** Whatever table a ends up with, the address is looked up as b. */
  ghost predicate Sends(e: Env, a: NodeId, ip: Prefix, b: NodeId)
  {
    forall m: map<Prefix, NodeId> {:trigger TableOf(e, a, m)} :: TableOf(e, a, m) ==> LooksUp(m, ip, b)
  }

  lemma RouteIsFound(e: Env, a: NodeId, ip: Prefix, b: NodeId, m: map<Prefix, NodeId>)
    requires TableOf(e, a, m) && RoutesTo(e, a, ip, b)
    ensures LooksUp(m, ip, b)
  {
    var p :| BestGrant(e, a, ip, b, p);
    forall q | q in m && Covers(q, ip) ensures |q.bits| <= |p.bits| { assert Grants(e, a, m[q], q); }
    assert Grants(e, a, m[p], p);
    assert LongestMatch(m, ip, p);
  }

  /** The planned route is what every table made from the grants of a looks up, and
      nothing else is: also at nodes where some prefix is granted on two peers. */
  lemma RouteIsLookup(e: Env, a: NodeId, ip: Prefix, b: NodeId, some: map<Prefix, NodeId>)
    requires TableOf(e, a, some)
    ensures RoutesTo(e, a, ip, b) <==> Sends(e, a, ip, b)
  {
    if RoutesTo(e, a, ip, b) {
      forall m: map<Prefix, NodeId> | TableOf(e, a, m) ensures LooksUp(m, ip, b) { RouteIsFound(e, a, ip, b, m); }
    }
    if Sends(e, a, ip, b) {
      assert LooksUp(some, ip, b);
      var p :| LongestMatch(some, ip, p) && some[p] == b;
      forall c, q | Grants(e, a, c, q) && Covers(q, ip) ensures |q.bits| < |p.bits| || (q == p && c == b) {
        CoversComparable(p, q, ip);
        if q == p { NoRival(e, a, ip, b, some, p, c); }
      }
      assert BestGrant(e, a, ip, b, p);
    }
  }

  /** Were the longest match granted on another peer as well, some table would look up that one. */
  lemma NoRival(e: Env, a: NodeId, ip: Prefix, b: NodeId, m: map<Prefix, NodeId>, p: Prefix, c: NodeId)
    requires TableOf(e, a, m) && Sends(e, a, ip, b) && LongestMatch(m, ip, p) && Grants(e, a, c, p)
    ensures c == b
  {
    var m' := m[p := c];
    assert TableOf(e, a, m');
    assert LongestMatch(m', ip, p);
    var q :| LongestMatch(m', ip, q) && m'[q] == b;
    LongestMatchUnique(m', ip, p, q);
  }

  /** In a plain mesh only hosts and VPN subnets are granted, so tables exist. */
  lemma PlainGrantKind(e: Env, a: NodeId, b: NodeId, p: Prefix) returns (t: NodeId)
    requires Plain(e) && Grants(e, a, b, p)
    ensures t in e.nodes && (e.nodes[t].host == p || (e.nodes[t].subnet == p && Gw(e, a, p) == Some(b)))
  {
    if exists z :: OwnerGrant(e, a, b, p, z) {
      t :| OwnerGrant(e, a, b, p, t);
    } else if Gw(e, a, p) == Some(b) {
      t :| t in e.nodes && e.nodes[t].subnet == p;
    } else if exists z :: NeighbourGrant(e, a, b, p, z) {
      t :| NeighbourGrant(e, a, b, p, t);
    } else if exists y :: PairGrant(e, a, b, p, y) {
      t :| PairGrant(e, a, b, p, t);
    } else {
      assert !IsLan(e, a, p) && !IsLan(e, b, p);
      t := b;
    }
  }

  lemma TableExists(e: Env, a: NodeId) returns (m: map<Prefix, NodeId>)
    requires Plain(e)
    ensures TableOf(e, a, m)
  {
    var known := (set t | t in e.nodes :: e.nodes[t].host) + (set t | t in e.nodes :: e.nodes[t].subnet);
    m := map p | p in known && Granted(e, a, p) :: GrantedOn(e, a, p);
    forall p, c | Grants(e, a, c, p) ensures p in m {
      var t := PlainGrantKind(e, a, c, p);
    }
  }

  ghost predicate Granted(e: Env, a: NodeId, p: Prefix) { exists b :: Grants(e, a, b, p) }

  ghost function GrantedOn(e: Env, a: NodeId, p: Prefix): (b: NodeId)
    requires Granted(e, a, p)
    ensures Grants(e, a, b, p)
  {
    var b :| Grants(e, a, b, p);
    b
  }

  /** Only y's subnet and y's host can match y's address at a child of another subnet. */
  lemma MatchesForPeer(e: Env, x: NodeId, y: NodeId, b: NodeId, p: Prefix)
    requires Plain(e) && Child(e, x) && Child(e, y) && e.nodes[x].subnet != e.nodes[y].subnet
    requires Grants(e, x, b, p) && Covers(p, e.nodes[y].host)
    ensures (p == e.nodes[y].subnet && Gw(e, x, p) == Some(b))
            || (p == e.nodes[y].host && Carrier(e, x, y) == Some(b) && Gw(e, x, e.nodes[y].subnet) != Some(b))
  {
    var h := e.nodes[y].host;
    assert HostOk(e, y);
    var t := ChildGrantKind(e, x, b, p);
    if IsHostOf(e, t, p) {
      assert HostOk(e, t);
      assert p == h by { CoversComparable(p, h, h); }
      HostIsUnique(e, t, y, p);
    } else {
      var id :| id in e.nodes && e.nodes[id].subnet == p;
      assert SubnetsApart(e, id, y) && SubnetsApart(e, y, id);
      CoversComparable(p, e.nodes[y].subnet, h);
    }
  }

  /** Where a child sends traffic for a child of another subnet. */
  lemma ChildRoutes(e: Env, x: NodeId, y: NodeId)
    requires Plain(e) && Child(e, x) && Child(e, y) && e.nodes[x].subnet != e.nodes[y].subnet
    ensures var h := e.nodes[y].host; var v := Carrier(e, x, y); var g := Gw(e, x, e.nodes[y].subnet);
            && (v.Some? && Peers(e, x, v.value) ==> RoutesTo(e, x, h, v.value))
            && (!(v.Some? && Peers(e, x, v.value)) ==>
                  forall b :: RoutesTo(e, x, h, b) ==> g == Some(b) && g != v)
  {
    var h, s := e.nodes[y].host, e.nodes[y].subnet;
    var v, g := Carrier(e, x, y), Gw(e, x, s);
    assert HostOk(e, y) && SubnetOk(e, y);
    forall c, q | Grants(e, x, c, q) && Covers(q, h)
      ensures (q == s && g == Some(c)) || (q == h && v == Some(c) && g != v)
    {
      MatchesForPeer(e, x, y, c, q);
    }
    if v.Some? && Peers(e, x, v.value) {
      if g == v { assert BestGrant(e, x, h, v.value, s); }
      else { assert PairGrant(e, x, v.value, h, y); assert BestGrant(e, x, h, v.value, h); }
    } else {
      forall b | RoutesTo(e, x, h, b) ensures g == Some(b) && g != v {
        var p :| BestGrant(e, x, h, b, p);
      }
    }
  }

  /** A host grant cannot be beaten: nothing is longer, and a rival would be another peer. */
  lemma HostGrantWins(e: Env, a: NodeId, z: NodeId, b: NodeId)
    requires Enrolled(e) && z in e.nodes && Grants(e, a, b, e.nodes[z].host)
    requires forall c :: Grants(e, a, c, e.nodes[z].host) ==> c == b
    ensures RoutesTo(e, a, e.nodes[z].host, b)
  {
    var h := e.nodes[z].host;
    forall c, q | Grants(e, a, c, q) && Covers(q, h) ensures |q.bits| < |h.bits| || (q == h && c == b) {
      CoversComparable(q, h, h);
    }
    assert BestGrant(e, a, h, b, h);
  }

  lemma CarrierSymmetric(e: Env, x: NodeId, y: NodeId)
    requires x in e.nodes && y in e.nodes && x != y
    ensures Carrier(e, x, y) == Carrier(e, y, x)
  {
  }

  /** A mother that carries the pair delivers to each of the two directly. */
  lemma MotherDelivers(e: Env, x: NodeId, y: NodeId, v: NodeId, z: NodeId)
    requires Plain(e) && Child(e, x) && Child(e, y) && e.nodes[x].subnet != e.nodes[y].subnet
    requires Carrier(e, x, y) == Some(v) && v != RELAY && Peers(e, z, v) && (z == x || z == y)
    ensures RoutesTo(e, v, e.nodes[z].host, z)
  {
    var gx, gy := Gw(e, x, e.nodes[y].subnet), Gw(e, y, e.nodes[x].subnet);
    if gx == Some(v) { GwIs(e, x, e.nodes[y].subnet); }
    if gy == Some(v) { GwIs(e, y, e.nodes[x].subnet); }
    ChildDialsPeer(e, z, v);
    assert Owner(e, v, z) == Some(z);
    assert OwnerGrant(e, v, z, e.nodes[z].host, z);
    PeersSymmetric(e, z, v);
    assert Grants(e, v, z, e.nodes[z].host);
    forall c | Grants(e, v, c, e.nodes[z].host) ensures c == z { MotherGrantIsOwner(e, v, z, c); }
    HostGrantWins(e, v, z, z);
  }

  lemma RelayDelivers(e: Env, z: NodeId)
    requires Plain(e) && z in e.nodes && Peers(e, z, RELAY)
    ensures RoutesTo(e, RELAY, e.nodes[z].host, z)
  {
    PeersSymmetric(e, z, RELAY);
    assert Grants(e, RELAY, z, e.nodes[z].host);
    forall c | Grants(e, RELAY, c, e.nodes[z].host) ensures c == z { RelayGrant(e, c, e.nodes[z].host, z); }
    HostGrantWins(e, RELAY, z, z);
  }

  lemma RelayGrant(e: Env, c: NodeId, p: Prefix, z: NodeId)
    requires Plain(e) && IsHostOf(e, z, p) && Grants(e, RELAY, c, p)
    ensures c == z
  {
    assert !Mother(e, RELAY) && Gw(e, RELAY, p).None? && !IsLan(e, c, p);
    HostIsUnique(e, c, z, p);
  }

  // ----- two-way delivery

  /** A packet from x to y goes by v, passing WireGuard's source check at v and at y:
      each receiver's own table maps the source address to the peer it came from. */
  ghost predicate Delivers(e: Env, x: NodeId, y: NodeId, v: NodeId)
    requires x in e.nodes && y in e.nodes
  {
    && RoutesTo(e, x, e.nodes[y].host, v) && RoutesTo(e, v, e.nodes[x].host, x)
    && RoutesTo(e, v, e.nodes[y].host, y) && RoutesTo(e, y, e.nodes[x].host, v)
  }

  /** The same on the tables themselves: whatever tables x, y and v end up with. */
  ghost predicate TablesCarry(e: Env, x: NodeId, y: NodeId, v: NodeId)
    requires x in e.nodes && y in e.nodes
  {
    && Sends(e, x, e.nodes[y].host, v) && Sends(e, v, e.nodes[x].host, x)
    && Sends(e, v, e.nodes[y].host, y) && Sends(e, y, e.nodes[x].host, v)
  }

  lemma DeliveryIsLookup(e: Env, x: NodeId, y: NodeId, v: NodeId)
    requires Plain(e) && x in e.nodes && y in e.nodes
    ensures Delivers(e, x, y, v) <==> TablesCarry(e, x, y, v)
  {
    var tx := TableExists(e, x);
    var ty := TableExists(e, y);
    var tv := TableExists(e, v);
    RouteIsLookup(e, x, e.nodes[y].host, v, tx);
    RouteIsLookup(e, y, e.nodes[x].host, v, ty);
    RouteIsLookup(e, v, e.nodes[x].host, x, tv);
    RouteIsLookup(e, v, e.nodes[y].host, y, tv);
  }

  /** For every pair of children in different subnets: one node carries both
      directions past every source check exactly when both are connected to the
      carrier that the gateways name. */
  lemma TwoWayDelivery(e: Env, x: NodeId, y: NodeId)
    requires Plain(e) && Child(e, x) && Child(e, y) && e.nodes[x].subnet != e.nodes[y].subnet
    ensures (exists v :: Delivers(e, x, y, v) && Delivers(e, y, x, v))
            <==> var v := Carrier(e, x, y); v.Some? && Peers(e, x, v.value) && Peers(e, y, v.value)
    ensures (exists v :: Delivers(e, x, y, v)) <==> exists v :: TablesCarry(e, x, y, v)
  {
    forall v ensures Delivers(e, x, y, v) <==> TablesCarry(e, x, y, v) { DeliveryIsLookup(e, x, y, v); }
    var c := Carrier(e, x, y);
    CarrierSymmetric(e, x, y);
    ChildRoutes(e, x, y);
    ChildRoutes(e, y, x);
    if c.Some? && Peers(e, x, c.value) && Peers(e, y, c.value) {
      var v := c.value;
      if v == RELAY { RelayDelivers(e, x); RelayDelivers(e, y); }
      else { MotherDelivers(e, x, y, v, x); MotherDelivers(e, x, y, v, y); }
      assert Delivers(e, x, y, v) && Delivers(e, y, x, v);
    } else if exists v :: Delivers(e, x, y, v) && Delivers(e, y, x, v) {
      var v :| Delivers(e, x, y, v) && Delivers(e, y, x, v);
      if c.Some? && Peers(e, x, c.value) { RouteIsUnique(e, x, e.nodes[y].host, v, c.value); }
      if c.Some? && Peers(e, y, c.value) { RouteIsUnique(e, y, e.nodes[x].host, v, c.value); }
    }
  }

  /** A child that routes its own subnet is connected to every gateway into it. */
  lemma OwnSubnetConnects(e: Env, x: NodeId, y: NodeId)
    requires Enrolled(e) && Child(e, x) && y in e.nodes && e.nodes[x].subnet in e.nodes[x].routes
    requires Gw(e, y, e.nodes[x].subnet).Some?
    ensures Peers(e, x, Gw(e, y, e.nodes[x].subnet).value)
  {
    var s := e.nodes[x].subnet;
    var v := Gw(e, y, s).value;
    GwIs(e, y, s);
    if v == RELAY {
      assert RelayServed(e, s);
      assert Asks(e, x, RELAY, CHILD_KEEPALIVE);
    } else {
      assert v in e.order && Serves(e, x, s, v);
      assert v in ExposedMothers(e, x, s, e.order);
      assert Routable(e, x, s);
      assert DialsHome(e, x, v);
      assert Asks(e, x, v, CHILD_KEEPALIVE);
    }
  }

  /** Children that route their own subnets reach each other through one node in
      both directions as soon as one of them has a gateway into the other's subnet. */
  lemma CrossSubnetDelivery(e: Env, x: NodeId, y: NodeId)
    requires Plain(e) && Child(e, x) && Child(e, y) && e.nodes[x].subnet != e.nodes[y].subnet
    requires e.nodes[x].subnet in e.nodes[x].routes && e.nodes[y].subnet in e.nodes[y].routes
    requires Gw(e, x, e.nodes[y].subnet).Some? || Gw(e, y, e.nodes[x].subnet).Some?
    ensures exists v :: TablesCarry(e, x, y, v)
  {
    var gx, gy := Gw(e, x, e.nodes[y].subnet), Gw(e, y, e.nodes[x].subnet);
    if gx.Some? { GatewayIsPeer(e, x, e.nodes[y].subnet); OwnSubnetConnects(e, y, x); }
    if gy.Some? { GatewayIsPeer(e, y, e.nodes[x].subnet); OwnSubnetConnects(e, x, y); }
    TwoWayDelivery(e, x, y);
  }
}
