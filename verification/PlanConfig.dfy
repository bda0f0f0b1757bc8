/** From plan to device: when the configuration cut from a node's plan wants no prefix
    for two peers and no negative keepalive, and what becomes of one that does. */
module PlanConfig {
  import opened Common
  import opened Prefixes
  import opened MeshSpec
  import opened MeshRouting
  import HotApply
  import MeshPlanner

  /** Endpoint and keepalive are given together, to the side that dials. */
  ghost predicate DialCut(e: Env, a: NodeId, b: NodeId, w: HotApply.Wanted)
  {
    if w.endpoint.Some? then Dials(e, a, b) && MeshPlanner.KeepaliveIs(e, a, b, w.keepalive) else w.keepalive == 0
  }

  /** d is a's configuration: one entry per peer, in the order ids, with the prefixes
      planned on it. Different nodes have different keys. */
  ghost predicate CutFrom(e: Env, a: NodeId, ids: seq<NodeId>, d: seq<HotApply.Wanted>)
  {
    && |ids| == |d| && NoDup(ids) && HotApply.DistinctKeys(d)
    && (forall b :: b in ids <==> Peers(e, a, b))
    && (forall j :: 0 <= j < |d| ==> DialCut(e, a, ids[j], d[j]))
    && (forall j, p :: 0 <= j < |d| ==> (p in d[j].allowed <==> Grants(e, a, ids[j], p)))
  }

  /** No prefix is planned on two peers of a. */
  ghost predicate OnePeerEach(e: Env, a: NodeId)
  {
    forall b, c, p :: Grants(e, a, b, p) && Grants(e, a, c, p) ==> b == c
  }

  lemma DisjointIsOnePeerEach(e: Env, a: NodeId, ids: seq<NodeId>, d: seq<HotApply.Wanted>)
    requires CutFrom(e, a, ids, d)
    ensures HotApply.Disjoint(d) <==> OnePeerEach(e, a)
  {
    if HotApply.Disjoint(d) {
      forall b, c, p | Grants(e, a, b, p) && Grants(e, a, c, p) ensures b == c {
        assert b in ids && c in ids;
        var i :| 0 <= i < |ids| && ids[i] == b;
        var j :| 0 <= j < |ids| && ids[j] == c;
        assert p in d[i].allowed && p in d[j].allowed;
      }
    }
    if OnePeerEach(e, a) {
      forall i, j, p | 0 <= i < j < |d| && p in d[i].allowed ensures p !in d[j].allowed {
        assert Grants(e, a, ids[i], p) && ids[i] != ids[j];
      }
    }
  }

  /** A mother that is connected to m, while m's plan carries her host over another peer. */
  ghost predicate Contested(e: Env, m: NodeId, z: NodeId)
  {
    Mother(e, z) && Peers(e, m, z) && Owner(e, m, z).Some? && Owner(e, m, z) != Some(z)
  }

  lemma MeshEdgeIsPeer(e: Env, a: NodeId, b: NodeId)
    requires MeshEdge(e, a, b)
    ensures Peers(e, a, b)
  {
    assert MeshDials(e, a, b) || MeshDials(e, b, a);
    assert AsksMesh(e, a, b, MOTHER_KEEPALIVE) || AsksMesh(e, b, a, MOTHER_KEEPALIVE);
    assert Asks(e, a, b, MOTHER_KEEPALIVE) || Asks(e, b, a, MOTHER_KEEPALIVE);
  }

  /** What puts a host on a mother's peer. */
  lemma MotherGrantKind(e: Env, m: NodeId, b: NodeId, p: Prefix, z: NodeId)
    requires Plain(e) && Mother(e, m) && Grants(e, m, b, p) && IsHostOf(e, z, p)
    ensures Owner(e, m, z) == Some(b) || (b == z && Mother(e, z))
  {
    HostIsNoSubnet(e, z, p);
    assert Gw(e, m, p).None? && !IsLan(e, b, p);
    if exists s :: OwnerGrant(e, m, b, p, s) {
      var s :| OwnerGrant(e, m, b, p, s);
      HostIsUnique(e, s, z, p);
    } else {
      HostIsUnique(e, b, z, p);
    }
  }

  lemma ContestedIsTwice(e: Env, m: NodeId, z: NodeId)
    requires Enrolled(e) && Mother(e, m) && Contested(e, m, z)
    ensures Grants(e, m, z, e.nodes[z].host) && Grants(e, m, Owner(e, m, z).value, e.nodes[z].host)
  {
    var g := Owner(e, m, z).value;
    assert MeshEdge(e, m, g);
    MeshEdgeIsPeer(e, m, g);
    assert OwnerGrant(e, m, g, e.nodes[z].host, z);
  }

  lemma UncontestedIsOnce(e: Env, m: NodeId, b: NodeId, c: NodeId, p: Prefix)
    requires Plain(e) && Mother(e, m) && (forall z :: !Contested(e, m, z)) && Grants(e, m, b, p) && Grants(e, m, c, p)
    ensures b == c
  {
    var t := PlainGrantKind(e, m, b, p);
    var s := PlainGrantKind(e, m, c, p);
    if e.nodes[t].host == p || e.nodes[s].host == p {
      var z := if e.nodes[t].host == p then t else s;
      assert IsHostOf(e, z, p);
      MotherGrantKind(e, m, b, p, z);
      MotherGrantKind(e, m, c, p, z);
      assert !Contested(e, m, z);
    }
  }

  /** A mother's configuration is disjoint if and only if she has no contested peer. */
  lemma MotherConfigIsDisjoint(e: Env, m: NodeId, ids: seq<NodeId>, d: seq<HotApply.Wanted>)
    requires Plain(e) && Mother(e, m) && CutFrom(e, m, ids, d)
    ensures HotApply.Disjoint(d) <==> forall z :: !Contested(e, m, z)
  {
    DisjointIsOnePeerEach(e, m, ids, d);
    if forall z :: !Contested(e, m, z) {
      forall b, c, p | Grants(e, m, b, p) && Grants(e, m, c, p) ensures b == c { UncontestedIsOnce(e, m, b, c, p); }
    }
    forall z | Contested(e, m, z) ensures !OnePeerEach(e, m) { ContestedIsTwice(e, m, z); }
  }

  /** A child's always is. */
  lemma ChildConfigIsDisjoint(e: Env, a: NodeId, ids: seq<NodeId>, d: seq<HotApply.Wanted>)
    requires Plain(e) && Child(e, a) && CutFrom(e, a, ids, d)
    ensures HotApply.Disjoint(d)
  {
    DisjointIsOnePeerEach(e, a, ids, d);
    forall b, c, p | Grants(e, a, b, p) && Grants(e, a, c, p) ensures b == c { ChildPrefixHasOnePeer(e, a, b, c, p); }
  }

  lemma {:induction false} NoneAttached(e: Env, z: NodeId, s: Prefix, ms: seq<NodeId>)
    requires Mother(e, z)
    ensures AttachedMothers(e, z, s, ms) == []
  {
    if ms != [] {
      NoneAttached(e, z, s, ms[..|ms|-1]);
      NotAttached(e, z, ms[|ms|-1]);
    }
  }

  lemma NotAttached(e: Env, z: NodeId, m: NodeId)
    requires Mother(e, z)
    ensures !Attached(e, z, m)
  {
    if Attached(e, z, m) { AttachedByLink(e, e.links, z, m); }
  }

  /** The ordinary case: z routes into a subnet of two exposed mothers that mesh, is
      connected to both, and picked the other one. */
  lemma ForeignMotherIsContested(e: Env, z: NodeId, g: NodeId, m: NodeId)
    requires Plain(e) && Mother(e, z) && Mother(e, m) && z != m && e.nodes[z].subnet != e.nodes[m].subnet
    requires e.nodes[m].exposed && MeshEdge(e, m, g) && Gw(e, z, e.nodes[m].subnet) == Some(g)
    ensures Contested(e, m, z)
  {
    var s := e.nodes[m].subnet;
    NoneAttached(e, z, s, e.order);
    NotAttached(e, z, m);
    GwIs(e, z, s);
    assert m in e.order && Serves(e, z, s, m);
    assert m in Cands(e, z, s);
    assert DialsCandidate(e, z, m, s);
    assert Asks(e, z, m, MOTHER_KEEPALIVE);
  }

  /** On such a mother every apply moves the host of z between z and its owner. */
  lemma ContestedHostMoves(e: Env, m: NodeId, z: NodeId, ids: seq<NodeId>, d: seq<HotApply.Wanted>, i: nat, j: nat,
                           first: Option<HotApply.Key>)
    requires Plain(e) && Mother(e, m) && CutFrom(e, m, ids, d) && Contested(e, m, z)
    requires i < |ids| && j < |ids| && ids[i] == z && Some(ids[j]) == Owner(e, m, z)
    requires first == Some(d[i].key) || first == Some(d[j].key)
    ensures HotApply.Final(d, first, e.nodes[z].host) ==
            if first == Some(d[i].key) then Some(d[j].key) else Some(d[i].key)
  {
    var p := e.nodes[z].host;
    ContestedIsTwice(e, m, z);
    forall k | 0 <= k < |d| ensures p in d[k].allowed <==> k == i || k == j {
      if Grants(e, m, ids[k], p) {
        assert IsHostOf(e, z, p);
        MotherGrantKind(e, m, ids[k], p, z);
      }
    }
    if i < j {
      HotApply.ContestedPrefixMoves(d, i, j, p, first);
    } else {
      HotApply.ContestedPrefixMoves(d, j, i, p, first);
    }
  }

  // ----- negative keepalives

  /** A peer of the plan that is dialed at an endpoint with a negative keepalive that sticks. */
  ghost predicate Sticks(e: Env, a: NodeId, b: NodeId, w: HotApply.Wanted)
  {
    w.endpoint.Some? && MeshPlanner.Stuck(e, a, b).Some?
  }

  /** A configuration asks for a negative keepalive exactly there. */
  lemma NegativeIffStuck(e: Env, a: NodeId, ids: seq<NodeId>, d: seq<HotApply.Wanted>)
    requires CutFrom(e, a, ids, d)
    ensures HotApply.NoneNegative(d) <==> forall j :: 0 <= j < |d| ==> !Sticks(e, a, ids[j], d[j])
  {
    forall j | 0 <= j < |d| ensures d[j].keepalive < 0 <==> Sticks(e, a, ids[j], d[j]) {
      assert DialCut(e, a, ids[j], d[j]);
    }
  }

  /** Once such a configuration is in place, every further apply of it is refused; any
      other is not, as long as its keepalives have 16 bits. */
  lemma StuckPlanIsRefused(e: Env, a: NodeId, ids: seq<NodeId>, d: seq<HotApply.Wanted>, t: HotApply.State,
                           parses: set<HotApply.Endpoint>)
    requires CutFrom(e, a, ids, d) && HotApply.Reached(d, t) && forall j :: 0 <= j < |d| ==> d[j].keepalive <= 0xffff
    ensures HotApply.SomeRefused(d, HotApply.LiveOf(t), d, parses) <==>
            exists j :: 0 <= j < |d| && Sticks(e, a, ids[j], d[j])
  {
    HotApply.AgainRefusedIffNegative(d, t, parses);
    NegativeIffStuck(e, a, ids, d);
  }
}
