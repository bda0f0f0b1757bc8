/** From the stored mesh to the active nodes: address conflicts, disabled nodes
    and malformed addresses drop out. */
module MeshEnrol {
  import opened Common
  import opened Prefixes
  import opened MeshSpec

  /** The host part of an address: IPv4 bits, or any other text. */
  datatype Host = Ip4(bits: seq<bool>) | Text(text: string)

  datatype RouteText = Blank | Malformed | Net(p: Prefix)

  datatype MeshNode = MeshNode(
    id: NodeId, host: Option<Host>, len: Option<nat>, listenPort: nat, exposed: bool, udpMode: bool, disabled: bool,
    routes: seq<RouteText>, changedAt: Option<int>, cluster: Option<string>)

  datatype Mesh = Mesh(nodes: seq<MeshNode>, links: seq<Link>, relayOn: bool, paths: map<(NodeId, Prefix), NodeId>)

  /** What mesh validation guarantees. */
  ghost predicate Validated(m: Mesh)
  {
    && (forall i, j :: 0 <= i < j < |m.nodes| ==> m.nodes[i].id != m.nodes[j].id)
    && (forall i :: 0 <= i < |m.nodes| ==> m.nodes[i].id != RELAY)
    && (forall l :: l in m.links ==> l.from != RELAY && l.to != RELAY)
  }

  // ----- address conflicts

  /** Node i beats node j for an address: never-changed first, then the earlier change, then mesh order. */
  predicate Better(ns: seq<MeshNode>, i: nat, j: nat)
    requires i < |ns| && j < |ns|
  {
    match (ns[i].changedAt, ns[j].changedAt)
    case (None, None) => i < j
    case (None, _) => true
    case (_, None) => false
    case (Some(s), Some(t)) => if s != t then s < t else i < j
  }

  predicate SameHost(ns: seq<MeshNode>, i: nat, j: nat)
    requires i < |ns| && j < |ns|
  {
    ns[i].host.Some? && ns[i].host == ns[j].host
  }

  /** w is the best of the first n nodes that hold w's host. */
  ghost predicate Wins(ns: seq<MeshNode>, n: nat, w: nat)
    requires n <= |ns|
  {
    w < n && ns[w].host.Some? && forall j :: 0 <= j < n && j != w && SameHost(ns, w, j) ==> Better(ns, w, j)
  }

  lemma BetterIsTotalOrder(ns: seq<MeshNode>, i: nat, j: nat, k: nat)
    requires i < |ns| && j < |ns| && k < |ns|
    ensures i != j ==> (Better(ns, i, j) <==> !Better(ns, j, i))
    ensures Better(ns, i, j) && Better(ns, j, k) ==> Better(ns, i, k)
  {
  }

  lemma WinsStep(ns: seq<MeshNode>, k: nat, w: nat)
    requires k < |ns| && Wins(ns, k, w)
    ensures !SameHost(ns, w, k) || !Better(ns, k, w) ==> Wins(ns, k + 1, w)
    ensures SameHost(ns, w, k) && Better(ns, k, w) ==> Wins(ns, k + 1, k)
  {
    BetterIsTotalOrder(ns, k, w, w);
    if SameHost(ns, w, k) && Better(ns, k, w) {
      forall j | 0 <= j < k && SameHost(ns, k, j) ensures Better(ns, k, j) { BetterIsTotalOrder(ns, k, w, j); }
    }
  }

  /** The winner of a host has no recorded change if any holder has none, else the
      earliest change; among equals it comes first in the mesh. */
  lemma WinnerIsEarliest(ns: seq<MeshNode>, w: nat, j: nat)
    requires w < |ns| && j < |ns| && Wins(ns, |ns|, w) && SameHost(ns, w, j)
    ensures ns[j].changedAt.None? ==> ns[w].changedAt.None?
    ensures ns[w].changedAt.Some? ==> ns[w].changedAt.value <= ns[j].changedAt.value
    ensures ns[w].changedAt == ns[j].changedAt ==> w <= j
  {
    if j != w { assert Better(ns, w, j); }
  }

  lemma WinnerIsUnique(ns: seq<MeshNode>, v: nat, w: nat)
    requires v < |ns| && w < |ns| && Wins(ns, |ns|, v) && Wins(ns, |ns|, w) && SameHost(ns, v, w)
    ensures v == w
  {
    BetterIsTotalOrder(ns, v, w, v);
  }

  /** The winners so far, one per host seen. */
  ghost predicate Leads(ns: seq<MeshNode>, k: nat, winners: map<Host, nat>)
    requires k <= |ns|
  {
    && (forall h :: h in winners ==> Wins(ns, k, winners[h]) && ns[winners[h]].host == Some(h))
    && (forall i :: 0 <= i < k && ns[i].host.Some? ==> ns[i].host.value in winners)
  }

  lemma LeadsStep(ns: seq<MeshNode>, k: nat, winners: map<Host, nat>)
    requires k < |ns| && Leads(ns, k, winners)
    ensures ns[k].host.None? ==> Leads(ns, k + 1, winners)
    ensures ns[k].host.Some? ==>
              var h := ns[k].host.value;
              if h in winners && !Better(ns, k, winners[h]) then Leads(ns, k + 1, winners)
              else Leads(ns, k + 1, winners[h := k])
  {
    forall h | h in winners
      ensures ns[k].host != Some(h) || !Better(ns, k, winners[h]) ==> Wins(ns, k + 1, winners[h])
      ensures ns[k].host == Some(h) && Better(ns, k, winners[h]) ==> Wins(ns, k + 1, k)
    {
      WinsStep(ns, k, winners[h]);
    }
  }

  /** The nodes that lose their address: exactly one holder of each host stays,
      the best one. */
  method ConflictLosers(ns: seq<MeshNode>) returns (losers: set<NodeId>)
    requires forall i, j :: 0 <= i < j < |ns| ==> ns[i].id != ns[j].id
    ensures forall i :: 0 <= i < |ns| ==> (ns[i].id !in losers <==> ns[i].host.None? || Wins(ns, |ns|, i))
    ensures forall i :: 0 <= i < |ns| && ns[i].host.Some? ==>
            exists w :: 0 <= w < |ns| && SameHost(ns, i, w) && ns[w].id !in losers
  {
    losers := {};
    var winners: map<Host, nat> := map[];
    for k := 0 to |ns|
      invariant Leads(ns, k, winners)
      invariant forall i :: 0 <= i < |ns| ==>
                  (ns[i].id in losers <==> i < k && ns[i].host.Some? && winners[ns[i].host.value] != i)
    {
      LeadsStep(ns, k, winners);
      if ns[k].host.Some? {
        var h := ns[k].host.value;
        if h !in winners {
          winners := winners[h := k];
        } else {
          var w := winners[h];
          if Better(ns, k, w) {
            losers := losers + {ns[w].id};
            winners := winners[h := k];
          } else {
            losers := losers + {ns[k].id};
          }
        }
      }
    }
    forall i | 0 <= i < |ns| && ns[i].host.Some?
      ensures ns[i].id !in losers <==> Wins(ns, |ns|, i)
      ensures exists w :: 0 <= w < |ns| && SameHost(ns, i, w) && ns[w].id !in losers
    {
      var w := winners[ns[i].host.value];
      if Wins(ns, |ns|, i) { WinnerIsUnique(ns, i, w); }
      assert SameHost(ns, i, w) && ns[w].id !in losers;
    }
  }

  // ----- routes

  /** Routes without blanks and repeats; one malformed or default route voids them all. */
  function NormalizeRoutes(rs: seq<RouteText>): (r: Option<seq<Prefix>>)
    ensures r.None? <==> exists t :: t in rs && (t.Malformed? || (t.Net? && t.p.bits == []))
    ensures r.Some? ==> NoDup(r.value) && forall p :: p in r.value <==> Net(p) in rs
  {
    if rs == [] then Some([])
    else
      var prev, t := NormalizeRoutes(rs[..|rs|-1]), rs[|rs|-1];
      assert rs == rs[..|rs|-1] + [t];
      if prev.None? || t.Malformed? || (t.Net? && t.p.bits == []) then None
      else if t.Blank? || t.p in prev.value then prev
      else Some(prev.value + [t.p])
  }

  // ----- active nodes

  predicate IsMother(n: MeshNode) { n.listenPort > 0 }

  function FindNode(ns: seq<MeshNode>, id: NodeId): (r: Option<MeshNode>)
    ensures r.Some? ==> r.value in ns && r.value.id == id
    ensures r.None? ==> forall n :: n in ns ==> n.id != id
  {
    if ns == [] then None else if ns[0].id == id then Some(ns[0]) else FindNode(ns[1..], id)
  }

  /** Whether a node's link layer is native UDP: a mother's own choice, else that
      of the first mother it is linked to. */
  function BindUdp(m: Mesh, ls: seq<Link>, n: MeshNode): bool
  {
    if IsMother(n) then n.udpMode
    else if ls == [] then false
    else
      var to := FindNode(m.nodes, ls[0].to);
      if ls[0].from == n.id && to.Some? && IsMother(to.value) then to.value.udpMode
      else BindUdp(m, ls[1..], n)
  }

  predicate Addressable(n: MeshNode)
  {
    n.host.Some? && n.host.value.Ip4? && |n.host.value.bits| == 32 && n.len.Some? && n.len.value <= 32
  }

  function ToPlanNode(m: Mesh, n: MeshNode): (p: PlanNode)
    requires Addressable(n)
    ensures p.host.IsHost() && Covers(p.subnet, p.host)
  {
    var ip := n.host.value.bits;
    var routes := match NormalizeRoutes(n.routes) case None => [] case Some(r) => r;
    PlanNode(Prefix(V4, ip[..n.len.value]), Prefix(V4, ip), IsMother(n), n.exposed, n.udpMode,
             BindUdp(m, m.links, n), n.cluster, routes)
  }

  /** What the planner is told of a node. */
  lemma PlanNodeIs(m: Mesh, n: MeshNode)
    requires Addressable(n)
    ensures var p := ToPlanNode(m, n);
            && (p.mother <==> n.listenPort > 0) && p.exposed == n.exposed && p.udpMode == n.udpMode
            && p.cluster == n.cluster && p.host.bits == n.host.value.bits && |p.subnet.bits| == n.len.value
            && (p.mother ==> p.bindUdp == n.udpMode)
            && (forall q :: q in p.routes ==> Net(q) in n.routes)
  {
  }

  /** A child is bound to UDP just when the first mother it links to is. */
  lemma {:induction false} BindUdpIs(m: Mesh, ls: seq<Link>, n: MeshNode, k: nat)
    requires !IsMother(n) && k <= |ls| && forall j :: 0 <= j < k ==> !ToMother(m, ls[j], n)
    ensures k == |ls| ==> !BindUdp(m, ls, n)
    ensures k < |ls| && ToMother(m, ls[k], n) ==> BindUdp(m, ls, n) == FindNode(m.nodes, ls[k].to).value.udpMode
  {
    if k > 0 {
      forall j | 0 <= j < k - 1 ensures !ToMother(m, ls[1..][j], n) { assert ls[1..][j] == ls[j+1]; }
      BindUdpIs(m, ls[1..], n, k - 1);
      assert !ToMother(m, ls[0], n);
    }
  }

  predicate ToMother(m: Mesh, l: Link, n: MeshNode)
  {
    l.from == n.id && FindNode(m.nodes, l.to).Some? && IsMother(FindNode(m.nodes, l.to).value)
  }

  /** Enabled, holds its address against every rival, and has a usable address. */
  ghost predicate Active(m: Mesh, i: nat)
    requires i < |m.nodes|
  {
    !m.nodes[i].disabled && Addressable(m.nodes[i]) && Wins(m.nodes, |m.nodes|, i)
  }

  ghost function ActiveIds(m: Mesh, k: nat): (r: seq<NodeId>)
    requires k <= |m.nodes|
  {
    if k == 0 then [] else ActiveIds(m, k - 1) + if Active(m, k - 1) then [m.nodes[k-1].id] else []
  }

  lemma {:induction false} ActiveIdsAre(m: Mesh, k: nat)
    requires Validated(m) && k <= |m.nodes|
    ensures NoDup(ActiveIds(m, k))
    ensures forall id :: id in ActiveIds(m, k) ==> exists j :: 0 <= j < k && m.nodes[j].id == id && Active(m, j)
    ensures forall j :: 0 <= j < |m.nodes| ==> (m.nodes[j].id in ActiveIds(m, k) <==> j < k && Active(m, j))
  {
    if k > 0 { ActiveIdsAre(m, k - 1); }
  }

  ghost predicate Planned(m: Mesh, nodes: map<NodeId, PlanNode>, i: nat)
    requires i < |m.nodes|
  {
    Active(m, i) ==> m.nodes[i].id in nodes && nodes[m.nodes[i].id] == ToPlanNode(m, m.nodes[i])
  }

  ghost predicate Kept(m: Mesh, losers: set<NodeId>, i: nat)
    requires i < |m.nodes|
  {
    m.nodes[i].id !in losers <==> m.nodes[i].host.None? || Wins(m.nodes, |m.nodes|, i)
  }

  /** The loop over the mesh that skips disabled, losing and unaddressed nodes. */
  method Collect(m: Mesh, losers: set<NodeId>) returns (order: seq<NodeId>, nodes: map<NodeId, PlanNode>)
    requires Validated(m) && forall i {:trigger Kept(m, losers, i)} :: 0 <= i < |m.nodes| ==> Kept(m, losers, i)
    ensures order == ActiveIds(m, |m.nodes|) && nodes.Keys == set id | id in order
    ensures forall i {:trigger Planned(m, nodes, i)} :: 0 <= i < |m.nodes| ==> Planned(m, nodes, i)
  {
    order, nodes := [], map[];
    for i := 0 to |m.nodes|
      invariant order == ActiveIds(m, i) && nodes.Keys == set id | id in order
      invariant forall j {:trigger Planned(m, nodes, j)} :: 0 <= j < i ==> Planned(m, nodes, j)
    {
      var n := m.nodes[i];
      ghost var before := nodes;
      assert Kept(m, losers, i);
      if !n.disabled && n.id !in losers && Addressable(n) {
        order := order + [n.id];
        nodes := nodes[n.id := ToPlanNode(m, n)];
      }
      forall j | 0 <= j < i + 1 ensures Planned(m, nodes, j) { assert j < i ==> Planned(m, before, j); }
    }
  }

  /** The planner's input: the active nodes in mesh order. */
  method Enrol(m: Mesh) returns (e: Env)
    requires Validated(m)
    ensures Enrolled(e) && e.links == m.links && e.relayOn == m.relayOn && e.paths == m.paths
    ensures e.order == ActiveIds(m, |m.nodes|)
    ensures forall i {:trigger Planned(m, e.nodes, i)} :: 0 <= i < |m.nodes| ==> Planned(m, e.nodes, i)
  {
    var losers := ConflictLosers(m.nodes);
    forall i | 0 <= i < |m.nodes| ensures Kept(m, losers, i) {}
    var order, nodes := Collect(m, losers);
    e := Env(order, nodes, m.links, m.relayOn, m.paths);
    ActiveIdsAre(m, |m.nodes|);
    EnrolledHosts(m, e);
  }

  lemma EnrolledHosts(m: Mesh, e: Env)
    requires Validated(m)
    requires forall id :: id in e.nodes ==> exists j :: 0 <= j < |m.nodes| && m.nodes[j].id == id && Active(m, j)
    requires forall j {:trigger Planned(m, e.nodes, j)} :: 0 <= j < |m.nodes| ==> Planned(m, e.nodes, j)
    ensures RELAY !in e.nodes
    ensures forall id {:trigger HostOk(e, id)} :: id in e.nodes ==> HostOk(e, id)
    ensures forall a, b {:trigger HostsApart(e, a, b)} :: a in e.nodes && b in e.nodes ==> HostsApart(e, a, b)
  {
    forall a, b | a in e.nodes && b in e.nodes ensures HostsApart(e, a, b) && HostOk(e, a) && a != RELAY {
      var i :| 0 <= i < |m.nodes| && m.nodes[i].id == a && Active(m, i);
      var j :| 0 <= j < |m.nodes| && m.nodes[j].id == b && Active(m, j);
      assert Planned(m, e.nodes, i) && Planned(m, e.nodes, j);
      if e.nodes[a].host == e.nodes[b].host { WinnerIsUnique(m.nodes, i, j); }
    }
  }
}
