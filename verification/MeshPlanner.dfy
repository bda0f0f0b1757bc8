/** The planner as an object: its passes fill the maps of attachments, gateways,
    intents and peers step by step, and together compute exactly the plan. */
module MeshPlanner {
  import opened Common
  import opened Prefixes
  import opened MeshSpec

  datatype PlanPeer = PlanPeer(dial: bool, keepalive: int, allowed: seq<Prefix>)

  datatype Ask = Ask(from: NodeId, to: NodeId, ka: int)

  /** One ask after another for the same pair: the smallest positive keepalive wins. */
  function Settle(cur: Option<int>, ka: int): (r: int)
  {
    match cur
    case None => ka
    case Some(c) => if ka > 0 && (c == 0 || ka < c) then ka else c
  }

  /** What asks for one pair, taken in order, leave. */
  function Fold(kas: seq<int>): (r: Option<int>)
  {
    if kas == [] then None else Some(Settle(Fold(kas[..|kas|-1]), kas[|kas|-1]))
  }

  /** The intents after one more ask. */
  function Book(intents: map<(NodeId, NodeId), int>, q: Ask): (r: map<(NodeId, NodeId), int>)
  {
    var k := (q.from, q.to);
    intents[k := Settle(if k in intents then Some(intents[k]) else None, q.ka)]
  }

  /** The intents after asks in order. */
  function BookAll(qs: seq<Ask>): (r: map<(NodeId, NodeId), int>)
  {
    if qs == [] then map[] else Book(BookAll(qs[..|qs|-1]), qs[|qs|-1])
  }

  /** The asks for one pair, in order. */
  function ForPair(qs: seq<Ask>, a: NodeId, b: NodeId): (kas: seq<int>)
  {
    if qs == [] then []
    else
      var kas, q := ForPair(qs[..|qs|-1], a, b), qs[|qs|-1];
      if q.from == a && q.to == b then kas + [q.ka] else kas
  }

  /** Whatever is asked in between for other pairs, a pair has what its own asks leave. */
  lemma {:induction false} IntentIsFold(qs: seq<Ask>, a: NodeId, b: NodeId)
    ensures Fold(ForPair(qs, a, b)) == if (a, b) in BookAll(qs) then Some(BookAll(qs)[(a, b)]) else None
  {
    if qs != [] {
      var front, q := qs[..|qs|-1], qs[|qs|-1];
      IntentIsFold(front, a, b);
      var kas := ForPair(front, a, b);
      assert (kas + [q.ka])[..|kas|] == kas;
    }
  }

  /** ka does not beat cur. */
  predicate AtBest(cur: int, ka: int) { ka <= 0 || 0 < cur <= ka }

  /** A negative keepalive sticks if it came first and is lost otherwise; of the
      others the least positive one wins, and zero only if there is none. */
  lemma {:induction false} FoldIsFirstNegativeOrLeast(kas: seq<int>)
    requires kas != []
    ensures var k := Fold(kas).value;
            if kas[0] < 0 then k == kas[0] else k >= 0 && k in kas && forall ka :: ka in kas ==> AtBest(k, ka)
  {
    if |kas| > 1 {
      var front := kas[..|kas|-1];
      FoldIsFirstNegativeOrLeast(front);
      assert kas == front + [kas[|kas|-1]];
    }
  }

  /** The negative keepalives among the intents. */
  ghost function Negatives(intents: map<(NodeId, NodeId), int>): map<(NodeId, NodeId), int>
  {
    map k | k in intents && intents[k] < 0 :: intents[k]
  }

  /** The intents are the asks, each pair with the keepalive that wins. */
  ghost predicate Booked(asked: set<Ask>, intents: map<(NodeId, NodeId), int>)
  {
    && (forall a, b :: (a, b) in intents ==> Ask(a, b, intents[(a, b)]) in asked)
    && (forall q :: q in asked ==> (q.from, q.to) in intents)
    && (forall q :: q in asked ==> intents[(q.from, q.to)] < 0 || AtBest(intents[(q.from, q.to)], q.ka))
  }

  /** The asks and the negative ones that stuck fix every intent: nothing else of the
      order in which they were made matters. */
  lemma IntentsAreFixed(asked: set<Ask>, i: map<(NodeId, NodeId), int>, j: map<(NodeId, NodeId), int>)
    requires Booked(asked, i) && Booked(asked, j) && Negatives(i) == Negatives(j)
    ensures i == j
  {
    forall k | k in i ensures k in j && i[k] == j[k] {
      assert k == (k.0, k.1);
      assert Ask(k.0, k.1, i[k]) in asked;
      assert Ask(k.0, k.1, j[k]) in asked;
      assert k in Negatives(i) <==> k in Negatives(j);
    }
    forall k | k in j ensures k in i {
      assert k == (k.0, k.1);
      assert Ask(k.0, k.1, j[k]) in asked;
    }
  }

  /** An ask that comes before any link is looked at; all of these are positive. */
  ghost predicate AsksEarly(e: Env, a: NodeId, b: NodeId, ka: int)
  {
    AsksAttached(e, a, b, ka) || AsksCandidate(e, a, b, ka) || AsksHome(e, a, b, ka) || AsksMesh(e, a, b, ka)
  }

  ghost predicate Early(e: Env, a: NodeId, b: NodeId) { exists ka :: AsksEarly(e, a, b, ka) }

  /** What the first generic link from a to b asks for. */
  ghost function FirstGeneric(e: Env, ls: seq<Link>, a: NodeId, b: NodeId): Option<int>
  {
    if ls == [] then None
    else
      var prev, l := FirstGeneric(e, ls[..|ls|-1], a, b), ls[|ls|-1];
      if prev.None? && Generic(e, l) && l.from == a && l.to == b then Some(GenericKeepalive(e, l)) else prev
  }

  /** The negative keepalive that sticks: that of the first link between the two, if
      nothing asked before. */
  ghost function Stuck(e: Env, a: NodeId, b: NodeId): Option<int>
  {
    var f := FirstGeneric(e, e.links, a, b);
    if !Early(e, a, b) && f.Some? && f.value < 0 then f else None
  }

  /** k is the keepalive the plan owes to a's dial of b: a negative one if it sticks,
      else the smallest positive one that was asked for, or 0 when none was. */
  ghost predicate KeepaliveIs(e: Env, a: NodeId, b: NodeId, k: int)
  {
    match Stuck(e, a, b)
    case Some(n) => k == n
    case None => k >= 0 && Asks(e, a, b, k) && forall ka :: Asks(e, a, b, ka) ==> AtBest(k, ka)
  }

  /** Same pairs, same dialers and keepalives; only the allowed prefixes differ. */
  ghost predicate SameLinks(p: map<(NodeId, NodeId), PlanPeer>, q: map<(NodeId, NodeId), PlanPeer>)
  {
    p.Keys == q.Keys && forall k :: k in p ==> p[k].(allowed := []) == q[k].(allowed := [])
  }

  class Planner {
    var attached: map<NodeId, seq<NodeId>>
    var gw: map<(NodeId, Prefix), NodeId>
    var cands: map<(NodeId, Prefix), seq<NodeId>>
    var intents: map<(NodeId, NodeId), int>
    var peers: map<(NodeId, NodeId), PlanPeer>
    ghost var asked: set<Ask>

    constructor ()
      ensures attached == map[] && gw == map[] && cands == map[] && intents == map[] && peers == map[] && asked == {}
    {
      attached, gw, cands, intents, peers, asked := map[], map[], map[], map[], map[], {};
    }

    // ----- links

    function AttachedTo(c: NodeId): seq<NodeId>
      reads this`attached
    {
      if c in attached then attached[c] else []
    }

    method AppendMothers(base: seq<NodeId>, ms: seq<NodeId>) returns (list: seq<NodeId>)
      ensures list == AppendAll(base, ms)
    {
      list := base;
      for j := 0 to |ms|
        invariant list == AppendAll(base, ms[..j])
      {
        assert ms[..j+1][..j] == ms[..j];
        list := AppendUnique(list, ms[j]);
      }
      assert ms[..|ms|] == ms;
    }

    /** A link from a child to a mother attaches the child to her and her cluster. */
    method Attach(e: Env)
      requires attached == map[]
      modifies this`attached
      ensures forall c :: AttachedTo(c) == AttachList(e, e.links, c)
    {
      for i := 0 to |e.links|
        invariant forall c :: AttachedTo(c) == AttachList(e, e.links[..i], c)
      {
        var l := e.links[i];
        assert e.links[..i+1][..i] == e.links[..i];
        if Child(e, l.from) && Mother(e, l.to) {
          var ms := ClusterMothers(e, e.nodes[l.to].cluster, e.order);
          var list := AppendMothers(AppendUnique(AttachedTo(l.from), l.to), ms);
          attached := attached[l.from := list];
        }
      }
      assert e.links[..|e.links|] == e.links;
    }

    // ----- gateways

    ghost predicate AttachOk(e: Env)
      reads this`attached
    {
      forall c {:trigger AttachedTo(c)} :: AttachedTo(c) == AttachList(e, e.links, c)
    }

    /** The candidates of id into p: two passes over the mothers, then the relay. */
    method CandidatesFor(e: Env, id: NodeId, p: Prefix) returns (r: seq<NodeId>)
      requires AttachOk(e) && id in e.nodes
      ensures r == Cands(e, id, p)
    {
      r := [];
      assert AttachedTo(id) == AttachList(e, e.links, id);
      for i := 0 to |e.order|
        invariant r == AttachedMothers(e, id, p, e.order[..i])
      {
        assert e.order[..i+1][..i] == e.order[..i];
        var m := e.order[i];
        if Serves(e, id, p, m) && m in AttachedTo(id) { r := r + [m]; }
      }
      assert e.order[..|e.order|] == e.order;
      if r == [] {
        for i := 0 to |e.order|
          invariant r == ExposedMothers(e, id, p, e.order[..i])
        {
          assert e.order[..i+1][..i] == e.order[..i];
          var m := e.order[i];
          if Serves(e, id, p, m) { r := r + [m]; }
        }
      }
      if e.relayOn && p != e.nodes[id].subnet && !e.nodes[id].bindUdp { r := r + [RELAY]; }
    }

    function GwAt(id: NodeId, p: Prefix): Option<NodeId>
      reads this`gw
    {
      if (id, p) in gw then Some(gw[(id, p)]) else None
    }

    function CandsAt(id: NodeId, p: Prefix): seq<NodeId>
      reads this`cands
    {
      if (id, p) in cands then cands[(id, p)] else []
    }

    ghost predicate GwOk(e: Env)
      reads this`gw, this`cands
    {
      && (forall id, p {:trigger GwAt(id, p)} :: GwAt(id, p) == Gw(e, id, p))
      && (forall id, p {:trigger CandsAt(id, p)} ::
        CandsAt(id, p) == if Gw(e, id, p).Some? then Cands(e, id, p) else [])
    }

    /** Gateway and candidates of every (node, VPN subnet among its routes). */
    method Gateways(e: Env)
      requires AttachOk(e) && gw == map[] && cands == map[]
      requires forall id :: id in e.order <==> id in e.nodes
      modifies this`gw, this`cands
      ensures GwOk(e)
    {
      for i := 0 to |e.order|
        invariant forall id, p {:trigger RouteAt(e, i, id, p)} :: RouteAt(e, i, id, p)
      {
        var next := i + 1;
        label Before:
        GatewaysOf(e, e.order[i]);
        forall id, p ensures RouteAt(e, next, id, p) {
          assert old@Before(RouteAt(e, i, id, p));
          assert id in e.order[..next] <==> id in e.order[..i] || id == e.order[i];
        }
      }
      assert e.order[..|e.order|] == e.order;
      forall id, p ensures GwAt(id, p) == Gw(e, id, p) { assert RouteAt(e, |e.order|, id, p); }
      forall id, p ensures CandsAt(id, p) == if Gw(e, id, p).Some? then Cands(e, id, p) else [] {
        assert RouteAt(e, |e.order|, id, p);
      }
    }

    /** Gateway and candidates of one node and route once the first n nodes are done. */
    ghost predicate RouteAt(e: Env, n: nat, id: NodeId, p: Prefix)
      requires n <= |e.order|
      reads this
    {
      && GwAt(id, p) == (if id in e.order[..n] then Gw(e, id, p) else None)
      && CandsAt(id, p) == if id in e.order[..n] && Gw(e, id, p).Some? then Cands(e, id, p) else []
    }

    /** One route: the chosen gateway is the stored path if it is a candidate. */
    method GatewayFor(e: Env, id: NodeId, p: Prefix) returns (list: seq<NodeId>, chosen: Option<NodeId>)
      requires AttachOk(e) && id in e.nodes && p in e.nodes[id].routes
      ensures chosen == Gw(e, id, p) && (chosen.Some? ==> list == Cands(e, id, p))
    {
      list, chosen := [], None;
      if !IsVpn(e, p) || (e.nodes[id].mother && e.nodes[id].subnet == p) { return; }
      list := CandidatesFor(e, id, p);
      if list == [] { return; }
      chosen := Some(list[0]);
      if (id, p) in e.paths && e.paths[(id, p)] in list { chosen := Some(e.paths[(id, p)]); }
    }

    method Choose(id: NodeId, p: Prefix, list: seq<NodeId>, chosen: NodeId)
      modifies this`gw, this`cands
      ensures forall n, q :: GwAt(n, q) == if n == id && q == p then Some(chosen) else old(GwAt(n, q))
      ensures forall n, q :: CandsAt(n, q) == if n == id && q == p then list else old(CandsAt(n, q))
    {
      cands := cands[(id, p) := list];
      gw := gw[(id, p) := chosen];
    }

    method GatewaysOf(e: Env, id: NodeId)
      requires AttachOk(e) && id in e.nodes
      modifies this`gw, this`cands
      ensures forall n, p :: GwAt(n, p) == if n == id && Gw(e, id, p).Some? then Gw(e, id, p) else old(GwAt(n, p))
      ensures forall n, p ::
                CandsAt(n, p) == if n == id && Gw(e, id, p).Some? then Cands(e, id, p) else old(CandsAt(n, p))
    {
      var routes := e.nodes[id].routes;
      for i := 0 to |routes|
        invariant forall n, p :: GwAt(n, p) ==
                                 if n == id && p in routes[..i] && Gw(e, id, p).Some? then Gw(e, id, p)
                                 else old(GwAt(n, p))
        invariant forall n, p :: CandsAt(n, p) ==
                                 if n == id && p in routes[..i] && Gw(e, id, p).Some? then Cands(e, id, p)
                                 else old(CandsAt(n, p))
      {
        assert routes[..i+1] == routes[..i] + [routes[i]];
        assert forall p :: p in routes[..i+1] <==> p in routes[..i] || p == routes[i];
        var list, chosen := GatewayFor(e, id, routes[i]);
        if chosen.Some? { Choose(id, routes[i], list, chosen.value); }
      }
      assert routes[..|routes|] == routes;
    }

    // ----- dial intents

    method AddIntent(from: NodeId, to: NodeId, ka: int)
      requires Booked(asked, intents)
      modifies this`intents, this`asked
      ensures Booked(asked, intents) && asked == old(asked) + {Ask(from, to, ka)}
      ensures intents == Book(old(intents), Ask(from, to, ka))
      ensures ka > 0 ==> Negatives(intents) == old(Negatives(intents))
      ensures forall k :: k != (from, to) ==>
              (k in intents <==> k in old(intents)) && (k in intents ==> intents[k] == old(intents)[k])
      ensures (from, to) in intents && intents[(from, to)] ==
              if (from, to) in old(intents) then Settle(Some(old(intents)[(from, to)]), ka) else ka
    {
      var cur := if (from, to) in intents then Some(intents[(from, to)]) else None;
      intents := intents[(from, to) := Settle(cur, ka)];
      asked := asked + {Ask(from, to, ka)};
    }

    /** For every attachment, in any order of the children. */
    method AskAttachments(e: Env)
      requires AttachOk(e) && Booked(asked, intents)
      modifies this`intents, this`asked
      ensures Booked(asked, intents) && Negatives(intents) == old(Negatives(intents))
      ensures forall q :: q in asked <==> q in old(asked) || AsksAttached(e, q.from, q.to, q.ka)
    {
      var todo := attached.Keys;
      while todo != {}
        invariant Booked(asked, intents) && Negatives(intents) == old(Negatives(intents)) && todo <= attached.Keys
        invariant forall q :: q in asked <==>
                              q in old(asked) || (q.from !in todo && q.to in AttachedTo(q.from)
                                && q.ka == CHILD_KEEPALIVE)
        decreases todo
      {
        var c := AnyOf(todo);
        AskAll(c, attached[c], CHILD_KEEPALIVE);
        todo := todo - {c};
      }
      forall q: Ask ensures q.to in AttachedTo(q.from) <==> Attached(e, q.from, q.to) {}
    }

    method AskAll(from: NodeId, tos: seq<NodeId>, ka: int)
      requires Booked(asked, intents) && ka > 0
      modifies this`intents, this`asked
      ensures Booked(asked, intents) && Negatives(intents) == old(Negatives(intents))
      ensures forall q :: q in asked <==> q in old(asked) || (q.from == from && q.to in tos && q.ka == ka)
    {
      for i := 0 to |tos|
        invariant Booked(asked, intents) && Negatives(intents) == old(Negatives(intents))
        invariant forall q :: q in asked <==> q in old(asked) || (q.from == from && q.to in tos[..i] && q.ka == ka)
      {
        assert tos[..i+1] == tos[..i] + [tos[i]];
        AddIntent(from, tos[i], ka);
      }
      assert tos[..|tos|] == tos;
    }

    /** Every candidate is dialed, but the relay only once it is the gateway. */
    method AskCandidates(e: Env)
      requires GwOk(e) && Booked(asked, intents)
      requires forall id :: id in e.order <==> id in e.nodes
      modifies this`intents, this`asked
      ensures Booked(asked, intents) && Negatives(intents) == old(Negatives(intents))
      ensures forall q :: q in asked <==> q in old(asked) || AsksCandidate(e, q.from, q.to, q.ka)
    {
      for i := 0 to |e.order|
        invariant Booked(asked, intents) && Negatives(intents) == old(Negatives(intents))
        invariant forall q :: q in asked <==>
                  q in old(asked) || (q.from in e.order[..i] && AsksCandidate(e, q.from, q.to, q.ka))
      {
        assert e.order[..i+1] == e.order[..i] + [e.order[i]];
        assert forall id :: id in e.order[..i+1] <==> id in e.order[..i] || id == e.order[i];
        AskCandidatesOf(e, e.order[i]);
      }
      assert e.order[..|e.order|] == e.order;
    }

    method AskCandidatesOf(e: Env, id: NodeId)
      requires GwOk(e) && Booked(asked, intents) && id in e.nodes
      modifies this`intents, this`asked
      ensures Booked(asked, intents) && Negatives(intents) == old(Negatives(intents))
      ensures forall q :: q in asked <==> q in old(asked) || (q.from == id && AsksCandidate(e, id, q.to, q.ka))
    {
      var ka := if e.nodes[id].mother then MOTHER_KEEPALIVE else CHILD_KEEPALIVE;
      var routes := e.nodes[id].routes;
      for i := 0 to |routes|
        invariant Booked(asked, intents) && Negatives(intents) == old(Negatives(intents))
        invariant forall q :: q in asked <==>
                              q in old(asked) || (q.from == id && q.ka == ka &&
                                exists p :: p in routes[..i] && DialsCandidate(e, id, q.to, p))
      {
        var p := routes[i];
        assert routes[..i+1] == routes[..i] + [p];
        assert forall r :: r in routes[..i+1] <==> r in routes[..i] || r == p;
        var list := CandsAt(id, p);
        assert GwAt(id, p) == Gw(e, id, p);
        assert list == if Gw(e, id, p).Some? then Cands(e, id, p) else [];
        var dial := Dialable(list, GwAt(id, p) == Some(RELAY));
        assert forall b :: b in dial <==> DialsCandidate(e, id, b, p);
        AskAll(id, dial, ka);
      }
      assert routes[..|routes|] == routes;
    }

    /** The candidates to dial: all of them, without the relay while it is idle. */
    function Dialable(list: seq<NodeId>, relay: bool): (r: seq<NodeId>)
      ensures forall c :: c in r <==> c in list && (c == RELAY ==> relay)
    {
      if list == [] then []
      else if list[0] == RELAY && !relay then Dialable(list[1..], relay)
      else [list[0]] + Dialable(list[1..], relay)
    }

    /** A child that routes its own subnet dials every exposed mother there. */
    method AskHomes(e: Env)
      requires GwOk(e) && Booked(asked, intents)
      requires forall id :: id in e.order <==> id in e.nodes
      modifies this`intents, this`asked
      ensures Booked(asked, intents) && Negatives(intents) == old(Negatives(intents))
      ensures forall q :: q in asked <==> q in old(asked) || AsksHome(e, q.from, q.to, q.ka)
    {
      for i := 0 to |e.order|
        invariant Booked(asked, intents) && Negatives(intents) == old(Negatives(intents))
        invariant forall q :: q in asked <==>
                  q in old(asked) || (q.from in e.order[..i] && AsksHome(e, q.from, q.to, q.ka))
      {
        var id := e.order[i];
        assert e.order[..i+1] == e.order[..i] + [id];
        assert forall n :: n in e.order[..i+1] <==> n in e.order[..i] || n == id;
        var s := e.nodes[id].subnet;
        assert GwAt(id, s) == Gw(e, id, s);
        var ms := ExposedMothers(e, id, s, e.order);
        assert forall b :: DialsHome(e, id, b) <==> !e.nodes[id].mother && GwAt(id, s).Some? && b in ms;
        if !e.nodes[id].mother && GwAt(id, s).Some? { AskAll(id, ms, CHILD_KEEPALIVE); }
      }
      assert e.order[..|e.order|] == e.order;
    }

    /** Of two meshed mothers one dials. */
    method MeshDial(e: Env, x: NodeId, y: NodeId)
      requires Booked(asked, intents)
      modifies this`intents, this`asked
      ensures Booked(asked, intents) && Negatives(intents) == old(Negatives(intents))
      ensures forall q :: q in asked <==>
                          q in old(asked) || (AsksMesh(e, q.from, q.to, q.ka)
                            && ((q.from == x && q.to == y) || (q.from == y && q.to == x)))
    {
      if !MeshEdge(e, x, y) { return; }
      var a, b := x, y;
      if a > b { a, b := b, a; }
      if Exposed(e, b) { AddIntent(a, b, MOTHER_KEEPALIVE); } else { AddIntent(b, a, MOTHER_KEEPALIVE); }
    }

    method MeshRow(e: Env, x: NodeId, ys: seq<NodeId>)
      requires Booked(asked, intents)
      modifies this`intents, this`asked
      ensures Booked(asked, intents) && Negatives(intents) == old(Negatives(intents))
      ensures forall q :: q in asked <==>
                          q in old(asked) || (AsksMesh(e, q.from, q.to, q.ka)
                            && ((q.from == x && q.to in ys) || (q.to == x && q.from in ys)))
    {
      for j := 0 to |ys|
        invariant Booked(asked, intents) && Negatives(intents) == old(Negatives(intents))
        invariant forall q :: q in asked <==>
                              q in old(asked) || (AsksMesh(e, q.from, q.to, q.ka)
                                && ((q.from == x && q.to in ys[..j]) || (q.to == x && q.from in ys[..j])))
      {
        assert ys[..j+1] == ys[..j] + [ys[j]];
        assert forall n :: n in ys[..j+1] <==> n in ys[..j] || n == ys[j];
        MeshDial(e, x, ys[j]);
      }
      assert ys[..|ys|] == ys;
    }

    /** All pairs of mothers, each pair once. */
    method AskMesh(e: Env)
      requires Booked(asked, intents)
      requires forall id :: id in e.order <==> id in e.nodes
      modifies this`intents, this`asked
      ensures Booked(asked, intents) && Negatives(intents) == old(Negatives(intents))
      ensures forall q :: q in asked <==> q in old(asked) || AsksMesh(e, q.from, q.to, q.ka)
    {
      for i := 0 to |e.order|
        invariant Booked(asked, intents) && Negatives(intents) == old(Negatives(intents))
        invariant forall q :: q in asked <==>
                              q in old(asked) || (AsksMesh(e, q.from, q.to, q.ka)
                                && (q.from in e.order[..i] || q.to in e.order[..i]))
      {
        var x := e.order[i];
        assert e.order == e.order[..i] + [x] + e.order[i+1..];
        assert forall n :: n in e.order[..i+1] <==> n in e.order[..i] || n == x;
        assert forall n :: n in e.order <==> n in e.order[..i] || n == x || n in e.order[i+1..];
        MeshRow(e, x, e.order[i+1..]);
      }
      assert e.order[..|e.order|] == e.order;
    }

    /** What is negative at a pair. */
    ghost function NegativeAt(a: NodeId, b: NodeId): Option<int>
      reads this`intents
    {
      if (a, b) in intents && intents[(a, b)] < 0 then Some(intents[(a, b)]) else None
    }

    /** A pair the links have come to: what its first link left, if nothing asked before. */
    ghost predicate LinkedAt(e: Env, before: set<(NodeId, NodeId)>, n: nat, a: NodeId, b: NodeId)
      requires n <= |e.links|
      reads this`intents
    {
      var f := FirstGeneric(e, e.links[..n], a, b);
      && ((a, b) in intents <==> (a, b) in before || f.Some?)
      && NegativeAt(a, b) == if (a, b) !in before && f.Some? && f.value < 0 then f else None
    }

    method AskGeneric(e: Env)
      requires Booked(asked, intents) && Negatives(intents) == map[]
      modifies this`intents, this`asked
      ensures Booked(asked, intents)
      ensures forall q :: q in asked <==> q in old(asked) || AsksGeneric(e, q.from, q.to, q.ka)
      ensures forall a, b {:trigger LinkedAt(e, old(intents).Keys, |e.links|, a, b)} ::
              LinkedAt(e, old(intents).Keys, |e.links|, a, b)
    {
      ghost var before := intents.Keys;
      assert forall a, b :: (a, b) in intents ==> (a, b) !in Negatives(intents);
      for i := 0 to |e.links|
        invariant Booked(asked, intents)
        invariant forall q :: q in asked <==> q in old(asked) || LinkAsks(e, e.links[..i], q)
        invariant forall a, b {:trigger LinkedAt(e, before, i, a, b)} :: LinkedAt(e, before, i, a, b)
      {
        AskLink(e, before, i, i + 1);
      }
      assert e.links[..|e.links|] == e.links;
    }

    ghost predicate LinkAsks(e: Env, ls: seq<Link>, q: Ask)
    {
      exists l :: l in ls && Generic(e, l) && q == Ask(l.from, l.to, GenericKeepalive(e, l))
    }

    method AskLink(e: Env, ghost before: set<(NodeId, NodeId)>, i: nat, ghost n: nat)
      requires i < |e.links| && n == i + 1 && Booked(asked, intents)
      requires forall a, b {:trigger LinkedAt(e, before, i, a, b)} :: LinkedAt(e, before, i, a, b)
      modifies this`intents, this`asked
      ensures Booked(asked, intents)
      ensures forall q :: q in asked <==> q in old(asked) || (Generic(e, e.links[i]) && q == LinkAsk(e, e.links[i]))
      ensures forall a, b {:trigger LinkedAt(e, before, n, a, b)} :: LinkedAt(e, before, n, a, b)
    {
      var l := e.links[i];
      label L: assert e.links[..i+1][..i] == e.links[..i];
      if Generic(e, l) { AddIntent(l.from, l.to, GenericKeepalive(e, l)); }
      forall a, b ensures LinkedAt(e, before, n, a, b) { assert old@L(LinkedAt(e, before, i, a, b)); }
    }

    function LinkAsk(e: Env, l: Link): Ask { Ask(l.from, l.to, GenericKeepalive(e, l)) }

    /** Nodes of every subnet that someone reaches by the relay dial the relay. */
    method AskRelay(e: Env)
      requires GwOk(e) && Booked(asked, intents)
      requires forall id :: id in e.order <==> id in e.nodes
      modifies this`intents, this`asked
      ensures Booked(asked, intents) && Negatives(intents) == old(Negatives(intents))
      ensures forall q :: q in asked <==> q in old(asked) || AsksRelay(e, q.from, q.to, q.ka)
    {
      var served := set k | k in gw && gw[k] == RELAY :: k.1;
      forall s ensures s in served <==> RelayServed(e, s) {
        if RelayServed(e, s) {
          var id :| id in e.nodes && Gw(e, id, s) == Some(RELAY);
          assert GwAt(id, s) == Gw(e, id, s);
          assert (id, s) in gw && gw[(id, s)] == RELAY && (id, s).1 == s;
        }
        if s in served {
          var k :| k in gw && gw[k] == RELAY && k.1 == s;
          assert GwAt(k.0, s) == Gw(e, k.0, s);
        }
      }
      for i := 0 to |e.order|
        invariant Booked(asked, intents) && Negatives(intents) == old(Negatives(intents))
        invariant forall q :: q in asked <==>
                  q in old(asked) || (q.from in e.order[..i] && AsksRelay(e, q.from, q.to, q.ka))
      {
        var id := e.order[i];
        assert e.order[..i+1] == e.order[..i] + [id];
        assert forall n :: n in e.order[..i+1] <==> n in e.order[..i] || n == id;
        if e.nodes[id].subnet in served { AddIntent(id, RELAY, CHILD_KEEPALIVE); }
      }
      assert e.order[..|e.order|] == e.order;
    }

    ghost predicate IntentsOk(e: Env)
      reads this`intents, this`asked
    {
      && Booked(asked, intents)
      && (forall q {:trigger q in asked} :: q in asked <==> Asks(e, q.from, q.to, q.ka))
      && (forall a, b {:trigger NegativeAt(a, b)} :: NegativeAt(a, b) == Stuck(e, a, b))
    }

    /** Before the links are looked at, the pairs are those of the early asks. */
    lemma EarlyPairs(e: Env)
      requires Booked(asked, intents) && forall q :: q in asked <==> AsksEarly(e, q.from, q.to, q.ka)
      ensures forall a, b :: (a, b) in intents <==> Early(e, a, b)
    {
      forall a, b ensures (a, b) in intents <==> Early(e, a, b) {
        if (a, b) in intents { assert AsksEarly(e, a, b, Ask(a, b, intents[(a, b)]).ka); }
        if Early(e, a, b) {
          var ka :| AsksEarly(e, a, b, ka);
          assert Ask(a, b, ka) in asked;
        }
      }
    }

    /** All intents: exactly the asks of the mesh, and of the negative ones just those
        that stick, for any order in which the maps are walked. */
    method AskAllPasses(e: Env)
      requires AttachOk(e) && GwOk(e) && intents == map[] && asked == {}
      requires forall id :: id in e.order <==> id in e.nodes
      modifies this`intents, this`asked
      ensures IntentsOk(e)
    {
      AskAttachments(e);
      AskCandidates(e);
      AskHomes(e);
      AskMesh(e);
      EarlyPairs(e);
      label L: assert Negatives(intents) == map[];
      ghost var before := intents.Keys;
      AskGeneric(e);
      ghost var linked := intents;
      forall a, b ensures NegativeAt(a, b) == Stuck(e, a, b) {
        assert LinkedAt(e, before, |e.links|, a, b) && e.links[..|e.links|] == e.links;
        assert (a, b) in before <==> Early(e, a, b);
      }
      AskRelay(e);
      forall a, b ensures NegativeAt(a, b) == Stuck(e, a, b) {
        assert (a, b) in Negatives(intents) <==> (a, b) in Negatives(linked);
      }
    }

    // ----- peers

    predicate HasPeer(a: NodeId, b: NodeId)
      reads this`peers
    {
      (a, b) in peers
    }

    predicate Wants(a: NodeId, b: NodeId)
      reads this`intents
    {
      (a, b) in intents
    }

    /** The dialer of a pair, from the intents. */
    predicate DialerIs(e: Env, a: NodeId, b: NodeId)
      reads this`intents
    {
      Wants(a, b) && (Wants(b, a) ==> if Exposed(e, a) == Exposed(e, b) then a < b else Exposed(e, b))
    }

    /** A peer entry before any prefix is allowed on it. */
    ghost function Bare(e: Env, a: NodeId, b: NodeId): PlanPeer
      reads this`intents
    {
      PlanPeer(DialerIs(e, a, b), if DialerIs(e, a, b) then intents[(a, b)] else 0, [])
    }

    ghost predicate PeerOk(e: Env, a: NodeId, b: NodeId)
      reads this`intents, this`peers
    {
      (a, b) in peers ==> peers[(a, b)].(allowed := []) == Bare(e, a, b)
    }

    method EnsurePeer(a: NodeId, b: NodeId)
      modifies this`peers
      ensures peers == if (a, b) in old(peers) then old(peers) else old(peers)[(a, b) := PlanPeer(false, 0, [])]
    {
      if (a, b) !in peers { peers := peers[(a, b) := PlanPeer(false, 0, [])]; }
    }

    /** One unordered pair: the side that dials gets the keepalive of its own intent. */
    method Connect(e: Env, from: NodeId, to: NodeId)
      requires Wants(from, to) && from != to && !HasPeer(from, to) && !HasPeer(to, from)
      modifies this`peers
      ensures peers == old(peers)[(from, to) := Bare(e, from, to)][(to, from) := Bare(e, to, from)]
    {
      var dialer, target := from, to;
      if Wants(to, from) {
        var fwd, rev := Exposed(e, to), Exposed(e, from);
        if (rev && !fwd) || (rev == fwd && to < from) { dialer, target := to, from; }
      }
      EnsurePeer(dialer, target);
      peers := peers[(dialer, target) := peers[(dialer, target)].(dial := true,
        keepalive := intents[(dialer, target)])];
      EnsurePeer(target, dialer);
    }

    /** Every pair with an intent becomes a pair of peers with one dialer, for any
        order in which the intents are taken. */
    method Resolve(e: Env)
      requires peers == map[] && forall a, b :: Wants(a, b) ==> a != b
      modifies this`peers
      ensures forall a, b :: HasPeer(a, b) <==> Wants(a, b) || Wants(b, a)
      ensures forall a, b :: PeerOk(e, a, b)
      ensures forall k :: k in peers ==> peers[k].allowed == []
    {
      var todo := intents.Keys;
      while todo != {}
        invariant todo <= intents.Keys
        invariant forall a, b :: HasPeer(a, b) <==> (Wants(a, b) && (a, b) !in todo) || (Wants(b, a) && (b, a) !in todo)
        invariant forall a, b {:trigger PeerOk(e, a, b)} :: PeerOk(e, a, b)
        invariant forall k :: k in peers ==> peers[k].allowed == []
        decreases todo
      {
        var k := AnyOf(todo);
        assert k == (k.0, k.1) && Wants(k.0, k.1);
        label L: assert HasPeer(k.0, k.1) <==> HasPeer(k.1, k.0);
        if !HasPeer(k.0, k.1) {
          Connect(e, k.0, k.1);
          forall a, b ensures PeerOk(e, a, b) { assert old@L(PeerOk(e, a, b)); }
        }
        todo := todo - {k};
      }
    }

    // ----- allowed prefixes

    predicate Has(a: NodeId, b: NodeId, p: Prefix)
      reads this`peers
    {
      (a, b) in peers && p in peers[(a, b)].allowed
    }

    /** Maps agree with the definitions they were computed from. */
    ghost predicate Wired(e: Env)
      reads this`attached, this`gw, this`cands, this`intents
    {
      && AttachOk(e) && GwOk(e)
      && (forall a, b {:trigger Wants(a, b)} :: Wants(a, b) <==> Intends(e, a, b))
      && (forall id {:trigger id in e.order} :: id in e.order <==> id in e.nodes)
    }

    ghost predicate PeersOk(e: Env)
      reads this`peers
    {
      forall a, b {:trigger HasPeer(a, b)} :: HasPeer(a, b) <==> Peers(e, a, b)
    }

    /** Puts p on peer b of a, once, if there is such a peer. */
    method Allow(a: NodeId, b: NodeId, p: Prefix)
      modifies this`peers
      ensures SameLinks(old(peers), peers) && forall c, d :: HasPeer(c, d) == old(HasPeer(c, d))
      ensures forall c, d, q :: Has(c, d, q) <==> old(Has(c, d, q)) || (c == a && d == b && q == p && HasPeer(a, b))
    {
      if (a, b) in peers && p !in peers[(a, b)].allowed {
        peers := peers[(a, b) := peers[(a, b)].(allowed := peers[(a, b)].allowed + [p])];
      }
    }

    method OwnerOn(e: Env, m: NodeId, z: NodeId) returns (o: Option<NodeId>)
      requires Wired(e) && Mother(e, m) && z in e.nodes
      ensures o == Owner(e, m, z)
    {
      if z == m { return None; }
      if e.nodes[z].mother && e.nodes[z].subnet == e.nodes[m].subnet {
        return if MeshEdge(e, m, z) then Some(z) else None;
      }
      var g := GwAt(z, e.nodes[m].subnet);
      var dialsHere := Wants(z, m);
      if g == Some(m) || (m in AttachedTo(z) && e.nodes[m].exposed)
         || (e.nodes[z].subnet == e.nodes[m].subnet && dialsHere) {
        return Some(z);
      }
      if g.Some? && MeshEdge(e, m, g.value) { return g; }
      return None;
    }

    /** What the loop over a mother's owned addresses adds. */
    ghost predicate OwnerRow(e: Env, a: NodeId, b: NodeId, p: Prefix, zs: seq<NodeId>)
    {
      exists z :: z in zs && OwnerGrant(e, a, b, p, z)
    }

    method AllowOwned(e: Env, a: NodeId)
      requires Wired(e) && Mother(e, a)
      modifies this`peers
      ensures SameLinks(old(peers), peers) && forall c, d :: HasPeer(c, d) == old(HasPeer(c, d))
      ensures forall c, d, q ::
              Has(c, d, q) <==> old(Has(c, d, q)) || (c == a && HasPeer(a, d) && OwnerRow(e, a, d, q, e.order))
    {
      for i := 0 to |e.order|
        invariant SameLinks(old(peers), peers) && forall c, d :: HasPeer(c, d) == old(HasPeer(c, d))
        invariant forall c, d, q :: Has(c, d, q) <==>
                                    old(Has(c, d, q)) || (c == a && HasPeer(a, d) && OwnerRow(e, a, d, q, e.order[..i]))
      {
        var z := e.order[i];
        assert z in e.order;
        var o := OwnerOn(e, a, z);
        OwnerRowStep(e, a, i);
        if o.Some? { Allow(a, o.value, e.nodes[z].host); }
      }
      assert e.order[..|e.order|] == e.order;
    }

    lemma OwnerRowStep(e: Env, a: NodeId, i: nat)
      requires i < |e.order|
      ensures forall d, q :: OwnerRow(e, a, d, q, e.order[..i+1]) <==>
                             OwnerRow(e, a, d, q, e.order[..i]) || OwnerGrant(e, a, d, q, e.order[i])
    {
      assert forall n :: n in e.order[..i+1] <==> n in e.order[..i] || n == e.order[i];
    }

    ghost predicate LanRow(e: Env, a: NodeId, b: NodeId, p: Prefix, n: nat)
    {
      exists k: nat :: k < n && FirstClaim(e, a, b, p, k)
    }

    method AllowAll(a: NodeId, b: NodeId, ps: seq<Prefix>)
      modifies this`peers
      ensures SameLinks(old(peers), peers) && forall c, d :: HasPeer(c, d) == old(HasPeer(c, d))
      ensures forall c, d, q :: Has(c, d, q) <==> old(Has(c, d, q)) || (c == a && d == b && q in ps && HasPeer(a, b))
    {
      for i := 0 to |ps|
        invariant SameLinks(old(peers), peers) && forall c, d :: HasPeer(c, d) == old(HasPeer(c, d))
        invariant forall c, d, q ::
                  Has(c, d, q) <==> old(Has(c, d, q)) || (c == a && d == b && q in ps[..i] && HasPeer(a, b))
      {
        assert forall q :: q in ps[..i+1] <==> q in ps[..i] || q == ps[i];
        Allow(a, b, ps[i]);
      }
      assert ps[..|ps|] == ps;
    }

    /** LAN routes of the nodes whose gateway is mother a, first come first served. */
    method AllowLans(e: Env, a: NodeId)
      requires Wired(e) && PeersOk(e) && Mother(e, a)
      modifies this`peers
      ensures SameLinks(old(peers), peers) && forall c, d :: HasPeer(c, d) == old(HasPeer(c, d))
      ensures forall c, d, q :: Has(c, d, q) <==> old(Has(c, d, q)) || (c == a && HasPeer(a, d) && LanGrant(e, a, d, q))
    {
      var claimed: set<Prefix> := {};
      for i := 0 to |e.order|
        invariant SameLinks(old(peers), peers) && PeersOk(e) && forall c, d :: HasPeer(c, d) == old(HasPeer(c, d))
        invariant forall q :: q in claimed <==> LanClaimed(e, a, q, i)
        invariant forall c, d, q ::
                  Has(c, d, q) <==> old(Has(c, d, q)) || (c == a && HasPeer(a, d) && LanRow(e, a, d, q, i))
      {
        assert e.order[i] in e.order;
        var news := LansOf(e, a, e.order[i], claimed);
        LanRowStep(e, a, i);
        AllowAll(a, e.order[i], news);
        claimed := claimed + set q | q in news;
      }
    }

    method LansOf(e: Env, a: NodeId, z: NodeId, claimed: set<Prefix>) returns (news: seq<Prefix>)
      requires Wired(e) && PeersOk(e) && Mother(e, a) && z in e.nodes
      ensures forall q :: q in news <==> ClaimsLan(e, a, z, q) && q !in claimed
    {
      var o := OwnerOn(e, a, z);
      assert HasPeer(a, z) == Peers(e, a, z) && GwAt(z, e.nodes[a].subnet) == Gw(e, z, e.nodes[a].subnet);
      if o == Some(z) && HasPeer(a, z) && GwAt(z, e.nodes[a].subnet) == Some(a) {
        return Unclaimed(LanRoutes(e, z, e.nodes[z].routes), claimed);
      }
      return [];
    }

    lemma LanRowStep(e: Env, a: NodeId, i: nat)
      requires i < |e.order|
      ensures forall q :: LanClaimed(e, a, q, i + 1) <==> LanClaimed(e, a, q, i) || ClaimsLan(e, a, e.order[i], q)
      ensures forall d, q :: LanRow(e, a, d, q, i + 1) <==>
                             LanRow(e, a, d, q, i) || (d == e.order[i] && ClaimsLan(e, a, d, q)
                               && !LanClaimed(e, a, q, i))
    {
      forall d, q
        ensures LanRow(e, a, d, q, i + 1) <==>
                LanRow(e, a, d, q, i) || (d == e.order[i] && ClaimsLan(e, a, d, q) && !LanClaimed(e, a, q, i))
      {
        assert FirstClaim(e, a, d, q, i) <==> d == e.order[i] && ClaimsLan(e, a, d, q) && !LanClaimed(e, a, q, i);
      }
    }

    function Unclaimed(lans: seq<Prefix>, claimed: set<Prefix>): (r: seq<Prefix>)
      ensures forall p :: p in r <==> p in lans && p !in claimed
    {
      if lans == [] then []
      else if lans[0] in claimed then Unclaimed(lans[1..], claimed)
      else [lans[0]] + Unclaimed(lans[1..], claimed)
    }

    /** Each gateway carries its subnet. */
    method AllowGateways(e: Env, a: NodeId)
      requires Wired(e) && a in e.nodes
      modifies this`peers
      ensures SameLinks(old(peers), peers) && forall c, d :: HasPeer(c, d) == old(HasPeer(c, d))
      ensures forall c, d, q ::
              Has(c, d, q) <==> old(Has(c, d, q)) || (c == a && HasPeer(a, d) && Gw(e, a, q) == Some(d))
    {
      var routes := e.nodes[a].routes;
      for i := 0 to |routes|
        invariant SameLinks(old(peers), peers) && forall c, d :: HasPeer(c, d) == old(HasPeer(c, d))
        invariant forall c, d, q :: Has(c, d, q) <==>
                                    old(Has(c, d, q)) || (c == a && HasPeer(a, d) && q in routes[..i]
                                      && Gw(e, a, q) == Some(d))
      {
        assert forall q :: q in routes[..i+1] <==> q in routes[..i] || q == routes[i];
        var g := GwAt(a, routes[i]);
        if g.Some? { Allow(a, g.value, routes[i]); }
      }
      assert routes[..|routes|] == routes;
    }

    /** A child's own LAN routes go to its home gateway. */
    method AllowHomeLans(e: Env, a: NodeId)
      requires Wired(e) && a in e.nodes
      modifies this`peers
      ensures SameLinks(old(peers), peers) && forall c, d :: HasPeer(c, d) == old(HasPeer(c, d))
      ensures forall c, d, q ::
              Has(c, d, q) <==> old(Has(c, d, q)) || (c == a && HasPeer(a, d) && HomeLanGrant(e, a, d, q))
    {
      if e.nodes[a].mother { return; }
      var g := GwAt(a, e.nodes[a].subnet);
      if g.Some? { AllowAll(a, g.value, LanRoutes(e, a, e.nodes[a].routes)); }
    }

    method HomesOf(e: Env, t: NodeId) returns (hs: seq<NodeId>)
      requires Wired(e) && t in e.nodes
      ensures hs == Homes(e, t)
    {
      hs := NearHomes(e, t, AttachedTo(t));
      var g := GwAt(t, e.nodes[t].subnet);
      if hs == [] && g.Some? { hs := [g.value]; }
    }

    /** Through which home of t node a reaches t. */
    method ViaHome(e: Env, a: NodeId, t: NodeId, hs: seq<NodeId>) returns (v: Option<NodeId>)
      requires Wired(e) && PeersOk(e) && t in e.nodes && hs == Homes(e, t)
      ensures v == HomeVia(e, a, t)
    {
      var th := GwAt(t, e.nodes[t].subnet);
      if th.Some? && th.value in hs && HasPeer(a, th.value) { return th; }
      v := None;
      for i := 0 to |hs|
        invariant v.None? && FirstPeer(e, a, hs) == FirstPeer(e, a, hs[i..])
      {
        if HasPeer(a, hs[i]) { return Some(hs[i]); }
        assert hs[i..][1..] == hs[i+1..];
      }
    }

    /** The peer on which child a, with gateway g in its own subnet, carries t's address. */
    method NeighbourPeer(e: Env, a: NodeId, g: NodeId, t: NodeId) returns (v: Option<NodeId>)
      requires Wired(e) && PeersOk(e) && Child(e, a) && t in e.nodes
      requires Gw(e, a, e.nodes[a].subnet) == Some(g) && Peers(e, a, g)
      ensures forall d, q :: NeighbourGrant(e, a, d, q, t) <==> v == Some(d) && q == e.nodes[t].host
    {
      if t == a || t == g || e.nodes[t].subnet != e.nodes[a].subnet { return None; }
      if e.nodes[t].mother { return Some(t); }
      var hs := HomesOf(e, t);
      if g in hs { return None; }
      v := ViaHome(e, a, t, hs);
    }

    ghost predicate NeighbourRow(e: Env, a: NodeId, b: NodeId, p: Prefix, ts: seq<NodeId>)
    {
      exists t :: t in ts && NeighbourGrant(e, a, b, p, t)
    }

    lemma NeighbourRowStep(e: Env, a: NodeId, i: nat)
      requires i < |e.order|
      ensures forall d, q :: NeighbourRow(e, a, d, q, e.order[..i+1]) <==>
                             NeighbourRow(e, a, d, q, e.order[..i]) || NeighbourGrant(e, a, d, q, e.order[i])
    {
      assert forall n :: n in e.order[..i+1] <==> n in e.order[..i] || n == e.order[i];
    }

    method AllowNeighbours(e: Env, a: NodeId)
      requires Wired(e) && PeersOk(e) && a in e.nodes
      modifies this`peers
      ensures SameLinks(old(peers), peers) && PeersOk(e) && forall c, d :: HasPeer(c, d) == old(HasPeer(c, d))
      ensures forall c, d, q ::
              Has(c, d, q) <==> old(Has(c, d, q)) || (c == a && HasPeer(a, d) && NeighbourRow(e, a, d, q, e.order))
    {
      var g := GwAt(a, e.nodes[a].subnet);
      if e.nodes[a].mother || g.None? || !HasPeer(a, g.value) { return; }
      for i := 0 to |e.order|
        invariant SameLinks(old(peers), peers) && PeersOk(e) && forall c, d :: HasPeer(c, d) == old(HasPeer(c, d))
        invariant forall c, d, q :: Has(c, d, q) <==>
                                    old(Has(c, d, q)) || (c == a && HasPeer(a, d)
                                      && NeighbourRow(e, a, d, q, e.order[..i]))
      {
        assert e.order[i] in e.order;
        var v := NeighbourPeer(e, a, g.value, e.order[i]);
        NeighbourRowStep(e, a, i);
        if v.Some? { Allow(a, v.value, e.nodes[e.order[i]].host); }
      }
      assert e.order[..|e.order|] == e.order;
    }

    ghost predicate PairRow(e: Env, a: NodeId, b: NodeId, p: Prefix, ys: seq<NodeId>)
    {
      exists y :: y in ys && PairGrant(e, a, b, p, y)
    }

    lemma PairRowStep(e: Env, a: NodeId, i: nat)
      requires i < |e.order|
      ensures forall d, q :: PairRow(e, a, d, q, e.order[..i+1]) <==>
                             PairRow(e, a, d, q, e.order[..i]) || PairGrant(e, a, d, q, e.order[i])
    {
      assert forall n :: n in e.order[..i+1] <==> n in e.order[..i] || n == e.order[i];
    }

    /** The pin for y, if child x must leave its own gateway to meet y's. */
    method PairPeer(e: Env, x: NodeId, y: NodeId) returns (v: Option<NodeId>)
      requires Wired(e) && x in e.nodes && y in e.nodes
      ensures forall d, q :: PairGrant(e, x, d, q, y) <==> v == Some(d) && q == e.nodes[y].host
    {
      if e.nodes[x].mother || e.nodes[y].mother || e.nodes[x].subnet == e.nodes[y].subnet { return None; }
      var gx := GwAt(x, e.nodes[y].subnet);
      var via := PairVia(x, gx, y, GwAt(y, e.nodes[x].subnet));
      return if via == gx then None else via;
    }

    method AllowPairs(e: Env, x: NodeId)
      requires Wired(e) && x in e.nodes
      modifies this`peers
      ensures SameLinks(old(peers), peers) && forall c, d :: HasPeer(c, d) == old(HasPeer(c, d))
      ensures forall c, d, q ::
              Has(c, d, q) <==> old(Has(c, d, q)) || (c == x && HasPeer(x, d) && PairRow(e, x, d, q, e.order))
    {
      for i := 0 to |e.order|
        invariant SameLinks(old(peers), peers) && forall c, d :: HasPeer(c, d) == old(HasPeer(c, d))
        invariant forall c, d, q ::
                  Has(c, d, q) <==> old(Has(c, d, q)) || (c == x && HasPeer(x, d) && PairRow(e, x, d, q, e.order[..i]))
      {
        assert e.order[i] in e.order;
        var v := PairPeer(e, x, e.order[i]);
        PairRowStep(e, x, i);
        if v.Some? { Allow(x, v.value, e.nodes[e.order[i]].host); }
      }
      assert e.order[..|e.order|] == e.order;
    }

    /** The relay carries each of its peers' addresses. */
    method AllowRelay(e: Env)
      requires Wired(e)
      modifies this`peers
      ensures SameLinks(old(peers), peers) && forall c, d :: HasPeer(c, d) == old(HasPeer(c, d))
      ensures forall c, d, q :: Has(c, d, q) <==>
                                old(Has(c, d, q)) || (c == RELAY && HasPeer(c, d) && d in e.nodes
                                  && q == e.nodes[d].host)
    {
      for i := 0 to |e.order|
        invariant SameLinks(old(peers), peers) && forall c, d :: HasPeer(c, d) == old(HasPeer(c, d))
        invariant forall c, d, q :: Has(c, d, q) <==>
                                    old(Has(c, d, q)) || (c == RELAY && HasPeer(c, d) && d in e.order[..i]
                                      && d in e.nodes && q == e.nodes[d].host)
      {
        assert e.order[i] in e.order;
        assert forall n :: n in e.order[..i+1] <==> n in e.order[..i] || n == e.order[i];
        Allow(RELAY, e.order[i], e.nodes[e.order[i]].host);
      }
      assert e.order[..|e.order|] == e.order;
    }

    ghost predicate GenericRow(e: Env, a: NodeId, b: NodeId, p: Prefix, ls: seq<Link>)
    {
      exists l :: l in ls && GenericGrant(e, a, b, p, l)
    }

    lemma GenericRowStep(e: Env, i: nat)
      requires i < |e.links|
      ensures forall c, d, q :: GenericRow(e, c, d, q, e.links[..i+1]) <==>
                                GenericRow(e, c, d, q, e.links[..i]) || GenericGrant(e, c, d, q, e.links[i])
    {
      assert forall n :: n in e.links[..i+1] <==> n in e.links[..i] || n == e.links[i];
    }

    method AllowGeneric(e: Env)
      modifies this`peers
      ensures SameLinks(old(peers), peers) && forall c, d :: HasPeer(c, d) == old(HasPeer(c, d))
      ensures forall c, d, q ::
              Has(c, d, q) <==> old(Has(c, d, q)) || (HasPeer(c, d) && GenericRow(e, c, d, q, e.links))
    {
      for i := 0 to |e.links|
        invariant SameLinks(old(peers), peers) && forall c, d :: HasPeer(c, d) == old(HasPeer(c, d))
        invariant forall c, d, q ::
                  Has(c, d, q) <==> old(Has(c, d, q)) || (HasPeer(c, d) && GenericRow(e, c, d, q, e.links[..i]))
      {
        var l := e.links[i];
        GenericRowStep(e, i);
        if Generic(e, l) {
          AllowAll(l.from, l.to, if l.allowed.Some? then l.allowed.value else [e.nodes[l.to].host]);
          if !Mother(e, l.to) { Allow(l.to, l.from, e.nodes[l.from].host); }
        }
      }
      assert e.links[..|e.links|] == e.links;
    }

    /** Every mother a is connected to keeps her own address on her own peer. */
    method AllowMothers(e: Env, a: NodeId)
      requires Wired(e)
      modifies this`peers
      ensures SameLinks(old(peers), peers) && forall c, d :: HasPeer(c, d) == old(HasPeer(c, d))
      ensures forall c, d, q ::
              Has(c, d, q) <==> old(Has(c, d, q)) || (c == a && HasPeer(a, d) && Mother(e, d) && q == e.nodes[d].host)
    {
      for i := 0 to |e.order|
        invariant SameLinks(old(peers), peers) && forall c, d :: HasPeer(c, d) == old(HasPeer(c, d))
        invariant forall c, d, q :: Has(c, d, q) <==>
                                    old(Has(c, d, q)) || (c == a && HasPeer(a, d) && d in e.order[..i] && Mother(e, d)
                                      && q == e.nodes[d].host)
      {
        assert e.order[i] in e.order;
        assert forall n :: n in e.order[..i+1] <==> n in e.order[..i] || n == e.order[i];
        if Mother(e, e.order[i]) { Allow(a, e.order[i], e.nodes[e.order[i]].host); }
      }
      assert e.order[..|e.order|] == e.order;
    }

    /** The rules of the first pass over the nodes. */
    ghost predicate MainRule(e: Env, a: NodeId, b: NodeId, p: Prefix)
    {
      || OwnerRow(e, a, b, p, e.order) || LanGrant(e, a, b, p) || Gw(e, a, p) == Some(b)
      || NeighbourRow(e, a, b, p, e.order) || HomeLanGrant(e, a, b, p)
    }

    method AllowMain(e: Env, a: NodeId)
      requires Wired(e) && PeersOk(e) && a in e.nodes
      modifies this`peers
      ensures SameLinks(old(peers), peers) && PeersOk(e) && forall c, d :: HasPeer(c, d) == old(HasPeer(c, d))
      ensures forall c, d, q :: Has(c, d, q) <==> old(Has(c, d, q)) || (c == a && HasPeer(a, d) && MainRule(e, a, d, q))
    {
      if e.nodes[a].mother {
        AllowOwned(e, a);
        AllowLans(e, a);
      }
      AllowGateways(e, a);
      AllowNeighbours(e, a);
      AllowHomeLans(e, a);
      assert !Mother(e, a) ==> forall d, q :: !OwnerRow(e, a, d, q, e.order) && !LanGrant(e, a, d, q);
    }

    method AllowMainAll(e: Env)
      requires Wired(e) && PeersOk(e)
      modifies this`peers
      ensures SameLinks(old(peers), peers) && PeersOk(e) && forall c, d :: HasPeer(c, d) == old(HasPeer(c, d))
      ensures forall c, d, q ::
              Has(c, d, q) <==> old(Has(c, d, q)) || (c in e.nodes && HasPeer(c, d) && MainRule(e, c, d, q))
    {
      for i := 0 to |e.order|
        invariant SameLinks(old(peers), peers) && PeersOk(e) && forall c, d :: HasPeer(c, d) == old(HasPeer(c, d))
        invariant forall c, d, q ::
                  Has(c, d, q) <==> old(Has(c, d, q)) || (c in e.order[..i] && HasPeer(c, d) && MainRule(e, c, d, q))
      {
        assert e.order[i] in e.order;
        assert forall n :: n in e.order[..i+1] <==> n in e.order[..i] || n == e.order[i];
        AllowMain(e, e.order[i]);
      }
      assert e.order[..|e.order|] == e.order;
    }

    method AllowPairsAll(e: Env)
      requires Wired(e)
      modifies this`peers
      ensures SameLinks(old(peers), peers) && forall c, d :: HasPeer(c, d) == old(HasPeer(c, d))
      ensures forall c, d, q ::
              Has(c, d, q) <==> old(Has(c, d, q)) || (c in e.nodes && HasPeer(c, d) && PairRow(e, c, d, q, e.order))
    {
      for i := 0 to |e.order|
        invariant SameLinks(old(peers), peers) && forall c, d :: HasPeer(c, d) == old(HasPeer(c, d))
        invariant forall c, d, q :: Has(c, d, q) <==>
                  old(Has(c, d, q)) || (c in e.order[..i] && HasPeer(c, d) && PairRow(e, c, d, q, e.order))
      {
        assert e.order[i] in e.order;
        assert forall n :: n in e.order[..i+1] <==> n in e.order[..i] || n == e.order[i];
        AllowPairs(e, e.order[i]);
      }
      assert e.order[..|e.order|] == e.order;
    }

    method AllowMothersAll(e: Env)
      requires Wired(e)
      modifies this`peers
      ensures SameLinks(old(peers), peers) && forall c, d :: HasPeer(c, d) == old(HasPeer(c, d))
      ensures forall c, d, q :: Has(c, d, q) <==>
                                old(Has(c, d, q)) || (c in e.nodes && HasPeer(c, d) && Mother(e, d)
                                  && q == e.nodes[d].host)
    {
      for i := 0 to |e.order|
        invariant SameLinks(old(peers), peers) && forall c, d :: HasPeer(c, d) == old(HasPeer(c, d))
        invariant forall c, d, q :: Has(c, d, q) <==>
                                    old(Has(c, d, q)) || (c in e.order[..i] && HasPeer(c, d) && Mother(e, d)
                                      && q == e.nodes[d].host)
      {
        assert e.order[i] in e.order;
        assert forall n :: n in e.order[..i+1] <==> n in e.order[..i] || n == e.order[i];
        AllowMothers(e, e.order[i]);
      }
      assert e.order[..|e.order|] == e.order;
    }

    lemma RuleByRows(e: Env, a: NodeId, b: NodeId, p: Prefix)
      requires forall id {:trigger id in e.order} :: id in e.order <==> id in e.nodes
      ensures Rule(e, a, b, p) <==>
                || (a in e.nodes && MainRule(e, a, b, p)) || (a in e.nodes && PairRow(e, a, b, p, e.order))
                || (a == RELAY && b in e.nodes && p == e.nodes[b].host)
                || GenericRow(e, a, b, p, e.links)
                || (a in e.nodes && Mother(e, b) && p == e.nodes[b].host)
    {
      if exists z :: OwnerGrant(e, a, b, p, z) {
        var z :| OwnerGrant(e, a, b, p, z);
        assert z in e.order;
        assert OwnerRow(e, a, b, p, e.order);
      }
      if exists t :: NeighbourGrant(e, a, b, p, t) {
        var t :| NeighbourGrant(e, a, b, p, t);
        assert t in e.order;
        assert NeighbourRow(e, a, b, p, e.order);
      }
      if exists y :: PairGrant(e, a, b, p, y) {
        var y :| PairGrant(e, a, b, p, y);
        assert y in e.order;
        assert PairRow(e, a, b, p, e.order);
      }
    }

    method AllowEverything(e: Env)
      requires Wired(e) && PeersOk(e) && forall k :: k in peers ==> peers[k].allowed == []
      modifies this`peers
      ensures SameLinks(old(peers), peers) && PeersOk(e)
      ensures forall a, b, p :: Has(a, b, p) <==> Grants(e, a, b, p)
    {
      assert forall a, b, p :: !Has(a, b, p);
      AllowMainAll(e);
      AllowPairsAll(e);
      AllowRelay(e);
      AllowGeneric(e);
      AllowMothersAll(e);
      forall a, b, p ensures Has(a, b, p) <==> Grants(e, a, b, p) {
        RuleByRows(e, a, b, p);
        assert HasPeer(a, b) == Peers(e, a, b);
      }
    }

    lemma AsksApart(e: Env, a: NodeId, b: NodeId, ka: int)
      requires RELAY !in e.nodes && Asks(e, a, b, ka)
      ensures a != b
    {
      if Attached(e, a, b) {
        AttachedByLink(e, e.links, a, b);
      } else if AsksCandidate(e, a, b, ka) {
        var p :| p in e.nodes[a].routes && DialsCandidate(e, a, b, p);
        assert forall m :: m in Cands(e, a, p) ==> m == RELAY || Serves(e, a, p, m);
      }
    }

    /** Every intent is an ask of the mesh and carries the keepalive the plan owes. */
    lemma IntentsMeanAsks(e: Env)
      requires IntentsOk(e) && RELAY !in e.nodes
      ensures forall a, b {:trigger Wants(a, b)} :: Wants(a, b) <==> Intends(e, a, b)
      ensures forall a, b {:trigger Wants(a, b)} :: Wants(a, b) ==> a != b && KeepaliveIs(e, a, b, intents[(a, b)])
    {
      forall a, b
        ensures Wants(a, b) <==> Intends(e, a, b)
        ensures Wants(a, b) ==> a != b && KeepaliveIs(e, a, b, intents[(a, b)])
      {
        if Wants(a, b) {
          assert Ask(a, b, intents[(a, b)]) in asked;
          AsksApart(e, a, b, intents[(a, b)]);
          IntentIsOwed(e, a, b);
        }
        if Intends(e, a, b) {
          var ka :| Asks(e, a, b, ka);
          assert Ask(a, b, ka) in asked;
        }
      }
    }

    lemma IntentIsOwed(e: Env, a: NodeId, b: NodeId)
      requires IntentsOk(e) && Wants(a, b)
      ensures KeepaliveIs(e, a, b, intents[(a, b)])
    {
      var k := intents[(a, b)];
      assert NegativeAt(a, b) == Stuck(e, a, b);
      assert Ask(a, b, k) in asked;
      if k >= 0 {
        forall ka | Asks(e, a, b, ka) ensures AtBest(k, ka) { assert Ask(a, b, ka) in asked; }
      }
    }

    ghost predicate LinkPlanned(e: Env, a: NodeId, b: NodeId)
      reads this`peers
    {
      HasPeer(a, b) ==>
        && peers[(a, b)].dial == Dials(e, a, b)
        && (!Dials(e, a, b) ==> peers[(a, b)].keepalive == 0)
        && (Dials(e, a, b) ==> KeepaliveIs(e, a, b, peers[(a, b)].keepalive))
    }

    /** Pairs, dialers and keepalives. */
    method PlanLinks(e: Env)
      requires Wired(e) && IntentsOk(e) && RELAY !in e.nodes && peers == map[]
      modifies this`peers
      ensures PeersOk(e) && forall k :: k in peers ==> peers[k].allowed == []
      ensures forall a, b {:trigger LinkPlanned(e, a, b)} :: LinkPlanned(e, a, b)
    {
      IntentsMeanAsks(e);
      Resolve(e);
      forall a, b ensures LinkPlanned(e, a, b) {
        assert PeerOk(e, a, b);
        assert DialerIs(e, a, b) <==> Dials(e, a, b);
      }
    }

    /** The whole plan: peers, dialers, keepalives and allowed prefixes are exactly
        those of the definitions, for every order in which the maps are iterated. */
    method PlanMesh(e: Env)
      requires attached == map[] && gw == map[] && cands == map[] && intents == map[] && peers == map[] && asked == {}
      requires Enrolled(e)
      modifies this
      ensures forall a, b :: HasPeer(a, b) <==> Peers(e, a, b)
      ensures forall a, b :: LinkPlanned(e, a, b)
      ensures forall a, b, p :: Has(a, b, p) <==> Grants(e, a, b, p)
    {
      Attach(e);
      Gateways(e);
      AskAllPasses(e);
      IntentsMeanAsks(e);
      PlanLinks(e);
      label L: assert true;
      AllowEverything(e);
      forall a, b ensures LinkPlanned(e, a, b) {
        assert old@L(LinkPlanned(e, a, b));
        assert HasPeer(a, b) ==> old@L(peers)[(a, b)].(allowed := []) == peers[(a, b)].(allowed := []);
      }
    }
  }

  // ----- what the definitions promise about dialing

  /** Whoever dials for an attachment, a candidate, a home or a mesh edge keeps the link
      alive: a child at least every 5 seconds, a mother at least every 25. */
  lemma KeptAlive(e: Env, a: NodeId, b: NodeId, ka: int, k: int)
    requires AsksEarly(e, a, b, ka) && KeepaliveIs(e, a, b, k)
    ensures 0 < k <= ka && ka == if Mother(e, a) then 25 else 5
  {
    assert Early(e, a, b) && Asks(e, a, b, ka);
    if Attached(e, a, b) { AttachedByLink(e, e.links, a, b); }
  }

  /** So does a child over a link that names no keepalive. */
  lemma DefaultKeepalive(e: Env, l: Link, k: int)
    requires l in e.links && Generic(e, l) && l.keepalive == 0 && Child(e, l.from) && KeepaliveIs(e, l.from, l.to, k)
    ensures k <= 5 && k != 0
  {
    assert Asks(e, l.from, l.to, 5);
  }

  /** Of every connected pair exactly one side dials; if both meant to and some
      side is exposed, an exposed side is dialed; and the keepalive is unique. */
  lemma DialingIsDetermined(e: Env, a: NodeId, b: NodeId)
    requires a != b && Peers(e, a, b)
    ensures Dials(e, a, b) <==> !Dials(e, b, a)
    ensures Intends(e, a, b) && Intends(e, b, a) && Dials(e, a, b) && (Exposed(e, a) || Exposed(e, b)) ==> Exposed(e, b)
    ensures Intends(e, a, b) && !Intends(e, b, a) ==> Dials(e, a, b)
    ensures Intends(e, a, b) && Intends(e, b, a) && Exposed(e, a) == Exposed(e, b) ==> (Dials(e, a, b) <==> a < b)
    ensures forall j, k :: KeepaliveIs(e, a, b, j) && KeepaliveIs(e, a, b, k) ==> j == k
  {
    assert Exposed(e, a) == Exposed(e, b) || Exposed(e, a) || Exposed(e, b);
  }
}
