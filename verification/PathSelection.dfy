/** Path selection: for every node and VPN subnet the gateway of lowest latency,
    kept until another one is clearly better. */
module PathSelection {
  import opened Common
  import opened Prefixes
  import opened MeshSpec

  type Route = (NodeId, Prefix)

  /** A score in milliseconds; a dead mother's is infinite. */
  datatype Score = Fin(ms: real) | Inf

  const UNKNOWN: real := 1_000_000_000.0
  const RELAY_SCORE: real := 1_000_000_000_000.0
  const RTT_LIMIT: real := 4_294_967.296

  /** Which nodes are alive, and the fresh round-trip times one node measured to another. */
  datatype Measured = Measured(alive: set<NodeId>, rtt: map<(NodeId, NodeId), real>)

  predicate Plausible(w: Measured) { forall k :: k in w.rtt ==> 0.0 < w.rtt[k] < RTT_LIMIT }

  function ScoreOf(w: Measured, node: NodeId, m: NodeId): (s: Score)
  {
    if m == RELAY then Fin(RELAY_SCORE)
    else if m !in w.alive then Inf
    else if (node, m) in w.rtt then Fin(w.rtt[(node, m)])
    else if (m, node) in w.rtt then Fin(w.rtt[(m, node)])
    else Fin(UNKNOWN)
  }

  predicate Less(a: Score, b: Score) { a.Fin? && (b.Inf? || a.ms < b.ms) }

  /** b is better than a by more than 20% and more than 3 ms. */
  predicate Better(b: Score, a: Score) { b.Fin? && (a.Inf? || (b.ms < a.ms * 0.8 && a.ms - b.ms > 3.0)) }

  /** The first of the candidates with the least score. */
  method Best(w: Measured, node: NodeId, list: seq<NodeId>) returns (best: NodeId)
    requires |list| > 0
    ensures IsBest(w, node, list, best)
  {
    best := list[0];
    assert BestAt(w, node, list[..1], best, 0);
    for i := 1 to |list|
      invariant IsBest(w, node, list[..i], best)
    {
      assert list[..i+1] == list[..i] + [list[i]];
      if Less(ScoreOf(w, node, list[i]), ScoreOf(w, node, best)) {
        BestMoves(w, node, list, i, best);
        best := list[i];
      } else {
        BestStays(w, node, list, i, best);
      }
    }
    assert list[..|list|] == list;
  }

  ghost predicate BestAt(w: Measured, node: NodeId, list: seq<NodeId>, best: NodeId, k: nat)
  {
    && k < |list| && list[k] == best
    && (forall j :: 0 <= j < |list| ==> !Less(ScoreOf(w, node, list[j]), ScoreOf(w, node, best)))
    && (forall j :: 0 <= j < k ==> Less(ScoreOf(w, node, best), ScoreOf(w, node, list[j])))
  }

  ghost predicate IsBest(w: Measured, node: NodeId, list: seq<NodeId>, best: NodeId)
  {
    exists k: nat :: BestAt(w, node, list, best, k)
  }

  lemma BestMoves(w: Measured, node: NodeId, list: seq<NodeId>, i: nat, best: NodeId)
    requires 0 < i < |list| && IsBest(w, node, list[..i], best)
    requires Less(ScoreOf(w, node, list[i]), ScoreOf(w, node, best))
    ensures IsBest(w, node, list[..i+1], list[i])
  {
    var k: nat :| BestAt(w, node, list[..i], best, k);
    forall j | 0 <= j < i ensures Less(ScoreOf(w, node, list[i]), ScoreOf(w, node, list[j])) {
      assert list[..i][j] == list[j];
    }
    assert BestAt(w, node, list[..i+1], list[i], i);
  }

  lemma BestStays(w: Measured, node: NodeId, list: seq<NodeId>, i: nat, best: NodeId)
    requires 0 < i < |list| && IsBest(w, node, list[..i], best)
    requires !Less(ScoreOf(w, node, list[i]), ScoreOf(w, node, best))
    ensures IsBest(w, node, list[..i+1], best)
  {
    var k: nat :| BestAt(w, node, list[..i], best, k);
    var longer := list[..i+1];
    forall j | 0 <= j < |longer| ensures !Less(ScoreOf(w, node, longer[j]), ScoreOf(w, node, best)) {
      assert j < i ==> longer[j] == list[..i][j];
    }
    assert BestAt(w, node, longer, best, k);
  }

  lemma BestIsUnique(w: Measured, node: NodeId, list: seq<NodeId>, a: NodeId, b: NodeId)
    requires IsBest(w, node, list, a) && IsBest(w, node, list, b)
    ensures a == b
  {
    var i: nat :| BestAt(w, node, list, a, i);
    var j: nat :| BestAt(w, node, list, b, j);
    assert !(i < j) && !(j < i);
  }

  /** What is chosen, given what was chosen before: the best, unless the previous
      choice is still a candidate and the best is not clearly better. */
  ghost predicate Chosen(w: Measured, node: NodeId, list: seq<NodeId>, prev: Option<NodeId>, choice: NodeId)
  {
    exists best :: IsBest(w, node, list, best) &&
      choice == if prev.Some? && prev.value in list && !Better(ScoreOf(w, node, best), ScoreOf(w, node, prev.value))
                then prev.value else best
  }

  method ChooseOne(w: Measured, node: NodeId, list: seq<NodeId>, prev: Option<NodeId>) returns (choice: NodeId)
    requires |list| > 0
    ensures Chosen(w, node, list, prev, choice)
  {
    var best := Best(w, node, list);
    choice := best;
    if prev.Some? && prev.value != best && prev.value in list {
      var ps, bs := ScoreOf(w, node, prev.value), ScoreOf(w, node, best);
      if !(bs.Fin? && (ps.Inf? || (bs.ms < ps.ms * 0.8 && ps.ms - bs.ms > 3.0))) { choice := prev.value; }
    }
  }

  // ----- what a choice means

  lemma {:induction false} ChosenIsCandidate(w: Measured, node: NodeId, list: seq<NodeId>, prev: Option<NodeId>,
      choice: NodeId)
    requires Chosen(w, node, list, prev, choice)
    ensures choice in list
  {
    var best :| IsBest(w, node, list, best) &&
      choice == if prev.Some? && prev.value in list && !Better(ScoreOf(w, node, best), ScoreOf(w, node, prev.value))
                then prev.value else best;
    var k: nat :| BestAt(w, node, list, best, k);
  }

  /** Choosing again with the same measurements chooses the same. */
  lemma ChoiceIsStable(w: Measured, node: NodeId, list: seq<NodeId>, prev: Option<NodeId>, c: NodeId, c': NodeId)
    requires Chosen(w, node, list, prev, c) && Chosen(w, node, list, Some(c), c')
    ensures c' == c
  {
    var best :| IsBest(w, node, list, best) &&
      c == if prev.Some? && prev.value in list && !Better(ScoreOf(w, node, best), ScoreOf(w, node, prev.value))
           then prev.value else best;
    var best' :| IsBest(w, node, list, best') &&
      c' == if Some(c).value in list && !Better(ScoreOf(w, node, best'), ScoreOf(w, node, c)) then c else best';
    BestIsUnique(w, node, list, best, best');
    ChosenIsCandidate(w, node, list, prev, c);
  }

  predicate LiveMother(w: Measured, m: NodeId) { m != RELAY && m in w.alive }

  lemma ScoreBounds(w: Measured, node: NodeId, m: NodeId)
    requires Plausible(w)
    ensures LiveMother(w, m) ==> ScoreOf(w, node, m).Fin? && 0.0 < ScoreOf(w, node, m).ms <= UNKNOWN
    ensures m == RELAY ==> ScoreOf(w, node, m) == Fin(RELAY_SCORE)
    ensures m != RELAY && m !in w.alive ==> ScoreOf(w, node, m) == Inf
  {
  }

  /** The round-trip time between node and m is t: as the node measured it, or else as m did. */
  predicate Took(w: Measured, node: NodeId, m: NodeId, t: real)
  {
    if (node, m) in w.rtt then w.rtt[(node, m)] == t else (m, node) in w.rtt && w.rtt[(m, node)] == t
  }

  /** Where no choice was made before, or it is no candidate any more, no live mother
      with a measured time beats the one chosen: it is live and measured too, and its
      time is no longer. */
  lemma LeastTimeIsChosen(w: Measured, node: NodeId, list: seq<NodeId>, prev: Option<NodeId>, choice: NodeId, m: NodeId,
      t: real)
    requires Plausible(w) && Chosen(w, node, list, prev, choice) && (prev.Some? ==> prev.value !in list)
    requires m in list && LiveMother(w, m) && Took(w, node, m, t)
    ensures LiveMother(w, choice) && exists u: real :: Took(w, node, choice, u) && u <= t
  {
    LiveMotherIsChosen(w, node, list, prev, choice, m);
    var k: nat :| BestAt(w, node, list, choice, k);
    assert !Less(ScoreOf(w, node, m), ScoreOf(w, node, choice)) && ScoreOf(w, node, m) == Fin(t);
    assert t < RTT_LIMIT;
    assert Took(w, node, choice, ScoreOf(w, node, choice).ms);
  }

  /** A live, measured choice is given up for another if and only if a live mother takes
      less than four fifths of its time and is more than 3 ms faster. */
  lemma FasterTakesOver(w: Measured, node: NodeId, list: seq<NodeId>, prev: NodeId, choice: NodeId, t: real)
    requires Plausible(w) && Chosen(w, node, list, Some(prev), choice) && prev in list
    requires LiveMother(w, prev) && Took(w, node, prev, t)
    ensures choice != prev <==>
            exists m, u: real :: m in list && LiveMother(w, m) && Took(w, node, m, u) && u < t * 0.8 && t - u > 3.0
  {
    SwitchIsClear(w, node, list, prev, choice);
    assert ScoreOf(w, node, prev) == Fin(t) && t < RTT_LIMIT;
    forall m | m in list && Better(ScoreOf(w, node, m), ScoreOf(w, node, prev))
      ensures LiveMother(w, m) && Took(w, node, m, ScoreOf(w, node, m).ms)
    {
      ScoreBounds(w, node, m);
    }
    forall m, u: real | m in list && LiveMother(w, m) && Took(w, node, m, u) && u < t * 0.8 && t - u > 3.0
      ensures Better(ScoreOf(w, node, m), ScoreOf(w, node, prev))
    {
      assert ScoreOf(w, node, m) == Fin(u);
    }
  }

  /** A live mother is chosen whenever there is one. */
  lemma LiveMotherIsChosen(w: Measured, node: NodeId, list: seq<NodeId>, prev: Option<NodeId>, choice: NodeId,
      m: NodeId)
    requires Plausible(w) && Chosen(w, node, list, prev, choice) && m in list && LiveMother(w, m)
    ensures LiveMother(w, choice)
  {
    var best :| IsBest(w, node, list, best) &&
      choice == if prev.Some? && prev.value in list && !Better(ScoreOf(w, node, best), ScoreOf(w, node, prev.value))
                then prev.value else best;
    var k: nat :| BestAt(w, node, list, best, k);
    ScoreBounds(w, node, m);
    ScoreBounds(w, node, best);
    if prev.Some? { ScoreBounds(w, node, prev.value); }
  }

  /** The relay is chosen exactly when it is a candidate and every mother is dead. */
  lemma RelayIsLast(w: Measured, node: NodeId, list: seq<NodeId>, prev: Option<NodeId>, choice: NodeId)
    requires Plausible(w) && Chosen(w, node, list, prev, choice)
    ensures choice == RELAY <==> RELAY in list && forall m :: m in list ==> !LiveMother(w, m)
  {
    ChosenIsCandidate(w, node, list, prev, choice);
    forall m | m in list && LiveMother(w, m) ensures choice != RELAY {
      LiveMotherIsChosen(w, node, list, prev, choice, m);
    }
    if RELAY in list && forall m :: m in list ==> !LiveMother(w, m) {
      var best :| IsBest(w, node, list, best) &&
        choice == if prev.Some? && prev.value in list && !Better(ScoreOf(w, node, best), ScoreOf(w, node, prev.value))
                  then prev.value else best;
      var k: nat :| BestAt(w, node, list, best, k);
      ScoreBounds(w, node, best);
      if prev.Some? { ScoreBounds(w, node, prev.value); }
    }
  }

  /** A candidate is given up exactly when some other is clearly better, and then
      for one that is. */
  lemma SwitchIsClear(w: Measured, node: NodeId, list: seq<NodeId>, prev: NodeId, choice: NodeId)
    requires Chosen(w, node, list, Some(prev), choice) && prev in list
    ensures choice != prev <==> exists m :: m in list && Better(ScoreOf(w, node, m), ScoreOf(w, node, prev))
    ensures choice != prev ==> Better(ScoreOf(w, node, choice), ScoreOf(w, node, prev))
  {
    var best :| IsBest(w, node, list, best) &&
      choice == if Some(prev).value in list && !Better(ScoreOf(w, node, best), ScoreOf(w, node, prev)) then prev
        else best;
    var k: nat :| BestAt(w, node, list, best, k);
    ChosenIsCandidate(w, node, list, Some(prev), choice);
    forall m | m in list && Better(ScoreOf(w, node, m), ScoreOf(w, node, prev))
      ensures Better(ScoreOf(w, node, best), ScoreOf(w, node, prev))
    {
      assert !Less(ScoreOf(w, node, m), ScoreOf(w, node, best));
    }
  }

  // ----- all routes

  function PrevOf(cur: map<Route, NodeId>, k: Route): (p: Option<NodeId>) { if k in cur then Some(cur[k]) else None }

  ghost predicate ChosenAt(w: Measured, cands: map<Route, seq<NodeId>>, cur: map<Route, NodeId>,
      next: map<Route, NodeId>, k: Route)
  {
    && (k in next <==> k in cands && cands[k] != [])
    && (k in next ==> Chosen(w, k.0, cands[k], PrevOf(cur, k), next[k]))
  }

  /** Choose, for any order in which the candidate map is walked. */
  method Choose(w: Measured, cands: map<Route, seq<NodeId>>, cur: map<Route, NodeId>) returns (next: map<Route, NodeId>)
    ensures forall k {:trigger ChosenAt(w, cands, cur, next, k)} :: ChosenAt(w, cands, cur, next, k)
  {
    next := map[];
    var rest := cands.Keys;
    while rest != {}
      invariant rest <= cands.Keys
      invariant forall k :: k in next <==> k in cands && k !in rest && cands[k] != []
      invariant forall k :: k in next ==> Chosen(w, k.0, cands[k], PrevOf(cur, k), next[k])
      decreases |rest|
    {
      var k := AnyOf(rest);
      if cands[k] != [] {
        var choice := ChooseOne(w, k.0, cands[k], PrevOf(cur, k));
        next := next[k := choice];
      }
      rest := rest - {k};
    }
  }

  /** The candidates the plan offers. */
  function Candidates(e: Env): (m: map<Route, seq<NodeId>>)
  {
    map id, p | id in e.nodes && p in e.nodes[id].routes && Routable(e, id, p) :: (id, p) := Cands(e, id, p)
  }

  // ----- candidates do not depend on stored paths

  function Repathed(e: Env, paths: map<Route, NodeId>): (r: Env) { e.(paths := paths) }

  lemma {:induction false} ClusterIgnoresPaths(e: Env, paths: map<Route, NodeId>, c: Option<string>, ms: seq<NodeId>)
    ensures ClusterMothers(Repathed(e, paths), c, ms) == ClusterMothers(e, c, ms)
  {
    if ms != [] { ClusterIgnoresPaths(e, paths, c, ms[..|ms|-1]); }
  }

  lemma {:induction false} AttachIgnoresPaths(e: Env, paths: map<Route, NodeId>, ls: seq<Link>, c: NodeId)
    ensures AttachList(Repathed(e, paths), ls, c) == AttachList(e, ls, c)
  {
    if ls != [] {
      AttachIgnoresPaths(e, paths, ls[..|ls|-1], c);
      var l := ls[|ls|-1];
      if Child(e, l.from) && Mother(e, l.to) { ClusterIgnoresPaths(e, paths, e.nodes[l.to].cluster, e.order); }
    }
  }

  lemma {:induction false} MothersIgnorePaths(e: Env, paths: map<Route, NodeId>, id: NodeId, p: Prefix, ms: seq<NodeId>)
    ensures AttachedMothers(Repathed(e, paths), id, p, ms) == AttachedMothers(e, id, p, ms)
    ensures ExposedMothers(Repathed(e, paths), id, p, ms) == ExposedMothers(e, id, p, ms)
  {
    AttachIgnoresPaths(e, paths, e.links, id);
    if ms != [] { MothersIgnorePaths(e, paths, id, p, ms[..|ms|-1]); }
  }

  lemma CandsIgnorePaths(e: Env, paths: map<Route, NodeId>, id: NodeId, p: Prefix)
    requires id in e.nodes
    ensures Cands(Repathed(e, paths), id, p) == Cands(e, id, p)
    ensures Routable(Repathed(e, paths), id, p) == Routable(e, id, p)
  {
    MothersIgnorePaths(e, paths, id, p, e.order);
    assert IsVpn(Repathed(e, paths), p) <==> IsVpn(e, p);
  }

  lemma CandidatesIgnorePaths(e: Env, paths: map<Route, NodeId>)
    ensures Candidates(Repathed(e, paths)) == Candidates(e)
  {
    forall id, p | id in e.nodes ensures Cands(Repathed(e, paths), id, p) == Cands(e, id, p) &&
      Routable(Repathed(e, paths), id, p) == Routable(e, id, p)
    {
      CandsIgnorePaths(e, paths, id, p);
    }
  }

  // ----- ticks

  class Selector {
    var mesh: Env

    /** The chosen gateways become the stored paths; changed tells whether they differ. */
    method Tick(w: Measured) returns (changed: bool)
      modifies this
      ensures mesh == Repathed(old(mesh), mesh.paths)
      ensures forall k {:trigger ChosenAt(w, Candidates(old(mesh)), old(mesh).paths, mesh.paths, k)} ::
                ChosenAt(w, Candidates(old(mesh)), old(mesh).paths, mesh.paths, k)
      ensures changed <==> mesh.paths != old(mesh).paths
    {
      var next := Choose(w, Candidates(mesh), mesh.paths);
      changed := next != mesh.paths;
      mesh := mesh.(paths := next);
    }
  }

  /** With the same measurements a second tick changes nothing: after both, the stored
      paths are those the first one chose. */
  method TickTwice(s: Selector, w: Measured) returns (again: bool)
    modifies s
    ensures !again && s.mesh == Repathed(old(s.mesh), s.mesh.paths)
    ensures forall k {:trigger ChosenAt(w, Candidates(old(s.mesh)), old(s.mesh).paths, s.mesh.paths, k)} ::
              ChosenAt(w, Candidates(old(s.mesh)), old(s.mesh).paths, s.mesh.paths, k)
  {
    ghost var e0 := s.mesh;
    var _ := s.Tick(w);
    ghost var e1 := s.mesh;
    again := s.Tick(w);
    CandidatesIgnorePaths(e0, e1.paths);
    SecondTickAgrees(w, Candidates(e0), e0.paths, e1.paths, s.mesh.paths);
  }

  lemma SecondTickAgrees(w: Measured, cands: map<Route, seq<NodeId>>, cur: map<Route, NodeId>, next: map<Route, NodeId>,
                         next': map<Route, NodeId>)
    requires forall k {:trigger ChosenAt(w, cands, cur, next, k)} :: ChosenAt(w, cands, cur, next, k)
    requires forall k {:trigger ChosenAt(w, cands, next, next', k)} :: ChosenAt(w, cands, next, next', k)
    ensures next' == next
  {
    forall k ensures (k in next' <==> k in next) && (k in next ==> next'[k] == next[k]) {
      assert ChosenAt(w, cands, cur, next, k) && ChosenAt(w, cands, next, next', k);
      if k in next { ChoiceIsStable(w, k.0, cands[k], PrevOf(cur, k), next[k], next'[k]); }
    }
  }

  /** The plan made from the stored paths uses exactly the chosen gateways. */
  lemma PlanFollowsChoice(w: Measured, e: Env, next: map<Route, NodeId>, id: NodeId, p: Prefix)
    requires ChosenAt(w, Candidates(e), e.paths, next, (id, p))
    ensures Gw(Repathed(e, next), id, p) == if (id, p) in next then Some(next[(id, p)]) else None
  {
    if id in e.nodes { CandsIgnorePaths(e, next, id, p); }
    if (id, p) in next { ChosenIsCandidate(w, id, Candidates(e)[(id, p)], PrevOf(e.paths, (id, p)), next[(id, p)]); }
  }
}
