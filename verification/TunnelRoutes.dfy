/** Routes the operating system needs for what peers may send: the fewest prefixes
    outside the interface's own subnet. */
module TunnelRoutes {
  import opened Common
  import opened Prefixes

  ghost predicate CoveredBy(ps: seq<Prefix>, a: Prefix) { exists i :: 0 <= i < |ps| && Covers(ps[i], a) }

  predicate ByBits(ps: seq<Prefix>) { forall i, j :: 0 <= i < j < |ps| ==> |ps[i].bits| <= |ps[j].bits| }

  /** No prefix covers another. */
  predicate Antichain(ps: seq<Prefix>)
  {
    forall i, j :: 0 <= i < |ps| && 0 <= j < |ps| && i != j ==> !Covers(ps[i], ps[j])
  }

  /** Insert p behind the prefixes that are no longer. */
  method InsertByBits(ps: seq<Prefix>, p: Prefix) returns (r: seq<Prefix>)
    requires ByBits(ps)
    ensures ByBits(r) && multiset(r) == multiset(ps) + multiset{p}
  {
    var k := |ps|;
    while k > 0 && |ps[k-1].bits| > |p.bits|
      invariant 0 <= k <= |ps| && forall i :: k <= i < |ps| ==> |ps[i].bits| > |p.bits|
    {
      k := k - 1;
    }
    r := ps[..k] + [p] + ps[k..];
    InsertedByBits(ps, k, p);
    InsertedMembers(ps, k, p);
  }

  lemma InsertedMembers(ps: seq<Prefix>, k: nat, p: Prefix)
    requires k <= |ps|
    ensures multiset(ps[..k] + [p] + ps[k..]) == multiset(ps) + multiset{p}
  {
    assert ps == ps[..k] + ps[k..];
  }

  lemma InsertedByBits(ps: seq<Prefix>, k: nat, p: Prefix)
    requires ByBits(ps) && k <= |ps| && (forall i :: k <= i < |ps| ==> |ps[i].bits| > |p.bits|)
    requires k > 0 ==> |ps[k-1].bits| <= |p.bits|
    ensures ByBits(ps[..k] + [p] + ps[k..])
  {
    var r := ps[..k] + [p] + ps[k..];
    forall i, j | 0 <= i < j < |r| ensures |r[i].bits| <= |r[j].bits| {
      assert i < k ==> r[i] == ps[i] && (k > 0 ==> |ps[i].bits| <= |ps[k-1].bits|);
      assert i > k ==> r[i] == ps[i-1];
      assert j < k ==> r[j] == ps[j];
      assert j > k ==> r[j] == ps[j-1];
    }
  }

  /** Shorter prefixes first. */
  method SortByBits(ps: seq<Prefix>) returns (r: seq<Prefix>)
    ensures ByBits(r) && multiset(r) == multiset(ps)
  {
    r := [];
    for i := 0 to |ps|
      invariant ByBits(r) && multiset(r) == multiset(ps[..i])
    {
      r := InsertByBits(r, ps[i]);
      assert ps[..i+1] == ps[..i] + [ps[i]];
    }
    assert ps[..|ps|] == ps;
  }

  lemma SameMembers(a: seq<Prefix>, b: seq<Prefix>, p: Prefix)
    requires multiset(a) == multiset(b)
    ensures p in a <==> p in b
  {
    assert p in a <==> p in multiset(a);
    assert p in b <==> p in multiset(b);
  }

  /** A route is needed for allowed prefix p: the interface does not route it already. */
  predicate Foreign(iface: Prefix, p: Prefix) { !Covers(iface, p) }

  method Collect(iface: Prefix, allowed: seq<seq<Prefix>>) returns (all: seq<Prefix>)
    ensures forall p :: p in all <==> Foreign(iface, p) && exists i :: 0 <= i < |allowed| && p in allowed[i]
  {
    all := [];
    var seen: set<Prefix> := {};
    for i := 0 to |allowed|
      invariant forall p :: p in all <==> p in seen
      invariant forall p :: p in all <==> Foreign(iface, p) && exists k :: 0 <= k < i && p in allowed[k]
    {
      ghost var before := seen;
      for j := 0 to |allowed[i]|
        invariant forall p :: p in all <==> p in seen
        invariant forall p :: p in seen <==> p in before || (Foreign(iface, p) && p in allowed[i][..j])
      {
        var p := allowed[i][j];
        if p !in seen && !Covers(iface, p) {
          seen := seen + {p};
          all := all + [p];
        }
        assert allowed[i][..j+1] == allowed[i][..j] + [p];
      }
      assert allowed[i][..|allowed[i]|] == allowed[i];
    }
  }

  /** Keep what no shorter one covers. */
  method Reduce(all: seq<Prefix>) returns (out: seq<Prefix>)
    requires ByBits(all)
    ensures Antichain(out) && (forall p :: p in out ==> p in all)
    ensures forall p :: p in all ==> CoveredBy(out, p)
  {
    out := [];
    for n := 0 to |all|
      invariant Antichain(out) && (forall p :: p in out ==> p in all[..n])
      invariant forall k :: 0 <= k < n ==> CoveredBy(out, all[k])
    {
      var p, redundant, k := all[n], false, 0;
      while k < |out| && !redundant
        invariant 0 <= k <= |out| && (redundant ==> CoveredBy(out, p))
        invariant !redundant ==> forall i :: 0 <= i < k ==> !Covers(out[i], p)
      {
        redundant := Covers(out[k], p);
        k := k + 1;
      }
      if !redundant {
        NothingBelow(all, n, out);
        Extend(out, p);
        out := out + [p];
      }
      assert all[..n+1] == all[..n] + [p];
    }
    assert all[..|all|] == all;
  }

  /** What was kept before all[n] is no longer, so all[n] covers none of it. */
  lemma NothingBelow(all: seq<Prefix>, n: nat, out: seq<Prefix>)
    requires n < |all| && ByBits(all) && (forall p :: p in out ==> p in all[..n])
    requires forall i :: 0 <= i < |out| ==> !Covers(out[i], all[n])
    ensures forall i :: 0 <= i < |out| ==> !Covers(all[n], out[i])
  {
    forall i | 0 <= i < |out| ensures !Covers(all[n], out[i]) {
      assert out[i] in all[..n];
      var k :| 0 <= k < n && all[k] == out[i];
      assert |all[k].bits| <= |all[n].bits|;
    }
  }

  lemma Extend(out: seq<Prefix>, p: Prefix)
    ensures forall a :: CoveredBy(out, a) ==> CoveredBy(out + [p], a)
    ensures CoveredBy(out + [p], p)
  {
    var r := out + [p];
    assert r[|out|] == p;
    forall a | CoveredBy(out, a) ensures CoveredBy(r, a) {
      var i :| 0 <= i < |out| && Covers(out[i], a);
      assert Covers(r[i], a);
    }
  }

  /** Some peer may send prefix p, and the interface does not route it. */
  ghost predicate Needed(iface: Prefix, allowed: seq<seq<Prefix>>, p: Prefix)
  {
    Foreign(iface, p) && exists i :: 0 <= i < |allowed| && p in allowed[i]
  }

  /** tunnelRoutes before its last sort: no prefix is redundant, and they cover just
      the addresses that some needed prefix covers. */
  method Routes(address: Option<Prefix>, allowed: seq<seq<Prefix>>) returns (out: seq<Prefix>)
    ensures Antichain(out) && (address.None? ==> out == [])
    ensures address.Some? ==> forall p :: p in out ==> Needed(address.value, allowed, p)
    ensures address.Some? ==> forall a :: CoveredBy(out, a) <==>
            exists p :: Needed(address.value, allowed, p) && Covers(p, a)
  {
    if address.None? { return []; }
    var all := Collect(address.value, allowed);
    var sorted := SortByBits(all);
    forall p ensures p in sorted <==> Needed(address.value, allowed, p) { SameMembers(sorted, all, p); }
    out := Reduce(sorted);
    forall a ensures CoveredBy(out, a) <==> exists p :: Needed(address.value, allowed, p) && Covers(p, a) {
      SameCover(out, sorted, a);
      if CoveredBy(sorted, a) {
        var i :| 0 <= i < |sorted| && Covers(sorted[i], a);
        assert Needed(address.value, allowed, sorted[i]) && Covers(sorted[i], a);
      }
    }
  }

  lemma SameCover(out: seq<Prefix>, all: seq<Prefix>, a: Prefix)
    requires (forall p :: p in out ==> p in all) && forall p :: p in all ==> CoveredBy(out, p)
    ensures CoveredBy(out, a) <==> CoveredBy(all, a)
    ensures CoveredBy(all, a) <==> exists p :: p in all && Covers(p, a)
  {
    if CoveredBy(out, a) {
      var i :| 0 <= i < |out| && Covers(out[i], a);
      assert out[i] in all;
    }
    if exists p :: p in all && Covers(p, a) {
      var p :| p in all && Covers(p, a);
      assert CoveredBy(out, p);
      var i :| 0 <= i < |out| && Covers(out[i], p);
      CoversTransitive(out[i], p, a);
    }
  }

  function Members(ps: seq<Prefix>): (s: set<Prefix>) { set p | p in ps }

  lemma MembersSnoc(ps: seq<Prefix>, p: Prefix)
    ensures Members(ps + [p]) == Members(ps) + {p}
  {
  }

  /** diffRoutes: taking del from the routes that are there and adding add gives the wanted ones. */
  method Diff(want: seq<Prefix>, have: seq<Prefix>) returns (add: seq<Prefix>, del: seq<Prefix>)
    ensures Members(have) - Members(del) + Members(add) == Members(want)
    ensures Members(del) <= Members(have) && Members(add) !! Members(have)
  {
    add, del := [], [];
    var w, h := Members(want), {};
    for i := 0 to |have|
      invariant h == Members(have[..i]) && Members(del) == h - w
    {
      assert have[..i+1] == have[..i] + [have[i]];
      MembersSnoc(have[..i], have[i]);
      MembersSnoc(del, have[i]);
      h := h + {have[i]};
      if have[i] !in w { del := del + [have[i]]; }
    }
    assert have[..|have|] == have;
    for i := 0 to |want|
      invariant Members(add) == Members(want[..i]) - h
    {
      assert want[..i+1] == want[..i] + [want[i]];
      MembersSnoc(want[..i], want[i]);
      MembersSnoc(add, want[i]);
      if want[i] !in h { add := add + [want[i]]; }
    }
    assert want[..|want|] == want;
  }
}
