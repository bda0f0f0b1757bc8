/** The AllowedIPs table as a heap object. Its methods follow the source's
    pointer updates; each is proved to change the abstract map `contents`
    exactly as a plain map from prefix to peer would change. */
module AllowedIPsTable {
  import opened Common
  import opened Prefixes
  import opened TrieModel

  // ----- per-peer entry lists

  function Without(s: seq<TrieEntry>, x: TrieEntry): (r: seq<TrieEntry>)
    ensures forall y :: y in r ==> y in s
    ensures forall y :: y in s && y != x ==> y in r
    ensures NoDup(s) ==> NoDup(r) && x !in r
  {
    if s == [] then []
    else if s[0] == x then
      assert forall y :: y in s ==> y == s[0] || y in s[1..];
      s[1..]
    else
      var rest := Without(s[1..], x);
      assert forall y :: y in s ==> y == s[0] || y in s[1..];
      assert NoDup(s) ==> NoDup(s[1..]) && s[0] !in s[1..] && s[0] !in rest;
      [s[0]] + rest
  }

  ghost predicate ListOk(t: Trie, lists: map<Peer, seq<TrieEntry>>, p: Peer)
    requires p in lists
  {
    NoDup(lists[p]) && forall n :: n in lists[p] ==> n in t.cells && t.cells[n].peer == p
  }

  ghost predicate Entered(t: Trie, lists: map<Peer, seq<TrieEntry>>, n: TrieEntry)
    requires n in t.cells
  {
    t.cells[n].peer != null ==> t.cells[n].peer in lists && n in lists[t.cells[n].peer]
  }

  /** The lists hold every owned node once, under its owner. */
  ghost predicate Books(t: Trie, lists: map<Peer, seq<TrieEntry>>)
  {
    && (forall p {:trigger ListOk(t, lists, p)} :: p in lists ==> ListOk(t, lists, p))
    && (forall n {:trigger Entered(t, lists, n)} :: n in t.cells ==> Entered(t, lists, n))
  }

  ghost function ListOf(lists: map<Peer, seq<TrieEntry>>, p: Peer): seq<TrieEntry>
  {
    if p in lists then lists[p] else []
  }

  lemma GrowBooks(t: Trie, t': Trie, x: TrieEntry, p: Prefix, peer: Peer, lists: map<Peer, seq<TrieEntry>>)
    requires Books(t, lists) && Grows(t, t', x, p, peer)
    ensures Books(t', lists[peer := ListOf(lists, peer) + [x]])
  {
    var l' := lists[peer := ListOf(lists, peer) + [x]];
    forall q | q in l' ensures ListOk(t', l', q) {
      assert q in lists ==> ListOk(t, lists, q);
      forall n | n in l'[q] ensures n in t'.cells && t'.cells[n].peer == q { assert n == x || SameEntry(t, t', n); }
    }
    forall n | n in t'.cells ensures Entered(t', l', n) {
      if n == x { assert l'[peer][|ListOf(lists, peer)|] == x; }
      else if n in t.cells { assert Entered(t, lists, n) && SameEntry(t, t', n); }
    }
  }

  /** The whole table, as values: a compact trie that represents m, with books. */
  ghost predicate Kept(t: Trie, lists: map<Peer, seq<TrieEntry>>, m: map<Prefix, Peer>)
  {
    t.Tree() && t.Compact() && t.Represents(m) && Books(t, lists)
  }

  lemma GrowKeeps(t: Trie, t': Trie, x: TrieEntry, p: Prefix, peer: Peer, lists: map<Peer, seq<TrieEntry>>,
      m: map<Prefix, Peer>)
    requires Kept(t, lists, m) && t'.Tree() && t'.Compact() && Grows(t, t', x, p, peer)
    ensures Kept(t', lists[peer := ListOf(lists, peer) + [x]], m[p := peer])
  {
    GrowRepresents(t, t', x, p, peer, m);
    GrowBooks(t, t', x, p, peer, lists);
  }

  /** The owner of n, if any, loses n; the new owner gains it at the end. */
  ghost function MovedLists(t: Trie, n: TrieEntry, peer: Peer?,
      lists: map<Peer, seq<TrieEntry>>): map<Peer, seq<TrieEntry>>
    requires n in t.cells
  {
    var was := t.cells[n].peer;
    var l := if was != null && was in lists then lists[was := Without(lists[was], n)] else lists;
    if peer == null then l else l[peer := ListOf(l, peer) + [n]]
  }

  lemma ClearBooks(t: Trie, n: TrieEntry, lists: map<Peer, seq<TrieEntry>>)
    requires Books(t, lists) && n in t.cells
    ensures Books(SetPeer(t, n, null), MovedLists(t, n, null, lists))
  {
    var t', l' := SetPeer(t, n, null), MovedLists(t, n, null, lists);
    assert Entered(t, lists, n);
    forall q | q in l' ensures ListOk(t', l', q) { assert ListOk(t, lists, q); }
    forall a | a in t'.cells ensures Entered(t', l', a) { assert Entered(t, lists, a); }
  }

  lemma SetPeerBooks(t: Trie, n: TrieEntry, peer: Peer, lists: map<Peer, seq<TrieEntry>>)
    requires Books(t, lists) && n in t.cells
    ensures Books(SetPeer(t, n, peer), MovedLists(t, n, peer, lists))
  {
    ClearBooks(t, n, lists);
    var t1, l1 := SetPeer(t, n, null), MovedLists(t, n, null, lists);
    var t', l' := SetPeer(t, n, peer), MovedLists(t, n, peer, lists);
    assert n !in ListOf(l1, peer) by { assert peer in l1 ==> ListOk(t1, l1, peer); }
    forall q | q in l' ensures ListOk(t', l', q) { assert q in l1 ==> ListOk(t1, l1, q); }
    forall a | a in t'.cells ensures Entered(t', l', a) {
      if a == n { assert l'[peer][|ListOf(l1, peer)|] == n; } else { assert Entered(t1, l1, a); }
    }
  }

  lemma SetPeerKeeps(t: Trie, n: TrieEntry, peer: Peer, lists: map<Peer, seq<TrieEntry>>, m: map<Prefix, Peer>)
    requires Kept(t, lists, m) && n in t.cells
    ensures Kept(SetPeer(t, n, peer), MovedLists(t, n, peer, lists), m[t.cells[n].pfx := peer])
  {
    SetPeerKeepsTree(t, n, peer);
    SetPeerRepresents(t, n, peer, m);
    SetPeerBooks(t, n, peer, lists);
    var t' := SetPeer(t, n, peer);
    forall a | a in t'.cells ensures t'.Joins(a) { assert t.Joins(a); }
  }

  lemma RootKeeps(t: Trie, x: TrieEntry, p: Prefix, peer: Peer, lists: map<Peer, seq<TrieEntry>>, m: map<Prefix, Peer>)
    requires Kept(t, lists, m) && x !in t.cells && t.Root(p.family) == null
    ensures Kept(AddRoot(t, x, p, peer), lists[peer := ListOf(lists, peer) + [x]], m[p := peer])
  {
    var t' := AddRoot(t, x, p, peer);
    AddRootKeepsTree(t, x, p, peer);
    forall a | a in t.cells ensures SameEntry(t, t', a) && t.cells[a].pfx != p { assert t.UnderRoot(a); }
    forall a | a in t'.cells ensures t'.Joins(a) { if a != x { assert t.Joins(a); } }
    GrowKeeps(t, t', x, p, peer, lists, m);
  }

  lemma AddLeafGrows(t: Trie, n: TrieEntry, b: bool, x: TrieEntry, p: Prefix, peer: Peer)
    requires t.Tree() && CanAddLeaf(t, n, b, x, p)
    ensures Grows(t, AddLeaf(t, n, b, x, p, peer), x, p, peer)
  {
    forall a | a in t.cells
      ensures SameEntry(t, AddLeaf(t, n, b, x, p, peer), a) && t.cells[a].pfx != p
    {
      assert t.Guided(n, a);
      NothingBelowFreeSlot(t, n, b, x, p, a);
    }
  }

  lemma LeafKeeps(t: Trie, n: TrieEntry, b: bool, x: TrieEntry, p: Prefix, peer: Peer,
                  lists: map<Peer, seq<TrieEntry>>, m: map<Prefix, Peer>)
    requires Kept(t, lists, m) && CanAddLeaf(t, n, b, x, p)
    ensures Kept(AddLeaf(t, n, b, x, p, peer), lists[peer := ListOf(lists, peer) + [x]], m[p := peer])
  {
    var t' := AddLeaf(t, n, b, x, p, peer);
    AddLeafKeepsTree(t, n, b, x, p, peer);
    AddLeafGrows(t, n, b, x, p, peer);
    forall a | a in t'.cells ensures t'.Joins(a) { if a != x { assert t.Joins(a); } }
    GrowKeeps(t, t', x, p, peer, lists, m);
  }

  /** Splicing adds one node and changes no entry. */
  lemma SpliceEntries(t: Trie, d: TrieEntry, x: TrieEntry, p: Prefix, c: bool, peer: Peer?, a: TrieEntry)
    requires t.Tree() && CanSplice(t, d, x, p, c) && a in t.cells
    ensures SameEntry(t, Splice(t, d, x, p, c, peer), a) && t.cells[a].pfx != p
    ensures t.Joins(a) ==> Splice(t, d, x, p, c, peer).Joins(a)
  {
    assert t.SlotOk(d);
    SpliceCells(t, d, x, p, c, peer, a);
    if t.cells[a].pfx == p { BelowSpliceIsBelowChild(t, d, x, p, c, a); }
    var t' := Splice(t, d, x, p, c, peer);
    assert t'.cells[a].Kid(false) == t'.cells[a].kid0 && t'.cells[a].Kid(true) == t'.cells[a].kid1;
    assert t.cells[a].Kid(false) == t.cells[a].kid0 && t.cells[a].Kid(true) == t.cells[a].kid1;
  }

  lemma SpliceKeeps(t: Trie, d: TrieEntry, x: TrieEntry, p: Prefix, c: bool, peer: Peer,
                    lists: map<Peer, seq<TrieEntry>>, m: map<Prefix, Peer>)
    requires Kept(t, lists, m) && CanSplice(t, d, x, p, c)
    ensures Kept(Splice(t, d, x, p, c, peer), lists[peer := ListOf(lists, peer) + [x]], m[p := peer])
  {
    var t' := Splice(t, d, x, p, c, peer);
    SpliceKeepsTree(t, d, x, p, c, peer);
    assert t.SlotOk(d);
    SpliceCells(t, d, x, p, c, peer, d);
    forall a | a in t.cells ensures SameEntry(t, t', a) && t.cells[a].pfx != p && t'.Joins(a) {
      assert t.Joins(a);
      SpliceEntries(t, d, x, p, c, peer, a);
    }
    forall a | a in t'.cells ensures t'.Joins(a) {}
    assert Grows(t, t', x, p, peer);
    GrowKeeps(t, t', x, p, peer, lists, m);
  }

  /** A joining node g over d, with the new node x on g's other side. */
  lemma ForkKeeps(t: Trie, d: TrieEntry, g: TrieEntry, gp: Prefix, c: bool, x: TrieEntry, p: Prefix, peer: Peer,
                  lists: map<Peer, seq<TrieEntry>>, m: map<Prefix, Peer>)
    requires Kept(t, lists, m) && CanSplice(t, d, g, gp, c) && x !in t.cells && x != g
    requires StrictlyCovers(gp, p) && p.bits[|gp.bits|] == !c
    ensures Splice(t, d, g, gp, c, null).cells.Keys == t.cells.Keys + {g}
    ensures Kept(AddLeaf(Splice(t, d, g, gp, c, null), g, !c, x, p, peer), lists[peer := ListOf(lists, peer) + [x]],
            m[p := peer])
  {
    var t1 := Splice(t, d, g, gp, c, null);
    SpliceKeepsTree(t, d, g, gp, c, null);
    assert t.SlotOk(d);
    SpliceCells(t, d, g, gp, c, null, d);
    assert CanAddLeaf(t1, g, !c, x, p);
    AddLeafKeepsTree(t1, g, !c, x, p, peer);
    AddLeafGrows(t1, g, !c, x, p, peer);
    var t2 := AddLeaf(t1, g, !c, x, p, peer);
    forall a | a in t.cells ensures SameEntry(t, t2, a) && t.cells[a].pfx != p && t2.Joins(a) {
      assert t.Joins(a);
      SpliceEntries(t, d, g, gp, c, null, a);
      assert SameEntry(t1, t2, a);
    }
    forall a | a in t2.cells ensures t2.Joins(a) {}
    assert Grows(t, t2, x, p, peer);
    GrowKeeps(t, t2, x, p, peer, lists, m);
  }

  /** How an insertion changes the shape of the trie. */
  datatype Step =
    | NewRoot
    | Leaf(n: TrieEntry, b: bool)
    | Above(d: TrieEntry, c: bool)
    | Fork(d: TrieEntry, g: TrieEntry, gp: Prefix, c: bool)

  ghost predicate StepOk(t: Trie, step: Step, x: TrieEntry, p: Prefix)
  {
    x !in t.cells &&
    match step
    case NewRoot => t.Root(p.family) == null
    case Leaf(n, b) => LeafSpot(t, n, b, p)
    case Above(d, c) => SpliceSpot(t, d, p, c)
    case Fork(d, g, gp, c) => x != g && CanSplice(t, d, g, gp, c) && StrictlyCovers(gp, p) && p.bits[|gp.bits|] == !c
  }

  ghost function After(t: Trie, step: Step, x: TrieEntry, p: Prefix, peer: Peer): Trie
    requires StepOk(t, step, x, p)
  {
    match step
    case NewRoot => AddRoot(t, x, p, peer)
    case Leaf(n, b) => AddLeaf(t, n, b, x, p, peer)
    case Above(d, c) => Splice(t, d, x, p, c, peer)
    case Fork(d, g, gp, c) => AddLeaf(Splice(t, d, g, gp, c, null), g, !c, x, p, peer)
  }

  lemma StepKeeps(t: Trie, step: Step, x: TrieEntry, p: Prefix, peer: Peer,
                  lists: map<Peer, seq<TrieEntry>>, m: map<Prefix, Peer>)
    requires Kept(t, lists, m) && StepOk(t, step, x, p)
    ensures Kept(After(t, step, x, p, peer), lists[peer := ListOf(lists, peer) + [x]], m[p := peer])
  {
    match step
    case NewRoot => RootKeeps(t, x, p, peer, lists, m);
    case Leaf(n, b) => LeafKeeps(t, n, b, x, p, peer, lists, m);
    case Above(d, c) => SpliceKeeps(t, d, x, p, c, peer, lists, m);
    case Fork(d, g, gp, c) => ForkKeeps(t, d, g, gp, c, x, p, peer, lists, m);
  }

  /** d is what hangs where p belongs: below node on the way to p, or the root. */
  ghost predicate InTheWay(t: Trie, node: TrieEntry?, d: TrieEntry, p: Prefix)
  {
    && d in t.cells && !Covers(t.cells[d].pfx, p) && t.cells[d].pfx.family == p.family
    && (node == null ==> t.Root(p.family) == d)
    && (node != null ==>
          node in t.cells && StrictlyCovers(t.cells[node].pfx, p) && t.cells[node].Toward(p) == d)
  }

  /** Where a new node goes: at the end of the prefix, or where it parts from d. */
  function Cut(dbits: seq<bool>, ip: seq<bool>, cidr: nat): (k: nat)
    requires |dbits| == |ip| && cidr <= |ip|
    ensures k <= cidr && dbits[..k] == ip[..k] && (k < cidr ==> dbits[k] != ip[k])
  {
    var common := CommonBits(dbits, ip);
    var k := if common < cidr then common else cidr;
    assert dbits[..k] == dbits[..common][..k] == ip[..common][..k] == ip[..k];
    k
  }

  lemma CutAboveChild(dp: seq<bool>, dbits: seq<bool>, ip: seq<bool>, cidr: nat)
    requires |dbits| == |ip| && cidr <= |ip| && dp <= dbits && !(dp <= ip[..cidr])
    ensures var k := Cut(dbits, ip, cidr); k < |dp| && ip[..k] <= dp && dp[k] == dbits[k]
  {
    var k := Cut(dbits, ip, cidr);
    assert forall i :: 0 <= i < k ==> dbits[i] == dbits[..k][i] == ip[..k][i] == ip[..cidr][i];
  }

  lemma CutBelowParent(np: seq<bool>, dbits: seq<bool>, ip: seq<bool>, cidr: nat)
    requires |dbits| == |ip| && |np| < cidr <= |ip| && np <= dbits && np <= ip && dbits[|np|] == ip[|np|]
    ensures var k := Cut(dbits, ip, cidr); |np| < k && np <= ip[..k] && ip[..k][|np|] == ip[|np|]
  {
    assert forall i :: 0 <= i < |np| ==> dbits[i] == np[i] == ip[i];
  }

  lemma SpotOver(t: Trie, node: TrieEntry?, d: TrieEntry, dbits: seq<bool>, ip: seq<bool>, f: Family, cidr: nat)
    requires t.Tree() && |dbits| == |ip| && cidr <= |ip|
    requires InTheWay(t, node, d, Prefix(f, ip[..cidr])) && t.cells[d].pfx.bits <= dbits
    ensures var k := Cut(dbits, ip, cidr); k < |dbits| && SpliceSpot(t, d, Prefix(f, ip[..k]), dbits[k])
  {
    var dp := t.cells[d].pfx;
    CutAboveChild(dp.bits, dbits, ip, cidr);
    assert t.SlotOk(d);
    if node == null {
      assert t.RootOk(f);
    } else {
      var np := t.cells[node].pfx.bits;
      assert np <= ip[..cidr] && ip[..cidr][|np|] == ip[|np|];
      assert t.KidOk(node, ip[|np|]);
      assert np <= dp.bits && dp.bits[|np|] == ip[|np|] == dbits[|np|];
      CutBelowParent(np, dbits, ip, cidr);
    }
  }

  // ----- removal

  /** The source's remove, after the owner is cleared: take the node out if it
      joins nothing, and its parent if that now joins nothing. */
  ghost function Pruned(t: Trie, n: TrieEntry): Trie
    requires n in t.cells
  {
    if t.cells[n].kid0 != null && t.cells[n].kid1 != null then t else
    var t2 := Unsplice(t, n);
    var u := t.cells[n].up;
    if OnlyKid(t.cells[n]) != null || t.cells[n].slot.Top? || u == null || u !in t2.cells || t2.cells[u].peer != null
      then t2
    else Unsplice(t2, u)
  }

  lemma CanUnspliceIn(t: Trie, n: TrieEntry)
    requires t.Linked() && n in t.cells && (t.cells[n].kid0 == null || t.cells[n].kid1 == null)
    ensures CanUnsplice(t, n)
  {
    assert t.SlotOk(n) && t.KidOk(n, false) && t.KidOk(n, true);
    if t.cells[n].slot.Kid? { assert t.KidOk(t.cells[n].up, t.cells[n].slot.b); }
  }

  lemma UnspliceBooks(t: Trie, n: TrieEntry, lists: map<Peer, seq<TrieEntry>>)
    requires CanUnsplice(t, n) && t.cells[n].peer == null && Books(t, lists)
    ensures Books(Unsplice(t, n), lists)
  {
    var t' := Unsplice(t, n);
    UnspliceKeys(t, n);
    forall q | q in lists ensures ListOk(t', lists, q) {
      assert ListOk(t, lists, q);
      forall a | a in lists[q] ensures a in t'.cells && t'.cells[a].peer == q { UnspliceCells(t, n, a); }
    }
    forall a | a in t'.cells ensures Entered(t', lists, a) { assert Entered(t, lists, a); UnspliceCells(t, n, a); }
  }

  /** One removal step keeps the tree, the map and the books. */
  lemma UnspliceKept(t: Trie, n: TrieEntry, lists: map<Peer, seq<TrieEntry>>, m: map<Prefix, Peer>)
    requires t.Tree() && CompactBut(t, n) && t.Represents(m) && Books(t, lists)
    requires n in t.cells && t.cells[n].peer == null && (t.cells[n].kid0 == null || t.cells[n].kid1 == null)
    ensures var t' := Unsplice(t, n); t'.Tree() && t'.Represents(m) && Books(t', lists)
    ensures OnlyKid(t.cells[n]) != null || t.cells[n].slot.Top? ==> Unsplice(t, n).Compact()
    ensures CompactBut(Unsplice(t, n), t.cells[n].up)
    ensures Unsplice(t, n).cells.Keys == t.cells.Keys - {n}
  {
    CanUnspliceIn(t, n);
    UnspliceKeepsTree(t, n);
    UnspliceRepresents(t, n, m);
    UnspliceBooks(t, n, lists);
    UnspliceCompact(t, n);
    UnspliceKeys(t, n);
  }

  lemma CompactButPeered(t: Trie, u: TrieEntry?)
    requires CompactBut(t, u) && (u == null || u !in t.cells || t.Joins(u))
    ensures t.Compact()
  {
    forall a | a in t.cells ensures t.Joins(a) {}
  }

  lemma ClearedKept(t: Trie, n: TrieEntry, lists: map<Peer, seq<TrieEntry>>, m: map<Prefix, Peer>)
    requires Kept(t, lists, m) && n in t.cells
    ensures var t1 := SetPeer(t, n, null);
            && t1.Tree() && CompactBut(t1, n) && t1.Represents(m - {t.cells[n].pfx})
            && Books(t1, MovedLists(t, n, null, lists))
  {
    var t1 := SetPeer(t, n, null);
    SetPeerKeepsTree(t, n, null);
    SetPeerRepresents(t, n, null, m);
    ClearBooks(t, n, lists);
    forall a | a in t1.cells && a != n ensures t1.Joins(a) { assert t.Joins(a); }
  }

  /** After a leaf is gone, its parent, if it has no peer, has one child left. */
  lemma ParentHasOneKid(t: Trie, n: TrieEntry)
    requires t.Tree() && CompactBut(t, n) && n in t.cells && t.cells[n].slot.Kid?
    requires OnlyKid(t.cells[n]) == null
    ensures var t2 := Unsplice(t, n); var u := t.cells[n].up;
            && u != null && u in t2.cells && t2.cells[u].peer == t.cells[u].peer
            && (t2.cells[u].peer == null ==>
                  (t2.cells[u].kid0 == null || t2.cells[u].kid1 == null) && OnlyKid(t2.cells[u]) != null)
  {
    CanUnspliceIn(t, n);
    var u := t.cells[n].up;
    assert t.KidOk(u, t.cells[n].slot.b) && t.Joins(u);
    UnspliceCells(t, n, u);
    assert forall c: Cell :: c.kid0 == c.Kid(false) && c.kid1 == c.Kid(true);
  }

  lemma PrunedKept(t: Trie, n: TrieEntry, lists: map<Peer, seq<TrieEntry>>, m: map<Prefix, Peer>)
    requires t.Tree() && CompactBut(t, n) && t.Represents(m) && Books(t, lists)
    requires n in t.cells && t.cells[n].peer == null
    ensures Kept(Pruned(t, n), lists, m)
  {
    if t.cells[n].kid0 != null && t.cells[n].kid1 != null {
      CompactButPeered(t, n);
    } else {
      UnspliceKept(t, n, lists, m);
      var t2 := Unsplice(t, n);
      if OnlyKid(t.cells[n]) == null && t.cells[n].slot.Kid? {
        var u := t.cells[n].up;
        ParentHasOneKid(t, n);
        if t2.cells[u].peer == null { UnspliceKept(t2, u, lists, m); } else { CompactButPeered(t2, u); }
      }
    }
  }

  lemma PrunedKeys(t: Trie, n: TrieEntry)
    requires n in t.cells
    ensures Pruned(t, n).cells.Keys <= t.cells.Keys
  {
  }

  lemma RemovedKept(t: Trie, n: TrieEntry, lists: map<Peer, seq<TrieEntry>>, m: map<Prefix, Peer>)
    requires Kept(t, lists, m) && n in t.cells
    ensures Kept(Pruned(SetPeer(t, n, null), n), MovedLists(t, n, null, lists), m - {t.cells[n].pfx})
  {
    ClearedKept(t, n, lists, m);
    PrunedKept(SetPeer(t, n, null), n, MovedLists(t, n, null, lists), m - {t.cells[n].pfx});
  }

  // ----- what the lookup loop knows on the way down

  ghost predicate Found(t: Trie, q: Prefix, last: TrieEntry?, node: TrieEntry?, n: TrieEntry)
    requires n in t.cells
  {
    Covers(t.cells[n].pfx, q) ==>
      || (last != null && last in t.cells && |t.cells[n].pfx.bits| <= |t.cells[last].pfx.bits|)
      || (node != null && node in t.cells && Covers(t.cells[node].pfx, t.cells[n].pfx))
  }

  /** Every stored prefix above q is no longer than the last node visited, or
      lies at or below the next one. */
  ghost predicate Searched(t: Trie, q: Prefix, last: TrieEntry?, node: TrieEntry?)
  {
    forall n {:trigger Found(t, q, last, node, n)} :: n in t.cells ==> Found(t, q, last, node, n)
  }

  ghost predicate Beaten(t: Trie, q: Prefix, last: TrieEntry?, best: TrieEntry?, n: TrieEntry)
    requires n in t.cells
  {
    (&& Covers(t.cells[n].pfx, q) && t.cells[n].peer != null
     && last != null && last in t.cells && |t.cells[n].pfx.bits| <= |t.cells[last].pfx.bits|) ==>
      best != null && best in t.cells && |t.cells[n].pfx.bits| <= |t.cells[best].pfx.bits|
  }

  /** No peer's prefix among those already passed beats the best one. */
  ghost predicate BestSoFar(t: Trie, q: Prefix, last: TrieEntry?, best: TrieEntry?)
  {
    forall n {:trigger Beaten(t, q, last, best, n)} :: n in t.cells ==> Beaten(t, q, last, best, n)
  }

  lemma SearchStart(t: Trie, q: Prefix)
    requires t.Tree()
    ensures Searched(t, q, null, t.Root(q.family))
  {
    forall n | n in t.cells ensures Found(t, q, null, t.Root(q.family), n) { assert t.UnderRoot(n); }
  }

  lemma SearchStep(t: Trie, q: Prefix, last: TrieEntry?, node: TrieEntry, best: TrieEntry?)
    requires t.Tree() && node in t.cells && Covers(t.cells[node].pfx, q)
    requires Searched(t, q, last, node) && BestSoFar(t, q, last, best)
    requires best != null ==>
               && last != null && last in t.cells && |t.cells[last].pfx.bits| < |t.cells[node].pfx.bits|
               && best in t.cells && Covers(t.cells[best].pfx, q)
    ensures Searched(t, q, node, if |t.cells[node].pfx.bits| < |q.bits| then t.cells[node].Toward(q) else null)
    ensures BestSoFar(t, q, node, if t.cells[node].peer != null then node else best)
  {
    var next: TrieEntry? := if |t.cells[node].pfx.bits| < |q.bits| then t.cells[node].Toward(q) else null;
    var best' := if t.cells[node].peer != null then node else best;
    forall n | n in t.cells ensures Found(t, q, node, next, n) && Beaten(t, q, node, best', n) {
      assert Found(t, q, last, node, n) && Beaten(t, q, last, best, n);
      if Covers(t.cells[n].pfx, q) {
        CoversComparable(t.cells[n].pfx, t.cells[node].pfx, q);
        assert t.Guided(node, n) && t.Apart(node, n);
      }
    }
  }

  lemma SearchEnd(t: Trie, q: Prefix, last: TrieEntry?, node: TrieEntry?, best: TrieEntry?)
    requires Searched(t, q, last, node) && BestSoFar(t, q, last, best)
    requires node == null || (node in t.cells && !Covers(t.cells[node].pfx, q))
    ensures forall n :: n in t.cells && Covers(t.cells[n].pfx, q) && t.cells[n].peer != null ==>
              best != null && best in t.cells && |t.cells[n].pfx.bits| <= |t.cells[best].pfx.bits|
  {
    forall n | n in t.cells && Covers(t.cells[n].pfx, q) && t.cells[n].peer != null
      ensures best != null && best in t.cells && |t.cells[n].pfx.bits| <= |t.cells[best].pfx.bits|
    {
      assert Found(t, q, last, node, n) && Beaten(t, q, last, best, n);
      if node != null && Covers(t.cells[node].pfx, t.cells[n].pfx) {
        CoversTransitive(t.cells[node].pfx, t.cells[n].pfx, q);
      }
    }
  }

  /** The source's sequence of writes amounts to a splice. */
  lemma SpliceByWrites(t: Trie, d: TrieEntry, x: TrieEntry, xc: Cell, c: bool)
    requires d in t.cells && x !in t.cells && xc.kid0 == null && xc.kid1 == null
    requires t.cells[d].slot.Kid? ==> t.cells[d].up != null && t.cells[d].up in t.cells && t.cells[d].up != d
    ensures var dc := t.cells[d];
            var c1 := t.cells[x := xc];
            var c2 := c1[x := c1[x].(up := dc.up, slot := dc.slot)];
            var c3 := c2[x := c2[x].WithKid(c, d)];
            var c4 := c3[d := c3[d].(up := x, slot := Kid(c))];
            var c5 := if dc.slot.Kid? then c4[dc.up := c4[dc.up].WithKid(dc.slot.b, x)] else c4;
            c5 == Splice(t, d, x, xc.pfx, c, xc.peer).cells
  {
  }

  /** The source's sequence of writes amounts to taking n out. */
  lemma UnspliceByWrites(t: Trie, n: TrieEntry)
    requires CanUnsplice(t, n)
    ensures var nc := t.cells[n];
            var c := OnlyKid(nc);
            var c1 := if c == null then t.cells else t.cells[c := t.cells[c].(up := nc.up, slot := nc.slot)];
            var c2 := if nc.slot.Kid? then c1[nc.up := c1[nc.up].WithKid(nc.slot.b, c)] else c1;
            c2 - {n} == Unsplice(t, n).cells
  {
  }

  // ----- the table as a plain map

  ghost function Deleted(m: map<Prefix, Peer>, peer: Peer): map<Prefix, Peer>
  {
    map p | p in m && m[p] != peer :: m[p]
  }

  datatype Op =
    | Put(f: Family, ip: seq<bool>, cidr: nat, peer: Peer)
    | Del(f: Family, ip: seq<bool>, cidr: nat, peer: Peer)
    | DelPeer(peer: Peer)
  {
    ghost predicate Ok() { DelPeer? || (|ip| == Width(f) && cidr <= |ip|) }
  }

  /** What one operation does to a plain map. */
  ghost function Apply(m: map<Prefix, Peer>, op: Op): map<Prefix, Peer>
    requires op.Ok()
  {
    match op
    case Put(f, ip, cidr, peer) => m[Prefix(f, ip[..cidr]) := peer]
    case Del(f, ip, cidr, peer) =>
      var p := Prefix(f, ip[..cidr]);
      if p in m && m[p] == peer then m - {p} else m
    case DelPeer(peer) => Deleted(m, peer)
  }

  ghost function Replay(m: map<Prefix, Peer>, ops: seq<Op>): map<Prefix, Peer>
    requires forall op :: op in ops ==> op.Ok()
  {
    if ops == [] then m else Apply(Replay(m, ops[..|ops|-1]), ops[|ops|-1])
  }

  /** ipv4, ipv6 and the objects are the source's; cells and lists mirror every
      node and every peer's list as values, and contents is what the table means. */
  class AllowedIPs {
    var ipv4: TrieEntry?
    var ipv6: TrieEntry?
    ghost var cells: map<TrieEntry, Cell>
    ghost var lists: map<Peer, seq<TrieEntry>>
    ghost var contents: map<Prefix, Peer>

    ghost predicate Mirrors(n: TrieEntry)
      requires n in cells
      reads this`cells, n
    {
      n.Sized() && n.ToCell() == cells[n] && (n.listed <==> n.peer != null)
    }

    ghost predicate Mirrored()
      reads this`cells, cells.Keys
    {
      forall n {:trigger Mirrors(n)} :: n in cells ==> Mirrors(n)
    }

    ghost predicate ListMirrors(p: Peer)
      requires p in lists
      reads this`lists, p
    {
      p.trieEntries == lists[p]
    }

    ghost predicate Listed()
      reads this`lists, lists.Keys
    {
      forall p {:trigger ListMirrors(p)} :: p in lists ==> ListMirrors(p)
    }

    ghost function Snap(): Trie
      reads this
    {
      Trie(ipv4, ipv6, cells)
    }

    ghost predicate Valid()
      reads this, cells.Keys, lists.Keys
    {
      Mirrored() && Listed() && Kept(Snap(), lists, contents)
    }

    constructor ()
      ensures Valid() && contents == map[] && cells == map[] && lists == map[]
    {
      ipv4, ipv6 := null, null;
      cells, lists, contents := map[], map[], map[];
    }

    function Root(f: Family): TrieEntry?
      reads this
    {
      match f case V4 => ipv4 case V6 => ipv6
    }

    method SetRoot(f: Family, n: TrieEntry?)
      modifies this`ipv4, this`ipv6
      ensures Root(f) == n
      ensures f == V4 ==> ipv6 == old(ipv6)
      ensures f == V6 ==> ipv4 == old(ipv4)
    {
      match f { case V4 => ipv4 := n; case V6 => ipv6 := n; }
    }

    /** Where nodePlacement left off: nothing below node on the way to p covers p. */
    ghost predicate Placed(p: Prefix, node: TrieEntry?)
      reads this
    {
      && (node != null ==>
            && node in cells && StrictlyCovers(cells[node].pfx, p)
            && var d := cells[node].Toward(p);
            d != null ==> d in cells && !Covers(cells[d].pfx, p))
      && (node == null && Root(p.family) != null ==>
            Root(p.family) in cells && !Covers(cells[Root(p.family)].pfx, p))
    }

    /** Walks down from the root to the last node at or above the prefix. */
    method NodePlacement(f: Family, ip: seq<bool>, cidr: nat) returns (parent: TrieEntry?, exact: bool)
      requires Mirrored() && Snap().Tree() && |ip| == Width(f) && cidr <= |ip|
      ensures exact ==> parent != null && parent in cells && cells[parent].pfx == Prefix(f, ip[..cidr])
      ensures !exact ==> forall n :: n in cells ==> cells[n].pfx != Prefix(f, ip[..cidr])
      ensures !exact ==> Placed(Prefix(f, ip[..cidr]), parent)
    {
      ghost var q := Prefix(f, ip[..cidr]);
      ghost var t := Snap();
      var node := Root(f);
      parent, exact := null, false;
      assert t.RootOk(f);
      assert node != null ==> Mirrors(node);
      while node != null && node.cidr <= cidr && CommonBits(node.bits, ip) >= node.cidr
        invariant node != null ==> node in cells && Mirrors(node) && node.family == f
        invariant parent == null ==> node == Root(f)
        invariant parent != null ==>
                    parent in cells && StrictlyCovers(cells[parent].pfx, q) && node == cells[parent].Toward(q)
        decreases if node == null then 0 else Width(f) + 1 - node.cidr
      {
        parent := node;
        TestIsCover(node, ip, cidr);
        if parent.cidr == cidr {
          exact := true;
          return;
        }
        node := Descend(node, ip, q);
      }
      if node != null { TestIsCover(node, ip, cidr); }
      PlacedMeansAbsent(q, parent);
    }

    /** One step down, towards a longer prefix. */
    method Descend(node: TrieEntry, ip: seq<bool>, ghost q: Prefix) returns (kid: TrieEntry?)
      requires Mirrored() && Snap().Tree() && node in cells && Mirrors(node) && node.family == q.family
      requires node.cidr < |q.bits| <= |ip| && q.bits == ip[..|q.bits|]
      ensures |cells[node].pfx.bits| == node.cidr && kid == cells[node].Toward(q)
      ensures kid != null ==> kid in cells && Mirrors(kid) && kid.family == q.family && node.cidr < kid.cidr
    {
      kid := node.Child(ip[node.cidr]);
      assert Snap().KidOk(node, ip[node.cidr]);
      assert kid != null ==> Mirrors(kid);
    }

    /** The loops' test on a node is coverage by its prefix. */
    lemma TestIsCover(n: TrieEntry, ip: seq<bool>, cidr: nat)
      requires n in cells && Mirrors(n) && |ip| == Width(n.family) && cidr <= |ip|
      ensures |cells[n].pfx.bits| == n.cidr && cells[n].pfx.family == n.family && cells[n].peer == n.peer
      ensures Covers(cells[n].pfx, Prefix(n.family, ip[..cidr])) <==> n.cidr <= cidr && CommonBits(n.bits, ip) >= n.cidr
      ensures Covers(cells[n].pfx, Prefix(n.family, ip[..cidr])) && n.cidr == cidr ==>
                cells[n].pfx == Prefix(n.family, ip[..cidr])
    {
      CoversIffCommon(n, ip, cidr);
    }

    lemma PlacedMeansAbsent(q: Prefix, node: TrieEntry?)
      requires Snap().Tree() && Placed(q, node)
      ensures forall n :: n in cells ==> cells[n].pfx != q
    {
      forall n | n in cells ensures cells[n].pfx != q {
        if node != null { assert Snap().Guided(node, n); } else { assert Snap().UnderRoot(n); }
      }
    }

    /** The source's test on addresses is coverage of prefixes. */
    lemma CoversIffCommon(n: TrieEntry, ip: seq<bool>, cidr: nat)
      requires n.Sized() && |ip| == Width(n.family) && cidr <= |ip|
      ensures Covers(n.Pfx(), Prefix(n.family, ip[..cidr])) <==> n.cidr <= cidr && CommonBits(n.bits, ip) >= n.cidr
    {
      var c := CommonBits(n.bits, ip);
      if c >= n.cidr {
        assert n.bits[..n.cidr] == n.bits[..c][..n.cidr];
        assert ip[..n.cidr] == ip[..c][..n.cidr];
        assert n.cidr <= cidr ==> ip[..cidr][..n.cidr] == ip[..n.cidr];
      } else if n.cidr <= cidr {
        assert n.Pfx().bits[c] == n.bits[c] && ip[..cidr][c] == ip[c];
      }
    }

    /** The loop of the source's lookup: it ends with the deepest node that has
        a peer and covers the address. */
    method LookupNode(f: Family, ip: seq<bool>) returns (found: Peer?, ghost best: TrieEntry?)
      requires Mirrored() && Snap().Tree() && |ip| == Width(f)
      ensures best == null ==> found == null
      ensures best != null ==>
                best in cells && found != null && cells[best].peer == found && Covers(cells[best].pfx, Prefix(f, ip))
      ensures forall n :: n in cells && Covers(cells[n].pfx, Prefix(f, ip)) && cells[n].peer != null ==>
                best != null && |cells[n].pfx.bits| <= |cells[best].pfx.bits|
    {
      ghost var q := Prefix(f, ip);
      ghost var t := Snap();
      ghost var last: TrieEntry? := null;
      found, best := null, null;
      var node := Root(f);
      assert t.RootOk(f);
      assert node != null ==> Mirrors(node);
      assert ip[..|ip|] == ip;
      SearchStart(t, q);
      while node != null && CommonBits(node.bits, ip) >= node.cidr
        invariant node != null ==> node in cells && Mirrors(node) && node.family == f
        invariant node != null && last != null ==> last in cells && |cells[last].pfx.bits| < node.cidr
        invariant best == null ==> found == null
        invariant best != null ==>
                    last != null && best in cells && found != null && cells[best].peer == found
                      && Covers(cells[best].pfx, q)
        invariant Searched(t, q, last, node) && BestSoFar(t, q, last, best)
        decreases if node == null then 0 else Width(f) + 1 - node.cidr
      {
        TestIsCover(node, ip, |ip|);
        SearchStep(t, q, last, node, best);
        if node.peer != null { found := node.peer; best := node; }
        last := node;
        if node.cidr == |ip| { node := null; break; }
        node := Descend(node, ip, q);
      }
      if node != null { TestIsCover(node, ip, |ip|); }
      SearchEnd(t, q, last, node, best);
    }

    /** The peer of the longest stored prefix that covers the address. */
    method Lookup(f: Family, ip: seq<bool>) returns (found: Peer?)
      requires Valid() && |ip| == Width(f)
      ensures found == null ==> forall p :: p in contents ==> !Covers(p, Prefix(f, ip))
      ensures found != null ==> exists p :: LongestMatch(contents, Prefix(f, ip), p) && contents[p] == found
    {
      ghost var best;
      ghost var t := Snap();
      found, best := LookupNode(f, ip);
      forall p | p in contents && Covers(p, Prefix(f, ip))
        ensures best != null && |p.bits| <= |cells[best].pfx.bits|
      {
        assert t.Backed(p, contents);
        var n :| n in t.cells && t.cells[n].pfx == p && t.cells[n].peer == contents[p];
      }
      if best != null { assert t.Stored(best, contents) && LongestMatch(contents, Prefix(f, ip), cells[best].pfx); }
    }

    /** Append a node to its peer's list. */
    method AddToPeerEntries(n: TrieEntry)
      requires n.peer != null
      modifies n`listed, n.peer
      ensures n.listed && n.peer.trieEntries == old(n.peer.trieEntries) + [n]
    {
      n.peer.trieEntries := n.peer.trieEntries + [n];
      n.listed := true;
    }

    method RemoveFromPeerEntries(n: TrieEntry)
      requires n.listed ==> n.peer != null
      modifies n`listed, n.peer
      ensures !n.listed
      ensures n.peer != null ==>
                n.peer.trieEntries == if old(n.listed) then Without(old(n.peer.trieEntries), n)
                  else old(n.peer.trieEntries)
    {
      if n.listed {
        n.peer.trieEntries := Without(n.peer.trieEntries, n);
        n.listed := false;
      }
    }

    // ----- single writes, each mirrored in cells

    method Enter(x: TrieEntry)
      requires Mirrored() && x.Sized() && (x.listed <==> x.peer != null)
      modifies this`cells
      ensures Mirrored() && cells == old(cells)[x := x.ToCell()]
    {
      cells := cells[x := x.ToCell()];
      forall a | a in cells ensures Mirrors(a) { assert a == x || old(Mirrors(a)); }
    }

    method SetUp(n: TrieEntry, up: TrieEntry?, slot: Slot)
      requires Mirrored() && n in cells
      modifies this`cells, n`parent, n`slot
      ensures Mirrored() && cells == old(cells)[n := old(cells[n]).(up := up, slot := slot)]
    {
      n.parent, n.slot := up, slot;
      cells := cells[n := cells[n].(up := up, slot := slot)];
      forall a | a in cells ensures Mirrors(a) { assert old(Mirrors(a)); }
    }

    method SetKid(n: TrieEntry, b: bool, k: TrieEntry?)
      requires Mirrored() && n in cells
      modifies this`cells, n`child0, n`child1
      ensures Mirrored() && cells == old(cells)[n := old(cells[n]).WithKid(b, k)]
    {
      if b { n.child1 := k; } else { n.child0 := k; }
      cells := cells[n := cells[n].WithKid(b, k)];
      forall a | a in cells ensures Mirrors(a) { assert old(Mirrors(a)); }
    }

    // ----- linking: each method is one change of shape

    method LinkRoot(x: TrieEntry)
      requires Mirrored() && x.Sized() && (x.listed <==> x.peer != null) && x !in cells
      requires x.child0 == null && x.child1 == null && x.parent == null && x.slot == Top
      modifies this`ipv4, this`ipv6, this`cells
      ensures Mirrored() && Snap() == AddRoot(old(Snap()), x, x.Pfx(), x.peer)
    {
      Enter(x);
      SetRoot(x.family, x);
    }

    method LinkLeaf(n: TrieEntry, b: bool, x: TrieEntry)
      requires Mirrored() && x.Sized() && (x.listed <==> x.peer != null) && x !in cells && n in cells
      requires x.child0 == null && x.child1 == null
      modifies this`cells, n`child0, n`child1, x`parent, x`slot
      ensures Mirrored() && Snap() == AddLeaf(old(Snap()), n, b, x, x.Pfx(), x.peer)
    {
      Enter(x);
      SetUp(x, n, Kid(b));
      SetKid(n, b, x);
    }

    /** Puts x into the slot that holds d, with d as its c-child. */
    method LinkAbove(d: TrieEntry, x: TrieEntry, c: bool)
      requires Mirrored() && x.Sized() && (x.listed <==> x.peer != null) && x !in cells && d in cells
               && x.family == d.family
      requires x.child0 == null && x.child1 == null
      requires cells[d].slot.Kid? ==> cells[d].up != null && cells[d].up in cells && cells[d].up != d
      modifies this`ipv4, this`ipv6, this`cells, cells.Keys`child0, cells.Keys`child1
      modifies d`parent, d`slot, x`parent, x`slot, x`child0, x`child1
      ensures Mirrored() && Snap() == Splice(old(Snap()), d, x, x.Pfx(), c, x.peer)
    {
      assert Mirrors(d);
      var n, slot := d.parent, d.slot;
      Enter(x);
      SetUp(x, n, slot);
      SetKid(x, c, d);
      SetUp(d, x, Kid(c));
      match slot {
        case Top => SetRoot(x.family, x);
        case Kid(b) => SetKid(n, b, x);
      }
      SpliceByWrites(old(Snap()), d, x, old(x.ToCell()), c);
    }

    // ----- Insert, branch by branch

    ghost predicate KnownPeer(peer: Peer)
      reads this`lists, peer
    {
      peer in lists || peer.trieEntries == []
    }

    /** A new entry for (f, ip/cidr), at the end of its peer's list. */
    method NewEntry(f: Family, ip: seq<bool>, cidr: nat, peer: Peer) returns (x: TrieEntry)
      requires |ip| == Width(f) && cidr <= |ip| && Listed() && KnownPeer(peer)
      modifies peer, this`lists
      ensures fresh(x) && x.Sized() && x.Pfx() == Prefix(f, ip[..cidr]) && x.peer == peer && x.listed
      ensures x.child0 == null && x.child1 == null && x.parent == null && x.slot == Top
      ensures x.family == f && x.bits == Mask(ip, cidr) && x.cidr == cidr
      ensures Listed() && lists == old(lists)[peer := ListOf(old(lists), peer) + [x]]
    {
      assert peer in lists ==> ListMirrors(peer);
      x := new TrieEntry(f, ip, cidr, peer);
      AddToPeerEntries(x);
      lists := lists[peer := ListOf(lists, peer) + [x]];
      forall q | q in lists ensures ListMirrors(q) { assert q == peer || old(ListMirrors(q)); }
    }

    /** Puts x, or a node joining x and d, into the slot that holds d. */
    method HangOver(x: TrieEntry, f: Family, ip: seq<bool>, d: TrieEntry) returns (ghost step: Step)
      requires Mirrored() && d in cells && d.Sized()
      requires x.Sized() && x.listed && x.peer != null && x !in cells && x.family == f == d.family
      requires |ip| == Width(f) && x.bits == Mask(ip, x.cidr)
      requires x.child0 == null && x.child1 == null
      requires var k := Cut(d.bits, ip, x.cidr); k < |ip| && SpliceSpot(Snap(), d, Prefix(f, ip[..k]), d.bits[k])
      modifies this`ipv4, this`ipv6, this`cells, x, cells.Keys
      ensures Mirrored() && StepOk(old(Snap()), step, x, x.Pfx()) && x.peer == old(x.peer)
      ensures Snap() == After(old(Snap()), step, x, x.Pfx(), old(x.peer)) && fresh(cells.Keys - old(cells.Keys) - {x})
    {
      var cut := Cut(d.bits, ip, x.cidr);
      if cut == x.cidr {
        step := Above(d, d.bits[cut]);
        LinkAbove(d, x, d.bits[cut]);
      } else {
        step := HangFork(x, f, ip, d, cut);
      }
    }

    method HangFork(x: TrieEntry, f: Family, ip: seq<bool>, d: TrieEntry, cut: nat) returns (ghost step: Step)
      requires Mirrored() && d in cells && d.Sized()
      requires x.Sized() && x.listed && x.peer != null && x !in cells && x.family == f == d.family
      requires |ip| == Width(f) && x.bits == Mask(ip, x.cidr)
      requires x.child0 == null && x.child1 == null
      requires cut < x.cidr && d.bits[cut] != ip[cut] && SpliceSpot(Snap(), d, Prefix(f, ip[..cut]), d.bits[cut])
      modifies this`ipv4, this`ipv6, this`cells, x, cells.Keys
      ensures Mirrored() && StepOk(old(Snap()), step, x, x.Pfx()) && x.peer == old(x.peer)
      ensures Snap() == After(old(Snap()), step, x, x.Pfx(), old(x.peer)) && fresh(cells.Keys - old(cells.Keys) - {x})
    {
      var g := new TrieEntry(f, x.bits, cut, null);
      assert x.Pfx().bits == ip[..x.cidr];
      assert g.Pfx() == Prefix(f, ip[..cut]) by { assert x.bits[..cut] == x.bits[..x.cidr][..cut] == ip[..cut]; }
      step := Fork(d, g, g.Pfx(), d.bits[cut]);
      LinkAbove(d, g, d.bits[cut]);
      LinkLeaf(g, ip[cut], x);
    }

    /** Hangs the new entry x where the prefix belongs: under node, or at the
        root of the family when node is null. */
    method Hang(x: TrieEntry, f: Family, ip: seq<bool>, node: TrieEntry?) returns (ghost step: Step)
      requires Mirrored() && Snap().Tree()
      requires x.Sized() && x.listed && x.peer != null && x !in cells && x.family == f
      requires |ip| == Width(f) && x.bits == Mask(ip, x.cidr)
      requires x.child0 == null && x.child1 == null && x.parent == null && x.slot == Top
      requires Placed(x.Pfx(), node)
      modifies this`ipv4, this`ipv6, this`cells, x, cells.Keys
      ensures Mirrored() && StepOk(old(Snap()), step, x, x.Pfx()) && x.peer == old(x.peer)
      ensures Snap() == After(old(Snap()), step, x, x.Pfx(), old(x.peer)) && fresh(cells.Keys - old(cells.Keys) - {x})
    {
      ghost var t := Snap();
      var down: TrieEntry?;
      if node == null {
        down := Root(f);
        if down == null {
          step := NewRoot;
          LinkRoot(x);
          return;
        }
        assert t.RootOk(f);
      } else {
        assert Mirrors(node);
        var bit := ip[node.cidr];
        down := node.Child(bit);
        if down == null {
          step := Leaf(node, bit);
          LinkLeaf(node, bit, x);
          return;
        }
        assert t.KidOk(node, bit);
      }
      assert Mirrors(down);
      SpotOver(t, node, down, down.bits, ip, f, x.cidr);
      step := HangOver(x, f, ip, down);
    }

    /** Puts a node without an owner at the end of peer's list. */
    method Own(n: TrieEntry, peer: Peer)
      requires Mirrored() && Listed() && n in cells && cells[n].peer == null && KnownPeer(peer)
      modifies this`cells, this`lists, n, peer
      ensures Mirrored() && Listed() && Snap() == SetPeer(old(Snap()), n, peer)
      ensures lists == old(lists)[peer := ListOf(old(lists), peer) + [n]]
    {
      assert Mirrors(n);
      assert peer in lists ==> ListMirrors(peer);
      n.peer := peer;
      AddToPeerEntries(n);
      cells := cells[n := cells[n].(peer := peer)];
      lists := lists[peer := ListOf(lists, peer) + [n]];
      forall q | q in lists ensures ListMirrors(q) { assert q == peer || old(ListMirrors(q)); }
      forall a | a in cells ensures Mirrors(a) { assert old(Mirrors(a)); }
    }

    /** Gives an existing node a new owner: the old owner's list loses the node. */
    method Assign(n: TrieEntry, peer: Peer)
      requires Mirrored() && Listed() && n in cells && KnownPeer(peer)
      requires cells[n].peer != null ==> cells[n].peer in lists
      modifies this`cells, this`lists, n, lists.Keys, peer
      ensures Mirrored() && Listed() && Snap() == SetPeer(old(Snap()), n, peer)
      ensures lists == MovedLists(old(Snap()), n, peer, old(lists))
    {
      Disown(n);
      Own(n, peer);
    }

    /** Takes n off its owner's list and clears the owner. */
    method Disown(n: TrieEntry)
      requires Mirrored() && Listed() && n in cells
      requires cells[n].peer != null ==> cells[n].peer in lists
      modifies this`cells, this`lists, n, lists.Keys
      ensures Mirrored() && Listed() && Snap() == SetPeer(old(Snap()), n, null)
      ensures lists == MovedLists(old(Snap()), n, null, old(lists)) && lists.Keys == old(lists.Keys)
    {
      assert Mirrors(n);
      var was := n.peer;
      assert was != null ==> ListMirrors(was);
      RemoveFromPeerEntries(n);
      n.peer := null;
      cells := cells[n := cells[n].(peer := null)];
      if was != null { lists := lists[was := Without(lists[was], n)]; }
      forall q | q in lists ensures ListMirrors(q) { assert old(ListMirrors(q)); }
      forall a | a in cells ensures Mirrors(a) { assert old(Mirrors(a)); }
    }

    method InsertExact(node: TrieEntry, peer: Peer)
      requires Valid() && KnownPeer(peer) && node in cells
      modifies this, cells.Keys, lists.Keys, peer
      ensures Valid() && contents == old(contents)[old(cells)[node].pfx := peer]
      ensures lists.Keys == old(lists.Keys) + {peer} && cells.Keys == old(cells.Keys)
    {
      assert cells[node].peer != null ==> Entered(Snap(), lists, node);
      SetPeerKeeps(Snap(), node, peer, lists, contents);
      contents := contents[cells[node].pfx := peer];
      Assign(node, peer);
    }

    method Grow(f: Family, ip: seq<bool>, cidr: nat, peer: Peer, node: TrieEntry?)
        returns (ghost step: Step, ghost x: TrieEntry)
      requires Mirrored() && Listed() && Snap().Tree() && KnownPeer(peer)
      requires |ip| == Width(f) && cidr <= |ip| && Placed(Prefix(f, ip[..cidr]), node)
      modifies this`ipv4, this`ipv6, this`cells, this`lists, cells.Keys, peer
      ensures Mirrored() && Listed() && StepOk(old(Snap()), step, x, Prefix(f, ip[..cidr]))
      ensures Snap() == After(old(Snap()), step, x, Prefix(f, ip[..cidr]), peer)
      ensures lists == old(lists)[peer := ListOf(old(lists), peer) + [x]] && fresh(cells.Keys - old(cells.Keys))
    {
      var n := NewEntry(f, ip, cidr, peer);
      step := Hang(n, f, ip, node);
      x := n;
    }

    method InsertNew(f: Family, ip: seq<bool>, cidr: nat, peer: Peer, node: TrieEntry?)
      requires Valid() && |ip| == Width(f) && cidr <= |ip| && KnownPeer(peer) && Placed(Prefix(f, ip[..cidr]), node)
      modifies this, cells.Keys, lists.Keys, peer
      ensures Valid() && contents == old(contents)[Prefix(f, ip[..cidr]) := peer]
      ensures lists.Keys == old(lists.Keys) + {peer} && fresh(cells.Keys - old(cells.Keys))
    {
      ghost var step, x := Grow(f, ip, cidr, peer, node);
      StepKeeps(old(Snap()), step, x, Prefix(f, ip[..cidr]), peer, old(lists), contents);
      contents := contents[Prefix(f, ip[..cidr]) := peer];
    }

    /** Insert steals: the prefix now belongs to peer, whoever had it. */
    method Insert(f: Family, ip: seq<bool>, cidr: nat, peer: Peer)
      requires Valid() && |ip| == Width(f) && cidr <= |ip| && KnownPeer(peer)
      modifies this, cells.Keys, lists.Keys, peer
      ensures Valid() && contents == old(contents)[Prefix(f, ip[..cidr]) := peer]
      ensures lists.Keys == old(lists.Keys) + {peer} && fresh(cells.Keys - old(cells.Keys))
    {
      var node, exact := NodePlacement(f, ip, cidr);
      if exact { InsertExact(node, peer); } else { InsertNew(f, ip, cidr, peer, node); }
    }

    // ----- removal

    /** Lets n's only child, if any, take n's place, and clears n. */
    method Unlink(n: TrieEntry)
      requires Mirrored() && n in cells && CanUnsplice(Snap(), n)
      modifies this`ipv4, this`ipv6, this`cells, cells.Keys
      ensures Mirrored() && Snap() == Unsplice(old(Snap()), n)
    {
      assert Mirrors(n);
      var up, slot := n.parent, n.slot;
      var c := if n.child0 != null then n.child0 else n.child1;
      if c != null { SetUp(c, up, slot); }
      match slot {
        case Top => SetRoot(n.family, c);
        case Kid(b) => SetKid(up, b, c);
      }
      UnspliceByWrites(old(Snap()), n);
      Discard(n);
    }

    /** Forgets n and clears its pointers. */
    method Discard(n: TrieEntry)
      requires Mirrored() && n in cells
      modifies this`cells, n
      ensures Mirrored() && cells == old(cells) - {n}
    {
      cells := cells - {n};
      n.peer, n.child0, n.child1, n.parent := null, null, null, null;
      forall a | a in cells ensures Mirrors(a) { assert old(Mirrors(a)); }
    }

    /** Takes out n, and then its parent, where path compression asks for it. */
    method Prune(n: TrieEntry)
      requires Mirrored() && Snap().Tree() && CompactBut(Snap(), n) && n in cells
      modifies this`ipv4, this`ipv6, this`cells, cells.Keys
      ensures Mirrored() && Snap() == Pruned(old(Snap()), n)
    {
      ghost var t := Snap();
      assert Mirrors(n);
      if n.child0 != null && n.child1 != null { return; }
      CanUnspliceIn(t, n);
      var parent, leaf, top := n.parent, n.child0 == null && n.child1 == null, n.slot.Top?;
      Unlink(n);
      if !leaf || top { return; }
      ParentHasOneKid(t, n);
      assert Mirrors(parent);
      if parent.peer != null { return; }
      UnspliceKeepsTree(t, n);
      CanUnspliceIn(Snap(), parent);
      Unlink(parent);
    }

    method Drop(n: TrieEntry)
      requires Mirrored() && Listed() && n in cells && (cells[n].peer != null ==> cells[n].peer in lists)
      requires SetPeer(Snap(), n, null).Tree() && CompactBut(SetPeer(Snap(), n, null), n)
      modifies this`ipv4, this`ipv6, this`cells, this`lists, cells.Keys, lists.Keys
      ensures Mirrored() && Listed() && Snap() == Pruned(SetPeer(old(Snap()), n, null), n)
      ensures lists == MovedLists(old(Snap()), n, null, old(lists))
    {
      Disown(n);
      Prune(n);
    }

    /** The source's remove: n's prefix leaves the table. */
    method RemoveNode(n: TrieEntry)
      requires Valid() && n in cells
      modifies this, cells.Keys, lists.Keys
      ensures Valid() && contents == old(contents) - {old(cells)[n].pfx}
      ensures cells.Keys <= old(cells.Keys) && lists == MovedLists(old(Snap()), n, null, old(lists))
    {
      assert Entered(Snap(), lists, n);
      ClearedKept(Snap(), n, lists, contents);
      RemovedKept(Snap(), n, lists, contents);
      PrunedKeys(SetPeer(Snap(), n, null), n);
      contents := contents - {cells[n].pfx};
      Drop(n);
    }

    /** Remove deletes the prefix if it is exactly stored and peer owns it. */
    method Remove(f: Family, ip: seq<bool>, cidr: nat, peer: Peer)
      requires Valid() && |ip| == Width(f) && cidr <= |ip|
      modifies this, cells.Keys, lists.Keys
      ensures var p := Prefix(f, ip[..cidr]);
              Valid() && contents == if p in old(contents) && old(contents)[p] == peer then old(contents) - {p}
                else old(contents)
      ensures cells.Keys <= old(cells.Keys) && lists.Keys == old(lists.Keys)
    {
      ghost var p := Prefix(f, ip[..cidr]);
      var node, exact := NodePlacement(f, ip, cidr);
      OwnerIsContents(p, if exact then node else null);
      if exact { assert Mirrors(node); }
      if !exact || node == null || peer != node.peer { return; }
      assert Entered(Snap(), lists, node);
      RemoveNode(node);
    }

    /** The owner of p's node is what the map says of p. */
    lemma OwnerIsContents(p: Prefix, node: TrieEntry?)
      requires Valid()
      requires node == null ==> forall n :: n in cells ==> cells[n].pfx != p
      requires node != null ==> node in cells && cells[node].pfx == p
      ensures if node == null || cells[node].peer == null then p !in contents
              else p in contents && contents[p] == cells[node].peer
    {
      var t := Snap();
      if node != null { assert t.Stored(node, contents); }
      if p in contents {
        assert t.Backed(p, contents);
        var n :| n in cells && cells[n].pfx == p && cells[n].peer == contents[p];
        assert node != null ==> t.Apart(n, node);
      }
    }

    /** An empty list means the peer owns nothing; a listed node is an owned prefix. */
    lemma ListIsContents(peer: Peer)
      requires Valid() && peer in lists
      ensures forall n :: n in lists[peer] ==> n in cells && cells[n].pfx in contents && contents[cells[n].pfx] == peer
      ensures forall p :: p in contents && contents[p] == peer ==>
              exists n :: n in lists[peer] && n in cells && cells[n].pfx == p
    {
      var t := Snap();
      assert ListOk(t, lists, peer);
      forall n | n in lists[peer] ensures n in cells && cells[n].pfx in contents && contents[cells[n].pfx] == peer {
        assert t.Stored(n, contents);
      }
      forall p | p in contents && contents[p] == peer
        ensures exists n :: n in lists[peer] && n in cells && cells[n].pfx == p
      {
        assert t.Backed(p, contents);
        var n :| n in cells && cells[n].pfx == p && cells[n].peer == contents[p];
        assert Entered(t, lists, n);
      }
    }

    /** Removes every prefix of the peer, one list element after another. */
    method RemoveByPeer(peer: Peer)
      requires Valid() && KnownPeer(peer)
      modifies this, cells.Keys, lists.Keys
      ensures Valid() && contents == Deleted(old(contents), peer)
      ensures forall p :: p in contents <==> p in old(contents) && old(contents)[p] != peer
      ensures forall p :: p in contents ==> contents[p] == old(contents)[p]
      ensures cells.Keys <= old(cells.Keys) && lists.Keys == old(lists.Keys)
    {
      while peer.trieEntries != []
        invariant Valid() && KnownPeer(peer) && cells.Keys <= old(cells.Keys) && lists.Keys == old(lists.Keys)
        invariant Deleted(contents, peer) == Deleted(old(contents), peer)
        decreases |peer.trieEntries|
      {
        assert ListMirrors(peer);
        ListIsContents(peer);
        var n := peer.trieEntries[0];
        assert Entered(Snap(), lists, n) && ListOk(Snap(), lists, peer);
        RemoveNode(n);
        assert ListMirrors(peer);
      }
      if peer in lists {
        assert ListMirrors(peer);
        ListIsContents(peer);
      } else {
        NoListNoContents(peer);
      }
    }

    lemma NoListNoContents(peer: Peer)
      requires Valid() && peer !in lists
      ensures forall p :: p in contents ==> contents[p] != peer
    {
      forall p | p in contents ensures contents[p] != peer {
        assert Snap().Backed(p, contents);
        var n :| n in cells && cells[n].pfx == p && cells[n].peer == contents[p];
        assert Entered(Snap(), lists, n);
      }
    }

    /** Lists the peer's prefixes in insertion order, each once. */
    method EntriesForPeer(peer: Peer) returns (entries: seq<Prefix>)
      requires Valid() && KnownPeer(peer)
      ensures NoDup(entries)
      ensures forall p :: p in entries <==> p in contents && contents[p] == peer
    {
      entries := [];
      ghost var list := peer.trieEntries;
      assert peer in lists ==> ListMirrors(peer) && ListOk(Snap(), lists, peer);
      if peer in lists { ListIsContents(peer); } else { NoListNoContents(peer); }
      for i := 0 to |peer.trieEntries|
        invariant |entries| == i && forall k :: 0 <= k < i ==> list[k] in cells && entries[k] == cells[list[k]].pfx
      {
        var node := peer.trieEntries[i];
        assert node in lists[peer] && Mirrors(node);
        entries := entries + [Prefix(node.family, node.bits[..node.cidr])];
      }
      forall i, j | 0 <= i < j < |entries| ensures entries[i] != entries[j] { assert Snap().Apart(list[i], list[j]); }
      forall p | p in contents && contents[p] == peer ensures p in entries {
        var n :| n in list && n in cells && cells[n].pfx == p;
        var k :| 0 <= k < |list| && list[k] == n;
        assert entries[k] == p;
      }
    }

    /** Any sequence of operations leaves the trie representing what the same
        sequence leaves in a plain map. */
    method Execute(ops: seq<Op>, ghost known: set<Peer>)
      requires Valid() && forall op :: op in ops ==> op.Ok() && op.peer in known
      requires forall p :: p in known ==> KnownPeer(p)
      modifies this, cells.Keys, lists.Keys, known
      ensures Valid() && contents == Replay(old(contents), ops)
    {
      for i := 0 to |ops|
        invariant Valid() && contents == Replay(old(contents), ops[..i])
        invariant forall p :: p in known ==> KnownPeer(p)
        invariant fresh(cells.Keys - old(cells.Keys)) && lists.Keys <= old(lists.Keys) + known
      {
        assert ops[..i+1][..i] == ops[..i];
        match ops[i] {
          case Put(f, ip, cidr, peer) => Insert(f, ip, cidr, peer);
          case Del(f, ip, cidr, peer) => Remove(f, ip, cidr, peer);
          case DelPeer(peer) => RemoveByPeer(peer);
        }
      }
      assert ops[..|ops|] == ops;
    }
  }
}
