/** The cryptokey routing table: a path-compressed binary trie whose nodes are
    changed in place through parent pointers. This module holds the heap objects,
    the snapshot of the heap as a value, and the proof that each change of shape
    keeps the trie a trie. */
module TrieModel {
  import opened Prefixes

  class Peer {
    var trieEntries: seq<TrieEntry>

    constructor ()
      ensures trieEntries == []
    {
      trieEntries := [];
    }
  }

  /** Where a node hangs: child slot 0 or 1 of its parent, or the root slot of
      its family (the source's parentBitType 2). */
  datatype Slot = Kid(b: bool) | Top

  class TrieEntry {
    const family: Family
    const bits: seq<bool>
    const cidr: nat
    var peer: Peer?
    var child0: TrieEntry?
    var child1: TrieEntry?
    var parent: TrieEntry?
    var slot: Slot
    var listed: bool

    /** A fresh unlinked entry; the address is masked to cidr bits. */
    constructor (f: Family, ip: seq<bool>, cidr: nat, peer: Peer?)
      requires |ip| == Width(f) && cidr <= |ip|
      ensures this.family == f && this.cidr == cidr && this.peer == peer
      ensures this.bits == Mask(ip, cidr)
      ensures child0 == null && child1 == null && parent == null && slot == Top && !listed
    {
      this.family := f;
      this.bits := Mask(ip, cidr);
      this.cidr := cidr;
      this.peer := peer;
      this.child0 := null;
      this.child1 := null;
      this.parent := null;
      this.slot := Top;
      this.listed := false;
    }

    ghost predicate Sized() { |bits| == Width(family) && cidr <= |bits| }

    ghost function Pfx(): Prefix
    {
      Prefix(family, if cidr <= |bits| then bits[..cidr] else bits)
    }

    ghost function ToCell(): Cell
      reads this
    {
      Cell(Pfx(), child0, child1, parent, slot, peer)
    }

    function Child(b: bool): TrieEntry?
      reads this
    {
      if b then child1 else child0
    }
  }

  function Mask(ip: seq<bool>, cidr: nat): (r: seq<bool>)
    requires cidr <= |ip|
    ensures |r| == |ip| && r[..cidr] == ip[..cidr]
    ensures forall i :: cidr <= i < |r| ==> !r[i]
  {
    ip[..cidr] + seq(|ip| - cidr, i => false)
  }

  /** Length of the longest common prefix of two addresses of one family. */
  function CommonBits(a: seq<bool>, b: seq<bool>): (n: nat)
    requires |a| == |b|
    ensures n <= |a| && a[..n] == b[..n]
    ensures n < |a| ==> a[n] != b[n]
  {
    if |a| == 0 || a[0] != b[0] then 0
    else
      var n := 1 + CommonBits(a[1..], b[1..]);
      assert a[..n] == [a[0]] + a[1..][..n-1];
      assert b[..n] == [b[0]] + b[1..][..n-1];
      n
  }

  /** What one heap node says, as a value. */
  datatype Cell = Cell(pfx: Prefix, kid0: TrieEntry?, kid1: TrieEntry?, up: TrieEntry?, slot: Slot, peer: Peer?) {
    ghost function Kid(b: bool): TrieEntry? { if b then kid1 else kid0 }

    ghost function WithKid(b: bool, n: TrieEntry?): Cell
    {
      if b then this.(kid1 := n) else this.(kid0 := n)
    }

    /** The child on the way to a longer prefix. */
    ghost function Toward(q: Prefix): TrieEntry?
      requires |pfx.bits| < |q.bits|
    {
      Kid(q.bits[|pfx.bits|])
    }
  }

  /** A snapshot of the whole table: the two roots and every node. */
  datatype Trie = Trie(v4: TrieEntry?, v6: TrieEntry?, cells: map<TrieEntry, Cell>) {
    ghost function Root(f: Family): TrieEntry?
    {
      match f case V4 => v4 case V6 => v6
    }

    ghost function WithRoot(f: Family, n: TrieEntry?): Trie
    {
      match f case V4 => this.(v4 := n) case V6 => this.(v6 := n)
    }

    /** k is the b-child of n: parent and child pointers agree and the child
        extends the parent's prefix, first by bit b. */
    ghost predicate KidOk(n: TrieEntry, b: bool)
      requires n in cells
    {
      var k := cells[n].Kid(b);
      k != null ==>
        && k in cells
        && cells[k].up == n && cells[k].slot == Kid(b)
        && StrictlyCovers(cells[n].pfx, cells[k].pfx)
        && cells[k].pfx.bits[|cells[n].pfx.bits|] == b
    }

    /** The slot that n names is one that holds n. */
    ghost predicate SlotOk(n: TrieEntry)
      requires n in cells
    {
      match cells[n].slot
      case Top => Root(cells[n].pfx.family) == n
      case Kid(b) => cells[n].up != null && cells[n].up in cells && cells[cells[n].up].Kid(b) == n
    }

    ghost predicate RootOk(f: Family)
    {
      Root(f) != null ==> Root(f) in cells && cells[Root(f)].pfx.family == f && cells[Root(f)].slot == Top
    }

    ghost predicate UnderRoot(n: TrieEntry)
      requires n in cells
    {
      var r := Root(cells[n].pfx.family);
      r != null && r in cells && Covers(cells[r].pfx, cells[n].pfx)
    }

    /** Descent never misses: if n lies above m, then n's child on the way to m
        exists and lies above m or is m. */
    ghost predicate Guided(n: TrieEntry, m: TrieEntry)
      requires n in cells && m in cells
    {
      StrictlyCovers(cells[n].pfx, cells[m].pfx) ==>
        var k := cells[n].Toward(cells[m].pfx);
        k != null && k in cells && Covers(cells[k].pfx, cells[m].pfx)
    }

    ghost predicate Linked()
    {
      && (forall n, b {:trigger KidOk(n, b)} :: n in cells ==> KidOk(n, b))
      && (forall n {:trigger SlotOk(n)} :: n in cells ==> SlotOk(n))
      && RootOk(V4) && RootOk(V6)
    }

    ghost predicate Rooted() { forall n {:trigger UnderRoot(n)} :: n in cells ==> UnderRoot(n) }

    ghost predicate Steered() { forall n, m {:trigger Guided(n, m)} :: n in cells && m in cells ==> Guided(n, m) }

    ghost predicate Apart(n: TrieEntry, m: TrieEntry)
      requires n in cells && m in cells
    {
      cells[n].pfx == cells[m].pfx ==> n == m
    }

    ghost predicate Distinct() { forall n, m {:trigger Apart(n, m)} :: n in cells && m in cells ==> Apart(n, m) }

    ghost predicate Tree() { Linked() && Rooted() && Steered() && Distinct() }

    /** Path compression: a node without a peer joins two subtrees. */
    ghost predicate Joins(n: TrieEntry)
      requires n in cells
    {
      cells[n].peer == null ==> cells[n].kid0 != null && cells[n].kid1 != null
    }

    ghost predicate Compact() { forall n {:trigger Joins(n)} :: n in cells ==> Joins(n) }

    ghost predicate Stored(n: TrieEntry, m: map<Prefix, Peer>)
      requires n in cells
    {
      cells[n].peer != null ==> cells[n].pfx in m && m[cells[n].pfx] == cells[n].peer
    }

    ghost predicate Backed(q: Prefix, m: map<Prefix, Peer>)
      requires q in m
    {
      exists n :: n in cells && cells[n].pfx == q && cells[n].peer == m[q]
    }

    /** The prefixes that carry a peer are exactly the map m. */
    ghost predicate Represents(m: map<Prefix, Peer>)
    {
      && (forall n {:trigger Stored(n, m)} :: n in cells ==> Stored(n, m))
      && (forall q {:trigger Backed(q, m)} :: q in m ==> Backed(q, m))
    }
  }

  // ----- the ways the trie changes shape, on snapshots

  ghost function AddRoot(t: Trie, x: TrieEntry, p: Prefix, peer: Peer?): Trie
  {
    t.(cells := t.cells[x := Cell(p, null, null, null, Top, peer)]).WithRoot(p.family, x)
  }

  lemma AddRootKeepsTree(t: Trie, x: TrieEntry, p: Prefix, peer: Peer?)
    requires t.Tree() && x !in t.cells && t.Root(p.family) == null
    ensures AddRoot(t, x, p, peer).Tree()
  {
    var t' := AddRoot(t, x, p, peer);
    forall n | n in t.cells ensures t.cells[n].pfx.family != p.family { assert t.UnderRoot(n); }
    assert t'.Linked() by {
      forall n, b | n in t'.cells ensures t'.KidOk(n, b) { if n != x { assert t.KidOk(n, b); } }
      forall n | n in t'.cells ensures t'.SlotOk(n) { if n != x { assert t.SlotOk(n); } }
    }
    assert t'.Rooted() by {
      forall n | n in t'.cells ensures t'.UnderRoot(n) { if n != x { assert t.UnderRoot(n); } }
    }
    assert t'.Steered() by {
      forall n, m | n in t'.cells && m in t'.cells ensures t'.Guided(n, m) {
        if n != x && m != x { assert t.Guided(n, m); }
      }
    }
    forall n, m | n in t'.cells && m in t'.cells ensures t'.Apart(n, m) {
      if n != x && m != x { assert t.Apart(n, m); }
    }
  }

  ghost function AddLeaf(t: Trie, n: TrieEntry, b: bool, x: TrieEntry, p: Prefix, peer: Peer?): Trie
    requires n in t.cells
  {
    t.(cells := t.cells[n := t.cells[n].WithKid(b, x)][x := Cell(p, null, null, n, Kid(b), peer)])
  }

  ghost predicate LeafSpot(t: Trie, n: TrieEntry, b: bool, p: Prefix)
  {
    && n in t.cells
    && StrictlyCovers(t.cells[n].pfx, p) && p.bits[|t.cells[n].pfx.bits|] == b
    && t.cells[n].Kid(b) == null
  }

  ghost predicate CanAddLeaf(t: Trie, n: TrieEntry, b: bool, x: TrieEntry, p: Prefix)
  {
    x !in t.cells && LeafSpot(t, n, b, p)
  }

  /** A free slot means nothing stored lies at or below it. */
  lemma NothingBelowFreeSlot(t: Trie, n: TrieEntry, b: bool, x: TrieEntry, p: Prefix, a: TrieEntry)
    requires CanAddLeaf(t, n, b, x, p) && a in t.cells && t.Guided(n, a)
    ensures !Covers(p, t.cells[a].pfx)
  {
  }

  lemma AddLeafLinked(t: Trie, n: TrieEntry, b: bool, x: TrieEntry, p: Prefix, peer: Peer?)
    requires t.Linked() && CanAddLeaf(t, n, b, x, p)
    ensures AddLeaf(t, n, b, x, p, peer).Linked()
  {
    var t' := AddLeaf(t, n, b, x, p, peer);
    forall a, c | a in t'.cells ensures t'.KidOk(a, c) { if a != x { assert t.KidOk(a, c); } }
    forall a | a in t'.cells ensures t'.SlotOk(a) { if a != x { assert t.SlotOk(a); } }
  }

  lemma AddLeafSteered(t: Trie, n: TrieEntry, b: bool, x: TrieEntry, p: Prefix, peer: Peer?)
    requires t.Steered() && t.Distinct() && CanAddLeaf(t, n, b, x, p)
    ensures AddLeaf(t, n, b, x, p, peer).Steered()
  {
    var t' := AddLeaf(t, n, b, x, p, peer);
    forall a, m | a in t'.cells && m in t'.cells ensures t'.Guided(a, m) {
      if a == x {
        if m != x { NothingBelowFreeSlot(t, n, b, x, p, m); }
      } else if m != x {
        assert t.Guided(a, m);
      } else if a != n && StrictlyCovers(t.cells[a].pfx, p) {
        CoversComparable(t.cells[a].pfx, t.cells[n].pfx, p);
        assert t.Guided(n, a) && t.Guided(a, n) && t.Apart(a, n);
      }
    }
  }

  lemma AddLeafKeepsTree(t: Trie, n: TrieEntry, b: bool, x: TrieEntry, p: Prefix, peer: Peer?)
    requires t.Tree() && CanAddLeaf(t, n, b, x, p)
    ensures AddLeaf(t, n, b, x, p, peer).Tree()
  {
    var t' := AddLeaf(t, n, b, x, p, peer);
    AddLeafLinked(t, n, b, x, p, peer);
    AddLeafSteered(t, n, b, x, p, peer);
    forall a | a in t'.cells ensures t'.UnderRoot(a) {
      assert t.UnderRoot(n);
      if a != x { assert t.UnderRoot(a); }
    }
    forall a | a in t.cells ensures t.cells[a].pfx != p {
      assert t.Guided(n, a);
      NothingBelowFreeSlot(t, n, b, x, p, a);
    }
    forall a, m | a in t'.cells && m in t'.cells ensures t'.Apart(a, m) {
      if a != x && m != x { assert t.Apart(a, m); }
    }
  }

  /** Let the slot that cell d names hold k, as seen from node a. */
  ghost function Rehung(t: Trie, d: Cell, k: TrieEntry?, a: TrieEntry): Cell
    requires a in t.cells
  {
    if d.slot.Kid? && d.up == a then t.cells[a].WithKid(d.slot.b, k) else t.cells[a]
  }

  /** Put x between the slot that holds d and d itself. */
  ghost function Splice(t: Trie, d: TrieEntry, x: TrieEntry, p: Prefix, c: bool, peer: Peer?): Trie
    requires d in t.cells
  {
    var dc := t.cells[d];
    var cells' := map a | a in t.cells.Keys + {x} ::
                      if a == x then Cell(p, null, null, dc.up, dc.slot, peer).WithKid(c, d)
                      else if a == d then Rehung(t, dc, x, a).(up := x, slot := Kid(c))
                      else Rehung(t, dc, x, a);
    if dc.slot.Top? then t.(cells := cells').WithRoot(p.family, x) else t.(cells := cells')
  }

  ghost predicate SpliceSpot(t: Trie, d: TrieEntry, p: Prefix, c: bool)
  {
    && d in t.cells
    && StrictlyCovers(p, t.cells[d].pfx) && t.cells[d].pfx.bits[|p.bits|] == c
    && (t.cells[d].slot.Kid? ==>
          && t.cells[d].up != null && t.cells[d].up in t.cells && t.cells[d].up != d
          && StrictlyCovers(t.cells[t.cells[d].up].pfx, p)
          && p.bits[|t.cells[t.cells[d].up].pfx.bits|] == t.cells[d].slot.b)
  }

  ghost predicate CanSplice(t: Trie, d: TrieEntry, x: TrieEntry, p: Prefix, c: bool)
  {
    x !in t.cells && SpliceSpot(t, d, p, c)
  }

  /** Whatever lies at or below p lies at or below d. */
  lemma BelowSpliceIsBelowChild(t: Trie, d: TrieEntry, x: TrieEntry, p: Prefix, c: bool, a: TrieEntry)
    requires t.Tree() && CanSplice(t, d, x, p, c) && a in t.cells && Covers(p, t.cells[a].pfx)
    ensures Covers(t.cells[d].pfx, t.cells[a].pfx)
  {
    assert t.SlotOk(d);
    match t.cells[d].slot
    case Top => assert t.UnderRoot(a);
    case Kid(b) => assert t.Guided(t.cells[d].up, a);
  }

  /** How a splice reads back: only the slot of d, d itself and x differ. */
  lemma SpliceCells(t: Trie, d: TrieEntry, x: TrieEntry, p: Prefix, c: bool, peer: Peer?, a: TrieEntry)
    requires CanSplice(t, d, x, p, c) && t.SlotOk(d) && a in t.cells
    ensures var t' := Splice(t, d, x, p, c, peer);
            && t'.cells.Keys == t.cells.Keys + {x}
            && t'.cells[x] == Cell(p, null, null, t.cells[d].up, t.cells[d].slot, peer).WithKid(c, d)
            && t'.cells[a].pfx == t.cells[a].pfx && t'.cells[a].peer == t.cells[a].peer
            && t'.cells[a].up == (if a == d then x else t.cells[a].up)
            && t'.cells[a].slot == (if a == d then Kid(c) else t.cells[a].slot)
    ensures var t' := Splice(t, d, x, p, c, peer);
            forall e :: t'.cells[a].Kid(e) ==
              if t.cells[d].slot == Kid(e) && t.cells[d].up == a then x else t.cells[a].Kid(e)
    ensures var t' := Splice(t, d, x, p, c, peer);
            forall f :: t'.Root(f) == if t.cells[d].slot == Top && p.family == f then x else t.Root(f)
  {
  }

  lemma SpliceKidOk(t: Trie, d: TrieEntry, x: TrieEntry, p: Prefix, c: bool, peer: Peer?, a: TrieEntry, e: bool)
    requires CanSplice(t, d, x, p, c) && t.SlotOk(d) && a in t.cells && t.KidOk(a, e)
    ensures Splice(t, d, x, p, c, peer).KidOk(a, e)
  {
    SpliceCells(t, d, x, p, c, peer, a);
    if t.cells[a].Kid(e) != null { SpliceCells(t, d, x, p, c, peer, t.cells[a].Kid(e)); }
  }

  lemma SpliceSlotOk(t: Trie, d: TrieEntry, x: TrieEntry, p: Prefix, c: bool, peer: Peer?, a: TrieEntry)
    requires CanSplice(t, d, x, p, c) && t.SlotOk(d) && a in t.cells && t.SlotOk(a)
    ensures Splice(t, d, x, p, c, peer).SlotOk(a) && Splice(t, d, x, p, c, peer).SlotOk(x)
  {
    SpliceCells(t, d, x, p, c, peer, a);
    SpliceCells(t, d, x, p, c, peer, d);
    if t.cells[a].slot.Kid? { SpliceCells(t, d, x, p, c, peer, t.cells[a].up); }
    if t.cells[d].slot.Kid? { SpliceCells(t, d, x, p, c, peer, t.cells[d].up); }
  }

  lemma SpliceLinked(t: Trie, d: TrieEntry, x: TrieEntry, p: Prefix, c: bool, peer: Peer?)
    requires t.Linked() && CanSplice(t, d, x, p, c)
    ensures Splice(t, d, x, p, c, peer).Linked()
  {
    var t' := Splice(t, d, x, p, c, peer);
    assert t.SlotOk(d);
    SpliceCells(t, d, x, p, c, peer, d);
    forall a, e | a in t'.cells ensures t'.KidOk(a, e) {
      if a != x { assert t.KidOk(a, e); SpliceKidOk(t, d, x, p, c, peer, a, e); }
    }
    forall a | a in t'.cells ensures t'.SlotOk(a) {
      if a != x { assert t.SlotOk(a); }
      SpliceSlotOk(t, d, x, p, c, peer, if a == x then d else a);
    }
    forall f | t'.Root(f) != null ensures t'.RootOk(f) {
      if t.Root(f) != null && t.Root(f) in t.cells { SpliceCells(t, d, x, p, c, peer, t.Root(f)); }
    }
  }

  /** The child of a on the way to the new node, when a lies above it. */
  lemma SpliceGuidesToNew(t: Trie, d: TrieEntry, x: TrieEntry, p: Prefix, c: bool, peer: Peer?, a: TrieEntry)
    requires t.Tree() && CanSplice(t, d, x, p, c) && a in t.cells && StrictlyCovers(t.cells[a].pfx, p)
    ensures x in Splice(t, d, x, p, c, peer).cells && a in Splice(t, d, x, p, c, peer).cells
    ensures Splice(t, d, x, p, c, peer).Guided(a, x)
  {
    assert t.SlotOk(d) && t.Guided(a, d);
    SpliceCells(t, d, x, p, c, peer, a);
    var k := t.cells[a].Toward(t.cells[d].pfx);
    assert t.KidOk(a, p.bits[|t.cells[a].pfx.bits|]);
    if k != d {
      SpliceCells(t, d, x, p, c, peer, k);
      CoversComparable(t.cells[k].pfx, p, t.cells[d].pfx);
      assert t.Apart(k, d);
      if |p.bits| < |t.cells[k].pfx.bits| { BelowSpliceIsBelowChild(t, d, x, p, c, k); }
    }
  }

  lemma SpliceGuidesOld(t: Trie, d: TrieEntry, x: TrieEntry, p: Prefix, c: bool, peer: Peer?, a: TrieEntry,
      m: TrieEntry)
    requires CanSplice(t, d, x, p, c) && t.SlotOk(d) && a in t.cells && m in t.cells && t.Guided(a, m)
    ensures a in Splice(t, d, x, p, c, peer).cells && m in Splice(t, d, x, p, c, peer).cells
    ensures Splice(t, d, x, p, c, peer).Guided(a, m)
  {
    SpliceCells(t, d, x, p, c, peer, a);
    SpliceCells(t, d, x, p, c, peer, m);
    if StrictlyCovers(t.cells[a].pfx, t.cells[m].pfx) {
      SpliceCells(t, d, x, p, c, peer, t.cells[a].Toward(t.cells[m].pfx));
    }
  }

  lemma SpliceSteered(t: Trie, d: TrieEntry, x: TrieEntry, p: Prefix, c: bool, peer: Peer?)
    requires t.Tree() && CanSplice(t, d, x, p, c)
    ensures Splice(t, d, x, p, c, peer).Steered()
  {
    var t' := Splice(t, d, x, p, c, peer);
    assert t.SlotOk(d);
    SpliceCells(t, d, x, p, c, peer, d);
    forall a, m | a in t'.cells && m in t'.cells ensures t'.Guided(a, m) {
      if a != x && m != x {
        assert t.Guided(a, m);
        SpliceGuidesOld(t, d, x, p, c, peer, a, m);
      } else if a != x {
        SpliceCells(t, d, x, p, c, peer, a);
        if StrictlyCovers(t.cells[a].pfx, p) { SpliceGuidesToNew(t, d, x, p, c, peer, a); }
      } else if m != x {
        SpliceCells(t, d, x, p, c, peer, m);
        if Covers(p, t.cells[m].pfx) { BelowSpliceIsBelowChild(t, d, x, p, c, m); }
      }
    }
  }

  lemma SpliceUnderRoot(t: Trie, d: TrieEntry, x: TrieEntry, p: Prefix, c: bool, peer: Peer?, a: TrieEntry)
    requires t.Tree() && CanSplice(t, d, x, p, c) && (a in t.cells || a == x)
    ensures a in Splice(t, d, x, p, c, peer).cells && Splice(t, d, x, p, c, peer).UnderRoot(a)
  {
    assert t.SlotOk(d) && t.UnderRoot(d);
    var r := t.Root(p.family);
    SpliceCells(t, d, x, p, c, peer, d);
    SpliceCells(t, d, x, p, c, peer, r);
    if a == x {
      if t.cells[d].slot.Kid? {
        assert t.UnderRoot(t.cells[d].up);
        CoversTransitive(t.cells[r].pfx, t.cells[t.cells[d].up].pfx, p);
      }
    } else {
      assert t.UnderRoot(a);
      SpliceCells(t, d, x, p, c, peer, a);
      SpliceCells(t, d, x, p, c, peer, t.Root(t.cells[a].pfx.family));
      if t.cells[d].slot.Top? && t.cells[a].pfx.family == p.family {
        CoversTransitive(p, t.cells[d].pfx, t.cells[a].pfx);
      }
    }
  }

  lemma SpliceKeepsTree(t: Trie, d: TrieEntry, x: TrieEntry, p: Prefix, c: bool, peer: Peer?)
    requires t.Tree() && CanSplice(t, d, x, p, c)
    ensures Splice(t, d, x, p, c, peer).Tree()
  {
    var t' := Splice(t, d, x, p, c, peer);
    SpliceLinked(t, d, x, p, c, peer);
    SpliceSteered(t, d, x, p, c, peer);
    assert t.SlotOk(d);
    SpliceCells(t, d, x, p, c, peer, d);
    forall a | a in t'.cells ensures t'.UnderRoot(a) { SpliceUnderRoot(t, d, x, p, c, peer, a); }
    forall a | a in t.cells ensures t.cells[a].pfx != p {
      if t.cells[a].pfx == p { BelowSpliceIsBelowChild(t, d, x, p, c, a); }
    }
    forall a, m | a in t'.cells && m in t'.cells ensures t'.Apart(a, m) {
      if a != x { SpliceCells(t, d, x, p, c, peer, a); }
      if m != x { SpliceCells(t, d, x, p, c, peer, m); }
      if a != x && m != x { assert t.Apart(a, m); }
    }
  }

  ghost function OnlyKid(c: Cell): TrieEntry? { if c.kid0 != null then c.kid0 else c.kid1 }

  /** Take n out and let its only child, if any, hang in n's slot. */
  ghost function Unsplice(t: Trie, n: TrieEntry): Trie
    requires n in t.cells
  {
    var nc := t.cells[n];
    var c := OnlyKid(nc);
    var cells' := map a | a in t.cells.Keys - {n} ::
                      if a == c then Rehung(t, nc, c, a).(up := nc.up, slot := nc.slot) else Rehung(t, nc, c, a);
    if nc.slot.Top? then t.(cells := cells').WithRoot(nc.pfx.family, c) else t.(cells := cells')
  }

  ghost predicate CanUnsplice(t: Trie, n: TrieEntry)
  {
    && n in t.cells && (t.cells[n].kid0 == null || t.cells[n].kid1 == null)
    && t.SlotOk(n) && t.KidOk(n, false) && t.KidOk(n, true)
    && (t.cells[n].slot.Kid? ==> t.KidOk(t.cells[n].up, t.cells[n].slot.b))
  }

  lemma UnspliceCells(t: Trie, n: TrieEntry, a: TrieEntry)
    requires CanUnsplice(t, n) && a in t.cells && a != n
    ensures var t' := Unsplice(t, n);
            && t'.cells.Keys == t.cells.Keys - {n}
            && t'.cells[a].pfx == t.cells[a].pfx && t'.cells[a].peer == t.cells[a].peer
            && t'.cells[a].up == (if a == OnlyKid(t.cells[n]) then t.cells[n].up else t.cells[a].up)
            && t'.cells[a].slot == (if a == OnlyKid(t.cells[n]) then t.cells[n].slot else t.cells[a].slot)
    ensures var t' := Unsplice(t, n);
            forall e :: t'.cells[a].Kid(e) ==
                        if t.cells[n].slot == Kid(e) && t.cells[n].up == a then OnlyKid(t.cells[n])
                          else t.cells[a].Kid(e)
  {
    var t' := Unsplice(t, n);
    forall e ensures t'.cells[a].Kid(e) ==
                     if t.cells[n].slot == Kid(e) && t.cells[n].up == a then OnlyKid(t.cells[n]) else t.cells[a].Kid(e)
    {
      UnspliceKid(t, n, a, e);
    }
  }

  lemma UnspliceKid(t: Trie, n: TrieEntry, a: TrieEntry, e: bool)
    requires CanUnsplice(t, n) && a in t.cells && a != n
    ensures a in Unsplice(t, n).cells
    ensures Unsplice(t, n).cells[a].Kid(e) ==
            if t.cells[n].slot == Kid(e) && t.cells[n].up == a then OnlyKid(t.cells[n]) else t.cells[a].Kid(e)
  {
  }

  ghost predicate UnspliceRoots(t: Trie, n: TrieEntry)
    requires n in t.cells
  {
    forall f :: Unsplice(t, n).Root(f) ==
                if t.cells[n].slot == Top && t.cells[n].pfx.family == f then OnlyKid(t.cells[n]) else t.Root(f)
  }

  lemma UnspliceKeys(t: Trie, n: TrieEntry)
    requires CanUnsplice(t, n)
    ensures Unsplice(t, n).cells.Keys == t.cells.Keys - {n} && UnspliceRoots(t, n)
  {
  }

  lemma UnspliceKidOk(t: Trie, n: TrieEntry, a: TrieEntry, e: bool)
    requires CanUnsplice(t, n) && a in t.cells && a != n && t.KidOk(a, e)
    ensures a in Unsplice(t, n).cells && Unsplice(t, n).KidOk(a, e)
  {
    UnspliceCells(t, n, a);
    var k := t.cells[a].Kid(e);
    if k == n {
      var c := OnlyKid(t.cells[n]);
      if c != null { UnspliceCells(t, n, c); }
    } else if k != null {
      UnspliceCells(t, n, k);
    }
  }

  lemma UnspliceSlotOk(t: Trie, n: TrieEntry, a: TrieEntry)
    requires CanUnsplice(t, n) && a in t.cells && a != n && t.SlotOk(a)
    requires t.cells[a].slot.Kid? ==> t.cells[a].up in t.cells && t.KidOk(t.cells[a].up, t.cells[a].slot.b)
    ensures a in Unsplice(t, n).cells && Unsplice(t, n).SlotOk(a)
  {
    UnspliceCells(t, n, a);
    UnspliceKeys(t, n);
    if a == OnlyKid(t.cells[n]) {
      if t.cells[n].slot.Kid? { UnspliceCells(t, n, t.cells[n].up); }
    } else if t.cells[a].slot.Kid? {
      if t.cells[a].up != n { UnspliceCells(t, n, t.cells[a].up); }
    }
  }

  lemma UnspliceLinked(t: Trie, n: TrieEntry)
    requires t.Linked() && CanUnsplice(t, n)
    ensures Unsplice(t, n).Linked()
  {
    var t' := Unsplice(t, n);
    UnspliceKeys(t, n);
    forall a, e | a in t'.cells ensures t'.KidOk(a, e) { assert t.KidOk(a, e); UnspliceKidOk(t, n, a, e); }
    forall a | a in t'.cells ensures t'.SlotOk(a) {
      assert t.SlotOk(a);
      UnspliceSlotOk(t, n, a);
    }
    forall f | t'.Root(f) != null ensures t'.RootOk(f) {
      assert t.RootOk(f);
      if t'.Root(f) != n { UnspliceCells(t, n, t'.Root(f)); }
    }
  }

  lemma UnspliceGuided(t: Trie, n: TrieEntry, a: TrieEntry, m: TrieEntry)
    requires CanUnsplice(t, n) && a in t.cells && a != n && m in t.cells && m != n
    requires t.KidOk(a, false) && t.KidOk(a, true)
    requires t.Guided(a, m) && t.Guided(n, m) && t.Apart(n, m)
    ensures a in Unsplice(t, n).cells && m in Unsplice(t, n).cells
    ensures Unsplice(t, n).Guided(a, m)
  {
    UnspliceCells(t, n, a);
    UnspliceCells(t, n, m);
    if StrictlyCovers(t.cells[a].pfx, t.cells[m].pfx) {
      var k := t.cells[a].Toward(t.cells[m].pfx);
      if k == n {
        CoversComparable(t.cells[n].pfx, t.cells[m].pfx, t.cells[m].pfx);
        UnspliceCells(t, n, OnlyKid(t.cells[n]));
      } else {
        UnspliceCells(t, n, k);
      }
    }
  }

  lemma UnspliceUnderRoot(t: Trie, n: TrieEntry, a: TrieEntry)
    requires CanUnsplice(t, n) && a in t.cells && a != n
    requires t.UnderRoot(a) && t.Guided(n, a) && t.Apart(n, a)
    requires t.RootOk(t.cells[a].pfx.family)
    ensures a in Unsplice(t, n).cells && Unsplice(t, n).UnderRoot(a)
  {
    UnspliceKeys(t, n);
    UnspliceCells(t, n, a);
    var r := t.Root(t.cells[a].pfx.family);
    if r == n {
      CoversComparable(t.cells[n].pfx, t.cells[a].pfx, t.cells[a].pfx);
      UnspliceCells(t, n, OnlyKid(t.cells[n]));
    } else {
      UnspliceCells(t, n, r);
    }
  }

  lemma UnspliceKeepsTree(t: Trie, n: TrieEntry)
    requires t.Tree() && CanUnsplice(t, n)
    ensures Unsplice(t, n).Tree()
  {
    var t' := Unsplice(t, n);
    UnspliceKeys(t, n);
    UnspliceLinked(t, n);
    forall a | a in t'.cells ensures t'.UnderRoot(a) {
      assert t.UnderRoot(a) && t.Guided(n, a) && t.Apart(n, a);
      UnspliceUnderRoot(t, n, a);
    }
    forall a, m | a in t'.cells && m in t'.cells ensures t'.Guided(a, m) && t'.Apart(a, m) {
      assert t.Guided(a, m) && t.Guided(n, m) && t.Apart(n, m) && t.Apart(a, m);
      UnspliceGuided(t, n, a, m);
      UnspliceCells(t, n, a);
      UnspliceCells(t, n, m);
    }
  }

  // ----- the map that the trie stands for

  ghost function SetPeer(t: Trie, n: TrieEntry, peer: Peer?): Trie
    requires n in t.cells
  {
    t.(cells := t.cells[n := t.cells[n].(peer := peer)])
  }

  lemma SetPeerKeepsTree(t: Trie, n: TrieEntry, peer: Peer?)
    requires t.Tree() && n in t.cells
    ensures SetPeer(t, n, peer).Tree()
  {
    var t' := SetPeer(t, n, peer);
    forall a, e | a in t'.cells ensures t'.KidOk(a, e) { assert t.KidOk(a, e); }
    forall a | a in t'.cells ensures t'.SlotOk(a) && t'.UnderRoot(a) { assert t.SlotOk(a) && t.UnderRoot(a); }
    forall a, m | a in t'.cells && m in t'.cells ensures t'.Guided(a, m) && t'.Apart(a, m) {
      assert t.Guided(a, m) && t.Apart(a, m);
    }
  }

  /** Going from t to t', old nodes keep prefix and peer. */
  ghost predicate SameEntry(t: Trie, t': Trie, a: TrieEntry)
  {
    a in t.cells && a in t'.cells && t'.cells[a].pfx == t.cells[a].pfx && t'.cells[a].peer == t.cells[a].peer
  }

  /** A step that keeps every old entry, gives p its first node x and may add
      nodes without a peer. */
  ghost predicate Grows(t: Trie, t': Trie, x: TrieEntry, p: Prefix, peer: Peer)
  {
    && x !in t.cells && x in t'.cells && t'.cells[x].pfx == p && t'.cells[x].peer == peer
    && (forall a :: a in t.cells ==> SameEntry(t, t', a) && t.cells[a].pfx != p)
    && (forall a :: a in t'.cells && a !in t.cells && a != x ==> t'.cells[a].peer == null)
  }

  lemma GrowRepresents(t: Trie, t': Trie, x: TrieEntry, p: Prefix, peer: Peer, m: map<Prefix, Peer>)
    requires t.Represents(m) && Grows(t, t', x, p, peer)
    ensures t'.Represents(m[p := peer])
  {
    var m' := m[p := peer];
    forall a | a in t'.cells ensures t'.Stored(a, m') {
      if a in t.cells { assert t.Stored(a, m) && SameEntry(t, t', a); }
    }
    forall q | q in m' ensures t'.Backed(q, m') {
      if q == p {
        assert t'.cells[x].pfx == q && t'.cells[x].peer == m'[q];
      } else {
        assert t.Backed(q, m);
        var n :| n in t.cells && t.cells[n].pfx == q && t.cells[n].peer == m[q];
        assert SameEntry(t, t', n);
      }
    }
  }

  /** Storing a peer at n, or clearing it, changes the map at n's prefix only. */
  lemma SetPeerRepresents(t: Trie, n: TrieEntry, peer: Peer?, m: map<Prefix, Peer>)
    requires t.Represents(m) && t.Distinct() && n in t.cells
    ensures SetPeer(t, n, peer).Represents(if peer == null then m - {t.cells[n].pfx} else m[t.cells[n].pfx := peer])
  {
    var t' := SetPeer(t, n, peer);
    var m' := if peer == null then m - {t.cells[n].pfx} else m[t.cells[n].pfx := peer];
    forall a | a in t'.cells ensures t'.Stored(a, m') { assert t.Apart(a, n) && t.Stored(a, m); }
    forall q | q in m' ensures t'.Backed(q, m') {
      if q == t.cells[n].pfx {
        assert t'.cells[n].pfx == q && t'.cells[n].peer == m'[q];
      } else {
        assert t.Backed(q, m);
        var a :| a in t.cells && t.cells[a].pfx == q && t.cells[a].peer == m[q];
        assert t'.cells[a].pfx == q && t'.cells[a].peer == m'[q];
      }
    }
  }

  lemma UnspliceRepresents(t: Trie, n: TrieEntry, m: map<Prefix, Peer>)
    requires t.Represents(m) && CanUnsplice(t, n) && t.cells[n].peer == null
    ensures Unsplice(t, n).Represents(m)
  {
    var t' := Unsplice(t, n);
    UnspliceKeys(t, n);
    forall a | a in t'.cells ensures t'.Stored(a, m) { assert t.Stored(a, m); UnspliceCells(t, n, a); }
    forall q | q in m ensures t'.Backed(q, m) {
      assert t.Backed(q, m);
      var a :| a in t.cells && t.cells[a].pfx == q && t.cells[a].peer == m[q];
      UnspliceCells(t, n, a);
    }
  }

  /** Compact everywhere but, possibly, at n. */
  ghost predicate CompactBut(t: Trie, n: TrieEntry?)
  {
    forall a {:trigger t.Joins(a)} :: a in t.cells && a != n ==> t.Joins(a)
  }

  /** Taking out n disturbs compactness only at n's parent, and only when n was a leaf. */
  lemma UnspliceCompact(t: Trie, n: TrieEntry)
    requires CanUnsplice(t, n) && CompactBut(t, n)
    ensures OnlyKid(t.cells[n]) != null || t.cells[n].slot.Top? ==> Unsplice(t, n).Compact()
    ensures CompactBut(Unsplice(t, n), t.cells[n].up)
  {
    var t' := Unsplice(t, n);
    UnspliceKeys(t, n);
    forall a | a in t'.cells
      ensures OnlyKid(t.cells[n]) != null || t.cells[n].slot.Top? || a != t.cells[n].up ==> t'.Joins(a)
    {
      assert t.Joins(a);
      UnspliceCells(t, n, a);
      assert t'.cells[a].Kid(false) == t'.cells[a].kid0 && t'.cells[a].Kid(true) == t'.cells[a].kid1;
      assert t.cells[a].Kid(false) == t.cells[a].kid0 && t.cells[a].Kid(true) == t.cells[a].kid1;
    }
  }
}
