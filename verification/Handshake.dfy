/** Handshake state, keypair slots and the index table of a device. Every method
    is one atomic step of the source; together they keep the index table equal to
    the indices that the peers hold. */
module Handshake {
  import opened Common
  import opened Noise
  import opened Transcript
  import NonceCounter

  const MAX_PEERS := 0x10000

  datatype State = Zeroed | InitiationCreated | InitiationConsumed | ResponseCreated | ResponseConsumed

  class Keypair {
    const localIndex: nat
    const remoteIndex: nat
    const sendKey: Bytes
    const receiveKey: Bytes
    const isInitiator: bool
    var sendNonce: nat

    constructor (localIndex: nat, remoteIndex: nat, sendKey: Bytes, receiveKey: Bytes, isInitiator: bool)
      ensures this.localIndex == localIndex && this.remoteIndex == remoteIndex && this.isInitiator == isInitiator
      ensures this.sendKey == sendKey && this.receiveKey == receiveKey && sendNonce == 0
    {
      this.localIndex, this.remoteIndex, this.isInitiator := localIndex, remoteIndex, isInitiator;
      this.sendKey, this.receiveKey, this.sendNonce := sendKey, receiveKey, 0;
    }
  }

  /** The indices a peer holds: one for a handshake under way, one per keypair. */
  datatype Slots = Slots(pending: nat, previous: Keypair?, current: Keypair?, next: Keypair?) {
    ghost predicate Holds(k: Keypair) { k == previous || k == current || k == next }

    ghost function Pairs(): set<Keypair>
    {
      (if previous == null then {} else {previous}) + (if current == null then {} else {current})
      + if next == null then {} else {next}
    }

    /** Every keypair here is one of w's. */
    ghost predicate Within(w: Slots) { Pairs() <= w.Pairs() }

    ghost predicate Apart()
    {
      && (previous != null ==> previous != current && previous != next)
      && (current != null ==> current != next)
    }
  }

  class Peer {
    const remoteStatic: Bytes
    var running: bool
    var pss: Bytes
    var psk: Bytes
    var state: State
    var sym: Sym
    var localEphemeral: Bytes
    var remoteEphemeral: Bytes
    var localIndex: nat
    var remoteIndex: nat
    var lastTimestamp: Bytes
    var current: Keypair?
    var previous: Keypair?
    var next: Keypair?

    constructor (remoteStatic: Bytes, pss: Bytes, psk: Bytes, zero: Bytes)
      ensures this.remoteStatic == remoteStatic && this.pss == pss && this.psk == psk && !running
      ensures state == Zeroed && View() == Slots(0, null, null, null) && lastTimestamp == zero
    {
      this.remoteStatic, this.pss, this.psk, running := remoteStatic, pss, psk, false;
      state, sym, localEphemeral, remoteEphemeral := Zeroed, Sym(zero, zero), zero, zero;
      localIndex, remoteIndex, lastTimestamp := 0, 0, zero;
      current, previous, next := null, null, null;
    }

    ghost function View(): Slots
      reads this
    {
      Slots(localIndex, previous, current, next)
    }

    /** A handshake that has sent a message is reachable by index. */
    ghost predicate StateOk()
      reads this
    {
      state in {InitiationCreated, ResponseCreated, ResponseConsumed} ==> localIndex != 0
    }
  }

  /** A table entry leads to a pending handshake or to a keypair. */
  datatype Entry = Pending(peer: Peer) | Live(peer: Peer, keypair: Keypair)

  type Table = map<nat, Entry>

  // ----- the invariant, peer by peer

  ghost predicate SlotOk(k: Keypair?, t: Table, p: Peer)
  {
    k != null ==> k.localIndex != 0 && k.localIndex in t && t[k.localIndex] == Live(p, k)
  }

  /** The entries of p are exactly the indices p holds. */
  ghost predicate PeerTable(v: Slots, t: Table, p: Peer)
  {
    && v.Apart()
    && (v.pending != 0 ==> v.pending in t && t[v.pending] == Pending(p))
    && SlotOk(v.previous, t, p) && SlotOk(v.current, t, p) && SlotOk(v.next, t, p)
    && (forall i :: i in t && t[i].peer == p ==>
          i != 0 && match t[i] case Pending(_) => i == v.pending case Live(_, k) => v.Holds(k) && k.localIndex == i)
  }

  /** Only entries of p differ between the two tables. */
  ghost predicate SameElsewhere(t: Table, t': Table, p: Peer)
  {
    && (forall i :: i in t && t[i].peer != p ==> i in t' && t'[i] == t[i])
    && (forall i :: i in t' && t'[i].peer != p ==> i in t && t'[i] == t[i])
  }

  lemma OthersKeep(v: Slots, t: Table, t': Table, p: Peer, q: Peer)
    requires SameElsewhere(t, t', p) && q != p && PeerTable(v, t, q)
    ensures PeerTable(v, t', q)
  {
  }

  /** Giving up the pending index leaves a stale index behind unless it was 0. */
  lemma GiveUp(v: Slots, t: Table, p: Peer)
    requires PeerTable(v, t, p) && 0 !in t
    ensures var t' := t - {v.pending};
            SameElsewhere(t, t', p) && PeerTable(v.(pending := 0), t', p) && (PeerTable(v, t', p) <==> v.pending == 0)
  {
  }

  /** Taking a free index for the next handshake is sound unless the index is 0. */
  lemma Take(v: Slots, t: Table, p: Peer, i: nat)
    requires PeerTable(v, t, p) && v.pending == 0 && i !in t
    ensures var t' := t[i := Pending(p)];
            SameElsewhere(t, t', p) && (PeerTable(v.(pending := i), t', p) <==> i != 0)
  {
    assert t[i := Pending(p)][i].peer == p;
  }

  ghost function Without(t: Table, k: Keypair?): Table { if k == null then t else t - {k.localIndex} }

  /** The slots after a new keypair k comes in. */
  ghost function Rotated(v: Slots, k: Keypair, initiator: bool): Slots
  {
    if initiator then Slots(0, if v.next != null then v.next else v.current, k, null)
    else Slots(0, null, v.current, k)
  }

  /** The table after the pending index became k's and the dropped keypairs left. */
  ghost function RotatedTable(v: Slots, t: Table, p: Peer, k: Keypair, initiator: bool): Table
  {
    var t1 := t[v.pending := Live(p, k)];
    if initiator then Without(if v.next != null then Without(t1, v.current) else t1, v.previous)
    else Without(Without(t1, v.next), v.previous)
  }

  lemma RotateKeeps(v: Slots, t: Table, p: Peer, k: Keypair, initiator: bool)
    requires PeerTable(v, t, p) && v.pending != 0 && k.localIndex == v.pending && !v.Holds(k)
    ensures PeerTable(Rotated(v, k, initiator), RotatedTable(v, t, p, k, initiator), p)
    ensures SameElsewhere(t, RotatedTable(v, t, p, k, initiator), p)
  {
  }

  /** The slots after the first packet under the next keypair. */
  ghost function Promoted(v: Slots): Slots { Slots(v.pending, v.current, v.next, null) }

  lemma PromoteKeeps(v: Slots, t: Table, p: Peer)
    requires PeerTable(v, t, p)
    ensures PeerTable(Promoted(v), Without(t, v.previous), p) && SameElsewhere(t, Without(t, v.previous), p)
  {
  }

  lemma FlushKeeps(v: Slots, t: Table, p: Peer)
    requires PeerTable(v, t, p) && 0 !in t
    ensures var t' := Without(Without(Without(t, v.previous), v.current), v.next) - {v.pending};
            PeerTable(Slots(0, null, null, null), t', p) && SameElsewhere(t, t', p)
  {
  }

  datatype Slot = HandshakeSlot | PreviousSlot | CurrentSlot | NextSlot

  ghost function IndexOf(k: Keypair?): Option<nat> { if k == null then None else Some(k.localIndex) }

  /** The index held in a slot, if any. */
  ghost function IndexIn(v: Slots, s: Slot): Option<nat>
  {
    match s
    case HandshakeSlot => if v.pending == 0 then None else Some(v.pending)
    case PreviousSlot => IndexOf(v.previous)
    case CurrentSlot => IndexOf(v.current)
    case NextSlot => IndexOf(v.next)
  }

  /** The entry of an index held in a slot leads back to that slot. */
  lemma SlotEntry(v: Slots, t: Table, p: Peer, s: Slot)
    requires PeerTable(v, t, p) && IndexIn(v, s).Some?
    ensures var i := IndexIn(v, s).value; i in t && t[i].peer == p && (t[i].Pending? <==> s == HandshakeSlot)
    ensures s == PreviousSlot ==> t[IndexIn(v, s).value].keypair == v.previous
    ensures s == CurrentSlot ==> t[IndexIn(v, s).value].keypair == v.current
    ensures s == NextSlot ==> t[IndexIn(v, s).value].keypair == v.next
  {
  }

  /** No index is held twice, by two peers or in two slots of one. */
  lemma IndicesUnshared(v: Slots, w: Slots, t: Table, p: Peer, q: Peer, a: Slot, b: Slot)
    requires PeerTable(v, t, p) && PeerTable(w, t, q) && (p == q ==> v == w)
    requires IndexIn(v, a).Some? && IndexIn(v, a) == IndexIn(w, b)
    ensures p == q && a == b
  {
    SlotEntry(v, t, p, a);
    SlotEntry(w, t, q, b);
  }

  /** No peer ever owns more than four entries. */
  lemma AtMostFourEntries(v: Slots, t: Table, p: Peer)
    requires PeerTable(v, t, p)
    ensures |set i | i in t && t[i].peer == p| <= 4
  {
    var owned := set i | i in t && t[i].peer == p;
    var a := if v.previous == null then 0 else v.previous.localIndex;
    var b := if v.current == null then 0 else v.current.localIndex;
    var c := if v.next == null then 0 else v.next.localIndex;
    assert owned <= {v.pending, a, b, c};
    SubsetSize(owned, {v.pending, a, b, c});
    CardinalityOfFour(v.pending, a, b, c);
  }

  lemma HoldsItsEntry(v: Slots, t: Table, p: Peer, i: nat)
    requires PeerTable(v, t, p) && i in t && t[i].peer == p
    ensures exists s :: IndexIn(v, s) == Some(i)
  {
    var s := match t[i]
      case Pending(_) => HandshakeSlot
      case Live(_, k) => if k == v.previous then PreviousSlot else if k == v.current then CurrentSlot else NextSlot;
    assert IndexIn(v, s) == Some(i);
  }

  lemma CardinalityOfFour(a: nat, b: nat, c: nat, d: nat)
    ensures |{a, b, c, d}| <= 4
  {
    assert {a, b, c, d} == {a} + {b} + {c} + {d};
  }

  // ----- the index table

  class IndexTable {
    var table: Table

    constructor ()
      ensures table == map[]
    {
      table := map[];
    }

    method Delete(index: nat)
      modifies this
      ensures table == old(table) - {index}
    {
      table := table - {index};
    }

    method Lookup(index: nat) returns (entry: Option<Entry>)
      ensures entry == if index in table then Some(table[index]) else None
    {
      entry := if index in table then Some(table[index]) else None;
    }

    /** A missing index is left alone. */
    method SwapIndexForKeypair(index: nat, keypair: Keypair)
      modifies this
      ensures table == if index in old(table) then old(table)[index := Live(old(table)[index].peer, keypair)]
              else old(table)
    {
      if index in table { table := table[index := Live(table[index].peer, keypair)]; }
    }

    /** Draws random indices until one is free. When the source of randomness
        fails, after the given draws, it returns whatever was read last. */
    method NewIndexForHandshake(peer: Peer, draws: seq<nat>, leftover: nat) returns (index: nat, ok: bool)
      modifies this
      ensures ok == FirstFree(old(table), draws).Some?
      ensures index == if ok then FirstFree(old(table), draws).value else leftover
      ensures table == if ok then old(table)[index := Pending(peer)] else old(table)
    {
      var i := 0;
      while i < |draws|
        invariant i <= |draws| && table == old(table)
        invariant FirstFree(old(table), draws) == FirstFree(old(table), draws[i..])
      {
        assert draws[i..][1..] == draws[i+1..];
        if draws[i] !in table {
          table := table[draws[i] := Pending(peer)];
          return draws[i], true;
        }
        i := i + 1;
      }
      return leftover, false;
    }
  }

  function FirstFree(t: Table, draws: seq<nat>): (r: Option<nat>)
    ensures r.Some? ==> r.value !in t && r.value in draws
    ensures r.None? ==> forall d :: d in draws ==> d in t
  {
    if draws == [] then None else if draws[0] !in t then Some(draws[0]) else FirstFree(t, draws[1..])
  }

  /** Draw n is the first whose index is free. */
  ghost predicate FreeAt(t: Table, draws: seq<nat>, n: nat)
  {
    n < |draws| && draws[n] !in t && forall k :: 0 <= k < n ==> draws[k] in t
  }

  lemma {:induction false} FirstFreeIs(t: Table, draws: seq<nat>)
    ensures FirstFree(t, draws).Some? ==> exists n: nat :: FreeAt(t, draws, n) && draws[n] == FirstFree(t, draws).value
  {
    if draws != [] {
      if draws[0] !in t {
        assert FreeAt(t, draws, 0);
      } else {
        FirstFreeIs(t, draws[1..]);
        if FirstFree(t, draws[1..]).Some? {
          var n: nat :| FreeAt(t, draws[1..], n) && draws[1..][n] == FirstFree(t, draws).value;
          assert draws[n+1] == draws[1..][n];
          forall k | 0 <= k < n + 1 ensures draws[k] in t { assert k > 0 ==> draws[k] == draws[1..][k-1]; }
          assert FreeAt(t, draws, n + 1);
        }
      }
    }
  }

  // ----- the device

  class Device {
    const crypto: Crypto
    const indexTable: IndexTable
    var privateKey: Bytes
    var publicKey: Bytes
    var keyMap: map<Bytes, Peer>
    ghost var all: set<Peer>

    constructor (crypto: Crypto, privateKey: Bytes)
      ensures Valid() && this.crypto == crypto && this.privateKey == privateKey && all == {} && keyMap == map[]
      ensures fresh(indexTable) && indexTable.table == map[]
    {
      this.crypto := crypto;
      this.indexTable := new IndexTable();
      this.privateKey, this.publicKey := privateKey, Pub(crypto, privateKey);
      this.keyMap, this.all := map[], {};
    }

    ghost predicate PeerOk(p: Peer)
      reads indexTable, p
    {
      PeerTable(p.View(), indexTable.table, p) && p.StateOk()
    }

    /** The table holds only indices of known peers, and for each peer exactly
        the indices it holds. */
    ghost predicate Indexed()
      reads this`all, indexTable, all
    {
      && (forall i :: i in indexTable.table ==> indexTable.table[i].peer in all)
      && (forall p {:trigger PeerOk(p)} :: p in all ==> PeerOk(p))
    }

    ghost predicate Keyed(k: Bytes)
      requires k in keyMap
      reads this, all
    {
      keyMap[k] in all && keyMap[k].remoteStatic == k && keyMap[k].pss == Dh(crypto, privateKey, k)
    }

    ghost predicate Valid()
      reads this, indexTable, all
    {
      && Indexed() && publicKey == Pub(crypto, privateKey)
      && forall k {:trigger Keyed(k)} :: k in keyMap ==> Keyed(k)
    }

    /** Drawing a new index for a peer that may give one up keeps the invariant
        exactly when a free, non-zero index is drawn. */
    ghost predicate GoodDraw(p: Peer, draws: seq<nat>)
      reads indexTable, p
    {
      var f := FirstFree(indexTable.table - {p.localIndex}, draws);
      f.Some? && f.value != 0
    }

    /** A step that touches only one peer and its own entries keeps the invariant
        exactly if it keeps it for that peer. */
    twostate lemma StepKeeps(peer: Peer)
      requires old(Valid()) && peer in all && unchanged(this) && peer.pss == old(peer.pss)
      requires forall q :: q in all && q != peer ==> unchanged(q)
      requires SameElsewhere(old(indexTable.table), indexTable.table, peer)
      ensures Valid() <==> PeerOk(peer)
    {
      if PeerOk(peer) {
        forall q | q in all ensures PeerOk(q) {
          assert old(PeerOk(q));
          if q != peer { OthersKeep(q.View(), old(indexTable.table), indexTable.table, peer, q); }
        }
        forall k | k in keyMap ensures Keyed(k) { assert old(Keyed(k)); }
      }
    }

    /** p holds index i in one of its slots. */
    ghost predicate HeldBy(i: nat, p: Peer)
      reads p
    {
      exists s :: IndexIn(p.View(), s) == Some(i)
    }

    /** What a lookup means: the entry found is that of the one peer that holds the
        index, and nothing is found exactly if no peer does. */
    lemma EntryIsHolder(i: nat)
      requires Indexed()
      ensures i in indexTable.table <==> exists p :: p in all && HeldBy(i, p)
      ensures forall p :: p in all && HeldBy(i, p) ==> i in indexTable.table && indexTable.table[i].peer == p
    {
      forall p | p in all && HeldBy(i, p) ensures i in indexTable.table && indexTable.table[i].peer == p {
        assert PeerOk(p);
        var s :| IndexIn(p.View(), s) == Some(i);
        SlotEntry(p.View(), indexTable.table, p, s);
      }
      if i in indexTable.table {
        var p := indexTable.table[i].peer;
        assert PeerOk(p);
        HoldsItsEntry(p.View(), indexTable.table, p, i);
      }
    }

    /** At most four entries for every peer, and no index held twice. */
    ghost predicate Orderly()
      reads this`all, indexTable, all
    {
      && (forall p :: p in all ==> |set i | i in indexTable.table && indexTable.table[i].peer == p| <= 4)
      && (forall p, q, a, b ::
            p in all && q in all && IndexIn(p.View(), a).Some? && IndexIn(p.View(), a) == IndexIn(q.View(), b) ==>
              p == q && a == b)
    }

    lemma ValidIsOrderly()
      requires Valid()
      ensures Orderly()
    {
      forall p | p in all ensures |set i | i in indexTable.table && indexTable.table[i].peer == p| <= 4 {
        assert PeerOk(p);
        AtMostFourEntries(p.View(), indexTable.table, p);
      }
      forall p, q, a, b | p in all && q in all && IndexIn(p.View(), a).Some?
        && IndexIn(p.View(), a) == IndexIn(q.View(), b)
        ensures p == q && a == b
      {
        assert PeerOk(p) && PeerOk(q);
        IndicesUnshared(p.View(), q.View(), indexTable.table, p, q, a, b);
      }
    }

    lemma ZeroIsFree()
      requires Indexed()
      ensures 0 !in indexTable.table
    {
      forall i | i in indexTable.table ensures i != 0 { assert PeerOk(indexTable.table[i].peer); }
    }

    /** A known key is refused, and any once there are too many; otherwise the peer
        starts with nothing to hold. */
    method NewPeer(pk: Bytes) returns (peer: Peer?)
      requires Valid()
      modifies this`keyMap, this`all
      ensures Valid() && (peer == null <==> |old(keyMap)| >= MAX_PEERS || pk in old(keyMap))
      ensures peer == null ==> keyMap == old(keyMap) && all == old(all)
      ensures peer != null ==>
                && fresh(peer) && all == old(all) + {peer} && keyMap == old(keyMap)[pk := peer]
                && peer.View() == Slots(0, null, null, null) && peer.state == Zeroed
    {
      if |keyMap| >= MAX_PEERS || pk in keyMap { return null; }
      peer := new Peer(pk, Dh(crypto, privateKey, pk), crypto.zero, crypto.zero);
      keyMap, all := keyMap[pk := peer], all + {peer};
      forall q | q in all ensures PeerOk(q) { assert q == peer || old(PeerOk(q)); }
      forall k | k in keyMap ensures Keyed(k) { assert k == pk || old(Keyed(k)); }
    }

    /** Gives up the peer's pending index and draws a new one. */
    method AssignIndex(peer: Peer, draws: seq<nat>, leftover: nat) returns (index: nat, ok: bool)
      requires PeerOk(peer) && 0 !in indexTable.table
      modifies indexTable
      ensures SameElsewhere(old(indexTable.table), indexTable.table, peer)
      ensures var f := FirstFree(old(indexTable.table) - {peer.localIndex}, draws);
              ok == f.Some? && index == if ok then f.value else leftover
      ensures ok ==> (PeerTable(peer.View().(pending := index), indexTable.table, peer) <==> index != 0)
      ensures !ok ==> (PeerTable(peer.View(), indexTable.table, peer) <==> peer.localIndex == 0)
      ensures !ok ==> (PeerTable(peer.View().(pending := index), indexTable.table, peer) <==> index == 0)
    {
      GiveUp(peer.View(), indexTable.table, peer);
      indexTable.Delete(peer.localIndex);
      ghost var t := indexTable.table;
      index, ok := indexTable.NewIndexForHandshake(peer, draws, leftover);
      if ok { Take(peer.View().(pending := 0), t, peer, index); }
    }

    method CreateMessageInitiation(peer: Peer, ephemeral: Bytes, now: Bytes, draws: seq<nat>, leftover: nat)
      returns (msg: Option<Initiation>)
      requires Valid() && peer in all
      modifies peer, indexTable
      ensures peer.localIndex == (if msg.Some? then msg.value.sender else old(peer.localIndex))
      ensures peer.View() == old(peer.View()).(pending := peer.localIndex)
      ensures msg.Some? ==>
                && SealedBy(crypto, ephemeral, publicKey, peer.remoteStatic, peer.pss, now, msg.value)
                && peer.sym == InitiatorSym(crypto, ephemeral, peer.remoteStatic, peer.pss, msg.value)
                && peer.state == InitiationCreated && peer.localEphemeral == ephemeral
      ensures msg.None? ==> peer.state == old(peer.state)
      ensures peer.pss == old(peer.pss) && peer.psk == old(peer.psk) && peer.running == old(peer.running)
      ensures Dh(crypto, ephemeral, peer.remoteStatic) == crypto.zero || peer.pss == crypto.zero ==>
              msg.None? && Valid()
      ensures Dh(crypto, ephemeral, peer.remoteStatic) != crypto.zero && peer.pss != crypto.zero ==>
                && (msg.Some? <==> FirstFree(old(indexTable.table) - {old(peer.localIndex)}, draws).Some?)
                && (Valid() <==> old(GoodDraw(peer, draws)) || (msg.None? && old(peer.localIndex) == 0))
    {
      assert PeerOk(peer);
      ZeroIsFree();
      var fields := SealInitiation(peer, ephemeral, now);
      StepKeeps(peer);
      if fields.None? { return None; }
      var sender, ok := Initiate(peer, fields.value.1, draws, leftover);
      if !ok { return None; }
      return Some(Initiation(sender, Pub(crypto, ephemeral), fields.value.0, fields.value.1));
    }

    /** The index of an initiation, and the state it leaves the peer in. */
    method Initiate(peer: Peer, timestamp: Bytes, draws: seq<nat>, leftover: nat) returns (sender: nat, ok: bool)
      requires Valid() && peer in all
      modifies peer`localIndex, peer`sym, peer`state, indexTable
      ensures ok == FirstFree(old(indexTable.table) - {old(peer.localIndex)}, draws).Some?
      ensures peer.localIndex == if ok then sender else old(peer.localIndex)
      ensures peer.sym == if ok then AfterSealed(crypto, old(peer.sym), peer.pss, timestamp) else old(peer.sym)
      ensures peer.state == if ok then InitiationCreated else old(peer.state)
      ensures Valid() <==> old(GoodDraw(peer, draws)) || (!ok && old(peer.localIndex) == 0)
    {
      assert PeerOk(peer);
      ZeroIsFree();
      sender, ok := AssignIndex(peer, draws, leftover);
      if ok {
        peer.localIndex, peer.state := sender, InitiationCreated;
        peer.sym := AfterSealed(crypto, peer.sym, peer.pss, timestamp);
      }
      StepKeeps(peer);
    }

    /** The cryptographic half of an initiation: the sealed static key and the
        sealed timestamp. The peer's state is the one the timestamp is sealed in. */
    method SealInitiation(peer: Peer, ephemeral: Bytes, now: Bytes) returns (fields: Option<(Bytes, Bytes)>)
      modifies peer`sym, peer`localEphemeral
      ensures fields.None? <==> Dh(crypto, ephemeral, peer.remoteStatic) == crypto.zero || peer.pss == crypto.zero
      ensures fields.Some? ==>
                var g := Greeting(crypto, peer.remoteStatic, Pub(crypto, ephemeral));
                var ss := Dh(crypto, ephemeral, peer.remoteStatic);
                && fields.value.0 == Seal(crypto, SealKey(crypto, g, ss), publicKey, g.hash)
                && peer.sym == AfterSealed(crypto, g, ss, fields.value.0) && peer.localEphemeral == ephemeral
                && fields.value.1 == Seal(crypto, SealKey(crypto, peer.sym, peer.pss), now, peer.sym.hash)
    {
      peer.sym, peer.localEphemeral := Sym(crypto.initialHash, crypto.initialChain), ephemeral;
      peer.sym := MixHash(crypto, peer.sym, peer.remoteStatic);
      var ep := Pub(crypto, ephemeral);
      peer.sym := MixKey(crypto, peer.sym, ep);
      peer.sym := MixHash(crypto, peer.sym, ep);
      var ss := Dh(crypto, ephemeral, peer.remoteStatic);
      if ss == crypto.zero { return None; }
      var sealedStatic := Seal(crypto, SealKey(crypto, peer.sym, ss), publicKey, peer.sym.hash);
      peer.sym := AfterSealed(crypto, peer.sym, ss, sealedStatic);
      if peer.pss == crypto.zero { return None; }
      return Some((sealedStatic, Seal(crypto, SealKey(crypto, peer.sym, peer.pss), now, peer.sym.hash)));
    }

    /** The initiation opens, names p, and is neither a replay nor part of a flood. */
    ghost predicate Accepts(msg: Initiation, flood: bool, p: Peer)
      reads this, p
    {
      && !flood && Dh(crypto, privateKey, msg.ephemeral) != crypto.zero
      && var pk := OpenStatic(crypto, privateKey, msg);
      && pk.Some? && pk.value in keyMap && keyMap[pk.value] == p && p.running && p.pss != crypto.zero
      && var ts := OpenTimestamp(crypto, privateKey, p.pss, msg);
      && ts.Some? && After(crypto, ts.value, p.lastTimestamp)
    }

    method ReadInitiation(msg: Initiation, flood: bool) returns (peer: Peer?, sym: Sym, timestamp: Bytes)
      requires Valid()
      ensures peer != null ==>
                && peer in all && Accepts(msg, flood, peer) && sym == ResponderSym(crypto, privateKey, peer.pss, msg)
                && OpenTimestamp(crypto, privateKey, peer.pss, msg) == Some(timestamp)
      ensures peer == null ==> forall p :: p in all ==> !Accepts(msg, flood, p)
    {
      peer, timestamp := null, crypto.zero;
      sym := MixHash(crypto, MixHash(crypto, Sym(crypto.initialHash, crypto.initialChain), publicKey), msg.ephemeral);
      sym := MixKey(crypto, sym, msg.ephemeral);
      var ss := Dh(crypto, privateKey, msg.ephemeral);
      if ss == crypto.zero { return; }
      var pk := Open(crypto, SealKey(crypto, sym, ss), msg.sealedStatic, sym.hash);
      if pk.None? { return; }
      sym := AfterSealed(crypto, sym, ss, msg.sealedStatic);
      if pk.value !in keyMap { return; }
      assert Keyed(pk.value);
      var p := keyMap[pk.value];
      if !p.running || p.pss == crypto.zero { return; }
      var ts := Open(crypto, SealKey(crypto, sym, p.pss), msg.timestamp, sym.hash);
      if ts.None? { return; }
      timestamp := ts.value;
      sym := AfterSealed(crypto, sym, p.pss, msg.timestamp);
      if !After(crypto, timestamp, p.lastTimestamp) || flood { return; }
      peer := p;
    }

    method AcceptInitiation(msg: Initiation, peer: Peer, sym: Sym, timestamp: Bytes)
      requires Valid() && peer in all
      modifies peer
      ensures Valid() && peer.sym == sym && peer.state == InitiationConsumed && peer.lastTimestamp == timestamp
      ensures peer.remoteIndex == msg.sender && peer.remoteEphemeral == msg.ephemeral
      ensures peer.View() == old(peer.View()) && peer.pss == old(peer.pss) && peer.psk == old(peer.psk)
              && peer.running == old(peer.running)
    {
      assert PeerOk(peer);
      peer.sym, peer.remoteIndex, peer.remoteEphemeral := sym, msg.sender, msg.ephemeral;
      peer.lastTimestamp, peer.state := timestamp, InitiationConsumed;
      StepKeeps(peer);
    }

    /** An acceptable initiation moves the peer it names; any other changes nothing. */
    method ConsumeMessageInitiation(msg: Initiation, flood: bool) returns (peer: Peer?)
      requires Valid()
      modifies all
      ensures Valid() && forall q :: q in all && q != peer ==> unchanged(q)
      ensures peer == null ==> forall p :: p in all ==> !old(Accepts(msg, flood, p))
      ensures peer != null ==>
                && peer in all && old(Accepts(msg, flood, peer))
                && peer.sym == ResponderSym(crypto, privateKey, peer.pss, msg) && peer.state == InitiationConsumed
                && peer.remoteIndex == msg.sender && peer.remoteEphemeral == msg.ephemeral
                && OpenTimestamp(crypto, privateKey, peer.pss, msg) == Some(peer.lastTimestamp)
                && peer.View() == old(peer.View()) && peer.pss == old(peer.pss) && peer.psk == old(peer.psk)
                && !flood && old(peer.running) && crypto.after(peer.lastTimestamp, old(peer.lastTimestamp))
    {
      var sym, ts;
      peer, sym, ts := ReadInitiation(msg, flood);
      if peer != null { AcceptInitiation(msg, peer, sym, ts); }
    }

    method CreateMessageResponse(peer: Peer, ephemeral: Bytes, draws: seq<nat>, leftover: nat)
        returns (msg: Option<Response>)
      requires Valid() && peer in all
      modifies peer, indexTable
      ensures peer.pss == old(peer.pss) && peer.psk == old(peer.psk) && peer.running == old(peer.running)
      ensures peer.View() == old(peer.View()).(pending := peer.localIndex)
      ensures msg.Some? <==>
                && old(peer.state) == InitiationConsumed
                && FirstFree(old(indexTable.table) - {old(peer.localIndex)}, draws).Some?
                && Dh(crypto, ephemeral, old(peer.remoteEphemeral)) != crypto.zero
                && Dh(crypto, ephemeral, peer.remoteStatic) != crypto.zero
      ensures msg.Some? ==>
                var ee, se := Dh(crypto, ephemeral, old(peer.remoteEphemeral)),
                  Dh(crypto, ephemeral, peer.remoteStatic);
                var s := ResponseSym(crypto, old(peer.sym), Pub(crypto, ephemeral), ee, se, peer.psk);
                var k := ResponseKey(crypto, old(peer.sym), Pub(crypto, ephemeral), ee, se, peer.psk);
                && msg.value.sender == peer.localIndex && msg.value.receiver == old(peer.remoteIndex)
                && msg.value.ephemeral == Pub(crypto, ephemeral) && msg.value.empty == Seal(crypto, k, [], s.hash)
                && peer.sym == MixHash(crypto, s, msg.value.empty) && peer.state == ResponseCreated
                && peer.remoteIndex == old(peer.remoteIndex)
      ensures msg.None? ==> peer.state == old(peer.state)
      ensures Valid() <==>
                || old(peer.state) != InitiationConsumed || old(GoodDraw(peer, draws))
                || (FirstFree(old(indexTable.table) - {old(peer.localIndex)}, draws).None? && leftover == 0)
    {
      if peer.state != InitiationConsumed { return None; }
      assert PeerOk(peer);
      ZeroIsFree();
      var index, ok := AssignIndex(peer, draws, leftover);
      peer.localIndex := index;
      StepKeeps(peer);
      if !ok { return None; }
      msg := Respond(peer, ephemeral);
      StepKeeps(peer);
    }

    /** The cryptographic half of a response. */
    method Respond(peer: Peer, ephemeral: Bytes) returns (msg: Option<Response>)
      modifies peer`sym, peer`localEphemeral, peer`state
      ensures msg.Some? <==>
                Dh(crypto, ephemeral, peer.remoteEphemeral) != crypto.zero
                  && Dh(crypto, ephemeral, peer.remoteStatic) != crypto.zero
      ensures msg.Some? ==>
                var ee, se := Dh(crypto, ephemeral, peer.remoteEphemeral), Dh(crypto, ephemeral, peer.remoteStatic);
                var s := ResponseSym(crypto, old(peer.sym), Pub(crypto, ephemeral), ee, se, peer.psk);
                var k := ResponseKey(crypto, old(peer.sym), Pub(crypto, ephemeral), ee, se, peer.psk);
                && msg.value == Response(peer.localIndex, peer.remoteIndex, Pub(crypto, ephemeral),
                  Seal(crypto, k, [], s.hash))
                && peer.sym == MixHash(crypto, s, msg.value.empty) && peer.state == ResponseCreated
      ensures msg.None? ==> peer.state == old(peer.state)
    {
      peer.localEphemeral := ephemeral;
      var ep := Pub(crypto, ephemeral);
      peer.sym := MixKey(crypto, MixHash(crypto, peer.sym, ep), ep);
      var ee := Dh(crypto, ephemeral, peer.remoteEphemeral);
      if ee == crypto.zero { return None; }
      peer.sym := MixKey(crypto, peer.sym, ee);
      var se := Dh(crypto, ephemeral, peer.remoteStatic);
      if se == crypto.zero { return None; }
      peer.sym := MixKey(crypto, peer.sym, se);
      var key := EmptyKey(crypto, peer.sym, peer.psk);
      peer.sym := AfterPsk(crypto, peer.sym, peer.psk);
      var empty := Seal(crypto, key, [], peer.sym.hash);
      peer.sym := MixHash(crypto, peer.sym, empty);
      peer.state := ResponseCreated;
      return Some(Response(peer.localIndex, peer.remoteIndex, ep, empty));
    }

    /** The response answers p's pending initiation and opens. */
    ghost predicate Completes(msg: Response, p: Peer)
      reads this, indexTable, p
    {
      && msg.receiver in indexTable.table && indexTable.table[msg.receiver] == Pending(p)
        && p.state == InitiationCreated
      && var ee, se := Dh(crypto, p.localEphemeral, msg.ephemeral), Dh(crypto, privateKey, msg.ephemeral);
      && ee != crypto.zero && se != crypto.zero
      && Open(crypto, ResponseKey(crypto, p.sym, msg.ephemeral, ee, se, p.psk), msg.empty,
              ResponseSym(crypto, p.sym, msg.ephemeral, ee, se, p.psk).hash).Some?
    }

    method ConsumeMessageResponse(msg: Response) returns (peer: Peer?)
      requires Valid()
      modifies all
      ensures Valid() && forall q :: q in all && q != peer ==> unchanged(q)
      ensures peer == null ==> forall p :: p in all ==> !old(Completes(msg, p))
      ensures peer != null ==>
                && peer in all && old(Completes(msg, peer))
                && var ee, se := Dh(crypto, old(peer.localEphemeral), msg.ephemeral),
                  Dh(crypto, privateKey, msg.ephemeral);
                && peer.sym == MixHash(crypto, ResponseSym(crypto, old(peer.sym), msg.ephemeral, ee, se, peer.psk),
                  msg.empty)
                && peer.state == ResponseConsumed && peer.remoteIndex == msg.sender
                && peer.View() == old(peer.View()) && peer.pss == old(peer.pss) && peer.psk == old(peer.psk)
                && old(peer.state) == InitiationCreated && peer.localIndex == msg.receiver
    {
      peer := null;
      var entry := indexTable.Lookup(msg.receiver);
      if entry.None? || !entry.value.Pending? { return; }
      var p := entry.value.peer;
      if p.state != InitiationCreated { return; }
      var sym := MixKey(crypto, MixHash(crypto, p.sym, msg.ephemeral), msg.ephemeral);
      var ee := Dh(crypto, p.localEphemeral, msg.ephemeral);
      if ee == crypto.zero { return; }
      sym := MixKey(crypto, sym, ee);
      var se := Dh(crypto, privateKey, msg.ephemeral);
      if se == crypto.zero { return; }
      sym := MixKey(crypto, sym, se);
      var key := EmptyKey(crypto, sym, p.psk);
      sym := AfterPsk(crypto, sym, p.psk);
      if Open(crypto, key, msg.empty, sym.hash).None? { return; }
      assert PeerOk(p);
      FinishResponse(p, MixHash(crypto, sym, msg.empty), msg.sender);
      peer := p;
    }

    method FinishResponse(peer: Peer, sym: Sym, remoteIndex: nat)
      requires Valid() && peer in all && peer.state == InitiationCreated
      modifies peer`sym, peer`remoteIndex, peer`state
      ensures Valid() && peer.sym == sym && peer.remoteIndex == remoteIndex && peer.state == ResponseConsumed
    {
      assert PeerOk(peer);
      peer.sym, peer.remoteIndex, peer.state := sym, remoteIndex, ResponseConsumed;
      StepKeeps(peer);
    }

    method DeleteKeypair(k: Keypair?)
      modifies indexTable
      ensures indexTable.table == Without(old(indexTable.table), k)
    {
      if k != null { indexTable.Delete(k.localIndex); }
    }

    /** Puts the new keypair into its slot; what falls out of a slot leaves the table. */
    method Rotate(peer: Peer, keypair: Keypair)
      modifies peer`previous, peer`current, peer`next, indexTable
      ensures Slots(0, peer.previous, peer.current, peer.next) ==
              Rotated(old(peer.View()), keypair, keypair.isInitiator)
      ensures var v := old(peer.View()); var t := old(indexTable.table);
              indexTable.table == if keypair.isInitiator
                                  then Without(if v.next != null then Without(t, v.current) else t, v.previous)
                                  else Without(Without(t, v.next), v.previous)
    {
      var previous, next, current := peer.previous, peer.next, peer.current;
      if keypair.isInitiator {
        if next != null {
          peer.next := null;
          peer.previous := next;
          DeleteKeypair(current);
        } else {
          peer.previous := current;
        }
        DeleteKeypair(previous);
        peer.current := keypair;
      } else {
        peer.next := keypair;
        DeleteKeypair(next);
        peer.previous := null;
        DeleteKeypair(previous);
      }
    }

    /** Turns a finished handshake into a keypair; the handshake's index becomes the
        keypair's. The initiator sends with the first derived key, the responder
        with the second. */
    method BeginSymmetricSession(peer: Peer) returns (keypair: Keypair?)
      requires Valid() && peer in all
      modifies peer, indexTable
      ensures Valid()
      ensures keypair == null <==> old(peer.state) !in {ResponseConsumed, ResponseCreated}
      ensures keypair == null ==> unchanged(peer) && unchanged(indexTable)
      ensures keypair != null ==>
                && fresh(keypair) && keypair.isInitiator == (old(peer.state) == ResponseConsumed)
                && var (a, b) := TransportKeys(crypto, old(peer.sym));
                && keypair.sendKey == (if keypair.isInitiator then a else b)
                && keypair.receiveKey == (if keypair.isInitiator then b else a)
                && keypair.localIndex == old(peer.localIndex) && keypair.remoteIndex == old(peer.remoteIndex)
                && keypair.sendNonce == 0 && peer.state == Zeroed && peer.localIndex == 0
                && peer.View() == Rotated(old(peer.View()), keypair, keypair.isInitiator)
                && peer.pss == old(peer.pss) && peer.psk == old(peer.psk)
      ensures keypair != null && keypair.isInitiator ==>
                && peer.current == keypair && peer.next == null
                && peer.previous == if old(peer.next) != null then old(peer.next) else old(peer.current)
      ensures keypair != null && !keypair.isInitiator ==>
                peer.next == keypair && peer.current == old(peer.current) && peer.previous == null
    {
      if peer.state != ResponseConsumed && peer.state != ResponseCreated { return null; }
      assert PeerOk(peer);
      keypair := Derive(peer);
      Install(peer, keypair);
      StepKeeps(peer);
    }

    /** The new keypair; the handshake's secrets are wiped. */
    method Derive(peer: Peer) returns (keypair: Keypair)
      requires peer.state in {ResponseConsumed, ResponseCreated}
      modifies peer`sym, peer`localEphemeral, peer`state
      ensures fresh(keypair) && keypair.isInitiator == (old(peer.state) == ResponseConsumed)
      ensures var (a, b) := TransportKeys(crypto, old(peer.sym));
              && keypair.sendKey == (if keypair.isInitiator then a else b)
              && keypair.receiveKey == (if keypair.isInitiator then b else a)
      ensures keypair.localIndex == peer.localIndex && keypair.remoteIndex == peer.remoteIndex
      ensures keypair.sendNonce == 0 && peer.state == Zeroed
    {
      var isInitiator := peer.state == ResponseConsumed;
      var keys := TransportKeys(crypto, peer.sym);
      var sendKey, recvKey := if isInitiator then keys.0 else keys.1, if isInitiator then keys.1 else keys.0;
      peer.sym, peer.localEphemeral, peer.state := Sym(crypto.zero, crypto.zero), crypto.zero, Zeroed;
      keypair := new Keypair(peer.localIndex, peer.remoteIndex, sendKey, recvKey, isInitiator);
    }

    /** Remaps the handshake's index to the keypair and rotates the slots. */
    method Install(peer: Peer, keypair: Keypair)
      requires PeerTable(peer.View(), indexTable.table, peer) && peer.localIndex != 0
      requires keypair.localIndex == peer.localIndex && !peer.View().Holds(keypair)
      modifies peer`localIndex, peer`previous, peer`current, peer`next, indexTable
      ensures peer.View() == Rotated(old(peer.View()), keypair, keypair.isInitiator)
      ensures PeerTable(peer.View(), indexTable.table, peer)
              && SameElsewhere(old(indexTable.table), indexTable.table, peer)
    {
      RotateKeeps(peer.View(), indexTable.table, peer, keypair, keypair.isInitiator);
      indexTable.SwapIndexForKeypair(peer.localIndex, keypair);
      peer.localIndex := 0;
      Rotate(peer, keypair);
    }

    /** The first packet under the next keypair promotes it. */
    method ReceivedWithKeypair(peer: Peer, received: Keypair) returns (promoted: bool)
      requires Valid() && peer in all
      modifies peer, indexTable
      ensures Valid() && promoted == (old(peer.next) == received)
      ensures promoted ==>
                && peer.current == received && peer.previous == old(peer.current) && peer.next == null
                && peer.View() == Promoted(old(peer.View()))
                && indexTable.table == Without(old(indexTable.table), old(peer.previous))
      ensures !promoted ==> unchanged(peer) && unchanged(indexTable)
    {
      if peer.next != received { return false; }
      assert PeerOk(peer);
      PromoteKeeps(peer.View(), indexTable.table, peer);
      var old' := peer.previous;
      peer.previous := peer.current;
      DeleteKeypair(old');
      peer.current := peer.next;
      peer.next := null;
      StepKeeps(peer);
      return true;
    }

    /** Forgets every key and index of the peer. */
    method ZeroAndFlushAll(peer: Peer)
      requires Valid() && peer in all
      modifies peer, indexTable
      ensures Valid() && peer.View() == Slots(0, null, null, null) && peer.state == Zeroed
      ensures forall i :: i in indexTable.table <==> i in old(indexTable.table) && old(indexTable.table)[i].peer != peer
    {
      assert PeerOk(peer);
      ZeroIsFree();
      Flush(peer);
      StepKeeps(peer);
    }

    method Flush(peer: Peer)
      requires PeerTable(peer.View(), indexTable.table, peer) && 0 !in indexTable.table
      modifies peer`previous, peer`current, peer`next, peer`sym, peer`localEphemeral, peer`remoteEphemeral,
               peer`localIndex, peer`state
      modifies indexTable
      ensures peer.View() == Slots(0, null, null, null) && peer.state == Zeroed
      ensures PeerTable(peer.View(), indexTable.table, peer)
              && SameElsewhere(old(indexTable.table), indexTable.table, peer)
    {
      FlushKeeps(peer.View(), indexTable.table, peer);
      DeleteKeypair(peer.previous);
      DeleteKeypair(peer.current);
      DeleteKeypair(peer.next);
      peer.previous, peer.current, peer.next := null, null, null;
      indexTable.Delete(peer.localIndex);
      ClearHandshake(peer);
    }

    method ClearHandshake(peer: Peer)
      modifies peer`sym, peer`localEphemeral, peer`remoteEphemeral, peer`localIndex, peer`state
      ensures peer.localIndex == 0 && peer.state == Zeroed
    {
      peer.localEphemeral, peer.remoteEphemeral, peer.sym := crypto.zero, crypto.zero, Sym(crypto.zero, crypto.zero);
      peer.localIndex, peer.state := 0, Zeroed;
    }

    /** Drops the handshake and makes the live keypairs unusable for sending. */
    method ExpireCurrentKeypairs(peer: Peer)
      requires Valid() && peer in all
      modifies peer, indexTable, peer.current, peer.next
      ensures Valid() && peer.View() == old(peer.View()).(pending := 0) && peer.state == Zeroed
      ensures peer.current != null ==> peer.current.sendNonce == NonceCounter.REJECT_AFTER_MESSAGES
      ensures peer.next != null ==> peer.next.sendNonce == NonceCounter.REJECT_AFTER_MESSAGES
    {
      assert PeerOk(peer);
      ZeroIsFree();
      GiveUp(peer.View(), indexTable.table, peer);
      indexTable.Delete(peer.localIndex);
      ClearHandshake(peer);
      if peer.current != null { peer.current.sendNonce := NonceCounter.REJECT_AFTER_MESSAGES; }
      if peer.next != null { peer.next.sendNonce := NonceCounter.REJECT_AFTER_MESSAGES; }
      StepKeeps(peer);
    }

    /** Packets of the peer are processed from now on. */
    method Start(peer: Peer)
      requires Valid() && peer in all
      modifies peer`running
      ensures Valid() && peer.running
    {
      assert PeerOk(peer);
      peer.running := true;
      StepKeeps(peer);
    }

    /** A running peer stops and forgets everything it holds. */
    method Stop(peer: Peer)
      requires Valid() && peer in all
      modifies peer, indexTable
      ensures Valid() && !peer.running
      ensures old(peer.running) ==> peer.View() == Slots(0, null, null, null) && peer.state == Zeroed
      ensures !old(peer.running) ==> unchanged(peer) && unchanged(indexTable)
    {
      if !peer.running { return; }
      assert PeerOk(peer);
      ZeroIsFree();
      peer.running := false;
      Flush(peer);
      StepKeeps(peer);
    }

    /** RemovePeer: the peer is stopped and its key forgotten. */
    method RemovePeer(pk: Bytes)
      requires Valid()
      modifies this`keyMap, all, indexTable
      ensures Valid() && keyMap == old(keyMap) - {pk}
      ensures forall p :: p in all ==> p.View() == old(p.View()) || p.View() == Slots(0, null, null, null)
      ensures Sending() <= old(Sending()) + {null}
    {
      if pk !in keyMap { return; }
      assert Keyed(pk);
      Stop(keyMap[pk]);
      Forget(pk);
    }

    method Forget(pk: Bytes)
      requires Valid()
      modifies this`keyMap
      ensures Valid() && keyMap == old(keyMap) - {pk}
    {
      keyMap := keyMap - {pk};
      forall k | k in keyMap ensures Keyed(k) { assert old(Keyed(k)); }
      forall p | p in all ensures PeerOk(p) { assert old(PeerOk(p)); }
    }

    /** Every known peer's static secret is computed anew. */
    method Precompute()
      requires Indexed() && publicKey == Pub(crypto, privateKey)
      requires forall k :: k in keyMap ==> keyMap[k] in all && keyMap[k].remoteStatic == k
      modifies all
      ensures Valid() && Sending() == old(Sending()) && forall p :: p in all ==> p.View() == old(p.View())
    {
      var todo := keyMap.Keys;
      while todo != {}
        invariant todo <= keyMap.Keys && Indexed()
        invariant forall p :: p in all ==> p.View() == old(p.View())
        invariant forall k :: k in keyMap && k !in todo ==> keyMap[k].pss == Dh(crypto, privateKey, k)
        decreases |todo|
      {
        var k := AnyOf(todo);
        Secret(keyMap[k], k);
        todo := todo - {k};
      }
    }

    method Secret(peer: Peer, k: Bytes)
      requires Indexed() && peer in all
      modifies peer`pss
      ensures Indexed() && peer.pss == Dh(crypto, privateKey, k) && peer.View() == old(peer.View())
    {
      peer.pss := Dh(crypto, privateKey, k);
      forall p | p in all ensures PeerOk(p) { assert old(PeerOk(p)); }
    }

    /** Keypairs that a peer of this device holds for sending. */
    ghost function Sending(): set<Keypair?>
      reads this`all, all
    {
      (set p | p in all :: p.current) + (set p | p in all :: p.next)
    }

    /** All keypairs that peers of this device hold. */
    ghost function Keypairs(): set<Keypair>
      reads this`all, all
    {
      set p, k | p in all && k in p.View().Pairs() :: k
    }

    twostate lemma KeypairsShrink()
      requires all == old(all) && forall p :: p in all ==> p.View().Within(old(p.View()))
      ensures Keypairs() <= old(Keypairs())
    {
      forall k | k in Keypairs() ensures k in old(Keypairs()) {
        var p :| p in all && k in p.View().Pairs();
        assert k in old(p.View()).Pairs();
      }
    }

    twostate lemma KeypairsGrow(peer: Peer)
      requires all == old(all) && peer in all && fresh(peer.View().Pairs() - old(peer.View().Pairs()))
      requires forall p :: p in all && p != peer ==> p.View() == old(p.View())
      ensures fresh(Keypairs() - old(Keypairs()))
    {
      forall k | k in Keypairs() && k !in old(Keypairs()) ensures fresh(k) {
        var p :| p in all && k in p.View().Pairs();
        assert k !in old(p.View().Pairs());
      }
    }

    lemma SendingIsHeld()
      ensures forall k: Keypair? :: k in Sending() && k != null ==> k in Keypairs()
    {
      forall k: Keypair? | k in Sending() && k != null ensures k in Keypairs() {
        var p :| p in all && (k == p.current || k == p.next);
        assert p.View().Holds(k) && k in p.View().Pairs();
      }
    }

    /** Every known peer gives up its handshake and its keypairs stop sending. */
    method ExpireAll()
      requires Valid()
      modifies all, indexTable, Sending()
      ensures Valid() && forall p :: p in all ==> p.View() == old(p.View()).(pending := p.localIndex)
      ensures forall k :: k in keyMap ==> keyMap[k].localIndex == 0 && keyMap[k].state == Zeroed
    {
      var todo := keyMap.Keys;
      while todo != {}
        invariant todo <= keyMap.Keys && Valid()
        invariant forall p :: p in all ==> SameSlots(p)
        invariant forall k :: k in keyMap && k !in todo ==> Rested(keyMap[k])
        decreases |todo|
      {
        var k := AnyOf(todo);
        assert Keyed(k) && SameSlots(keyMap[k]);
        ExpireCurrentKeypairs(keyMap[k]);
        todo := todo - {k};
      }
      forall k | k in keyMap ensures keyMap[k].localIndex == 0 && keyMap[k].state == Zeroed {
        assert Rested(keyMap[k]);
      }
      forall p | p in all ensures p.View() == old(p.View()).(pending := p.localIndex) { assert SameSlots(p); }
    }

    /** The keypairs of p are where they were. */
    twostate predicate SameSlots(p: Peer)
      reads p
    {
      p.View() == old(p.View()).(pending := p.localIndex)
    }

    ghost predicate Rested(p: Peer)
      reads p
    {
      p.localIndex == 0 && p.state == Zeroed
    }

    /** SetPrivateKey: a peer with the device's own new key is removed, and all others
        start over under the new static secrets. */
    method SetPrivateKey(sk: Bytes)
      requires Valid()
      modifies this`privateKey, this`publicKey, this`keyMap, all, indexTable, Sending()
      ensures Valid() && privateKey == sk
      ensures keyMap == if sk == old(privateKey) then old(keyMap) else old(keyMap) - {Pub(crypto, sk)}
      ensures forall p :: p in all ==> p.View().Within(old(p.View()))
      ensures sk != old(privateKey) ==>
                forall k :: k in keyMap ==> keyMap[k].localIndex == 0 && keyMap[k].state == Zeroed
    {
      if sk == privateKey { return; }
      RemovePeer(Pub(crypto, sk));
      Rekey(sk);
      ExpireAll();
    }

    /** The new key and the secrets it gives. */
    method Rekey(sk: Bytes)
      requires Valid()
      modifies this`privateKey, this`publicKey, all
      ensures Valid() && privateKey == sk
      ensures Sending() == old(Sending()) && forall p :: p in all ==> p.View() == old(p.View())
    {
      forall k | k in keyMap ensures keyMap[k] in all && keyMap[k].remoteStatic == k { assert Keyed(k); }
      privateKey, publicKey := sk, Pub(crypto, sk);
      Precompute();
    }
  }

  // ----- runs

  /** One step of one device, with the randomness and outside events it sees; peers
      are named by their keys. */
  datatype Step =
    | Add(pk: Bytes)
    | Drop(pk: Bytes)
    | SetKey(sk: Bytes)
    | CreateInitiation(who: Bytes, ephemeral: Bytes, now: Bytes, draws: seq<nat>, leftover: nat)
    | ConsumeInitiation(first: Initiation, flood: bool)
    | CreateResponse(who: Bytes, ephemeral: Bytes, draws: seq<nat>, leftover: nat)
    | ConsumeResponse(second: Response)
    | Begin(who: Bytes)
    | Received(who: Bytes, slot: Slot)
    | Flush(who: Bytes)
    | Expire(who: Bytes)
    | Start(who: Bytes)
    | Stop(who: Bytes)

  /** A step of one known peer. */
  predicate Single(s: Step)
  {
    !s.Add? && !s.Drop? && !s.SetKey? && !s.ConsumeInitiation? && !s.ConsumeResponse?
  }

  /** The step makes no draw, or one that ends in a usable index, or one that fails
      and leaves nothing behind. */
  predicate Lucky(d: Device, s: Step)
    reads d, d.indexTable, d.keyMap.Values
  {
    (s.CreateInitiation? || s.CreateResponse?) && s.who in d.keyMap ==>
      var p := d.keyMap[s.who];
      var f := FirstFree(d.indexTable.table - {p.localIndex}, s.draws);
      || (f.Some? && f.value != 0)
      || (if s.CreateInitiation?
          then
            || (f.None? && p.localIndex == 0)
            || Dh(d.crypto, s.ephemeral, p.remoteStatic) == d.crypto.zero || p.pss == d.crypto.zero
          else (f.None? && s.leftover == 0) || p.state != InitiationConsumed)
  }

  /** A step of a known peer. */
  method PerformOn(d: Device, s: Step, p: Peer)
    requires d.Valid() && Single(s) && p in d.all && s.who in d.keyMap && d.keyMap[s.who] == p
    modifies p, d.indexTable, p.current, p.next
    ensures d.Valid() <==> old(Lucky(d, s))
    ensures fresh(p.View().Pairs() - old(p.View().Pairs()))
  {
    match s {
      case CreateInitiation(_, e, now, draws, leftover) =>
        var _ := d.CreateMessageInitiation(p, e, now, draws, leftover);
      case CreateResponse(_, e, draws, leftover) => var _ := d.CreateMessageResponse(p, e, draws, leftover);
      case Begin(_) => var _ := d.BeginSymmetricSession(p);
      case Received(_, slot) =>
        var k := match slot case PreviousSlot => p.previous case CurrentSlot => p.current case _ => p.next;
        if k != null { var _ := d.ReceivedWithKeypair(p, k); }
      case Flush(_) => d.ZeroAndFlushAll(p);
      case Expire(_) => d.ExpireCurrentKeypairs(p);
      case Start(_) => d.Start(p);
      case Stop(_) => d.Stop(p);
    }
  }

  /** The private key and the keys of the peers after a step. */
  ghost function NextKeys(c: Crypto, sk: Bytes, keys: set<Bytes>, s: Step): (Bytes, set<Bytes>)
  {
    match s
    case Add(pk) => (sk, if |keys| < MAX_PEERS then keys + {pk} else keys)
    case Drop(pk) => (sk, keys - {pk})
    case SetKey(sk') => (sk', if sk' == sk then keys else keys - {Pub(c, sk')})
    case _ => (sk, keys)
  }

  ghost function KeysAfter(c: Crypto, sk: Bytes, steps: seq<Step>): (Bytes, set<Bytes>)
  {
    if steps == [] then (sk, {})
    else
      var prev := KeysAfter(c, sk, steps[..|steps|-1]);
      NextKeys(c, prev.0, prev.1, steps[|steps|-1])
  }

  /** Every step keeps the index table consistent if and only if its draw is usable;
      a step of an unknown peer does nothing. */
  method Perform(d: Device, s: Step)
    requires d.Valid()
    modifies d, d.all, d.indexTable, d.Keypairs()
    ensures d.Valid() <==> old(Lucky(d, s))
    ensures old(d.all) <= d.all && fresh(d.all - old(d.all))
    ensures (d.privateKey, d.keyMap.Keys) == NextKeys(d.crypto, old(d.privateKey), old(d.keyMap.Keys), s)
    ensures fresh(d.Keypairs() - old(d.Keypairs()))
  {
    if s.Add? || s.Drop? || s.SetKey? {
      Configure(d, s);
    } else if s.ConsumeInitiation? {
      var _ := d.ConsumeMessageInitiation(s.first, s.flood);
      d.KeypairsShrink();
    } else if s.ConsumeResponse? {
      var _ := d.ConsumeMessageResponse(s.second);
      d.KeypairsShrink();
    } else if s.who in d.keyMap {
      assert d.Keyed(s.who);
      d.SendingIsHeld();
      PerformOn(d, s, d.keyMap[s.who]);
      d.KeypairsGrow(d.keyMap[s.who]);
    }
  }

  /** A step that changes the peers or the private key. */
  method Configure(d: Device, s: Step)
    requires d.Valid() && (s.Add? || s.Drop? || s.SetKey?)
    modifies d, d.all, d.indexTable, d.Keypairs()
    ensures d.Valid() && old(d.all) <= d.all && fresh(d.all - old(d.all))
    ensures (d.privateKey, d.keyMap.Keys) == NextKeys(d.crypto, old(d.privateKey), old(d.keyMap.Keys), s)
    ensures d.Keypairs() <= old(d.Keypairs())
  {
    if s.Add? {
      assert |d.keyMap| == |d.keyMap.Keys|;
      ghost var keys := d.keyMap.Keys;
      var peer := d.NewPeer(s.pk);
      assert d.keyMap.Keys == if peer == null then keys else keys + {s.pk};
      assert peer == null ==> |keys| >= MAX_PEERS || keys + {s.pk} == keys;
    } else if s.Drop? {
      d.RemovePeer(s.pk);
      d.KeypairsShrink();
    } else {
      d.SendingIsHeld();
      d.SetPrivateKey(s.sk);
      d.KeypairsShrink();
    }
  }

  /** Everything the device may change is among mine. */
  ghost predicate Owns(d: Device, mine: set<object>)
    reads d, d.all
  {
    d in mine && d.indexTable in mine && d.all <= mine && d.Keypairs() <= mine
  }

  /** A step of a device, if its draw is usable, with what is its own afterwards. */
  method PerformLucky(d: Device, s: Step, ghost mine: set<object>) returns (lucky: bool, ghost mine': set<object>)
    requires d.Valid() && Owns(d, mine)
    modifies mine
    ensures d.Valid() && Owns(d, mine') && fresh(mine' - mine)
    ensures lucky ==>
              (d.privateKey, d.keyMap.Keys) == NextKeys(d.crypto, old(d.privateKey), old(d.keyMap.Keys), s)
    ensures !lucky ==> !Lucky(d, s) && (d.privateKey, d.keyMap) == old((d.privateKey, d.keyMap))
  {
    lucky, mine' := Lucky(d, s), mine;
    if lucky {
      Perform(d, s);
      mine' := mine + d.all + d.Keypairs();
    }
  }

  lemma KeysStep(c: Crypto, sk: Bytes, steps: seq<Step>, n: nat)
    requires n < |steps|
    ensures var prev := KeysAfter(c, sk, steps[..n]);
            KeysAfter(c, sk, steps[..n+1]) == NextKeys(c, prev.0, prev.1, steps[n])
  {
    assert steps[..n+1][..n] == steps[..n];
  }

  /** Every sequence of steps from a new device, up to the first whose draw is not
      usable: each reachable state is consistent, no peer has more than four entries
      and no index is held twice. */
  method RunDevice(crypto: Crypto, privateKey: Bytes, steps: seq<Step>) returns (d: Device, n: nat)
    ensures n <= |steps| && (n < |steps| ==> !Lucky(d, steps[n]))
    ensures d.Valid() && d.Orderly()
    ensures (d.privateKey, d.keyMap.Keys) == KeysAfter(crypto, privateKey, steps[..n])
  {
    d := new Device(crypto, privateKey);
    n := 0;
    ghost var mine: set<object> := {d, d.indexTable};
    assert steps[..0] == [] && d.keyMap.Keys == {};
    while n < |steps|
      invariant n <= |steps| && d.Valid() && d.crypto == crypto
      invariant Owns(d, mine) && fresh(mine)
      invariant (d.privateKey, d.keyMap.Keys) == KeysAfter(crypto, privateKey, steps[..n])
    {
      var lucky;
      lucky, mine := PerformLucky(d, steps[n], mine);
      if !lucky { break; }
      KeysStep(crypto, privateKey, steps, n);
      n := n + 1;
    }
    d.ValidIsOrderly();
  }

  // ----- two devices

  /** Everything an honest exchange needs: the devices know each other, share the
      preshared key, no secret is degenerate, the timestamp is new, and both sides
      draw usable indices. */
  ghost predicate Honest(i: Device, r: Device, pi: Peer, pr: Peer, e: Bytes, f: Bytes, now: Bytes, di: seq<nat>,
      dr: seq<nat>)
    reads i, r, i.indexTable, r.indexTable, i.all, r.all, pi, pr
  {
    && i.Valid() && r.Valid() && i.crypto == r.crypto && Lawful(i.crypto)
    && i != r && i.indexTable != r.indexTable && i.all !! r.all
    && r.publicKey in i.keyMap && i.keyMap[r.publicKey] == pi && i.publicKey in r.keyMap && r.keyMap[i.publicKey] == pr
    && pi in i.all && pr in r.all && pi.psk == pr.psk && pr.running && After(i.crypto, now, pr.lastTimestamp)
    && i.GoodDraw(pi, di) && r.GoodDraw(pr, dr)
    && var c := i.crypto;
    && Dh(c, e, r.publicKey) != c.zero && Dh(c, i.privateKey, r.publicKey) != c.zero
    && Dh(c, f, Pub(c, e)) != c.zero && Dh(c, f, i.publicKey) != c.zero
  }

  /** What is left to hold once the initiation was accepted. */
  ghost predicate Greeted(i: Device, r: Device, pi: Peer, pr: Peer, e: Bytes, f: Bytes, dr: seq<nat>)
    reads i, r, i.indexTable, r.indexTable, i.all, r.all, pi, pr
  {
    && i.Valid() && r.Valid() && i.crypto == r.crypto && Lawful(i.crypto)
    && i.indexTable != r.indexTable && i.all !! r.all && pi in i.all && pr in r.all
    && pr.remoteStatic == i.publicKey && pi.psk == pr.psk && r.GoodDraw(pr, dr)
    && pi.state == InitiationCreated && pi.localEphemeral == e && pr.state == InitiationConsumed
    && pi.sym == pr.sym && pr.remoteEphemeral == Pub(i.crypto, e) && pr.remoteIndex == pi.localIndex
    && var c := i.crypto; Dh(c, f, Pub(c, e)) != c.zero && Dh(c, f, i.publicKey) != c.zero
  }

  /** The keypairs of p are where they were. */
  twostate predicate SlotsKept(p: Peer)
    reads p
  {
    p.previous == old(p.previous) && p.current == old(p.current) && p.next == old(p.next) && p.psk == old(p.psk)
  }

  /** The initiation is one the responder will accept. */
  method Greet(i: Device, r: Device, pi: Peer, pr: Peer, e: Bytes, f: Bytes, now: Bytes, di: seq<nat>, dr: seq<nat>)
    returns (m: Initiation)
    requires Honest(i, r, pi, pr, e, f, now, di, dr)
    modifies pi, i.indexTable
    ensures i.Valid() && r.Valid() && r.Accepts(m, false, pr) && SlotsKept(pi)
    ensures pi.state == InitiationCreated && pi.localEphemeral == e && pi.localIndex == m.sender
    ensures m.ephemeral == Pub(i.crypto, e) && pr.remoteStatic == i.publicKey
    ensures Initiates(i.crypto, Inputs(i.privateKey, r.privateKey, e, f, pi.psk, now), m, pi.sym)
    ensures pi.sym == ResponderSym(r.crypto, r.privateKey, pr.pss, m)
  {
    assert i.Keyed(r.publicKey) && r.Keyed(i.publicKey);
    var msg := i.CreateMessageInitiation(pi, e, now, di, 0);
    m := msg.value;
    InitiationAgrees(i.crypto, i.privateKey, r.privateKey, e, now, m);
    InitiationFollows(i.crypto, Inputs(i.privateKey, r.privateKey, e, f, pi.psk, now), m);
  }

  method ExchangeInitiation(i: Device, r: Device, pi: Peer, pr: Peer, e: Bytes, f: Bytes, now: Bytes, di: seq<nat>,
      dr: seq<nat>)
    returns (m: Initiation)
    requires Honest(i, r, pi, pr, e, f, now, di, dr)
    modifies i.all, r.all, i.indexTable
    ensures Greeted(i, r, pi, pr, e, f, dr) && SlotsKept(pi) && SlotsKept(pr)
    ensures Initiates(i.crypto, Inputs(i.privateKey, r.privateKey, e, f, pi.psk, now), m, pi.sym)
  {
    m := Greet(i, r, pi, pr, e, f, now, di, dr);
    var p := r.ConsumeMessageInitiation(m, false);
  }

  /** m is the response to a greeting in state s, and leaves state t. */
  ghost predicate Answers(c: Crypto, s: Sym, initiator: Bytes, e: Bytes, f: Bytes, psk: Bytes, m: Response, t: Sym)
  {
    var ee, se := Dh(c, f, Pub(c, e)), Dh(c, f, initiator);
    var u := ResponseSym(c, s, m.ephemeral, ee, se, psk);
    && m.ephemeral == Pub(c, f) && t == MixHash(c, u, m.empty)
    && m.empty == Seal(c, ResponseKey(c, s, m.ephemeral, ee, se, psk), [], u.hash)
  }

  /** The responder's answer is one the initiator will accept. */
  method Answer(i: Device, r: Device, pi: Peer, pr: Peer, e: Bytes, f: Bytes, dr: seq<nat>) returns (m: Response)
    requires Greeted(i, r, pi, pr, e, f, dr)
    modifies pr, r.indexTable
    ensures r.Valid() && i.Valid() && pr.state == ResponseCreated && i.Completes(m, pi)
    ensures m.sender == pr.localIndex && pr.remoteIndex == pi.localIndex && SlotsKept(pr)
    ensures Answers(i.crypto, pi.sym, i.publicKey, e, f, pi.psk, m, pr.sym)
    ensures var c := i.crypto; var ee, se := Dh(c, pi.localEphemeral, m.ephemeral), Dh(c, i.privateKey, m.ephemeral);
            pr.sym == MixHash(c, ResponseSym(c, pi.sym, m.ephemeral, ee, se, pi.psk), m.empty)
  {
    var msg := r.CreateMessageResponse(pr, f, dr, 0);
    m := msg.value;
    ResponseAgrees(i.crypto, pi.sym, i.privateKey, e, f, pi.psk);
    var c := i.crypto;
    assert Dh(c, e, Pub(c, f)) == Dh(c, f, Pub(c, e))
           && Dh(c, i.privateKey, Pub(c, f)) == Dh(c, f, Pub(c, i.privateKey));
    assert i.PeerOk(pi);
  }

  method ExchangeResponse(i: Device, r: Device, pi: Peer, pr: Peer, e: Bytes, f: Bytes, dr: seq<nat>)
    returns (m: Response)
    requires Greeted(i, r, pi, pr, e, f, dr)
    modifies i.all, r.all, r.indexTable
    ensures Answers(i.crypto, old(pi.sym), i.publicKey, e, f, pi.psk, m, pi.sym) && SlotsKept(pi) && SlotsKept(pr)
    ensures i.Valid() && r.Valid() && pi.state == ResponseConsumed && pr.state == ResponseCreated && pi.sym == pr.sym
    ensures pi.remoteIndex == pr.localIndex && pr.remoteIndex == pi.localIndex
  {
    m := Answer(i, r, pi, pr, e, f, dr);
    var p := i.ConsumeMessageResponse(m);
    assert p == pi;
  }

  /** Both messages: accepted, and the state is that of the transcript. */
  method Exchange(i: Device, r: Device, pi: Peer, pr: Peer, e: Bytes, f: Bytes, now: Bytes, di: seq<nat>, dr: seq<nat>)
    returns (m: Initiation, n: Response)
    requires Honest(i, r, pi, pr, e, f, now, di, dr)
    modifies i.all, r.all, i.indexTable, r.indexTable
    ensures Finished(i, r, pi, pr) && SlotsKept(pi) && SlotsKept(pr)
    ensures Follows(i.crypto, Inputs(i.privateKey, r.privateKey, e, f, pi.psk, now), m, n, pi.sym)
  {
    m := ExchangeInitiation(i, r, pi, pr, e, f, now, di, dr);
    ghost var first := pi.sym;
    n := ExchangeResponse(i, r, pi, pr, e, f, dr);
    ResponseFollows(i.crypto, Inputs(i.privateKey, r.privateKey, e, f, pi.psk, now), m, first, n);
  }

  /** Both sides have finished the same handshake. */
  ghost predicate Finished(i: Device, r: Device, pi: Peer, pr: Peer)
    reads i, r, i.indexTable, r.indexTable, i.all, r.all, pi, pr
  {
    && i.Valid() && r.Valid() && i.crypto == r.crypto && i.indexTable != r.indexTable && i.all !! r.all
    && pi in i.all && pr in r.all && pi.state == ResponseConsumed && pr.state == ResponseCreated && pi.sym == pr.sym
    && pi.remoteIndex == pr.localIndex && pr.remoteIndex == pi.localIndex
  }

  /** Each side turns the finished handshake into a keypair. */
  method Sessions(i: Device, r: Device, pi: Peer, pr: Peer) returns (ki: Keypair?, kr: Keypair?)
    requires Finished(i, r, pi, pr)
    modifies pi, pr, i.indexTable, r.indexTable
    ensures i.Valid() && r.Valid() && ki != null && kr != null && ki.isInitiator && !kr.isInitiator
    ensures (ki.sendKey, ki.receiveKey) == i.crypto.kdf2(old(pi.sym).chain, [])
    ensures ki.sendKey == kr.receiveKey && ki.receiveKey == kr.sendKey
    ensures ki.remoteIndex == kr.localIndex && kr.remoteIndex == ki.localIndex
    ensures pi.current == ki && pr.next == kr && pr.current == old(pr.current)
    ensures pi.previous == if old(pi.next) != null then old(pi.next) else old(pi.current)
  {
    ki := i.BeginSymmetricSession(pi);
    kr := r.BeginSymmetricSession(pr);
  }

  /** An honest run of the protocol: every message is accepted, both sides hold
      the same hash and chaining key, made of the inputs and fields of the transcript,
      and each side's sending key is the other's receiving key. */
  method HonestRun(i: Device, r: Device, pi: Peer, pr: Peer, e: Bytes, f: Bytes, now: Bytes, di: seq<nat>, dr: seq<nat>)
    returns (ki: Keypair?, kr: Keypair?, symI: Sym, symR: Sym, m: Initiation, n: Response)
    requires Honest(i, r, pi, pr, e, f, now, di, dr)
    modifies i.all, r.all, i.indexTable, r.indexTable
    ensures i.Valid() && r.Valid() && symI == symR
    ensures Follows(i.crypto, Inputs(i.privateKey, r.privateKey, e, f, old(pi.psk), now), m, n, symI)
    ensures ki != null && kr != null && ki.isInitiator && !kr.isInitiator
    ensures (ki.sendKey, ki.receiveKey) == i.crypto.kdf2(symI.chain, [])
    ensures (kr.receiveKey, kr.sendKey) == r.crypto.kdf2(symR.chain, [])
    ensures ki.sendKey == kr.receiveKey && ki.receiveKey == kr.sendKey
    ensures ki.remoteIndex == kr.localIndex && kr.remoteIndex == ki.localIndex
    ensures pi.current == ki && pr.next == kr && pr.current == old(pr.current)
    ensures pi.previous == if old(pi.next) != null then old(pi.next) else old(pi.current)
  {
    m, n := Exchange(i, r, pi, pr, e, f, now, di, dr);
    symI, symR := pi.sym, pr.sym;
    ki, kr := Sessions(i, r, pi, pr);
  }

  /** After an honest run and the first packet of the initiator, each side sends with
      its current keypair what the other's current keypair receives. */
  method HonestSession(i: Device, r: Device, pi: Peer, pr: Peer, e: Bytes, f: Bytes, now: Bytes, di: seq<nat>,
                       dr: seq<nat>)
    requires Honest(i, r, pi, pr, e, f, now, di, dr)
    modifies i.all, r.all, i.indexTable, r.indexTable
    ensures i.Valid() && r.Valid() && pi.current != null && pr.current != null && pr.next == null
    ensures pi.current.sendKey == pr.current.receiveKey && pi.current.receiveKey == pr.current.sendKey
    ensures pi.current.remoteIndex == pr.current.localIndex && pr.current.remoteIndex == pi.current.localIndex
    ensures pr.previous == old(pr.current)
    ensures pi.previous == if old(pi.next) != null then old(pi.next) else old(pi.current)
  {
    var m, n := Exchange(i, r, pi, pr, e, f, now, di, dr);
    var ki, kr := Sessions(i, r, pi, pr);
    FirstPacket(i, r, pi, pr, kr);
  }

  /** The responder's next keypair is promoted; the initiator is not touched. */
  method FirstPacket(i: Device, r: Device, pi: Peer, pr: Peer, kr: Keypair)
    requires i.Valid() && r.Valid() && i.indexTable != r.indexTable && i.all !! r.all && pi in i.all && pr in r.all
    requires pr.next == kr
    modifies pr, r.indexTable
    ensures i.Valid() && r.Valid() && pr.current == kr && pr.next == null && pr.previous == old(pr.current)
  {
    var promoted := r.ReceivedWithKeypair(pr, kr);
  }

  // ----- replays

  /** Where no timestamp comes after itself, an initiation that was accepted is refused
      when it comes again. */
  method ReplayIsRefused(d: Device, m: Initiation, flood: bool) returns (first: Peer?, again: Peer?)
    requires d.Valid() && forall t :: !d.crypto.after(t, t)
    modifies d.all
    ensures d.Valid() && (first != null ==> again == null)
  {
    first := d.ConsumeMessageInitiation(m, flood);
    again := d.ConsumeMessageInitiation(m, flood);
  }

  /** A response is taken once. */
  method SecondResponseIsRefused(d: Device, m: Response) returns (first: Peer?, again: Peer?)
    requires d.Valid()
    modifies d.all
    ensures d.Valid() && (first != null ==> again == null)
  {
    first := d.ConsumeMessageResponse(m);
    again := d.ConsumeMessageResponse(m);
  }

  // ----- a draw of zero

  /** A new device, one peer and an initiation whose draw is zero. */
  method AZeroDraw(c: Crypto, sk: Bytes, pk: Bytes, e: Bytes, now: Bytes) returns (d: Device)
    requires Dh(c, e, pk) != c.zero && Dh(c, sk, pk) != c.zero
    ensures !d.Valid()
  {
    d := new Device(c, sk);
    var p := d.NewPeer(pk);
    assert d.Keyed(pk);
    var m := d.CreateMessageInitiation(p, e, now, [0], 0);
  }

  /** The same in the answer to an honest initiation. */
  method AZeroAnswer(i: Device, r: Device, pi: Peer, pr: Peer, e: Bytes, f: Bytes, now: Bytes, di: seq<nat>,
                     dr: seq<nat>)
    requires Honest(i, r, pi, pr, e, f, now, di, dr)
    modifies i.all, r.all, i.indexTable, r.indexTable
    ensures i.Valid() && !r.Valid()
  {
    var _ := ExchangeInitiation(i, r, pi, pr, e, f, now, di, dr);
    r.ZeroIsFree();
    assert FirstFree(r.indexTable.table - {pr.localIndex}, [0]) == Some(0);
    var m := r.CreateMessageResponse(pr, f, [0], 0);
  }
}
