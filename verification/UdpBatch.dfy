/** UDP batches: datagrams to one peer are coalesced into fewer messages before they
    are sent, and coalesced messages are split in place after they are received. */
module UdpBatch {
  import opened Common
  import Checksum
  import Division

  type Byte = Checksum.Byte
  type Datagram = seq<Byte>

  const MAX_IPV4_PAYLOAD: int := 65507
  const MAX_IPV6_PAYLOAD: int := 65527
  const MAX_DATAGRAMS := 64

  // ----- segmentation of one message

  /** Pieces of size g, the last one the rest. */
  function Chunks(data: seq<Byte>, g: nat): (r: seq<Datagram>)
    requires g > 0
    ensures |r| > 0
    decreases |data|
  {
    if |data| <= g then [data] else [data[..g]] + Chunks(data[g..], g)
  }

  function Join(ds: seq<Datagram>): (b: seq<Byte>) { if |ds| == 0 then [] else ds[0] + Join(ds[1..]) }

  /** All but the last have size g, the last is no larger; none is empty. */
  predicate Sizes(ds: seq<Datagram>, g: nat)
  {
    && |ds| > 0 && (forall k :: 0 <= k < |ds| - 1 ==> |ds[k]| == g) && 0 < |ds[|ds|-1]| <= g
  }

  lemma {:induction false} ChunksOfJoin(ds: seq<Datagram>, g: nat)
    requires g > 0 && Sizes(ds, g)
    ensures Chunks(Join(ds), g) == ds
  {
    if |ds| == 1 {
      assert Join(ds[1..]) == [] && Join(ds) == ds[0];
      assert ds == [ds[0]];
    } else {
      var rest := ds[1..];
      assert Sizes(rest, g);
      ChunksOfJoin(rest, g);
      JoinNonEmpty(rest, g);
      assert Join(ds)[..g] == ds[0] && Join(ds)[g..] == Join(rest);
      assert ds == [ds[0]] + rest;
    }
  }

  lemma {:induction false} JoinNonEmpty(ds: seq<Datagram>, g: nat)
    requires g > 0 && Sizes(ds, g)
    ensures |Join(ds)| > 0
  {
    if |ds| > 1 {
      assert ds[0] == ds[..|ds|-1][0];
    } else {
      assert Join(ds[1..]) == [];
    }
  }

  lemma {:induction false} JoinSnoc(ds: seq<Datagram>, d: Datagram)
    ensures Join(ds + [d]) == Join(ds) + d
  {
    if |ds| == 0 {
      assert Join((ds + [d])[1..]) == [];
    } else {
      assert (ds + [d])[1..] == ds[1..] + [d];
      JoinSnoc(ds[1..], d);
    }
  }

  // ----- sending

  /** A message: its bytes, its buffer's capacity, and the segment size recorded
      for it, zero if none. */
  datatype Message = Message(data: seq<Byte>, cap: nat, gso: nat)

  function Datagrams(m: Message): (ds: seq<Datagram>) { if m.gso > 0 then Chunks(m.data, m.gso) else [m.data] }

  function Flat(gs: seq<seq<Datagram>>): (ds: seq<Datagram>)
  {
    if |gs| == 0 then [] else Flat(gs[..|gs|-1]) + gs[|gs|-1]
  }

  lemma FlatSnoc(gs: seq<seq<Datagram>>, g: seq<Datagram>)
    ensures Flat(gs + [g]) == Flat(gs) + g
  {
    assert (gs + [g])[..|gs|] == gs;
  }

  /** Message m carries the datagrams ds; marked: its segment size is recorded. */
  predicate Carries(m: Message, ds: seq<Datagram>, max: int, marked: bool)
  {
    && 0 < |ds| <= MAX_DATAGRAMS && m.data == Join(ds) && Sizes(ds, |ds[0]|) && |m.data| <= m.cap
    && m.gso == (if |ds| > 1 && marked then |ds[0]| else 0)
    && (|ds| > 1 ==> |m.data| <= max)
  }

  lemma CarriesDatagrams(m: Message, ds: seq<Datagram>, max: int)
    requires Carries(m, ds, max, true)
    ensures Datagrams(m) == ds && (|ds| > 1 ==> m.gso <= |m.data|)
  {
    if |ds| > 1 {
      ChunksOfJoin(ds, |ds[0]|);
    } else {
      assert Join(ds[1..]) == [] && ds == [ds[0]];
      assert m.data == ds[0];
    }
  }

  predicate CarriesAll(msgs: seq<Message>, gs: seq<seq<Datagram>>, max: int)
  {
    |msgs| == |gs| && forall k :: 0 <= k < |msgs| ==> Carries(msgs[k], gs[k], max, true)
  }

  /** A datagram put behind others of its message. */
  lemma Joined(m: Message, ds: seq<Datagram>, buf: Datagram, max: int)
    requires Carries(m, ds, max, false) && |ds| < MAX_DATAGRAMS && 0 < |buf| <= |ds[0]| && |ds[|ds|-1]| == |ds[0]|
    requires |m.data| + |buf| <= max && |m.data| + |buf| <= m.cap
    ensures Carries(m.(data := m.data + buf), ds + [buf], max, false)
  {
    JoinSnoc(ds, buf);
  }

  /** A message is closed by recording its segment size, if it has several datagrams. */
  lemma Closed(msgs: seq<Message>, gs: seq<seq<Datagram>>, m: Message, ds: seq<Datagram>, max: int)
    requires CarriesAll(msgs, gs, max) && Carries(m, ds, max, true)
    ensures CarriesAll(msgs + [m], gs + [ds], max) && Flat(gs + [ds]) == Flat(gs) + ds
  {
    FlatSnoc(gs, ds);
  }

  method StartMessage(buf: Datagram, cap: nat, ghost max: int) returns (m: Message, ghost ds: seq<Datagram>)
    requires 0 < |buf| <= cap
    ensures m == Message(buf, cap, 0) && ds == [buf] && Carries(m, ds, max, false)
  {
    m, ds := Message(buf, cap, 0), [buf];
    assert ds[1..] == [];
  }

  /** What the receivers of the messages get in the end. */
  function Unpacked(msgs: seq<Message>): (ds: seq<Datagram>)
  {
    if |msgs| == 0 then [] else Unpacked(msgs[..|msgs|-1]) + Datagrams(msgs[|msgs|-1])
  }

  /** At most 64 datagrams, several only within the payload limit, all within the buffer. */
  predicate Sendable(m: Message, max: int)
  {
    && |Datagrams(m)| <= MAX_DATAGRAMS && (|Datagrams(m)| > 1 ==> |m.data| <= max) && |m.data| <= m.cap
    && m.gso < 0x10000
  }

  lemma {:induction false} UnpackedIsFlat(msgs: seq<Message>, gs: seq<seq<Datagram>>, max: int)
    requires CarriesAll(msgs, gs, max)
    ensures Unpacked(msgs) == Flat(gs)
  {
    if |msgs| > 0 {
      var n := |msgs| - 1;
      UnpackedIsFlat(msgs[..n], gs[..n], max);
      CarriesDatagrams(msgs[n], gs[n], max);
    }
  }

  /** With the UDP header, and the IPv4 header where it counts, it fills a 16-bit length. */
  function MaxPayload(v6: bool): (n: int)
    ensures n + 8 + (if v6 then 0 else 20) == 0xffff
  {
    if v6 then MAX_IPV6_PAYLOAD else MAX_IPV4_PAYLOAD
  }

  /** A datagram may still join a message of datagrams ds: within the payload limit and
      the buffer, no larger than the first, and behind fewer than 64 of full size. */
  predicate MayJoin(m: Message, ds: seq<Datagram>, buf: Datagram, max: int)
    requires |ds| > 0
  {
    && |m.data| + |buf| <= max && |m.data| + |buf| <= m.cap && |buf| <= |ds[0]|
    && |ds| < MAX_DATAGRAMS && |ds[|ds|-1]| == |ds[0]|
  }

  /** Message k is in its first datagram's buffer, and the datagram that starts the next
      message, if there is one, could not join it. */
  ghost predicate Packed(msgs: seq<Message>, gs: seq<seq<Datagram>>, caps: seq<nat>, max: int, k: nat)
  {
    && k < |msgs| == |gs| && |Flat(gs[..k])| < |caps| && msgs[k].cap == caps[|Flat(gs[..k])|]
    && (k + 1 < |gs| ==> |gs[k]| > 0 && |gs[k+1]| > 0 && !MayJoin(msgs[k], gs[k], gs[k+1][0], max))
  }

  ghost predicate AllPacked(msgs: seq<Message>, gs: seq<seq<Datagram>>, caps: seq<nat>, max: int)
  {
    forall k: nat {:trigger Packed(msgs, gs, caps, max, k)} :: k < |msgs| ==> Packed(msgs, gs, caps, max, k)
  }

  lemma PackedStep(msgs: seq<Message>, gs: seq<seq<Datagram>>, caps: seq<nat>, max: int, m: Message, ds: seq<Datagram>)
    requires |msgs| == |gs| && AllPacked(msgs, gs, caps, max) && |Flat(gs)| < |caps| && m.cap == caps[|Flat(gs)|]
    requires |ds| > 0
    requires |gs| > 0 ==> |gs[|gs|-1]| > 0 && !MayJoin(msgs[|msgs|-1], gs[|gs|-1], ds[0], max)
    ensures AllPacked(msgs + [m], gs + [ds], caps, max)
  {
    var msgs', gs' := msgs + [m], gs + [ds];
    forall k: nat | k < |msgs'| ensures Packed(msgs', gs', caps, max, k) {
      if k < |msgs| {
        assert Packed(msgs, gs, caps, max, k) && gs'[..k] == gs[..k];
      } else {
        assert gs'[..k] == gs;
      }
    }
  }

  /** Message k is in the buffer of its first datagram, and the first datagram of the
      next one could not join it. */
  ghost predicate Greedy(msgs: seq<Message>, caps: seq<nat>, max: int, k: nat)
    requires k < |msgs|
  {
    && |Unpacked(msgs[..k])| < |caps| && msgs[k].cap == caps[|Unpacked(msgs[..k])|] && |Datagrams(msgs[k])| > 0
    && (k + 1 < |msgs| ==>
          |Datagrams(msgs[k+1])| > 0 && !MayJoin(msgs[k], Datagrams(msgs[k]), Datagrams(msgs[k+1])[0], max))
  }

  lemma PackedIsGreedy(msgs: seq<Message>, gs: seq<seq<Datagram>>, caps: seq<nat>, max: int, k: nat)
    requires CarriesAll(msgs, gs, max) && AllPacked(msgs, gs, caps, max) && k < |msgs|
    ensures Greedy(msgs, caps, max, k)
  {
    assert Packed(msgs, gs, caps, max, k);
    CarriesDatagrams(msgs[k], gs[k], max);
    if k + 1 < |msgs| { CarriesDatagrams(msgs[k+1], gs[k+1], max); }
    UnpackedIsFlat(msgs[..k], gs[..k], max);
  }

  /** The closed messages and the one being filled with ds. */
  ghost predicate Filling(msgs: seq<Message>, gs: seq<seq<Datagram>>, cur: Message, ds: seq<Datagram>, caps: seq<nat>,
                          max: int, marked: bool)
  {
    && CarriesAll(msgs, gs, max) && AllPacked(msgs, gs, caps, max) && Carries(cur, ds, max, marked)
    && |Flat(gs)| < |caps| && cur.cap == caps[|Flat(gs)|]
    && (|gs| > 0 ==> |gs[|gs|-1]| > 0 && !MayJoin(msgs[|msgs|-1], gs[|gs|-1], ds[0], max))
  }

  /** A datagram joins the message; its size is recorded behind the last one. */
  lemma JoinMessage(msgs: seq<Message>, gs: seq<seq<Datagram>>, cur: Message, ds: seq<Datagram>, caps: seq<nat>,
                    max: int, buf: Datagram, last: bool)
    requires Filling(msgs, gs, cur, ds, caps, max, false) && MayJoin(cur, ds, buf, max) && 0 < |buf|
    ensures Filling(msgs, gs, cur.(data := cur.data + buf, gso := if last then |ds[0]| else 0), ds + [buf], caps, max,
                    last)
  {
    Joined(cur, ds, buf, max);
  }

  /** A message is closed. */
  lemma CloseMessage(msgs: seq<Message>, gs: seq<seq<Datagram>>, cur: Message, ds: seq<Datagram>, caps: seq<nat>,
                     max: int)
    requires Filling(msgs, gs, cur, ds, caps, max, true)
    ensures CarriesAll(msgs + [cur], gs + [ds], max) && AllPacked(msgs + [cur], gs + [ds], caps, max)
    ensures Flat(gs + [ds]) == Flat(gs) + ds
  {
    Closed(msgs, gs, cur, ds, max);
    PackedStep(msgs, gs, caps, max, cur, ds);
  }

  /** And the next one started, with a datagram that could not join it. */
  method NextMessage(msgs: seq<Message>, ghost gs: seq<seq<Datagram>>, cur: Message, ghost ds: seq<Datagram>,
                     ghost caps: seq<nat>, ghost max: int, buf: Datagram, cap: nat)
    returns (msgs': seq<Message>, ghost gs': seq<seq<Datagram>>, cur': Message, ghost ds': seq<Datagram>)
    requires Filling(msgs, gs, cur, ds, caps, max, true) && !MayJoin(cur, ds, buf, max) && 0 < |buf| <= cap
    requires |Flat(gs)| + |ds| < |caps| && cap == caps[|Flat(gs)| + |ds|]
    ensures msgs' == msgs + [cur] && cur' == Message(buf, cap, 0) && ds' == [buf] && Flat(gs') == Flat(gs) + ds
    ensures Filling(msgs', gs', cur', ds', caps, max, false)
  {
    CloseMessage(msgs, gs, cur, ds, caps, max);
    msgs', gs' := msgs + [cur], gs + [ds];
    cur', ds' := StartMessage(buf, cap, max);
  }

  /** What the code keeps of the message being filled: the size of its first datagram,
      their number, and whether a shorter one has ended it. */
  predicate Counted(ds: seq<Datagram>, gsoSize: nat, count: nat, endBatch: bool)
  {
    |ds| > 0 && gsoSize == |ds[0]| && count == |ds| && (endBatch <==> |ds[|ds|-1]| < gsoSize)
  }

  /** One datagram is placed: it joins the message being filled, or starts the next. */
  method Place(msgs: seq<Message>, ghost gs: seq<seq<Datagram>>, cur: Message, ghost ds: seq<Datagram>,
               ghost caps: seq<nat>, max: int, gsoSize: nat, count: nat, endBatch: bool, buf: Datagram, cap: nat,
               last: bool)
    returns (msgs': seq<Message>, ghost gs': seq<seq<Datagram>>, cur': Message, ghost ds': seq<Datagram>,
             gsoSize': nat, count': nat, endBatch': bool)
    requires Filling(msgs, gs, cur, ds, caps, max, false) && Counted(ds, gsoSize, count, endBatch)
    requires 0 < |buf| <= cap && |Flat(gs)| + |ds| < |caps| && cap == caps[|Flat(gs)| + |ds|]
    ensures Filling(msgs', gs', cur', ds', caps, max, last) && Counted(ds', gsoSize', count', endBatch')
    ensures Flat(gs') + ds' == Flat(gs) + ds + [buf]
  {
    msgs', gs', cur', ds', gsoSize', count', endBatch' := msgs, gs, cur, ds, gsoSize, count, endBatch;
    if |buf| + |cur.data| <= max && |buf| <= gsoSize && |buf| <= cur.cap - |cur.data| && count < MAX_DATAGRAMS
       && !endBatch {
      JoinMessage(msgs, gs, cur, ds, caps, max, buf, last);
      cur', ds' := cur.(data := cur.data + buf), ds + [buf];
      if last { cur' := cur'.(gso := gsoSize); }
      count' := count + 1;
      if |buf| < gsoSize { endBatch' := true; }
    } else {
      if count > 1 { cur' := cur.(gso := gsoSize); }
      msgs', gs', cur', ds' := NextMessage(msgs, gs, cur', ds, caps, max, buf, cap);
      endBatch', gsoSize', count' := false, |buf|, 1;
    }
  }

  lemma AllSendable(msgs: seq<Message>, gs: seq<seq<Datagram>>, caps: seq<nat>, max: int)
    requires CarriesAll(msgs, gs, max) && AllPacked(msgs, gs, caps, max) && max < 0x10000
    ensures Unpacked(msgs) == Flat(gs) && forall k :: 0 <= k < |msgs| ==> Sendable(msgs[k], max)
    ensures forall k: nat :: k < |msgs| ==> Greedy(msgs, caps, max, k)
  {
    UnpackedIsFlat(msgs, gs, max);
    forall k | 0 <= k < |msgs| ensures Sendable(msgs[k], max) { CarriesDatagrams(msgs[k], gs[k], max); }
    forall k: nat | k < |msgs| ensures Greedy(msgs, caps, max, k) { PackedIsGreedy(msgs, gs, caps, max, k); }
  }

  /** Datagrams are coalesced in order; splitting every message by its recorded
      size gives them back. Each message is in the buffer of its first datagram, and a
      new one is started only for a datagram that could not join the last. */
  method CoalesceMessages(bufs: seq<Datagram>, caps: seq<nat>, v6: bool) returns (msgs: seq<Message>)
    requires |caps| == |bufs| && forall i :: 0 <= i < |bufs| ==> 0 < |bufs[i]| <= caps[i]
    ensures Unpacked(msgs) == bufs
    ensures forall k :: 0 <= k < |msgs| ==> Sendable(msgs[k], MaxPayload(v6))
    ensures forall k: nat :: k < |msgs| ==> Greedy(msgs, caps, MaxPayload(v6), k)
  {
    var max := MaxPayload(v6);
    msgs := [];
    ghost var gs: seq<seq<Datagram>> := [];
    if |bufs| == 0 { return; }
    var cur: Message;
    ghost var ds: seq<Datagram>;
    cur, ds := StartMessage(bufs[0], caps[0], max);
    var gsoSize: nat, count: nat, endBatch := |bufs[0]|, 1, false;
    assert bufs[..1] == [] + ds;
    var i := 1;
    while i < |bufs|
      invariant 1 <= i <= |bufs| && Flat(gs) + ds == bufs[..i]
      invariant Filling(msgs, gs, cur, ds, caps, max, i == |bufs|) && Counted(ds, gsoSize, count, endBatch)
    {
      assert bufs[..i+1] == bufs[..i] + [bufs[i]];
      assert |Flat(gs)| + |ds| == i;
      msgs, gs, cur, ds, gsoSize, count, endBatch :=
        Place(msgs, gs, cur, ds, caps, max, gsoSize, count, endBatch, bufs[i], caps[i], i == |bufs| - 1);
      i := i + 1;
    }
    assert bufs[..i] == bufs;
    CloseMessage(msgs, gs, cur, ds, caps, max);
    msgs, gs := msgs + [cur], gs + [ds];
    AllSendable(msgs, gs, caps, max);
  }

  // ----- receiving

  /** A received message: its whole buffer, the n bytes received, the segment size
      reported (None if the control data cannot be read) and the sender. */
  datatype Received = Received(buf: seq<Byte>, n: nat, gso: Option<nat>, addr: int)

  datatype Delivered = Delivered(data: Datagram, addr: int)

  predicate Sane(m: Received, room: nat)
  {
    |m.buf| == room && m.n <= room && (m.gso.Some? ==> m.gso.value <= room)
  }

  /** The pieces the code cuts: the first is not clamped to the bytes received. */
  function Pieces(m: Received): (ds: seq<Datagram>)
    requires m.gso.Some? && m.n <= |m.buf| && m.gso.value <= |m.buf|
    ensures |ds| > 0
  {
    if m.gso.value == 0 then [m.buf[..m.n]]
    else if m.n <= m.gso.value then [m.buf[..m.gso.value]]
    else Chunks(m.buf[..m.n], m.gso.value)
  }

  /** They are the datagrams received just when the reported size is no more than
      what was received. */
  lemma PiecesAreDatagrams(m: Received)
    requires m.gso.Some? && m.n <= |m.buf| && m.gso.value <= |m.buf|
    ensures Pieces(m) == Datagrams(Message(m.buf[..m.n], |m.buf|, m.gso.value)) <==>
            m.gso.value <= m.n || m.gso.value == 0
  {
    if m.gso.value > m.n {
      assert |Pieces(m)[0]| == m.gso.value && |Datagrams(Message(m.buf[..m.n], |m.buf|, m.gso.value))[0]| == m.n;
    }
  }

  /** One byte received with a reported size of two: the piece has a byte too many. */
  lemma APieceTooLong() returns (m: Received)
    ensures m.gso.Some? && m.n <= |m.buf| && m.gso.value <= |m.buf|
    ensures Pieces(m) != Datagrams(Message(m.buf[..m.n], |m.buf|, m.gso.value))
  {
    m := Received([0, 0], 1, Some(2), 0);
    PiecesAreDatagrams(m);
  }

  function Tagged(ds: seq<Datagram>, addr: int): (r: seq<Delivered>)
    ensures |r| == |ds| && forall k :: 0 <= k < |ds| ==> r[k] == Delivered(ds[k], addr)
  {
    seq(|ds|, k requires 0 <= k < |ds| => Delivered(ds[k], addr))
  }

  predicate Readable(m: Received, room: nat) { Sane(m, room) && m.n > 0 && m.gso.Some? }

  /** What messages first to last (exclusive) amount to. */
  function Expected(msgs: seq<Received>, first: nat, last: nat, room: nat): (r: seq<Delivered>)
    requires first <= last <= |msgs| && forall k :: first <= k < last ==> Readable(msgs[k], room)
    decreases last - first
  {
    if first == last then []
    else
      var m := msgs[last-1];
      assert Readable(m, room);
      Expected(msgs, first, last - 1, room) + Tagged(Pieces(m), m.addr)
  }

  lemma {:induction false} ChunkCount(data: seq<Byte>, g: nat)
    requires g > 0 && |data| > 0
    ensures |Chunks(data, g)| == (|data| + g - 1) / g
    decreases |data|
  {
    if |data| > g {
      ChunkCount(data[g..], g);
      DivStep(|data| - 1, g);
    } else {
      DivOnce(|data| - 1, g);
    }
  }

  lemma DivStep(x: nat, g: nat)
    requires g > 0
    ensures (x + g) / g == x / g + 1
  {
    var q, r := x / g, x % g;
    assert x + g == g * (q + 1) + r;
    Division.DivMod(x + g, g, q + 1, r);
  }

  lemma DivOnce(x: nat, g: nat)
    requires x < g
    ensures (x + g) / g == 1
  {
    Division.DivMod(x + g, g, 1, x);
  }

  // ----- splitting in place

  datatype Failure = NoFailure | Overflow | BadControl

  function Shown(m: Received): (d: Delivered)
    requires m.n <= |m.buf|
  {
    Delivered(m.buf[..m.n], m.addr)
  }

  /** The first messages are out, in order. */
  predicate Out(msgs: seq<Received>, ds: seq<Delivered>)
  {
    |ds| <= |msgs| && forall k :: 0 <= k < |ds| ==> msgs[k].n <= |msgs[k].buf| && Shown(msgs[k]) == ds[k]
  }

  predicate AllSane(msgs: seq<Received>, room: nat) { forall k :: 0 <= k < |msgs| ==> Sane(msgs[k], room) }

  /** Copy one piece to message n. */
  method Deliver(msgs: array<Received>, n: nat, piece: Datagram, addr: int, room: nat, ghost done: seq<Delivered>)
    requires n < msgs.Length && |piece| <= room && AllSane(msgs[..], room) && Out(msgs[..], done) && |done| == n
    modifies msgs
    ensures AllSane(msgs[..], room) && Out(msgs[..], done + [Delivered(piece, addr)])
    ensures msgs[..] == old(msgs[..])[n := msgs[n]]
  {
    var m := msgs[n];
    msgs[n] := m.(buf := piece + m.buf[|piece|..], n := |piece|, addr := addr);
    assert msgs[n].buf[..|piece|] == piece;
  }

  /** Nothing from message n on is touched. */
  ghost predicate SameFrom(was: seq<Received>, now: seq<Received>, n: nat)
  {
    |now| == |was| && forall k :: n <= k < |was| ==> now[k] == was[k]
  }

  /** The pieces of message i go out one by one. On overflow the message being read
      is the only unread one that may have been written over. */
  method SplitOne(msgs: array<Received>, i: nat, n0: nat, room: nat, ghost done: seq<Delivered>)
    returns (n: nat, overflow: bool, ghost sent: nat)
    requires i < msgs.Length && n0 <= i && AllSane(msgs[..], room) && Readable(msgs[i], room)
    requires Out(msgs[..], done) && |done| == n0
    modifies msgs
    ensures AllSane(msgs[..], room) && sent <= |Pieces(old(msgs[i]))| && n == n0 + sent <= i + 1
    ensures Out(msgs[..], done + Tagged(Pieces(old(msgs[i])), old(msgs[i]).addr)[..sent])
    ensures overflow <==> n0 + |Pieces(old(msgs[i]))| > i + 1
    ensures overflow ==> n == i + 1
    ensures !overflow ==> sent == |Pieces(old(msgs[i]))|
    ensures SameFrom(old(msgs[..]), msgs[..], n)
  {
    var m := msgs[i];
    ghost var ps := Pieces(m);
    ghost var tagged := Tagged(ps, m.addr);
    var g, start := m.gso.value, 0;
    var count, end := FirstPiece(m, room);
    n, sent := n0, 0;
    var j := 0;
    while j < count
      invariant 0 <= j <= count == |ps| && sent == j && n == n0 + j <= i + 1
      invariant PutOut(old(msgs[..]), msgs[..], room, done, tagged, j)
      invariant j < count ==> start <= end <= room && ps[j..] == Rest(m, start, end)
    {
      if n > i { return n, true, j; }
      assert msgs[..][i] == old(msgs[..])[i] == m;
      RestStep(m, ps, j, start, end);
      var piece := msgs[i].buf[start..end];
      ghost var before := msgs[..];
      Deliver(msgs, n, piece, m.addr, room, done + tagged[..j]);
      PutOutStep(old(msgs[..]), before, msgs[..], room, done, tagged, j);
      start := end;
      end := if end + g > m.n then m.n else end + g;
      n, j, sent := n + 1, j + 1, sent + 1;
    }
    overflow := false;
    assert tagged[..j] == tagged;
  }

  /** The number of pieces, and the end of the first one. */
  method FirstPiece(m: Received, room: nat) returns (count: nat, end: nat)
    requires Readable(m, room)
    ensures count == |Pieces(m)| && end <= room && Pieces(m)[0..] == Rest(m, 0, end)
  {
    var g := m.gso.value;
    count, end := 1, m.n;
    if g > 0 {
      count, end := (m.n + g - 1) / g, g;
      if m.n > g { ChunkCount(m.buf[..m.n], g); } else { DivOnce(m.n - 1, g); }
    }
    RestIsAll(m, end);
  }

  /** The first j of the tagged pieces are out behind those done, and the rest is untouched. */
  ghost predicate PutOut(was: seq<Received>, now: seq<Received>, room: nat, done: seq<Delivered>,
                         tagged: seq<Delivered>, j: nat)
    requires j <= |tagged|
  {
    AllSane(now, room) && Out(now, done + tagged[..j]) && SameFrom(was, now, |done| + j)
  }

  lemma PutOutStep(was: seq<Received>, now: seq<Received>, now': seq<Received>, room: nat, done: seq<Delivered>,
                   tagged: seq<Delivered>, j: nat)
    requires j < |tagged| && |done| + j < |now| && PutOut(was, now, room, done, tagged, j)
    requires |now'| == |now| && now' == now[|done| + j := now'[|done| + j]]
    requires AllSane(now', room) && Out(now', done + tagged[..j] + [tagged[j]])
    ensures PutOut(was, now', room, done, tagged, j + 1)
  {
    assert done + tagged[..j] + [tagged[j]] == done + tagged[..j+1];
  }

  lemma RestIsAll(m: Received, end: nat)
    requires m.gso.Some? && m.n <= |m.buf| && m.gso.value <= |m.buf|
    requires end == if m.gso.value > 0 then m.gso.value else m.n
    ensures Pieces(m)[0..] == Rest(m, 0, end)
  {
    var g := m.gso.value;
    if 0 < g < m.n {
      assert m.buf[..m.n][..g] == m.buf[0..g] && m.buf[..m.n][g..] == m.buf[g..m.n];
    }
  }

  /** The next piece, and what is left after it. */
  lemma RestStep(m: Received, ps: seq<Datagram>, j: nat, start: nat, end: nat)
    requires m.gso.Some? && m.n <= |m.buf| && j < |ps| && start <= end <= |m.buf| && ps[j..] == Rest(m, start, end)
    ensures ps[j] == m.buf[start..end]
    ensures var end' := if end + m.gso.value > m.n then m.n else end + m.gso.value;
            j + 1 < |ps| ==> end <= end' <= |m.buf| && ps[j+1..] == Rest(m, end, end')
  {
    assert ps[j..][0] == ps[j] && ps[j..][1..] == ps[j+1..];
    var g := m.gso.value;
    if end < m.n && g > 0 {
      var rest := m.buf[end..m.n];
      if |rest| > g {
        assert rest[..g] == m.buf[end..end+g] && rest[g..] == m.buf[end+g..m.n];
      }
    }
  }

  function Rest(m: Received, start: nat, end: nat): (ds: seq<Datagram>)
    requires start <= end <= |m.buf| && m.gso.Some? && m.n <= |m.buf|
  {
    if end >= m.n || m.gso.value == 0 then [m.buf[start..end]]
    else [m.buf[start..end]] + Chunks(m.buf[end..m.n], m.gso.value)
  }

  /** Messages before i are read and nothing from i on is touched. */
  ghost predicate Consumed(was: seq<Received>, now: seq<Received>, first: nat, i: nat, room: nat, n: nat)
  {
    && |now| == |was| && first <= i <= |was| && n <= i && AllSane(now, room)
    && (forall k :: first <= k < i ==> Readable(was[k], room))
    && (forall k :: i <= k < |was| ==> now[k] == was[k])
    && n == |Expected(was, first, i, room)| && Out(now, Expected(was, first, i, room))
  }

  ghost predicate AllReadable(was: seq<Received>, first: nat, stop: nat, room: nat)
  {
    first <= stop <= |was| && forall k :: first <= k < stop ==> Readable(was[k], room)
  }

  /** The pieces never outrun the messages read. */
  ghost predicate Fitting(was: seq<Received>, first: nat, stop: nat, room: nat)
    requires AllReadable(was, first, stop, room)
  {
    forall i {:trigger Expected(was, first, i, room)} :: first <= i <= stop ==> |Expected(was, first, i, room)| <= i
  }

  /** Overflow at message stop: its pieces outrun it; what fits is out. */
  ghost predicate Overflowed(was: seq<Received>, now: seq<Received>, first: nat, stop: nat, room: nat, n: nat)
  {
    && AllReadable(was, first, stop + 1, room) && n == stop + 1 < |Expected(was, first, stop + 1, room)|
    && Out(now, Expected(was, first, stop + 1, room)[..n])
  }

  lemma StillUnread(was: seq<Received>, before: seq<Received>, now: seq<Received>, i: nat, n: nat)
    requires |before| == |was| && SameFrom(before, now, n) && n <= i + 1
    requires forall k :: i <= k < |was| ==> before[k] == was[k]
    ensures Unread(was, now, i)
  {
  }

  lemma ExpectedStep(was: seq<Received>, first: nat, i: nat, room: nat)
    requires AllReadable(was, first, i, room) && i < |was| && Readable(was[i], room)
    ensures AllReadable(was, first, i + 1, room)
    ensures Expected(was, first, i + 1, room) == Expected(was, first, i, room) + Tagged(Pieces(was[i]), was[i].addr)
  {
  }

  lemma ReadTooMany(was: seq<Received>, now: seq<Received>, first: nat, i: nat, room: nat, n: nat, sent: nat)
    requires AllReadable(was, first, i, room) && AllReadable(was, first, i + 1, room) && Readable(was[i], room)
    requires var done, next := Expected(was, first, i, room), Tagged(Pieces(was[i]), was[i].addr);
             && Expected(was, first, i + 1, room) == done + next && sent <= |next| && |done| + |next| > i + 1
             && n == |done| + sent == i + 1 && Out(now, done + next[..sent])
    ensures Overflowed(was, now, first, i, room, n)
  {
    var done, next := Expected(was, first, i, room), Tagged(Pieces(was[i]), was[i].addr);
    assert (done + next)[..n] == done + next[..sent];
  }

  lemma ReadAll(was: seq<Received>, now: seq<Received>, first: nat, i: nat, room: nat, n: nat)
    requires AllReadable(was, first, i + 1, room) && n == |Expected(was, first, i + 1, room)| <= i + 1
    requires AllSane(now, room) && Unread(was, now, i) && Out(now, Expected(was, first, i + 1, room))
    ensures Consumed(was, now, first, i + 1, room, n)
  {
  }

  /** A message read and not written to is marked empty. */
  method Dropped(msgs: array<Received>, i: nat, room: nat, ghost done: seq<Delivered>)
    requires i < msgs.Length && |done| <= i && AllSane(msgs[..], room) && Out(msgs[..], done)
    modifies msgs
    ensures msgs[..] == old(msgs[..])[i := old(msgs[i]).(n := 0)]
    ensures AllSane(msgs[..], room) && Out(msgs[..], done)
    ensures forall was :: Unread(was, old(msgs[..]), i) ==> Unread(was, msgs[..], i)
  {
    msgs[i] := msgs[i].(n := 0);
  }

  /** One message read. */
  method ReadMessage(msgs: array<Received>, first: nat, i: nat, n0: nat, room: nat, ghost was: seq<Received>)
    returns (n: nat, overflow: bool)
    requires Consumed(was, msgs[..], first, i, room, n0) && i < msgs.Length && Readable(was[i], room)
    modifies msgs
    ensures overflow <==> |Expected(was, first, i + 1, room)| > i + 1
    ensures !overflow ==> Consumed(was, msgs[..], first, i + 1, room, n)
    ensures overflow ==> Overflowed(was, msgs[..], first, i, room, n)
    ensures Unread(was, msgs[..], i)
  {
    ghost var sent;
    ghost var done, next := Expected(was, first, i, room), Tagged(Pieces(was[i]), was[i].addr);
    ghost var before := msgs[..];
    assert msgs[i] == before[i] == was[i];
    n, overflow, sent := SplitOne(msgs, i, n0, room, done);
    StillUnread(was, before, msgs[..], i, n);
    ExpectedStep(was, first, i, room);
    if overflow {
      ReadTooMany(was, msgs[..], first, i, room, n, sent);
    } else {
      assert next[..sent] == next;
      if i != n - 1 { Dropped(msgs, i, room, done + next); }
      ReadAll(was, msgs[..], first, i, room, n);
    }
  }

  /** Everything before message i is read and out. */
  ghost predicate Reading(was: seq<Received>, now: seq<Received>, first: nat, i: nat, room: nat, n: nat)
  {
    Consumed(was, now, first, i, room, n) && AllReadable(was, first, i, room) && Fitting(was, first, i, room)
  }

  lemma NextUntouched(was: seq<Received>, now: seq<Received>, first: nat, i: nat, room: nat, n: nat)
    requires Reading(was, now, first, i, room, n) && i < |now|
    ensures now[i] == was[i] && Sane(was[i], room) && Unread(was, now, i)
  {
  }

  lemma FittingStep(was: seq<Received>, now: seq<Received>, first: nat, i: nat, room: nat, n: nat)
    requires AllReadable(was, first, i, room) && Fitting(was, first, i, room)
    requires Consumed(was, now, first, i + 1, room, n)
    ensures Reading(was, now, first, i + 1, room, n)
  {
  }

  lemma NothingRead(was: seq<Received>, first: nat, room: nat)
    requires first <= |was| && AllSane(was, room)
    ensures Reading(was, was, first, first, room, 0)
  {
  }

  /** Nothing behind message i is touched. */
  ghost predicate Unread(was: seq<Received>, now: seq<Received>, i: nat)
  {
    |now| == |was| && forall k :: i < k < |was| ==> now[k] == was[k]
  }

  /** splitCoalescedMessages: stop is the message at which reading ended. Without a
      failure all pieces are out in order; overflow is reported exactly when the
      pieces outrun the messages read, and no message behind is ever written over. */
  method SplitCoalescedMessages(msgs: array<Received>, first: nat, room: nat)
    returns (n: nat, failure: Failure, ghost stop: nat)
    requires first <= msgs.Length && AllSane(msgs[..], room)
    modifies msgs
    ensures AllReadable(old(msgs[..]), first, stop, room) && Fitting(old(msgs[..]), first, stop, room)
    ensures failure != Overflow ==> Consumed(old(msgs[..]), msgs[..], first, stop, room, n)
    ensures failure == Overflow ==> Overflowed(old(msgs[..]), msgs[..], first, stop, room, n)
    ensures failure == NoFailure ==> stop == msgs.Length || old(msgs[..])[stop].n == 0
    ensures failure == BadControl ==> stop < msgs.Length && old(msgs[..])[stop].gso.None?
    ensures Unread(old(msgs[..]), msgs[..], stop)
  {
    ghost var was := msgs[..];
    n, stop := 0, first;
    NothingRead(was, first, room);
    var i := first;
    while i < msgs.Length
      invariant stop == i && Reading(was, msgs[..], first, i, room, n)
    {
      var m := msgs[i];
      NextUntouched(was, msgs[..], first, i, room, n);
      if m.n == 0 || m.gso.None? { return n, if m.n == 0 then NoFailure else BadControl, i; }
      var overflow;
      n, overflow := ReadMessage(msgs, first, i, n, room, was);
      if overflow { return n, Overflow, i; }
      FittingStep(was, msgs[..], first, i, room, n);
      i, stop := i + 1, i + 1;
    }
    failure := NoFailure;
  }
}
