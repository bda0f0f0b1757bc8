/** Receive offload: a batch of parsed packets is merged, flow by flow, into fewer
    and larger ones to be written to the device. */
module Gro {
  import opened Common
  import Checksum
  import Division
  import GsoSplit

  type Byte = Checksum.Byte

  const MAX_LEN: int := 65535
  const SEQ: int := 0x1_0000_0000

  /** A flow: transport, IP version, and addresses, ports and (for TCP) acknowledgement as one value. */
  datatype Key = Key(tcp: bool, v6: bool, flow: int)

  /** A packet as the offload code reads it. candidate: it may be merged at all;
      ipClass: the IP fields that must agree to merge; sumOk: its checksum is valid. */
  datatype Packet = Packet(candidate: bool, key: Key, sent: nat, psh: bool, ipClass: int, iphLen: nat,
                           thLen: nat, options: seq<Byte>, sumOk: bool, payload: seq<Byte>)

  /** A buffer holds a packet and has room behind its offset. */
  datatype Buf = Buf(pkt: Packet, cap: nat)

  datatype Item = Item(key: Key, sentSeq: nat, buf: nat, numMerged: nat, gsoSize: nat, iphLen: nat,
                       thLen: nat, pshSet: bool, sumKnownBad: bool)

  /** What the checks before merging leave of a candidate. */
  predicate WellFormed(p: Packet)
  {
    && p.sent < SEQ
    && (p.candidate ==>
          p.iphLen == (if p.key.v6 then 40 else 20) && (if p.key.tcp then 20 <= p.thLen <= 60 else p.thLen == 8))
    && (p.candidate ==> |p.payload| > 0 && p.iphLen + p.thLen + |p.payload| <= MAX_LEN)
  }

  function Length(p: Packet): (n: nat) { p.iphLen + p.thLen + |p.payload| }

  // ----- groups of packets

  function Join(ms: seq<Packet>): (b: seq<Byte>)
  {
    if |ms| == 0 then [] else Join(ms[..|ms|-1]) + ms[|ms|-1].payload
  }

  /** Sequence numbers follow on. */
  predicate Chain(ms: seq<Packet>)
  {
    forall k :: 0 < k < |ms| ==> ms[k].sent == (ms[k-1].sent + |ms[k-1].payload|) % SEQ
  }

  /** All but the last payload have size g, the last is no larger. */
  predicate Sizes(ms: seq<Packet>, g: nat)
  {
    && |ms| > 0 && 0 < |ms[|ms|-1].payload| <= g
    && forall k :: 0 <= k < |ms| - 1 ==> |ms[k].payload| == g
  }

  predicate PshLast(ms: seq<Packet>) { forall k :: 0 <= k < |ms| - 1 ==> !ms[k].psh }

  lemma {:induction false} JoinFront(p: Packet, ms: seq<Packet>)
    ensures Join([p] + ms) == p.payload + Join(ms)
  {
    var all := [p] + ms;
    if |ms| == 0 {
      assert all[..0] == [];
    } else {
      assert all[..|all|-1] == [p] + ms[..|ms|-1];
      JoinFront(p, ms[..|ms|-1]);
    }
  }

  lemma JoinBack(ms: seq<Packet>, p: Packet)
    ensures Join(ms + [p]) == Join(ms) + p.payload
  {
    assert (ms + [p])[..|ms|] == ms;
  }

  lemma {:induction false} JoinLength(ms: seq<Packet>, g: nat)
    requires Sizes(ms, g)
    ensures |Join(ms)| == g * (|ms| - 1) + |ms[|ms|-1].payload| && |ms| <= |Join(ms)|
  {
    var front := ms[..|ms|-1];
    if |ms| == 1 {
      assert Join(front) == [];
    } else {
      JoinLength(front, g);
      assert g * (|front| - 1) + g == g * |front|;
    }
  }

  /** A whole number of segments means that the last one is full. */
  lemma WholeMeansFull(ms: seq<Packet>, g: nat)
    requires Sizes(ms, g) && |Join(ms)| % g == 0
    ensures |ms[|ms|-1].payload| == g && |Join(ms)| == g * |ms|
  {
    JoinLength(ms, g);
    var l := |ms[|ms|-1].payload|;
    if l < g { Division.DivMod(|Join(ms)|, g, |ms| - 1, l); }
    assert g * (|ms| - 1) + g == g * |ms|;
  }

  lemma WrapOnce(x: nat, y: nat)
    ensures (x % SEQ + y) % SEQ == (x + y) % SEQ
  {
  }

  lemma {:induction false} ChainOffset(ms: seq<Packet>)
    requires Chain(ms) && |ms| > 0 && ms[0].sent < SEQ
    ensures (ms[|ms|-1].sent + |ms[|ms|-1].payload|) % SEQ == (ms[0].sent + |Join(ms)|) % SEQ
  {
    var front, last := ms[..|ms|-1], ms[|ms|-1];
    if |ms| == 1 {
      assert Join(front) == [];
    } else {
      ChainOffset(front);
      var x := ms[0].sent + |Join(front)|;
      assert last.sent == (front[|front|-1].sent + |front[|front|-1].payload|) % SEQ == x % SEQ;
      WrapOnce(x, |last.payload|);
    }
  }

  // ----- may it be merged, and on which side

  datatype Mode = Prepend | Unavailable | Append

  /** tcpPacketsCanCoalesce, with its 16-bit length arithmetic. */
  function TcpMode(p: Packet, item: Item, target: Packet): (m: Mode)
    requires item.gsoSize > 0
  {
    TcpModeAt(p, item, target, LeftLength(item))
  }

  /** left is the length of what the item has. */
  function TcpModeAt(p: Packet, item: Item, target: Packet, left: nat): (m: Mode)
    requires item.gsoSize > 0
  {
    var gsoSize := |p.payload| % 0x10000;
    if p.thLen != item.thLen then Unavailable
    else if p.thLen > 20 && p.options != target.options then Unavailable
    else if p.ipClass != target.ipClass then Unavailable
    else if p.sent == (item.sentSeq + left) % SEQ then
      if item.pshSet then Unavailable
      else if |target.payload| % item.gsoSize != 0 then Unavailable
      else if gsoSize > item.gsoSize then Unavailable
      else Append
    else if (p.sent + gsoSize) % SEQ == item.sentSeq then
      if p.psh then Unavailable
      else if gsoSize < item.gsoSize then Unavailable
      else if gsoSize > item.gsoSize && item.numMerged > 0 then Unavailable
      else Prepend
    else Unavailable
  }

  function LeftLength(item: Item): (n: nat)
  {
    (item.gsoSize + item.numMerged * item.gsoSize % 0x10000) % 0x10000
  }

  function UdpMode(p: Packet, item: Item, target: Packet): (m: Mode)
    requires item.gsoSize > 0
  {
    if p.ipClass != target.ipClass then Unavailable
    else if |target.payload| % item.gsoSize != 0 then Unavailable
    else if |p.payload| % 0x10000 > item.gsoSize then Unavailable
    else Append
  }

  // ----- what an item stands for

  predicate Member(m: Packet, item: Item, pkt: Packet)
  {
    && m.candidate && WellFormed(m) && m.key == item.key == pkt.key && m.iphLen == item.iphLen == pkt.iphLen
    && m.thLen == item.thLen == pkt.thLen && m.ipClass == pkt.ipClass
    && (m.thLen > 20 && item.key.tcp ==> m.options == pkt.options)
  }

  /** TCP: in sequence, with PSH on the last one at most; the header written out has
      the first one's sequence number, and PSH only if the last one has. */
  predicate InSequence(item: Item, ms: seq<Packet>, pkt: Packet)
    requires |ms| > 0
  {
    && Chain(ms) && PshLast(ms) && item.sentSeq == ms[0].sent == pkt.sent
    && item.pshSet == ms[|ms|-1].psh && (pkt.psh ==> ms[|ms|-1].psh)
  }

  /** The item's buffer holds pkt, made of the packets ms. */
  predicate Group(item: Item, ms: seq<Packet>, pkt: Packet)
  {
    && |ms| == item.numMerged + 1
    && (forall k :: 0 <= k < |ms| ==> Member(ms[k], item, pkt))
    && Sizes(ms, item.gsoSize)
    && pkt.payload == Join(ms) && pkt.iphLen + pkt.thLen + |pkt.payload| <= MAX_LEN
    && (item.key.tcp ==> InSequence(item, ms, pkt))
    && (|ms| == 1 ==> pkt == ms[0])
    && (|ms| > 1 ==> forall k :: 0 <= k < |ms| ==> ms[k].sumOk)
  }

  /** The 16-bit length of a group that still takes packets behind is its true length. */
  lemma LeftLengthIsTrue(item: Item, ms: seq<Packet>, pkt: Packet)
    requires Group(item, ms, pkt) && |pkt.payload| % item.gsoSize == 0
    ensures LeftLength(item) == |Join(ms)|
  {
    WholeMeansFull(ms, item.gsoSize);
    Fits16(item.gsoSize, item.numMerged, |Join(ms)|);
  }

  lemma Fits16(g: nat, n: nat, total: nat)
    requires total == g * (n + 1) < 0x10000
    ensures (g + n * g % 0x10000) % 0x10000 == total
  {
    var product := n * g;
    assert total == product + g;
  }

  /** So a packet admitted behind a TCP group really follows it. */
  lemma AppendFollows(p: Packet, item: Item, ms: seq<Packet>, pkt: Packet)
    requires Group(item, ms, pkt) && item.key.tcp && TcpMode(p, item, pkt) == Append
    ensures var last := ms[|ms|-1];
            p.sent == (last.sent + |last.payload|) % SEQ && !last.psh && |last.payload| == item.gsoSize
  {
    LeftLengthIsTrue(item, ms, pkt);
    WholeMeansFull(ms, item.gsoSize);
    assert Member(ms[0], item, pkt);
    ChainOffset(ms);
  }

  /** The header fields that must agree. */
  predicate HeadersAgree(p: Packet, item: Item, pkt: Packet)
  {
    p.thLen == item.thLen && (p.thLen > 20 ==> p.options == pkt.options) && p.ipClass == pkt.ipClass
  }

  /** A packet goes behind a TCP group if and only if the headers agree, it follows the
      last one in sequence, that one is full and without PSH, and it is no larger. */
  lemma AppendIff(p: Packet, item: Item, ms: seq<Packet>, pkt: Packet)
    requires Group(item, ms, pkt) && item.key.tcp && |p.payload| < 0x10000
    ensures var last := ms[|ms|-1];
            TcpMode(p, item, pkt) == Append <==>
            && HeadersAgree(p, item, pkt) && p.sent == (last.sent + |last.payload|) % SEQ && !last.psh
            && |last.payload| == item.gsoSize && |p.payload| <= item.gsoSize
  {
    WholeIffFull(ms, item.gsoSize);
    AppendMode(p, item, pkt, LeftLength(item), |pkt.payload| % item.gsoSize);
    if |ms[|ms|-1].payload| == item.gsoSize { EndOfGroup(item, ms, pkt); }
  }

  lemma AppendMode(p: Packet, item: Item, pkt: Packet, left: nat, rest: nat)
    requires item.gsoSize > 0 && |p.payload| < 0x10000 && rest == |pkt.payload| % item.gsoSize
    ensures TcpModeAt(p, item, pkt, left) == Append <==>
            && HeadersAgree(p, item, pkt) && p.sent == (item.sentSeq + left) % SEQ && !item.pshSet
            && rest == 0 && |p.payload| <= item.gsoSize
  {
  }

  lemma WholeIffFull(ms: seq<Packet>, g: nat)
    requires Sizes(ms, g)
    ensures |Join(ms)| % g == 0 <==> |ms[|ms|-1].payload| == g
  {
    if |Join(ms)| % g == 0 {
      WholeMeansFull(ms, g);
    } else if |ms[|ms|-1].payload| == g {
      JoinLength(ms, g);
      assert g * (|ms| - 1) + g == g * |ms|;
      Division.DivMod(|Join(ms)|, g, |ms|, 0);
    }
  }

  /** Where a group with a full last packet ends in the sequence. */
  lemma EndOfGroup(item: Item, ms: seq<Packet>, pkt: Packet)
    requires Group(item, ms, pkt) && item.key.tcp && |ms[|ms|-1].payload| == item.gsoSize
    ensures (item.sentSeq + LeftLength(item)) % SEQ == (ms[|ms|-1].sent + |ms[|ms|-1].payload|) % SEQ
  {
    assert Member(ms[0], item, pkt);
    ChainOffset(ms);
    WholeIffFull(ms, item.gsoSize);
    LeftLengthIsTrue(item, ms, pkt);
  }

  /** It goes in front if and only if the headers agree, the first one follows it in
      sequence, it has no PSH, and it is full, or larger than a single packet. */
  lemma PrependIff(p: Packet, item: Item, ms: seq<Packet>, pkt: Packet)
    requires Group(item, ms, pkt) && item.key.tcp && 0 < |p.payload| < 0x10000 && p.sent < SEQ
    ensures TcpMode(p, item, pkt) == Prepend <==>
            && HeadersAgree(p, item, pkt) && (p.sent + |p.payload|) % SEQ == ms[0].sent && !p.psh
            && (|p.payload| == item.gsoSize || (|p.payload| > item.gsoSize && |ms| == 1))
  {
    assert Member(ms[0], item, pkt);
    PrependMode(p, item, pkt, LeftLength(item));
  }

  lemma PrependMode(p: Packet, item: Item, pkt: Packet, left: nat)
    requires 0 < item.gsoSize && 0 < |p.payload| < 0x10000 && left < 0x10000 && p.sent < SEQ && item.sentSeq < SEQ
    ensures TcpModeAt(p, item, pkt, left) == Prepend <==>
            && HeadersAgree(p, item, pkt) && (p.sent + |p.payload|) % SEQ == item.sentSeq && !p.psh
            && (|p.payload| == item.gsoSize || (|p.payload| > item.gsoSize && item.numMerged == 0))
  {
    NotBothSides(p.sent, |p.payload|, item.sentSeq, left);
  }

  lemma NotBothSides(sent: nat, n: nat, first: nat, length: nat)
    requires sent < SEQ && 0 < n < 0x10000 && length < 0x10000 && first < SEQ
    ensures !((sent + n) % SEQ == first && sent == (first + length) % SEQ)
  {
  }

  /** A UDP packet goes behind if and only if the IP fields agree, the last one is full
      and it is no larger. */
  lemma UdpAppendIff(p: Packet, item: Item, ms: seq<Packet>, pkt: Packet)
    requires Group(item, ms, pkt) && |p.payload| < 0x10000
    ensures UdpMode(p, item, pkt) == Append <==>
            p.ipClass == pkt.ipClass && |ms[|ms|-1].payload| == item.gsoSize && |p.payload| <= item.gsoSize
  {
    WholeIffFull(ms, item.gsoSize);
  }

  function Appended(item: Item, p: Packet): (r: Item)
  {
    item.(pshSet := item.pshSet || (item.key.tcp && p.psh), numMerged := (item.numMerged + 1) % 0x10000)
  }

  function AppendedPacket(pkt: Packet, p: Packet): (r: Packet)
  {
    pkt.(psh := pkt.psh || (pkt.key.tcp && p.psh), payload := pkt.payload + p.payload)
  }

  function Prepended(item: Item, p: Packet): (r: Item)
  {
    var g := |p.payload| % 0x10000;
    item.(sentSeq := p.sent, gsoSize := if g > item.gsoSize then g else item.gsoSize,
          numMerged := (item.numMerged + 1) % 0x10000)
  }

  function PrependedPacket(pkt: Packet, p: Packet): (r: Packet) { p.(payload := p.payload + pkt.payload) }

  /** What the merging code has checked by the time it copies. */
  predicate Admitted(p: Packet, item: Item, pkt: Packet)
  {
    && p.candidate && WellFormed(p) && p.key == item.key && p.sumOk && (item.numMerged == 0 ==> pkt.sumOk)
    && pkt.iphLen + pkt.thLen + |pkt.payload| + |p.payload| <= MAX_LEN
  }

  lemma NoWrap(ms: seq<Packet>, item: Item, pkt: Packet, p: Packet)
    requires Group(item, ms, pkt) && Admitted(p, item, pkt)
    ensures (item.numMerged + 1) % 0x10000 == |ms| && |p.payload| % 0x10000 == |p.payload|
  {
    JoinLength(ms, item.gsoSize);
  }

  lemma SumsOk(ms: seq<Packet>, item: Item, pkt: Packet, k: nat)
    requires Group(item, ms, pkt) && (item.numMerged == 0 ==> pkt.sumOk) && k < |ms|
    ensures ms[k].sumOk
  {
  }

  /** A packet put behind a group makes a group. */
  lemma AppendGroup(p: Packet, item: Item, ms: seq<Packet>, pkt: Packet)
    requires Group(item, ms, pkt) && Admitted(p, item, pkt)
    requires (if item.key.tcp then TcpMode(p, item, pkt) else UdpMode(p, item, pkt)) == Append
    ensures Group(Appended(item, p), ms + [p], AppendedPacket(pkt, p))
  {
    var ms', item', pkt' := ms + [p], Appended(item, p), AppendedPacket(pkt, p);
    NoWrap(ms, item, pkt, p);
    WholeMeansFull(ms, item.gsoSize);
    JoinBack(ms, p);
    assert Member(ms[0], item, pkt);
    forall k | 0 <= k < |ms'| ensures Member(ms'[k], item', pkt') && ms'[k].sumOk {
      if k < |ms| { assert Member(ms[k], item, pkt); SumsOk(ms, item, pkt, k); }
    }
    SizesGrow(ms, p, item.gsoSize);
    if item.key.tcp { AppendInSequence(p, item, ms, pkt); }
  }

  lemma SizesGrow(ms: seq<Packet>, p: Packet, g: nat)
    requires Sizes(ms, g) && |ms[|ms|-1].payload| == g && 0 < |p.payload| <= g
    ensures Sizes(ms + [p], g)
  {
  }

  lemma AppendInSequence(p: Packet, item: Item, ms: seq<Packet>, pkt: Packet)
    requires Group(item, ms, pkt) && item.key.tcp && TcpMode(p, item, pkt) == Append
    ensures InSequence(Appended(item, p), ms + [p], AppendedPacket(pkt, p))
  {
    AppendFollows(p, item, ms, pkt);
    assert Member(ms[0], item, pkt);
  }

  lemma PrependLeads(p: Packet, item: Item, pkt: Packet)
    requires item.gsoSize > 0 && TcpMode(p, item, pkt) == Prepend && |p.payload| < 0x10000
    ensures (p.sent + |p.payload|) % SEQ == item.sentSeq && !p.psh
    ensures p.thLen == item.thLen && (p.thLen > 20 ==> p.options == pkt.options) && p.ipClass == pkt.ipClass
    ensures |p.payload| == item.gsoSize || (|p.payload| > item.gsoSize && item.numMerged == 0)
  {
  }

  lemma ChainFront(p: Packet, ms: seq<Packet>)
    requires Chain(ms) && |ms| > 0 && ms[0].sent == (p.sent + |p.payload|) % SEQ
    ensures Chain([p] + ms)
  {
    var ms' := [p] + ms;
    forall k | 0 < k < |ms'| ensures ms'[k].sent == (ms'[k-1].sent + |ms'[k-1].payload|) % SEQ {
      assert k > 1 ==> ms'[k] == ms[k-1] && ms'[k-1] == ms[k-2];
    }
  }

  lemma SizesFront(p: Packet, ms: seq<Packet>, g: nat)
    requires Sizes(ms, g) && PshLast(ms) && !p.psh && (|p.payload| == g || (|p.payload| > g && |ms| == 1))
    ensures Sizes([p] + ms, |p.payload|) && PshLast([p] + ms)
  {
    var ms' := [p] + ms;
    forall k | 0 <= k < |ms'| - 1 ensures !ms'[k].psh && |ms'[k].payload| == |p.payload| {
      assert k > 0 ==> ms'[k] == ms[k-1];
    }
  }

  /** A packet put in front of a group makes a group. */
  lemma PrependGroup(p: Packet, item: Item, ms: seq<Packet>, pkt: Packet)
    requires Group(item, ms, pkt) && Admitted(p, item, pkt) && item.key.tcp && TcpMode(p, item, pkt) == Prepend
    ensures Group(Prepended(item, p), [p] + ms, PrependedPacket(pkt, p))
  {
    var ms', item', pkt' := [p] + ms, Prepended(item, p), PrependedPacket(pkt, p);
    NoWrap(ms, item, pkt, p);
    PrependLeads(p, item, pkt);
    JoinFront(p, ms);
    ChainFront(p, ms);
    SizesFront(p, ms, item.gsoSize);
    assert Member(ms[0], item, pkt);
    forall k | 0 <= k < |ms'| ensures Member(ms'[k], item', pkt') && ms'[k].sumOk {
      if k > 0 { assert Member(ms[k-1], item, pkt); SumsOk(ms, item, pkt, k - 1); }
    }
  }

  /** Appending keeps the header's PSH that of the last packet. */
  lemma AppendKeepsPsh(p: Packet, item: Item, ms: seq<Packet>, pkt: Packet)
    requires Group(item, ms, pkt) && item.key.tcp && TcpMode(p, item, pkt) == Append
    ensures AppendedPacket(pkt, p).psh == p.psh
  {
    assert Member(ms[0], item, pkt);
    AppendFollows(p, item, ms, pkt);
  }

  /** Prepending writes the prepended packet's header, so the last packet's PSH is in
      it if and only if there was none. */
  lemma PrependKeepsPshIff(p: Packet, item: Item, ms: seq<Packet>, pkt: Packet)
    requires Group(item, ms, pkt) && item.key.tcp && TcpMode(p, item, pkt) == Prepend
    ensures PrependedPacket(pkt, p).psh == ms[|ms|-1].psh <==> !item.pshSet
  {
  }

  /** A packet with PSH at 101 and, after it, the one before it at 100: the merged
      packet has lost PSH. */
  lemma APshIsLost() returns (item: Item, first: Packet, second: Packet)
    ensures Group(item, [first], first) && TcpMode(second, item, first) == Prepend && Admitted(second, item, first)
    ensures Group(Prepended(item, second), [second, first], PrependedPacket(first, second))
    ensures first.psh && !PrependedPacket(first, second).psh
  {
    first := Packet(true, Key(true, false, 0), 101, true, 0, 20, 20, [], true, [7]);
    second := first.(sent := 100, psh := false, payload := [8]);
    item := NewItem(first, 0, false);
    NewGroup(first, 0, false);
    assert [second] + [first] == [second, first];
    PrependGroup(second, item, [first], first);
  }

  // ----- the whole batch

  /** Buffers, items by flow, and for the record: which packets each buffer to be
      written is made of, and in which buffer each packet went. */
  datatype View = View(bufs: seq<Buf>, table: map<Key, seq<Item>>, segs: map<nat, seq<nat>>, home: map<nat, nat>)

  ghost function Pick(input: seq<Packet>, idx: seq<nat>): (ms: seq<Packet>)
    requires forall k :: 0 <= k < |idx| ==> idx[k] < |input|
    ensures |ms| == |idx| && forall k :: 0 <= k < |idx| ==> ms[k] == input[idx[k]]
  {
    seq(|idx|, k requires 0 <= k < |idx| => input[idx[k]])
  }

  predicate InRange(idx: seq<nat>, n: nat) { forall k :: 0 <= k < |idx| ==> idx[k] < n }

  /** Buffer w holds exactly the payloads of its packets, in order. */
  ghost predicate SegAt(input: seq<Packet>, v: View, n: nat, w: nat)
    requires n <= |input| == |v.bufs|
  {
    w in v.segs ==>
      && w < n && w in v.segs[w] && InRange(v.segs[w], n) && NoDup(v.segs[w])
      && (forall j :: j in v.segs[w] ==> j in v.home && v.home[j] == w)
      && v.bufs[w].pkt.payload == Join(Pick(input, v.segs[w]))
  }

  ghost predicate HomeAt(v: View, j: nat) { j in v.home && v.home[j] in v.segs && j in v.segs[v.home[j]] }

  ghost predicate ItemAt(input: seq<Packet>, v: View, key: Key, a: nat)
    requires |input| == |v.bufs|
  {
    key in v.table && a < |v.table[key]| ==>
      var item := v.table[key][a];
      && item.key == key && item.buf in v.segs && item.buf < |input| && InRange(v.segs[item.buf], |input|)
      && Group(item, Pick(input, v.segs[item.buf]), v.bufs[item.buf].pkt)
      && (key.tcp ==> PshWritten(input, v.segs[item.buf], v.bufs[item.buf].pkt))
  }

  /** The header has PSH exactly if the last packet has and did not come before the
      one that leads: PSH is lost when a packet is put in front of it. */
  ghost predicate PshWritten(input: seq<Packet>, idx: seq<nat>, pkt: Packet)
    requires InRange(idx, |input|)
  {
    |idx| > 0 && pkt.psh == (input[idx[|idx|-1]].psh && idx[0] <= idx[|idx|-1])
  }

  ghost predicate Apart(v: View, key: Key, a: nat, b: nat)
  {
    key in v.table && a < b < |v.table[key]| ==> v.table[key][a].buf != v.table[key][b].buf
  }

  /** A buffer of several packets still has its item. */
  ghost predicate Tracked(input: seq<Packet>, v: View, w: nat)
  {
    w in v.segs && |v.segs[w]| > 1 ==>
      w < |input| && input[w].key in v.table
      && exists a: nat :: a < |v.table[input[w].key]| && v.table[input[w].key][a].buf == w
  }

  predicate Ascending(idx: seq<nat>) { forall j, k :: 0 <= j < k < |idx| ==> idx[j] < idx[k] }

  /** UDP packets of a flow keep their order, within a buffer and across buffers. */
  ghost predicate InOrder(v: View, key: Key, a: nat)
  {
    !key.tcp && key in v.table ==> v.table[key] != [] && (a < |v.table[key]| && v.table[key][a].buf in v.segs ==>
      var w := v.table[key][a].buf;
      && v.segs[w] != [] && v.segs[w][0] == w && Ascending(v.segs[w])
      && (a + 1 < |v.table[key]| ==> forall x :: x in v.segs[w] ==> x < v.table[key][a+1].buf))
  }

  ghost predicate Untouched(input: seq<Packet>, v: View, j: nat)
    requires |input| == |v.bufs|
  {
    j < |input| ==> v.bufs[j].pkt == input[j] && j !in v.segs
  }

  ghost predicate Valid(input: seq<Packet>, v: View, n: nat)
  {
    && n <= |input| == |v.bufs|
    && (forall k :: 0 <= k < |input| ==> WellFormed(input[k]))
    && (forall k :: 0 <= k < |v.bufs| ==> v.bufs[k].cap <= MAX_LEN)
    && (forall j: nat {:trigger Untouched(input, v, j)} :: n <= j ==> Untouched(input, v, j))
    && (forall w: nat {:trigger SegAt(input, v, n, w)} :: SegAt(input, v, n, w))
    && (forall j: nat {:trigger HomeAt(v, j)} :: j < n ==> HomeAt(v, j))
    && (forall key, a: nat {:trigger ItemAt(input, v, key, a)} :: ItemAt(input, v, key, a))
    && (forall key, a: nat, b: nat {:trigger Apart(v, key, a, b)} :: Apart(v, key, a, b))
    && (forall w: nat {:trigger Tracked(input, v, w)} :: Tracked(input, v, w))
    && (forall key, a: nat {:trigger InOrder(v, key, a)} :: InOrder(v, key, a))
  }

  // ----- steps

  /** Packet i goes out as it is. */
  ghost function Alone(v: View, i: nat): (r: View) { v.(segs := v.segs[i := [i]], home := v.home[i := i]) }

  lemma AloneSeg(input: seq<Packet>, v: View, i: nat, w: nat)
    requires Valid(input, v, i) && i < |input|
    ensures SegAt(input, Alone(v, i), i + 1, w)
  {
    assert Untouched(input, v, i);
    assert SegAt(input, v, i, w);
    if w == i {
      var ms := Pick(input, [i]);
      assert ms[..0] == [];
    }
  }

  lemma AloneItem(input: seq<Packet>, v: View, i: nat, key: Key, a: nat)
    requires Valid(input, v, i) && i < |input|
    ensures ItemAt(input, Alone(v, i), key, a) && InOrder(Alone(v, i), key, a)
  {
    assert Untouched(input, v, i);
    assert ItemAt(input, v, key, a);
    assert InOrder(v, key, a);
  }

  lemma AloneKeeps(input: seq<Packet>, v: View, i: nat)
    requires Valid(input, v, i) && i < |input|
    ensures Valid(input, Alone(v, i), i + 1)
  {
    var v', n := Alone(v, i), i + 1;
    assert Untouched(input, v, i);
    forall w: nat ensures SegAt(input, v', n, w) { AloneSeg(input, v, i, w); }
    forall key, a: nat ensures ItemAt(input, v', key, a) { AloneItem(input, v, i, key, a); }
    forall key, a: nat ensures InOrder(v', key, a) { AloneItem(input, v, i, key, a); }
    forall j: nat | i + 1 <= j ensures Untouched(input, v', j) { assert Untouched(input, v, j); }
    forall j: nat | j < i + 1 ensures HomeAt(v', j) {
      if j < i { assert HomeAt(v, j); assert SegAt(input, v, i, v.home[j]); }
    }
    forall key, a: nat, b: nat ensures Apart(v', key, a, b) { assert Apart(v, key, a, b); }
    forall w: nat ensures Tracked(input, v', w) { assert Tracked(input, v, w); }
  }

  function NewItem(p: Packet, i: nat, sumKnownBad: bool): (item: Item)
  {
    Item(p.key, if p.key.tcp then p.sent else 0, i, 0, |p.payload| % 0x10000, p.iphLen, p.thLen,
         p.key.tcp && p.psh, sumKnownBad)
  }

  function ItemsOf(table: map<Key, seq<Item>>, key: Key): (items: seq<Item>)
  {
    if key in table then table[key] else []
  }

  /** A new item for a packet that goes out as it is so far. */
  ghost function Inserted(v: View, item: Item): (r: View)
  {
    v.(table := v.table[item.key := ItemsOf(v.table, item.key) + [item]])
  }

  lemma NewGroup(p: Packet, i: nat, bad: bool)
    requires p.candidate && WellFormed(p)
    ensures Group(NewItem(p, i, bad), [p], p)
  {
    assert [p][..0] == [];
  }

  ghost function InsertedAlone(input: seq<Packet>, v: View, i: nat, bad: bool): (r: View)
    requires i < |input|
  {
    Inserted(Alone(v, i), NewItem(input[i], i, bad))
  }

  lemma InsertedItem(input: seq<Packet>, v: View, i: nat, bad: bool, key: Key, a: nat)
    requires Valid(input, v, i) && i < |input| && input[i].candidate
    ensures ItemAt(input, InsertedAlone(input, v, i, bad), key, a)
  {
    assert Untouched(input, v, i);
    AloneItem(input, v, i, key, a);
    if key == input[i].key && a == |ItemsOf(v.table, key)| {
      NewGroup(input[i], i, bad);
      assert Pick(input, [i]) == [input[i]];
    }
  }

  lemma InsertedOrder(input: seq<Packet>, v: View, i: nat, bad: bool, key: Key, a: nat)
    requires Valid(input, v, i) && i < |input| && input[i].candidate
    ensures InOrder(InsertedAlone(input, v, i, bad), key, a)
  {
    assert Untouched(input, v, i);
    AloneItem(input, v, i, key, a);
    assert ItemAt(input, v, key, a);
    if key in v.table && a < |v.table[key]| {
      assert SegAt(input, v, i, v.table[key][a].buf);
    }
  }

  lemma InsertedApart(input: seq<Packet>, v: View, i: nat, bad: bool, key: Key, a: nat, b: nat)
    requires Valid(input, v, i) && i < |input|
    ensures Apart(InsertedAlone(input, v, i, bad), key, a, b)
  {
    assert Apart(v, key, a, b);
    assert ItemAt(input, v, key, a);
    if key in v.table && a < |v.table[key]| { assert SegAt(input, v, i, v.table[key][a].buf); }
  }

  lemma InsertedTracked(input: seq<Packet>, v: View, i: nat, bad: bool, w: nat)
    requires Valid(input, v, i) && i < |input|
    ensures Tracked(input, InsertedAlone(input, v, i, bad), w)
  {
    assert Tracked(input, v, w);
    if w != i && w in v.segs && |v.segs[w]| > 1 {
      var key := input[w].key;
      var a: nat :| a < |v.table[key]| && v.table[key][a].buf == w;
      assert InsertedAlone(input, v, i, bad).table[key][a].buf == w;
    }
  }

  lemma InsertKeeps(input: seq<Packet>, v: View, i: nat, bad: bool)
    requires Valid(input, v, i) && i < |input| && input[i].candidate
    ensures Valid(input, InsertedAlone(input, v, i, bad), i + 1)
  {
    var u, v', n := Alone(v, i), InsertedAlone(input, v, i, bad), i + 1;
    AloneKeeps(input, v, i);
    forall w: nat ensures SegAt(input, v', n, w) { assert SegAt(input, u, n, w); }
    forall key, a: nat ensures ItemAt(input, v', key, a) { InsertedItem(input, v, i, bad, key, a); }
    forall key, a: nat ensures InOrder(v', key, a) { InsertedOrder(input, v, i, bad, key, a); }
    forall j: nat | n <= j ensures Untouched(input, v', j) { assert Untouched(input, u, j); }
    forall j: nat | j < n ensures HomeAt(v', j) { assert HomeAt(u, j); }
    forall key, a: nat, b: nat ensures Apart(v', key, a, b) { InsertedApart(input, v, i, bad, key, a, b); }
    forall w: nat ensures Tracked(input, v', w) { InsertedTracked(input, v, i, bad, w); }
  }

  /** Item a of a flow is forgotten. */
  ghost function Forgotten(v: View, key: Key, a: nat): (r: View)
    requires key in v.table && a < |v.table[key]|
  {
    v.(table := v.table[key := v.table[key][..a] + v.table[key][a+1..]])
  }

  lemma ForgetTracked(input: seq<Packet>, v: View, n: nat, key: Key, a: nat, w: nat)
    requires Valid(input, v, n) && key in v.table && a < |v.table[key]| && v.table[key][a].numMerged == 0
    ensures Tracked(input, Forgotten(v, key, a), w)
  {
    assert Tracked(input, v, w);
    assert ItemAt(input, v, key, a);
    if w in v.segs && |v.segs[w]| > 1 {
      var key' := input[w].key;
      var b: nat :| b < |v.table[key']| && v.table[key'][b].buf == w;
      var c := if key' == key && b > a then b - 1 else b;
      assert Forgotten(v, key, a).table[key'][c].buf == w;
    }
  }

  /** Forgetting an item that merged nothing loses no packet. */
  lemma ForgetKeeps(input: seq<Packet>, v: View, n: nat, key: Key, a: nat)
    requires Valid(input, v, n) && key.tcp && key in v.table && a < |v.table[key]| && v.table[key][a].numMerged == 0
    ensures Valid(input, Forgotten(v, key, a), n)
  {
    var v' := Forgotten(v, key, a);
    forall w: nat ensures SegAt(input, v', n, w) { assert SegAt(input, v, n, w); }
    forall key', b: nat ensures ItemAt(input, v', key', b) {
      assert ItemAt(input, v, key', b) && ItemAt(input, v, key', b + 1);
    }
    forall key', b: nat ensures InOrder(v', key', b) { assert InOrder(v, key', b); }
    forall j: nat | n <= j ensures Untouched(input, v', j) { assert Untouched(input, v, j); }
    forall j: nat | j < n ensures HomeAt(v', j) { assert HomeAt(v, j); }
    forall key', b: nat, c: nat ensures Apart(v', key', b, c) {
      assert Apart(v, key', b, c) && Apart(v, key', b + 1, c + 1) && Apart(v, key', b, c + 1);
    }
    forall w: nat ensures Tracked(input, v', w) { ForgetTracked(input, v, n, key, a, w); }
  }

  // ----- merging

  function MergedItem(item: Item, p: Packet, mode: Mode): (r: Item)
  {
    if mode == Prepend then Prepended(item, p) else Appended(item, p)
  }

  function MergedBufs(bufs: seq<Buf>, w: nat, i: nat, mode: Mode): (r: seq<Buf>)
    requires w < |bufs| && i < |bufs|
    ensures |r| == |bufs|
  {
    var target, p := bufs[w], bufs[i];
    if mode == Prepend then bufs[w := Buf(PrependedPacket(target.pkt, p.pkt), p.cap)][i := target]
    else bufs[w := Buf(AppendedPacket(target.pkt, p.pkt), target.cap)]
  }

  function Joined(idx: seq<nat>, i: nat, mode: Mode): (r: seq<nat>)
  {
    if mode == Prepend then [i] + idx else idx + [i]
  }

  ghost function Merged(v: View, i: nat, key: Key, a: nat, mode: Mode): (r: View)
    requires key in v.table && a < |v.table[key]| && v.table[key][a].buf in v.segs
    requires v.table[key][a].buf < |v.bufs| && i < |v.bufs|
  {
    var item := v.table[key][a];
    var w := item.buf;
    View(MergedBufs(v.bufs, w, i, mode),
         v.table[key := v.table[key][a := MergedItem(item, v.bufs[i].pkt, mode)]],
         v.segs[w := Joined(v.segs[w], i, mode)],
         v.home[i := w])
  }

  /** Packet i may be merged with item a of its flow. */
  ghost predicate Mergeable(input: seq<Packet>, v: View, i: nat, key: Key, a: nat, mode: Mode)
  {
    && Valid(input, v, i) && i < |input| && input[i].candidate && input[i].key == key
    && key in v.table && a < |v.table[key]|
    && var item := v.table[key][a];
       && item.buf in v.segs && item.buf < i && item.key == key && item.gsoSize > 0
       && var pkt := v.bufs[item.buf].pkt;
          && Admitted(input[i], item, pkt) && mode != Unavailable
          && mode == (if key.tcp then TcpMode(input[i], item, pkt) else UdpMode(input[i], item, pkt))
          && (!key.tcp ==> a == |v.table[key]| - 1)
  }

  lemma PickJoined(input: seq<Packet>, idx: seq<nat>, i: nat, mode: Mode)
    requires InRange(idx, |input|) && i < |input|
    ensures InRange(Joined(idx, i, mode), |input|)
    ensures Pick(input, Joined(idx, i, mode)) ==
            if mode == Prepend then [input[i]] + Pick(input, idx) else Pick(input, idx) + [input[i]]
  {
    var r, ms := Joined(idx, i, mode), Pick(input, idx);
    forall k | 0 <= k < |r|
      ensures r[k] < |input| && r[k] == if mode == Prepend then ([i] + idx)[k] else (idx + [i])[k]
    {
    }
    if mode == Prepend {
      assert Pick(input, r) == [input[i]] + ms;
    } else {
      assert Pick(input, r) == ms + [input[i]];
    }
  }

  function MergedPacket(pkt: Packet, p: Packet, mode: Mode): (r: Packet)
  {
    if mode == Prepend then PrependedPacket(pkt, p) else AppendedPacket(pkt, p)
  }

  lemma MergeGroup(p: Packet, item: Item, ms: seq<Packet>, pkt: Packet, mode: Mode)
    requires Group(item, ms, pkt) && Admitted(p, item, pkt) && mode != Unavailable
    requires mode == (if item.key.tcp then TcpMode(p, item, pkt) else UdpMode(p, item, pkt))
    ensures Group(MergedItem(item, p, mode), if mode == Prepend then [p] + ms else ms + [p], MergedPacket(pkt, p, mode))
  {
    if mode == Prepend { PrependGroup(p, item, ms, pkt); } else { AppendGroup(p, item, ms, pkt); }
  }

  lemma MergedParts(v: View, i: nat, key: Key, a: nat, mode: Mode)
    requires key in v.table && a < |v.table[key]| && v.table[key][a].buf in v.segs
    requires v.table[key][a].buf < i < |v.bufs|
    ensures var v', item := Merged(v, i, key, a, mode), v.table[key][a];
            && v'.table[key][a] == MergedItem(item, v.bufs[i].pkt, mode)
            && v'.bufs[item.buf].pkt == MergedPacket(v.bufs[item.buf].pkt, v.bufs[i].pkt, mode)
            && v'.segs[item.buf] == Joined(v.segs[item.buf], i, mode)
            && v'.table[key][a].buf == item.buf && v'.table[key][a].key == item.key
  {
  }

  lemma MergedPsh(input: seq<Packet>, idx: seq<nat>, i: nat, item: Item, pkt: Packet, mode: Mode)
    requires i < |input| && |idx| > 0 && InRange(idx, i) && InRange(idx, |input|) && item.key.tcp && mode != Unavailable
    requires Group(item, Pick(input, idx), pkt) && Admitted(input[i], item, pkt) && mode == TcpMode(input[i], item, pkt)
    ensures InRange(Joined(idx, i, mode), |input|)
    ensures PshWritten(input, Joined(idx, i, mode), MergedPacket(pkt, input[i], mode))
  {
    if mode == Prepend {
      PrependLeads(input[i], item, pkt);
    } else {
      AppendKeepsPsh(input[i], item, Pick(input, idx), pkt);
    }
  }

  lemma MergedGroup(input: seq<Packet>, v: View, i: nat, key: Key, a: nat, mode: Mode)
    requires Mergeable(input, v, i, key, a, mode)
    ensures ItemAt(input, Merged(v, i, key, a, mode), key, a)
  {
    assert ItemAt(input, v, key, a);
    assert Untouched(input, v, i);
    var item := v.table[key][a];
    MergedParts(v, i, key, a, mode);
    PickJoined(input, v.segs[item.buf], i, mode);
    assert SegAt(input, v, i, item.buf);
    if key.tcp { MergedPsh(input, v.segs[item.buf], i, item, v.bufs[item.buf].pkt, mode); }
    MergeGroup(input[i], item, Pick(input, v.segs[item.buf]), v.bufs[item.buf].pkt, mode);
  }

  lemma JoinedIndices(idx: seq<nat>, i: nat, mode: Mode)
    requires InRange(idx, i) && NoDup(idx)
    ensures var r := Joined(idx, i, mode);
            InRange(r, i + 1) && NoDup(r) && |r| == |idx| + 1 && forall j :: j in r <==> j in idx || j == i
  {
  }

  lemma MergedSeg(input: seq<Packet>, v: View, i: nat, key: Key, a: nat, mode: Mode, w: nat)
    requires Mergeable(input, v, i, key, a, mode)
    ensures SegAt(input, Merged(v, i, key, a, mode), i + 1, w)
  {
    assert SegAt(input, v, i, w);
    assert Untouched(input, v, i);
    if w == v.table[key][a].buf {
      JoinedIndices(v.segs[w], i, mode);
      MergedParts(v, i, key, a, mode);
      MergedGroup(input, v, i, key, a, mode);
    }
  }

  lemma MergedOther(input: seq<Packet>, v: View, i: nat, key: Key, a: nat, mode: Mode, key': Key, b: nat)
    requires Mergeable(input, v, i, key, a, mode)
    ensures ItemAt(input, Merged(v, i, key, a, mode), key', b)
  {
    assert ItemAt(input, v, key', b) && ItemAt(input, v, key, a) && Untouched(input, v, i);
    if key' == key && b == a {
      MergedGroup(input, v, i, key, a, mode);
    } else if key' in v.table && b < |v.table[key']| {
      BufsDiffer(input, v, i, key, a, key', b);
      assert SegAt(input, v, i, v.table[key'][b].buf);
    }
  }

  lemma FirstKey(input: seq<Packet>, v: View, key: Key, a: nat)
    requires |input| == |v.bufs| && ItemAt(input, v, key, a) && key in v.table && a < |v.table[key]|
    ensures v.table[key][a].buf in v.segs
    ensures var idx := v.segs[v.table[key][a].buf]; |idx| > 0 && idx[0] < |input| && input[idx[0]].key == key
  {
    var item := v.table[key][a];
    var ms := Pick(input, v.segs[item.buf]);
    assert Member(ms[0], item, v.bufs[item.buf].pkt);
  }

  lemma BufsDiffer(input: seq<Packet>, v: View, n: nat, key: Key, a: nat, key': Key, b: nat)
    requires Valid(input, v, n) && key in v.table && a < |v.table[key]| && key' in v.table && b < |v.table[key']|
    requires key != key' || a != b
    ensures v.table[key][a].buf != v.table[key'][b].buf
  {
    assert ItemAt(input, v, key, a) && ItemAt(input, v, key', b);
    assert Apart(v, key, a, b) && Apart(v, key, b, a);
    FirstKey(input, v, key, a);
    FirstKey(input, v, key', b);
  }

  lemma MergedOrder(input: seq<Packet>, v: View, i: nat, key: Key, a: nat, mode: Mode, key': Key, b: nat)
    requires Mergeable(input, v, i, key, a, mode)
    ensures InOrder(Merged(v, i, key, a, mode), key', b)
  {
    assert InOrder(v, key', b) && ItemAt(input, v, key', b) && SegAt(input, v, i, v.table[key][a].buf);
    MergedParts(v, i, key, a, mode);
    if key' in v.table && b < |v.table[key']| && (key' != key || b != a) {
      BufsDiffer(input, v, i, key, a, key', b);
    }
  }

  lemma MergedTracked(input: seq<Packet>, v: View, i: nat, key: Key, a: nat, mode: Mode, w: nat)
    requires Mergeable(input, v, i, key, a, mode)
    ensures Tracked(input, Merged(v, i, key, a, mode), w)
  {
    var v' := Merged(v, i, key, a, mode);
    assert Tracked(input, v, w);
    MergedParts(v, i, key, a, mode);
    if w == v.table[key][a].buf {
      OwnKey(input, v, i, key, a);
      assert v'.table[key][a].buf == w;
    } else if w in v.segs && |v.segs[w]| > 1 {
      var k := input[w].key;
      var b: nat :| b < |v.table[k]| && v.table[k][b].buf == w;
      assert v'.table[k][b].buf == w;
    }
  }

  /** The packet first seen in an item's buffer is of the item's flow. */
  lemma OwnKey(input: seq<Packet>, v: View, n: nat, key: Key, a: nat)
    requires Valid(input, v, n) && key in v.table && a < |v.table[key]|
    ensures var w := v.table[key][a].buf; w < n && input[w].key == key
  {
    assert ItemAt(input, v, key, a);
    var item := v.table[key][a];
    assert SegAt(input, v, n, item.buf);
    var idx := v.segs[item.buf];
    var k :| 0 <= k < |idx| && idx[k] == item.buf;
    assert Member(Pick(input, idx)[k], item, v.bufs[item.buf].pkt);
  }

  lemma MergedRest(input: seq<Packet>, v: View, i: nat, key: Key, a: nat, mode: Mode, j: nat)
    requires Mergeable(input, v, i, key, a, mode)
    ensures i + 1 <= j ==> Untouched(input, Merged(v, i, key, a, mode), j)
    ensures j < i + 1 ==> HomeAt(Merged(v, i, key, a, mode), j)
  {
    var w := v.table[key][a].buf;
    assert SegAt(input, v, i, w);
    JoinedIndices(v.segs[w], i, mode);
    MergedParts(v, i, key, a, mode);
    if i + 1 <= j { assert Untouched(input, v, j); }
    if j < i { assert HomeAt(v, j); }
  }

  /** Merging keeps every packet in exactly one buffer and every group in order. */
  lemma MergeKeeps(input: seq<Packet>, v: View, i: nat, key: Key, a: nat, mode: Mode)
    requires Mergeable(input, v, i, key, a, mode)
    ensures Valid(input, Merged(v, i, key, a, mode), i + 1)
  {
    var v', n := Merged(v, i, key, a, mode), i + 1;
    forall w: nat ensures SegAt(input, v', n, w) { MergedSeg(input, v, i, key, a, mode, w); }
    forall k, b: nat ensures ItemAt(input, v', k, b) { MergedOther(input, v, i, key, a, mode, k, b); }
    forall k, b: nat ensures InOrder(v', k, b) { MergedOrder(input, v, i, key, a, mode, k, b); }
    forall j: nat | n <= j ensures Untouched(input, v', j) { MergedRest(input, v, i, key, a, mode, j); }
    forall j: nat | j < n ensures HomeAt(v', j) { MergedRest(input, v, i, key, a, mode, j); }
    forall k, b: nat, c: nat ensures Apart(v', k, b, c) {
      assert Apart(v, k, b, c);
      MergedParts(v, i, key, a, mode);
    }
    forall w: nat ensures Tracked(input, v', w) { MergedTracked(input, v, i, key, a, mode, w); }
  }

  /** What an item and its buffer look like to the code that is about to merge. */
  lemma ItemFacts(input: seq<Packet>, v: View, n: nat, key: Key, a: nat)
    requires Valid(input, v, n) && key in v.table && a < |v.table[key]|
    ensures var item := v.table[key][a];
            && item.key == key && item.buf in v.segs && item.buf < n && item.gsoSize > 0
            && v.bufs[item.buf].pkt.key == key && item.iphLen == (if key.v6 then 40 else 20)
            && v.bufs[item.buf].pkt.iphLen == item.iphLen && v.bufs[item.buf].pkt.thLen == item.thLen
            && (!key.tcp ==> item.thLen == 8)
  {
    assert ItemAt(input, v, key, a);
    var item := v.table[key][a];
    assert SegAt(input, v, n, item.buf);
    assert Member(Pick(input, v.segs[item.buf])[0], item, v.bufs[item.buf].pkt);
  }

  lemma MayMerge(input: seq<Packet>, v: View, i: nat, key: Key, a: nat, mode: Mode)
    requires Valid(input, v, i) && i < |input| && input[i].candidate && input[i].key == key
    requires key in v.table && a < |v.table[key]| && (!key.tcp ==> a == |v.table[key]| - 1)
    requires var item := v.table[key][a]; item.buf < |v.bufs| && item.gsoSize > 0
    requires var item := v.table[key][a];
             var pkt := v.bufs[item.buf].pkt;
             && mode != Unavailable && mode ==
               (if key.tcp then TcpMode(input[i], item, pkt) else UdpMode(input[i], item, pkt))
             && input[i].sumOk && (item.numMerged == 0 ==> pkt.sumOk) && Length(pkt) + |input[i].payload| <= MAX_LEN
    ensures Mergeable(input, v, i, key, a, mode)
  {
    ItemFacts(input, v, i, key, a);
  }

  // ----- the offload code

  datatype Outcome = InsufficientCap | PshEnding | ItemInvalidSum | PktInvalidSum | Success

  datatype Result = Noop | TableInsert | Coalesced

  /** Packet i is merged with the item: on some side, within the capacity of the buffer
      that then leads, and with both checksums valid as far as they are looked at. */
  predicate Takes(bufs: seq<Buf>, offset: nat, item: Item, i: nat)
    requires i < |bufs| && item.buf < |bufs| && item.gsoSize > 0
  {
    var p, pkt := bufs[i].pkt, bufs[item.buf].pkt;
    var mode := if item.key.tcp then TcpMode(p, item, pkt) else UdpMode(p, item, pkt);
    && mode != Unavailable && p.sumOk && (item.numMerged == 0 ==> pkt.sumOk && (!item.key.tcp ==> !item.sumKnownBad))
    && Length(pkt) + |p.payload| <= bufs[if mode == Prepend then i else item.buf].cap - offset
  }

  /** Item a of the flow of packet i, if it has that many, takes it. */
  predicate TakesAt(v: View, offset: nat, i: nat, a: nat)
  {
    && i < |v.bufs| && v.bufs[i].pkt.key in v.table && a < |v.table[v.bufs[i].pkt.key]|
    && var item := v.table[v.bufs[i].pkt.key][a];
    && item.buf < |v.bufs| && item.gsoSize > 0 && Takes(v.bufs, offset, item, i)
  }

  class Batch {
    const input: seq<Packet>
    const offset: nat
    var bufs: seq<Buf>
    var table: map<Key, seq<Item>>
    var toWrite: seq<nat>
    ghost var segs: map<nat, seq<nat>>
    ghost var home: map<nat, nat>

    ghost function Now(): View
      reads this
    {
      View(bufs, table, segs, home)
    }

    ghost predicate Good(n: nat)
      reads this
    {
      Valid(input, Now(), n) && NoDup(toWrite) && forall w: nat :: w in toWrite <==> w in segs
    }

    constructor (bufs: seq<Buf>, offset: nat)
      requires forall k :: 0 <= k < |bufs| ==> WellFormed(bufs[k].pkt) && bufs[k].cap <= MAX_LEN
      ensures Good(0) && this.bufs == bufs && this.offset == offset && toWrite == []
      ensures |input| == |bufs| && forall k :: 0 <= k < |bufs| ==> input[k] == bufs[k].pkt
    {
      input := seq(|bufs|, k requires 0 <= k < |bufs| => bufs[k].pkt);
      this.offset, this.bufs, table, toWrite, segs, home := offset, bufs, map[], [], map[], map[];
      new;
      var v := Now();
      forall w: nat ensures SegAt(input, v, 0, w) {}
      forall key, a: nat ensures ItemAt(input, v, key, a) {}
      forall key, a: nat ensures InOrder(v, key, a) {}
      forall j: nat ensures Untouched(input, v, j) {}
      forall key, a: nat, b: nat ensures Apart(v, key, a, b) {}
      forall w: nat ensures Tracked(input, v, w) {}
    }

    /** coalesceTCPPackets. */
    method CoalesceTcp(mode: Mode, i: nat, item: Item) returns (r: Outcome, item': Item)
      requires mode != Unavailable && i < |bufs| && item.buf < |bufs| && item.buf != i
      requires item.iphLen + item.thLen == bufs[i].pkt.iphLen + bufs[i].pkt.thLen
      requires item.key.tcp && bufs[i].pkt.key.tcp && bufs[item.buf].pkt.key.tcp
      requires mode == Append ==> |bufs[i].pkt.payload| % 0x10000 <= item.gsoSize
      modifies this`bufs
      ensures r != Success ==> bufs == old(bufs)
      ensures r == ItemInvalidSum ==> item.numMerged == 0 && !old(bufs)[item.buf].pkt.sumOk
      ensures r == PktInvalidSum ==> !old(bufs)[i].pkt.sumOk
      ensures r == Success <==>
                && !(mode == Prepend && old(bufs)[i].pkt.psh) && old(bufs)[i].pkt.sumOk
                && (item.numMerged == 0 ==> old(bufs)[item.buf].pkt.sumOk)
                && Length(old(bufs)[item.buf].pkt) + |old(bufs)[i].pkt.payload| <=
                   old(bufs)[if mode == Prepend then i else item.buf].cap - offset
      ensures r == Success ==>
                bufs == MergedBufs(old(bufs), item.buf, i, mode) && item' == MergedItem(item, old(bufs)[i].pkt, mode)
    {
      item' := item;
      var pkt, target := bufs[i].pkt, bufs[item.buf].pkt;
      var coalescedLen := Length(target) + Length(pkt) - (item.iphLen + item.thLen);
      if mode == Prepend {
        if bufs[i].cap - offset < coalescedLen { return InsufficientCap, item'; }
        if pkt.psh { return PshEnding, item'; }
        if item.numMerged == 0 && !target.sumOk { return ItemInvalidSum, item'; }
        if !pkt.sumOk { return PktInvalidSum, item'; }
        item' := item'.(sentSeq := pkt.sent);
        bufs := bufs[i := bufs[i].(pkt := pkt.(payload := pkt.payload + target.payload))];
        bufs := bufs[item.buf := bufs[i]][i := bufs[item.buf]];
      } else {
        if bufs[item.buf].cap - offset < coalescedLen { return InsufficientCap, item'; }
        if item.numMerged == 0 && !target.sumOk { return ItemInvalidSum, item'; }
        if !pkt.sumOk { return PktInvalidSum, item'; }
        if pkt.psh {
          item' := item'.(pshSet := true);
          target := target.(psh := true);
        }
        bufs := bufs[item.buf := bufs[item.buf].(pkt := target.(payload := target.payload + pkt.payload))];
      }
      var gsoSize := |pkt.payload| % 0x10000;
      if gsoSize > item'.gsoSize { item' := item'.(gsoSize := gsoSize); }
      item' := item'.(numMerged := (item'.numMerged + 1) % 0x10000);
      return Success, item';
    }

    /** The table and the record catch up with a merge done in the buffers. */
    ghost method Record(i: nat, key: Key, a: nat, mode: Mode, before: View)
      requires Mergeable(input, before, i, key, a, mode) && table == before.table && segs == before.segs
               && home == before.home
      requires bufs == MergedBufs(before.bufs, before.table[key][a].buf, i, mode)
      modifies this`segs, this`home
      ensures View(bufs, table[key := table[key][a := MergedItem(before.table[key][a], before.bufs[i].pkt, mode)]],
              segs, home) ==
              Merged(before, i, key, a, mode)
      ensures segs.Keys == old(segs.Keys) && home == old(home)[i := before.table[key][a].buf]
    {
      var w := before.table[key][a].buf;
      segs, home := segs[w := Joined(segs[w], i, mode)], home[i := w];
    }

    /** The items of packet i's flow, newest first. */
    method TcpGro(i: nat) returns (r: Result)
      requires Valid(input, Now(), i) && i < |input| && input[i].candidate && input[i].key.tcp
      modifies this`bufs, this`table, this`segs, this`home
      ensures r == Noop ==> Valid(input, Now(), i) && segs == old(segs)
      ensures r == TableInsert ==> Valid(input, Now(), i + 1) && segs == old(segs)[i := [i]]
      ensures r == Coalesced ==> Valid(input, Now(), i + 1) && segs.Keys == old(segs.Keys)
      ensures r == Coalesced <==> exists a: nat :: TakesAt(old(Now()), offset, i, a)
      ensures r == Coalesced ==> exists a: nat :: JoinsLast(old(Now()), offset, i, a, home)
    {
      ghost var before := Now();
      assert Untouched(input, Now(), i);
      var pkt := bufs[i].pkt;
      var key := pkt.key;
      if key !in table {
        Insert(i, false);
        return TableInsert;
      }
      var items := table[key];
      var a := |items|;
      while a > 0
        invariant 0 <= a <= |items| && Valid(input, Now(), i) && segs == old(segs)
        invariant key in table && a <= |table[key]| && table[key][..a] == items[..a] && bufs == old(bufs)
        invariant home == old(home) && forall b: nat :: a <= b < |items| ==> !TakesAt(before, offset, i, b)
      {
        a := a - 1;
        var item := items[a];
        assert item == table[key][..a+1][a] == table[key][a];
        assert table[key][..a] == table[key][..a+1][..a] == items[..a];
        var outcome := TryTcp(i, key, a);
        assert outcome == Success <==> TakesAt(before, offset, i, a);
        if outcome == Success {
          assert JoinsLast(before, offset, i, a, home);
          return Coalesced;
        }
        if outcome == PktInvalidSum { return Noop; }
      }
      Insert(i, false);
      return TableInsert;
    }

    /** Packet i has joined item a, the newest that takes it. */
    ghost predicate JoinsLast(v: View, offset: nat, i: nat, a: nat, home: map<nat, nat>)
    {
      && TakesAt(v, offset, i, a) && (forall b: nat :: b > a ==> !TakesAt(v, offset, i, b))
      && i in home && home[i] == v.table[v.bufs[i].pkt.key][a].buf
    }

    method Insert(i: nat, bad: bool)
      requires Valid(input, Now(), i) && i < |input| && input[i].candidate
      modifies this`table, this`segs, this`home
      ensures Valid(input, Now(), i + 1) && segs == old(segs)[i := [i]]
    {
      assert Untouched(input, Now(), i);
      ghost var before := Now();
      var item := NewItem(bufs[i].pkt, i, bad);
      table := table[item.key := ItemsOf(table, item.key) + [item]];
      segs, home := segs[i := [i]], home[i := i];
      InsertKeeps(input, before, i, bad);
    }

    /** One turn of the loop: try to merge packet i with item a. */
    method TryTcp(i: nat, key: Key, a: nat) returns (r: Outcome)
      requires Valid(input, Now(), i) && i < |input| && input[i].candidate && input[i].key == key && key.tcp
      requires key in table && a < |table[key]|
      modifies this`bufs, this`table, this`segs, this`home
      ensures r == Success ==> Valid(input, Now(), i + 1) && segs.Keys == old(segs.Keys)
      ensures r != Success ==> Valid(input, Now(), i) && segs == old(segs) && bufs == old(bufs)
      ensures r != Success ==> key in table && a <= |table[key]| && table[key][..a] == old(table[key][..a])
      ensures r != Success ==> home == old(home) && (r == PktInvalidSum ==> !old(bufs)[i].pkt.sumOk)
      ensures var item := old(table)[key][a];
              && item.buf < |old(bufs)| && item.gsoSize > 0 && item.key == key
              && (r == Success <==> Takes(old(bufs), offset, item, i))
              && (r == Success ==> home == old(home)[i := item.buf])
    {
      ghost var before := Now();
      assert Untouched(input, before, i);
      ItemFacts(input, before, i, key, a);
      var item := table[key][a];
      var mode := TcpMode(bufs[i].pkt, item, bufs[item.buf].pkt);
      if mode == Unavailable { return InsufficientCap; }
      var item';
      r, item' := CoalesceTcp(mode, i, item);
      if r == Success {
        MayMerge(input, before, i, key, a, mode);
        Record(i, key, a, mode, before);
        table := table[key := table[key][a := item']];
        MergeKeeps(input, before, i, key, a, mode);
      } else if r == ItemInvalidSum {
        table := table[key := table[key][..a] + table[key][a+1..]];
        ForgetKeeps(input, before, i, key, a);
      }
    }

    /** coalesceUDPPackets. */
    method CoalesceUdp(i: nat, item: Item) returns (r: Outcome, item': Item)
      requires i < |bufs| && item.buf < |bufs| && !item.key.tcp && !bufs[item.buf].pkt.key.tcp
      requires item.iphLen + item.thLen == bufs[i].pkt.iphLen + bufs[i].pkt.thLen
      modifies this`bufs
      ensures r != Success ==> bufs == old(bufs)
      ensures r == Success ==>
                bufs == MergedBufs(old(bufs), item.buf, i, Append) && item' == Appended(item, old(bufs)[i].pkt)
      ensures r == Success <==>
                && old(bufs)[i].pkt.sumOk
                && (item.numMerged == 0 ==> !item.sumKnownBad && old(bufs)[item.buf].pkt.sumOk)
                && Length(old(bufs)[item.buf].pkt) + |old(bufs)[i].pkt.payload| <= old(bufs)[item.buf].cap - offset
    {
      item' := item;
      var pkt, target := bufs[i].pkt, bufs[item.buf].pkt;
      var coalescedLen := Length(target) + Length(pkt) - (item.iphLen + item.thLen);
      if bufs[item.buf].cap - offset < coalescedLen { return InsufficientCap, item'; }
      if item.numMerged == 0 && (item.sumKnownBad || !target.sumOk) { return ItemInvalidSum, item'; }
      if !pkt.sumOk { return PktInvalidSum, item'; }
      bufs := bufs[item.buf := bufs[item.buf].(pkt := target.(payload := target.payload + pkt.payload))];
      item' := item'.(numMerged := (item'.numMerged + 1) % 0x10000);
      return Success, item';
    }

    /** Only the last item of the flow is tried, and a packet always ends up behind it. */
    method UdpGro(i: nat) returns (r: Result)
      requires Valid(input, Now(), i) && i < |input| && input[i].candidate && !input[i].key.tcp
      modifies this`bufs, this`table, this`segs, this`home
      ensures r != Noop
      ensures r == TableInsert ==> Valid(input, Now(), i + 1) && segs == old(segs)[i := [i]]
      ensures r == Coalesced ==> Valid(input, Now(), i + 1) && segs.Keys == old(segs.Keys)
      ensures var v := old(Now()); var key := v.bufs[i].pkt.key;
              && (r == Coalesced <==> key in v.table && |v.table[key]| > 0 && TakesAt(v, offset, i, |v.table[key]| - 1))
              && (r == Coalesced ==> home == v.home[i := v.table[key][|v.table[key]|-1].buf])
    {
      ghost var before := Now();
      assert Untouched(input, before, i);
      var key := bufs[i].pkt.key;
      if key !in table {
        Insert(i, false);
        return TableInsert;
      }
      assert InOrder(before, key, 0);
      var a := |table[key]| - 1;
      ItemFacts(input, before, i, key, a);
      var item := table[key][a];
      var mode, bad := UdpMode(bufs[i].pkt, item, bufs[item.buf].pkt), false;
      if mode == Append {
        var outcome, item' := CoalesceUdp(i, item);
        if outcome == Success {
          MayMerge(input, before, i, key, a, mode);
          Record(i, key, a, mode, before);
          table := table[key := table[key][a := item']];
          MergeKeeps(input, before, i, key, a, mode);
          return Coalesced;
        }
        bad := outcome == PktInvalidSum;
      }
      Insert(i, bad);
      return TableInsert;
    }

    /** A packet that is no candidate goes out as it is. */
    ghost method RecordAlone(i: nat)
      requires Valid(input, Now(), i) && i < |input|
      modifies this`segs, this`home
      ensures Valid(input, Now(), i + 1) && segs == old(segs)[i := [i]]
    {
      AloneKeeps(input, Now(), i);
      segs, home := segs[i := [i]], home[i := i];
    }

    /** Some item takes packet i: of a TCP flow any, of a UDP flow the newest. */
    ghost predicate Joins(v: View, offset: nat, i: nat)
      requires i < |v.bufs|
    {
      var p := v.bufs[i].pkt;
      p.candidate && if p.key.tcp then exists a: nat :: TakesAt(v, offset, i, a)
                     else p.key in v.table && |v.table[p.key]| > 0 && TakesAt(v, offset, i, |v.table[p.key]| - 1)
    }

    /** The buffer to hand packet i on in, if it needs one of its own: it does not
        exactly if an item takes it. */
    method Evaluate(i: nat) returns (own: bool)
      requires Valid(input, Now(), i) && i < |input|
      modifies this`bufs, this`table, this`segs, this`home
      ensures Valid(input, Now(), i + 1)
      ensures own ==> segs.Keys == old(segs.Keys) + {i}
      ensures !own ==> segs.Keys == old(segs.Keys)
      ensures !own <==> Joins(old(Now()), offset, i)
    {
      assert Untouched(input, Now(), i);
      var pkt, result := bufs[i].pkt, Noop;
      if pkt.candidate {
        if pkt.key.tcp { result := TcpGro(i); } else { result := UdpGro(i); }
      }
      if result == Noop { RecordAlone(i); }
      own := result != Coalesced;
    }

    method Advance(i: nat)
      requires Good(i) && i < |input| && Ascending(toWrite) && InRange(toWrite, i)
      modifies this
      ensures Good(i + 1) && Ascending(toWrite) && InRange(toWrite, i + 1)
    {
      assert Untouched(input, Now(), i);
      var own := Evaluate(i);
      if own { toWrite := toWrite + [i]; }
    }

    /** handleGRO up to the accounting. lens are the lengths of the raw buffers; an
        offset that leaves no packet, or no room for the device header's 10 bytes, is an error. */
    method HandleGro(lens: seq<int>) returns (ok: bool, ghost done: nat)
      requires Good(0) && toWrite == [] && |lens| == |input|
      modifies this
      ensures Good(done) && done <= |input| && (ok ==> done == |input|)
      ensures !ok <==> |lens| > 0 && (offset < 10 || exists k :: 0 <= k < |lens| && lens[k] <= offset)
      ensures Ascending(toWrite)
    {
      done := 0;
      for i := 0 to |input|
        invariant Good(i) && i <= |input| && done == i && Ascending(toWrite) && InRange(toWrite, i)
        invariant (i > 0 ==> 10 <= offset) && forall k :: 0 <= k < i ==> offset < lens[k]
      {
        if offset < 10 || offset > lens[i] - 1 { return false, i; }
        Advance(i);
        done := i + 1;
      }
      ok := true;
    }
  }

  // ----- what the batch comes to

  /** Every packet is in exactly one buffer to be written, once. */
  lemma EveryPacketOnce(input: seq<Packet>, v: View, n: nat, j: nat)
    requires Valid(input, v, n) && j < n
    ensures j in v.home && v.home[j] in v.segs && NoDup(v.segs[v.home[j]])
    ensures forall w: nat :: w in v.segs && j in v.segs[w] <==> w == v.home[j]
  {
    assert HomeAt(v, j);
    assert SegAt(input, v, n, v.home[j]);
    forall w: nat | w in v.segs && j in v.segs[w] ensures w == v.home[j] { assert SegAt(input, v, n, w); }
  }

  /** What is written out has the last packet's PSH if and only if that packet has none
      or did not arrive before the one that leads the group. */
  lemma PshSurvivesIff(input: seq<Packet>, v: View, n: nat, key: Key, a: nat)
    requires Valid(input, v, n) && key.tcp && key in v.table && a < |v.table[key]|
    ensures var w := v.table[key][a].buf;
            && w in v.segs && w < |v.bufs| && |v.segs[w]| > 0 && v.segs[w][|v.segs[w]|-1] < |input|
            && var idx := v.segs[w]; var last := input[idx[|idx|-1]];
               v.bufs[w].pkt.psh == last.psh <==> !last.psh || idx[0] <= idx[|idx|-1]
  {
    assert ItemAt(input, v, key, a);
  }

  lemma {:induction false} JoinSplit(ms: seq<Packet>, k: nat)
    requires k <= |ms|
    ensures Join(ms) == Join(ms[..k]) + Join(ms[k..])
  {
    if k == |ms| {
      assert ms[..k] == ms && ms[k..] == [];
    } else {
      var front, last := ms[..|ms|-1], ms[|ms|-1];
      JoinSplit(front, k);
      FrontParts(ms, k);
      JoinBack(front[k..], last);
      Associates(Join(ms[..k]), Join(front[k..]), last.payload);
    }
  }

  lemma FrontParts(ms: seq<Packet>, k: nat)
    requires k < |ms|
    ensures var front := ms[..|ms|-1]; front[..k] == ms[..k] && front[k..] + [ms[|ms|-1]] == ms[k..]
  {
  }

  lemma Associates(a: seq<Byte>, b: seq<Byte>, c: seq<Byte>)
    ensures (a + b) + c == a + (b + c)
  {
  }

  lemma SliceBehind(head: seq<Byte>, tail: seq<Byte>, at: nat, n: nat)
    requires at + n <= |tail|
    ensures (head + tail)[|head|+at..|head|+at+n] == tail[at..at+n]
  {
  }

  /** Where the payload of packet k lies in the merged one. */
  lemma JoinAt(ms: seq<Packet>, k: nat)
    requires k < |ms|
    ensures var at := |Join(ms[..k])|;
            at + |ms[k].payload| <= |Join(ms)| && Join(ms)[at..at+|ms[k].payload|] == ms[k].payload
    ensures k == |ms| - 1 ==> |Join(ms)| == |Join(ms[..k])| + |ms[k].payload|
  {
    JoinSplit(ms, k);
    assert ms[k..] == [ms[k]] + ms[k+1..];
    JoinFront(ms[k], ms[k+1..]);
  }

  lemma {:induction false} StartIsPrefix(ms: seq<Packet>, h: GsoSplit.Header, k: nat)
    requires Sizes(ms, h.gsoSize) && k < |ms|
    ensures GsoSplit.Start(h, k) == h.hdrLen + |Join(ms[..k])|
  {
    if k > 0 {
      StartIsPrefix(ms, h, k - 1);
      assert ms[..k] == ms[..k-1] + [ms[k-1]];
      JoinBack(ms[..k-1], ms[k-1]);
    }
  }

  /** Segmenting a merged packet by the size recorded for it gives the packets'
      payloads back. */
  lemma SplitUndoesMerge(item: Item, ms: seq<Packet>, pkt: Packet, head: seq<Byte>, h: GsoSplit.Header, k: nat)
    requires Group(item, ms, pkt) && h.gsoSize == item.gsoSize && h.hdrLen == |head|
    ensures var b := head + pkt.payload; GsoSplit.In(h, |b|, k) <==> k < |ms|
    ensures var b := head + pkt.payload;
            k < |ms| ==> GsoSplit.End(h, |b|, k) <= |b| && GsoSplit.Payload(b, h, k) == ms[k].payload
  {
    var b, last := head + pkt.payload, |ms| - 1;
    StartIsPrefix(ms, h, last);
    JoinAt(ms, last);
    if k < |ms| {
      GsoSplit.StartGrows(h, k, last);
      StartIsPrefix(ms, h, k);
      JoinAt(ms, k);
      LastEnds(ms, h, |b|, k);
      SliceBehind(head, pkt.payload, |Join(ms[..k])|, |ms[k].payload|);
    } else {
      GsoSplit.StartGrows(h, |ms|, k);
    }
  }

  /** Where packet k of a group stands in the sequence. */
  lemma SentAt(item: Item, ms: seq<Packet>, pkt: Packet, k: nat)
    requires Group(item, ms, pkt) && item.key.tcp && k < |ms|
    ensures ms[k].sent == (pkt.sent + |Join(ms[..k])|) % SEQ
  {
    assert Member(ms[0], item, pkt) && Member(ms[k], item, pkt);
    if k > 0 {
      var front := ms[..k];
      ChainOffset(front);
      assert ms[k].sent == (ms[k-1].sent + |ms[k-1].payload|) % SEQ;
    }
  }

  /** Segment k continues the header's sequence number to that of packet k. */
  lemma SegmentSent(item: Item, ms: seq<Packet>, pkt: Packet, h: GsoSplit.Header, k: nat)
    requires Group(item, ms, pkt) && item.key.tcp && h.gsoSize == item.gsoSize && k < |ms|
    ensures ms[k].sent == (pkt.sent + (GsoSplit.Start(h, k) - h.hdrLen)) % SEQ
  {
    StartIsPrefix(ms, h, k);
    SentAt(item, ms, pkt, k);
  }

  lemma LastEnds(ms: seq<Packet>, h: GsoSplit.Header, n: nat, k: nat)
    requires Sizes(ms, h.gsoSize) && k < |ms| && n == h.hdrLen + |Join(ms)|
    ensures GsoSplit.End(h, n, k) == GsoSplit.Start(h, k) + |ms[k].payload|
  {
    var last := |ms| - 1;
    StartIsPrefix(ms, h, last);
    JoinAt(ms, last);
    GsoSplit.StartGrows(h, k, last);
  }

  /** Only the last segment reaches the end. */
  lemma EndsAtLast(ms: seq<Packet>, h: GsoSplit.Header, n: nat, k: nat)
    requires Sizes(ms, h.gsoSize) && k < |ms| && n == h.hdrLen + |Join(ms)|
    ensures GsoSplit.End(h, n, k) == n <==> k == |ms| - 1
  {
    var last := |ms| - 1;
    LastEnds(ms, h, n, k);
    StartIsPrefix(ms, h, last);
    JoinAt(ms, last);
    GsoSplit.StartGrows(h, k, last);
  }
}
