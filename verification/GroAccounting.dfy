/** What is written for a merged packet: lengths and checksums are brought up to date,
    the transport checksum only partially. Completed, it passes the receiver's check;
    segmented, it gives the packets it was merged from. */
module GroAccounting {
  import opened Checksum
  import opened GsoSplit
  import Gro

  /** The virtio header written in front of a merged packet. */
  function HeaderOf(item: Gro.Item): (h: Header)
  {
    Header(item.key.tcp, item.iphLen + item.thLen, item.gsoSize, item.iphLen, if item.key.tcp then 16 else 6)
  }

  // ----- the fields that are written

  /** IPv4 total length and header checksum, or IPv6 payload length. */
  ghost function IpAccounted(b: seq<Byte>, h: Header, v6: bool): (r: seq<Byte>)
    requires Fits(h, |b|, v6)
    ensures |r| == |b|
  {
    if v6 then Put(b, 4, |b| - h.csumStart)
    else
      var z := Put(Put(b, 10, 0), 2, |b|);
      Put(z, 10, 0xffff - Canon(Sum16(z[..h.csumStart])))
  }

  ghost function LengthsAccounted(b: seq<Byte>, h: Header, v6: bool): (r: seq<Byte>)
    requires Fits(h, |b|, v6)
    ensures |r| == |b|
  {
    var ip := IpAccounted(b, h, v6);
    if h.tcp then ip else Put(ip, h.csumStart + 4, |b| - h.csumStart)
  }

  /** The whole packet, with the sum of the pseudo-header in the checksum field. */
  ghost function Accounted(b: seq<Byte>, h: Header, v6: bool): (r: seq<Byte>)
    requires Fits(h, |b|, v6)
    ensures |r| == |b|
  {
    var u := LengthsAccounted(b, h, v6);
    Put(u, h.csumStart + h.csumOffset, Canon(PseudoSum(Protocol(h), v6, u, |b| - h.csumStart)))
  }

  method PutField(b: array<Byte>, at: nat, v: nat)
    requires at + 2 <= b.Length && v < 0x10000
    modifies b
    ensures b[..] == Put(old(b[..]), at, v)
  {
    var w := Put16(v);
    b[at], b[at+1] := w[0], w[1];
  }

  method AccountIp(e: Endian, b: array<Byte>, h: Header, v6: bool)
    requires Fits(h, b.Length, v6)
    modifies b
    ensures b[..] == IpAccounted(old(b[..]), h, v6)
  {
    if v6 {
      PutField(b, 4, b.Length - h.csumStart);
    } else {
      PutField(b, 10, 0);
      PutField(b, 2, b.Length);
      var sum := ChecksumOf(e, b[..h.csumStart], 0);
      assert b[..][..h.csumStart] == b[..h.csumStart];
      PutField(b, 10, 0xffff - sum);
    }
  }

  /** applyTCPCoalesceAccounting and applyUDPCoalesceAccounting, for one merged packet. */
  method Account(e: Endian, b: array<Byte>, h: Header, v6: bool)
    requires Fits(h, b.Length, v6)
    modifies b
    ensures b[..] == Accounted(old(b[..]), h, v6)
  {
    AccountLengths(e, b, h, v6);
    var sum := PartialSum(e, b[..], h, v6);
    PutField(b, h.csumStart + h.csumOffset, sum);
  }

  method AccountLengths(e: Endian, b: array<Byte>, h: Header, v6: bool)
    requires Fits(h, b.Length, v6)
    modifies b
    ensures b[..] == LengthsAccounted(old(b[..]), h, v6)
  {
    AccountIp(e, b, h, v6);
    if !h.tcp { PutField(b, h.csumStart + 4, b.Length - h.csumStart); }
  }

  method PartialSum(e: Endian, u: seq<Byte>, h: Header, v6: bool) returns (sum: nat)
    requires Fits(h, |u|, v6)
    ensures sum == Canon(PseudoSum(Protocol(h), v6, u, |u| - h.csumStart)) < 0x10000
  {
    var pseudo := PseudoChecksum(e, Protocol(h), v6, u, |u| - h.csumStart);
    sum := ChecksumOf(e, [], pseudo);
  }

  // ----- what the packet is then

  lemma PutGet(b: seq<Byte>, at: nat, v: nat)
    requires at + 2 <= |b| && v < 0x10000
    ensures Get16(Put(b, at, v), at) == v
  {
  }

  /** A byte that accounting may change. */
  predicate Refreshed(h: Header, v6: bool, k: nat)
  {
    || SumField(h, v6, k) || (if v6 then 4 <= k < 6 else 2 <= k < 4)
    || (!h.tcp && h.csumStart + 4 <= k < h.csumStart + 6)
  }

  lemma OthersKept(b: seq<Byte>, h: Header, v6: bool, k: nat)
    requires Fits(h, |b|, v6) && k < |b| && !Refreshed(h, v6, k)
    ensures Accounted(b, h, v6)[k] == b[k]
  {
  }

  lemma IpAccountedFields(b: seq<Byte>, h: Header, v6: bool)
    requires Fits(h, |b|, v6)
    ensures var r := IpAccounted(b, h, v6);
            if v6 then Get16(r, 4) == |b| - h.csumStart
            else Get16(r, 2) == |b| && Canon(Sum16(r[..h.csumStart])) == 0xffff
  {
    if v6 {
      PutGet(b, 4, |b| - h.csumStart);
    } else {
      var n := h.csumStart;
      var y := Put(b, 10, 0);
      var z := Put(y, 2, |b|);
      PutGet(y, 2, |b|);
      PutGet(b, 10, 0);
      Get16At(z[..n], y, 10, 10);
      CompletedField(z[..n], 10);
      var r := IpAccounted(b, h, v6);
      assert r[..n] == Put(z[..n], 10, 0xffff - Canon(Sum16(z[..n])));
      Get16At(r, z, 2, 2);
    }
  }

  /** The IP header is valid for the merged packet. */
  lemma HeaderIsValid(b: seq<Byte>, h: Header, v6: bool)
    requires Fits(h, |b|, v6)
    ensures var r := Accounted(b, h, v6);
            if v6 then Get16(r, 4) == |r| - h.csumStart
            else Get16(r, 2) == |r| && Canon(Sum16(r[..h.csumStart])) == 0xffff
  {
    var ip, r := IpAccounted(b, h, v6), Accounted(b, h, v6);
    IpAccountedFields(b, h, v6);
    assert r[..h.csumStart] == ip[..h.csumStart];
    if v6 { Get16At(r, ip, 4, 4); } else { Get16At(r, ip, 2, 2); }
  }

  lemma CanonOnce(n: nat)
    ensures Canon(Canon(n)) == Canon(n)
  {
    SameBy(Canon(n), Canon(n), 0);
    CanonIsUnique(Canon(n), Canon(Canon(n)), Canon(n));
  }

  lemma SameAddresses(r: seq<Byte>, s: seq<Byte>, n: nat, v6: bool)
    requires (if v6 then 40 else 20) <= n <= |r| && n <= |s| && forall k :: 0 <= k < n && k >= 8 ==> s[k] == r[k]
    ensures Src(s, v6) == Src(r, v6) && Dst(s, v6) == Dst(r, v6)
  {
  }

  lemma FieldHoldsPseudo(b: seq<Byte>, h: Header, v6: bool)
    requires Fits(h, |b|, v6)
    ensures var r := Accounted(b, h, v6);
            Get16(r, h.csumStart + h.csumOffset) == Canon(PseudoSum(Protocol(h), v6, r, |r| - h.csumStart))
  {
    var u, r := LengthsAccounted(b, h, v6), Accounted(b, h, v6);
    PutGet(u, h.csumStart + h.csumOffset, Canon(PseudoSum(Protocol(h), v6, u, |b| - h.csumStart)));
    SameAddresses(u, r, h.csumStart, v6);
    SameAddressesSameSum(Protocol(h), v6, u, r, |b| - h.csumStart);
  }

  /** The checksum field holds the sum of addresses, protocol and length. */
  lemma SumIsPartial(b: seq<Byte>, h: Header, v6: bool)
    requires Fits(h, |b|, v6)
    ensures var r := Accounted(b, h, v6);
            Get16(r, h.csumStart + h.csumOffset) ==
            Canon(Sum16(if v6 then r[8..40] else r[12..20]) + (if h.tcp then 6 else 17) + (|r| - h.csumStart))
  {
    FieldHoldsPseudo(b, h, v6);
    PseudoOfMerged(Accounted(b, h, v6), h, v6);
  }

  lemma PseudoOfMerged(r: seq<Byte>, h: Header, v6: bool)
    requires Fits(h, |r|, v6)
    ensures PseudoSum(Protocol(h), v6, r, |r| - h.csumStart) ==
            Sum16(if v6 then r[8..40] else r[12..20]) + (if h.tcp then 6 else 17) + (|r| - h.csumStart)
  {
    var n := |r| - h.csumStart;
    PseudoSumIs(Protocol(h), v6, r, n);
    assert n % 0x10000 == n;
  }

  /** Completing the partial sum makes the packet pass the receiver's check. */
  lemma CompletionIsValid(r: seq<Byte>, s: seq<Byte>, h: Header, v6: bool)
    requires Fits(h, |r|, v6) && |s| == |r|
    requires Get16(r, h.csumStart + h.csumOffset) == Canon(PseudoSum(Protocol(h), v6, r, |r| - h.csumStart))
    requires Canon(Get16(r, h.csumStart + h.csumOffset) + Sum16(s[h.csumStart..])) == 0xffff
    requires forall k :: 0 <= k < h.csumStart ==> s[k] == r[k]
    ensures ChecksumValid(s, h.csumStart, if h.tcp then 6 else 17, v6)
  {
    var sum, body := PseudoSum(Protocol(h), v6, r, |r| - h.csumStart), Sum16(s[h.csumStart..]);
    SameAddresses(r, s, h.csumStart, v6);
    SameAddressesSameSum(Protocol(h), v6, r, s, |r| - h.csumStart);
    CanonOnce(sum);
    CanonAdds(Canon(sum), sum, body);
    ValidByPseudo(s, h.csumStart, Protocol(h), v6);
  }

  /** A merged packet, accounted for and then completed by gsoNoneChecksum, is valid,
      and no other byte has changed. */
  method AccountAndComplete(e: Endian, b: array<Byte>, h: Header, v6: bool)
    requires Fits(h, b.Length, v6) && Standard(h)
    modifies b
    ensures ChecksumValid(b[..], h.csumStart, if h.tcp then 6 else 17, v6)
    ensures KeptApart(old(b[..]), b[..], h, v6)
  {
    ghost var before := b[..];
    Account(e, b, h, v6);
    ghost var r := b[..];
    FieldHoldsPseudo(before, h, v6);
    CompleteSum(e, b, h, v6);
    Finished(before, r, b[..], h, v6);
  }

  /** gsoNoneChecksum on a packet whose field holds the sum of its pseudo-header. */
  method CompleteSum(e: Endian, b: array<Byte>, h: Header, v6: bool)
    requires Fits(h, b.Length, v6) && Standard(h)
    requires Get16(b[..], h.csumStart + h.csumOffset) ==
             Canon(PseudoSum(Protocol(h), v6, b[..], b.Length - h.csumStart))
    modifies b
    ensures ChecksumValid(b[..], h.csumStart, if h.tcp then 6 else 17, v6) && OnlySum(old(b[..]), b[..], h)
  {
    ghost var r := b[..];
    CompletePartial(e, b, h.csumStart, h.csumOffset);
    assert b[..][h.csumStart..] == b[h.csumStart..];
    CompletionIsValid(r, b[..], h, v6);
  }

  /** Only the checksum field has changed. */
  ghost predicate OnlySum(r: seq<Byte>, s: seq<Byte>, h: Header)
  {
    var at := h.csumStart + h.csumOffset;
    |s| == |r| && forall k :: 0 <= k < |s| && !(at <= k < at + 2) ==> s[k] == r[k]
  }

  ghost predicate KeptApart(b: seq<Byte>, s: seq<Byte>, h: Header, v6: bool)
  {
    |s| == |b| && forall k: nat :: k < |b| && !Refreshed(h, v6, k) ==> s[k] == b[k]
  }

  lemma Finished(b: seq<Byte>, r: seq<Byte>, s: seq<Byte>, h: Header, v6: bool)
    requires Fits(h, |b|, v6) && r == Accounted(b, h, v6) && OnlySum(r, s, h)
    ensures KeptApart(b, s, h, v6)
  {
    forall k: nat | k < |b| && !Refreshed(h, v6, k) ensures s[k] == b[k] { OthersKept(b, h, v6, k); }
  }

  // ----- segmenting it again

  predicate Psh(flags: Byte) { flags / 8 % 2 == 1 }

  /** b is the packet pkt in bytes, as far as merging looks at it. */
  predicate Carries(b: seq<Byte>, pkt: Gro.Packet, h: Header)
  {
    && h.hdrLen <= |b| && b[h.hdrLen..] == pkt.payload
    && (h.tcp ==> h.csumStart + 20 <= h.hdrLen)
    && (h.tcp ==> Get32(b, h.csumStart + 4) == pkt.sent && (Psh(b[h.csumStart + 13]) <==> pkt.psh))
  }

  /** The packets of an item that merged some. */
  predicate Merged(item: Gro.Item, ms: seq<Gro.Packet>, pkt: Gro.Packet)
  {
    item.numMerged > 0 && Gro.Group(item, ms, pkt)
  }

  lemma GroupFits(item: Gro.Item, ms: seq<Gro.Packet>, pkt: Gro.Packet, b: seq<Byte>)
    requires Merged(item, ms, pkt) && Carries(b, pkt, HeaderOf(item))
    ensures Fits(HeaderOf(item), |b|, item.key.v6) && |b| == item.iphLen + item.thLen + |pkt.payload|
  {
    assert Gro.Member(ms[0], item, pkt);
    assert |ms[0].payload| == item.gsoSize;
    assert |b[HeaderOf(item).hdrLen..]| == |pkt.payload|;
    Gro.JoinLength(ms, item.gsoSize);
  }

  /** Accounting leaves what merging looks at. */
  lemma AccountedCarries(b: seq<Byte>, pkt: Gro.Packet, h: Header, v6: bool)
    requires Fits(h, |b|, v6) && Standard(h) && Carries(b, pkt, h)
    ensures Carries(Accounted(b, h, v6), pkt, h)
  {
    var r := Accounted(b, h, v6);
    forall k | h.hdrLen <= k < |b| ensures r[k] == b[k] { OthersKept(b, h, v6, k); }
    assert r[h.hdrLen..] == b[h.hdrLen..];
    if h.tcp {
      var at := h.csumStart + 4;
      forall k | at <= k < at + 4 || k == h.csumStart + 13 ensures r[k] == b[k] { OthersKept(b, h, v6, k); }
      Get32At(r, b, at, at);
    }
  }

  /** The segment has the payload of packet k. */
  lemma SegmentHasPayload(item: Gro.Item, ms: seq<Gro.Packet>, pkt: Gro.Packet, a: seq<Byte>, c: seq<Byte>, k: nat)
    requires var h := HeaderOf(item);
             Merged(item, ms, pkt) && Carries(a, pkt, h) && Cleared(a, c, h, item.key.v6)
    ensures var h := HeaderOf(item);
            && Fits(h, |c|, item.key.v6) && (In(h, |c|, k) <==> k < |ms|)
            && (k < |ms| ==> Segment(c, h, k, item.key.v6)[h.hdrLen..] == ms[k].payload)
            && (k < |ms| ==> (End(h, |c|, k) == |c| <==> k == |ms| - 1))
  {
    var h, v6 := HeaderOf(item), item.key.v6;
    GroupFits(item, ms, pkt, a);
    var head := c[..h.hdrLen];
    forall j | h.hdrLen <= j < |c| ensures c[j] == a[j] { assert !SumField(h, v6, j); }
    assert c == head + pkt.payload by { assert c[h.hdrLen..] == a[h.hdrLen..]; }
    Gro.SplitUndoesMerge(item, ms, pkt, head, h, k);
    if k < |ms| {
      SegmentPayload(c, h, k, v6);
      Gro.LastEnds(ms, h, |c|, k);
      Gro.LastEnds(ms, h, |c|, |ms| - 1);
      StartGrows(h, k, |ms| - 1);
      Gro.EndsAtLast(ms, h, |c|, k);
    }
  }

  lemma SequenceIsPacket(item: Gro.Item, ms: seq<Gro.Packet>, pkt: Gro.Packet, h: Header, k: nat)
    requires Merged(item, ms, pkt) && item.key.tcp && h.gsoSize == item.gsoSize && k < |ms|
    requires Start(h, k) - h.hdrLen < 0x1_0000_0000
    ensures pkt.sent < 0x1_0000_0000
    ensures AddMod(pkt.sent, Start(h, k) - h.hdrLen, 0x1_0000_0000) == ms[k].sent
  {
    assert Gro.Member(ms[0], item, pkt);
    Gro.SegmentSent(item, ms, pkt, h, k);
    Shifted(pkt.sent, Start(h, k) - h.hdrLen, ms[k].sent);
  }

  lemma FlagsStay(a: seq<Byte>, c: seq<Byte>, h: Header, v6: bool)
    requires Fits(h, |c|, v6) && Cleared(a, c, h, v6) && h.tcp && Standard(h)
    ensures c[h.csumStart + 13] == a[h.csumStart + 13]
  {
  }

  lemma Shifted(x: nat, y: nat, z: nat)
    requires x < 0x1_0000_0000 && y < 0x1_0000_0000 && z == (x + y) % 0x1_0000_0000
    ensures AddMod(x, y, 0x1_0000_0000) == z
  {
  }

  lemma SegmentHasPsh(c: seq<Byte>, h: Header, k: nat, v6: bool)
    requires Fits(h, |c|, v6) && In(h, |c|, k) && h.tcp && Standard(h)
    ensures |Segment(c, h, k, v6)| > h.csumStart + 13
    ensures Psh(Segment(c, h, k, v6)[h.csumStart + 13]) <==> End(h, |c|, k) == |c| && Psh(c[h.csumStart + 13])
  {
    TotalFits(h, |c|, k, v6);
    OtherHeaderBytesKept(c, h, k, v6, h.csumStart + 13);
  }

  /** A merged packet, accounted for as it is written and then segmented: exactly the
      packets it was merged from, with valid checksums; their payloads and sequence
      numbers, and PSH on the last if the header kept it. */
  lemma SplitRestoresPackets(item: Gro.Item, ms: seq<Gro.Packet>, pkt: Gro.Packet, b: seq<Byte>, c: seq<Byte>, k: nat)
    requires var h := HeaderOf(item);
             && Merged(item, ms, pkt) && Carries(b, pkt, h) && Fits(h, |b|, item.key.v6)
             && Cleared(Accounted(b, h, item.key.v6), c, h, item.key.v6)
    ensures var h, v6 := HeaderOf(item), item.key.v6;
            && (In(h, |c|, k) <==> k < |ms|)
            && (k < |ms| ==>
                  && var s := Segment(c, h, k, v6);
                  && s[h.hdrLen..] == ms[k].payload && ChecksumValid(s, h.csumStart, if h.tcp then 6 else 17, v6)
                  && (h.tcp ==>
                        && Get32(s, h.csumStart + 4) == ms[k].sent
                        && (Psh(s[h.csumStart + 13]) <==> k == |ms| - 1 && pkt.psh)))
  {
    var h, v6 := HeaderOf(item), item.key.v6;
    var a := Accounted(b, h, v6);
    AccountedCarries(b, pkt, h, v6);
    SegmentHasPayload(item, ms, pkt, a, c, k);
    if k < |ms| {
      SegmentChecksumIsValid(a, c, h, k, v6);
      if h.tcp {
        SequencesAreContiguous(a, c, h, k, v6);
        SequenceIsPacket(item, ms, pkt, h, k);
        SegmentHasPsh(c, h, k, v6);
        FlagsStay(a, c, h, v6);
      }
    }
  }

  /** The PSH bits of all segments are those of the packets if and only if the header
      of the merged packet has the last one's. */
  lemma SplitRestoresPshIff(item: Gro.Item, ms: seq<Gro.Packet>, pkt: Gro.Packet, b: seq<Byte>, c: seq<Byte>)
    requires var h := HeaderOf(item);
             && Merged(item, ms, pkt) && item.key.tcp && Carries(b, pkt, h) && Fits(h, |b|, item.key.v6)
             && Cleared(Accounted(b, h, item.key.v6), c, h, item.key.v6)
    ensures (forall k: nat :: k < |ms| ==> PshComesBack(item, ms, c, k)) <==> pkt.psh == ms[|ms|-1].psh
  {
    forall k: nat | k < |ms| ensures PshComesBack(item, ms, c, k) <==> k < |ms| - 1 || pkt.psh == ms[|ms|-1].psh {
      SplitRestoresPackets(item, ms, pkt, b, c, k);
      assert Gro.PshLast(ms);
    }
    assert PshComesBack(item, ms, c, |ms| - 1) <==> pkt.psh == ms[|ms|-1].psh;
  }

  ghost predicate PshComesBack(item: Gro.Item, ms: seq<Gro.Packet>, c: seq<Byte>, k: nat)
    requires k < |ms|
  {
    var h, v6 := HeaderOf(item), item.key.v6;
    && Fits(h, |c|, v6) && In(h, |c|, k) && |Segment(c, h, k, v6)| > h.csumStart + 13
    && (Psh(Segment(c, h, k, v6)[h.csumStart + 13]) <==> ms[k].psh)
  }
}
