/** Segmentation: one large packet with a partial checksum becomes segments, each
    with its own headers and complete checksums. */
module GsoSplit {
  import opened Checksum

  const MAX_LEN: int := 65535
  const TCP: Byte := 6
  const UDP: Byte := 17

  /** What gsoSplit uses of the virtio header. */
  datatype Header = Header(tcp: bool, hdrLen: nat, gsoSize: nat, csumStart: nat, csumOffset: nat)

  /** Both headers lie inside the packet, with the checksum field in the transport header. */
  predicate Fits(h: Header, n: nat, v6: bool)
  {
    && n <= MAX_LEN && h.gsoSize < 0x10000
    && (if v6 then 40 else 20) <= h.csumStart
    && h.csumStart + (if h.tcp then 20 else 8) <= h.hdrLen <= n
    && h.csumOffset + 2 <= h.hdrLen - h.csumStart
  }

  predicate Standard(h: Header) { h.csumOffset == if h.tcp then 16 else 6 }

  function Protocol(h: Header): Byte { if h.tcp then TCP else UDP }

  // ----- fields

  function Get16(b: seq<Byte>, at: nat): (v: nat)
    requires at + 2 <= |b|
    ensures v < 0x10000
  {
    256 * (b[at] as int) + (b[at+1] as int)
  }

  ghost function Put(b: seq<Byte>, at: nat, v: nat): (r: seq<Byte>)
    requires at + 2 <= |b| && v < 0x10000
    ensures |r| == |b|
  {
    var w := Bytes16(v);
    b[at := w[0]][at+1 := w[1]]
  }

  /** Machine addition of values below m. */
  function AddMod(x: nat, y: nat, m: nat): (s: nat)
    requires x < m && y < m
    ensures s < m
  {
    if x + y < m then x + y else x + y - m
  }

  function Get32(b: seq<Byte>, at: nat): (v: nat)
    requires at + 4 <= |b|
    ensures v < 0x1_0000_0000
  {
    0x10000 * Get16(b, at) + Get16(b, at + 2)
  }

  /** w is v written as four bytes, most significant first. */
  predicate Encodes32(w: seq<Byte>, v: nat) { |w| == 4 && Get32(w, 0) == v }

  ghost function Bytes32(v: nat): (w: seq<Byte>)
    requires v < 0x1_0000_0000
    ensures Encodes32(w, v)
  {
    assert Encodes32(Bytes16(v / 0x10000) + Bytes16(v % 0x10000), v);
    var w :| Encodes32(w, v);
    w
  }

  ghost function Put32(b: seq<Byte>, at: nat, v: nat): (r: seq<Byte>)
    requires at + 4 <= |b| && v < 0x1_0000_0000
    ensures |r| == |b|
  {
    var w := Bytes32(v);
    b[at := w[0]][at+1 := w[1]][at+2 := w[2]][at+3 := w[3]]
  }

  /** Writing a 16-bit field at an even offset changes the sum by just that field. */
  lemma PutSum(b: seq<Byte>, at: nat, v: nat)
    requires at + 2 <= |b| && v < 0x10000 && at % 2 == 0
    ensures Sum16(Put(b, at, v)) == Sum16(b) - Get16(b, at) + v
  {
    SumAround(b, at);
    SumAround(Put(b, at, v), at);
    assert Put(b, at, v)[..at] == b[..at];
    assert Put(b, at, v)[at+2..] == b[at+2..];
  }

  lemma SumAround(b: seq<Byte>, at: nat)
    requires at + 2 <= |b| && at % 2 == 0
    ensures Sum16(b) == Sum16(b[..at]) + Get16(b, at) + Sum16(b[at+2..])
  {
    Advance(b, at);
    assert b[at..][2..] == b[at+2..];
  }

  /** The complement of a sum, added to it, gives all ones. */
  lemma ComplementCompletes(s: nat)
    ensures Canon(s + (0xffff - Canon(s))) == 0xffff
  {
    var c: int := Canon(s);
    SameBy(0xffff - c, -c, 1);
    SameAdd(s, c, 0xffff - c, -c) by { SameTrans(s, c, c) by { SameBy(c, c, 0); } }
    var t := s + (0xffff - c);
    SameBy(0xffff, 0, 1);
    SameTrans(0xffff, 0, t);
    CanonIsUnique(0xffff, Canon(t), t);
  }

  // ----- one segment

  /** Where the data of segment i begins. */
  function Start(h: Header, i: nat): (k: nat)
    ensures k >= h.hdrLen
  {
    if i == 0 then h.hdrLen else Start(h, i - 1) + h.gsoSize
  }

  lemma {:induction false} StartGrows(h: Header, i: nat, j: nat)
    requires i <= j
    ensures Start(h, i) <= Start(h, j) && (i < j ==> Start(h, i) + h.gsoSize <= Start(h, j))
  {
    if i < j { StartGrows(h, i, j - 1); }
  }

  function End(h: Header, n: nat, i: nat): (k: nat)
  {
    if Start(h, i) + h.gsoSize > n then n else Start(h, i) + h.gsoSize
  }

  /** Segment i exists. */
  predicate In(h: Header, n: nat, i: nat) { Start(h, i) < n }

  function TotalLen(h: Header, n: nat, i: nat): (k: nat)
    requires In(h, n, i)
  {
    h.hdrLen + (End(h, n, i) - Start(h, i))
  }

  lemma TotalFits(h: Header, n: nat, i: nat, v6: bool)
    requires Fits(h, n, v6) && In(h, n, i)
    ensures h.hdrLen <= TotalLen(h, n, i) <= n
    ensures h.hdrLen <= Start(h, i) <= End(h, n, i) <= n
  {
  }

  ghost function WithId(ip: seq<Byte>, i: nat): (r: seq<Byte>)
    requires |ip| >= 6
    ensures |r| == |ip|
  {
    if i > 0 then Put(ip, 4, AddMod(Get16(ip, 4), i % 0x10000, 0x10000)) else ip
  }

  ghost function IpUnsummed(b: seq<Byte>, h: Header, i: nat): (r: seq<Byte>)
    requires Fits(h, |b|, false) && In(h, |b|, i)
    ensures |r| == h.csumStart
  {
    TotalFits(h, |b|, i, false);
    var ip := b[..h.csumStart];
    Put(WithId(ip, i), 2, TotalLen(h, |b|, i))
  }

  ghost function IpHeader(b: seq<Byte>, h: Header, i: nat, v6: bool): (r: seq<Byte>)
    requires Fits(h, |b|, v6) && In(h, |b|, i)
    ensures |r| == h.csumStart
  {
    TotalFits(h, |b|, i, v6);
    if v6 then Put(b[..h.csumStart], 4, TotalLen(h, |b|, i) - h.csumStart)
    else
      var ip := IpUnsummed(b, h, i);
      Put(ip, 10, 0xffff - Canon(Sum16(ip)))
  }

  /** r has FIN (bit 0) and PSH (bit 3) clear, and f is r with some of them set. */
  predicate FinPshCleared(f: Byte, r: Byte)
  {
    r % 2 == 0 && r / 8 % 2 == 0 && (f == r || f == r + 1 || f == r + 8 || f == r + 9)
  }

  ghost function ClearFinPsh(f: Byte): (r: Byte)
    ensures FinPshCleared(f, r)
  {
    FlagsSplit(f);
    var r: Byte :| FinPshCleared(f, r);
    r
  }

  lemma FlagsSplit(f: Byte)
    ensures FinPshCleared(f, f - f % 2 - 8 * (f / 8 % 2))
  {
    var even := f - f % 2;
    assert even % 2 == 0 && even / 8 == f / 8;
    if f / 8 % 2 == 1 { assert (even - 8) / 8 == f / 8 - 1 && (even - 8) % 2 == 0; }
  }

  lemma ClearingIsUnique(f: Byte, r: Byte, r': Byte)
    requires FinPshCleared(f, r) && FinPshCleared(f, r')
    ensures r == r'
  {
    assert (r + 8) / 8 == r / 8 + 1 && (r' + 8) / 8 == r' / 8 + 1;
  }

  /** The product g * i in 16-bit arithmetic, as repeated addition. */
  function Product16(g: nat, i: nat): (p: nat)
    requires g < 0x10000
    ensures p < 0x10000
  {
    if i == 0 then 0 else AddMod(Product16(g, i - 1), g, 0x10000)
  }

  lemma {:induction false} Product16IsProduct(g: nat, i: nat)
    requires g < 0x10000
    ensures Product16(g, i) == g * i % 0x10000
  {
    if i > 0 {
      Product16IsProduct(g, i - 1);
      assert g * i == g * (i - 1) + g;
      AddModStep(g * (i - 1), g);
    }
  }

  lemma AddModStep(x: nat, g: nat)
    requires g < 0x10000
    ensures AddMod(x % 0x10000, g, 0x10000) == (x + g) % 0x10000
  {
  }

  /** The sequence number written, in the source's 16-bit and 32-bit arithmetic. */
  function Sequence(first: nat, h: Header, i: nat): (s: nat)
    requires h.gsoSize < 0x10000 && first < 0x1_0000_0000
    ensures s < 0x1_0000_0000
  {
    AddMod(first, Product16(h.gsoSize, i), 0x1_0000_0000)
  }

  ghost function Transport(b: seq<Byte>, h: Header, i: nat, v6: bool): (r: seq<Byte>)
    requires Fits(h, |b|, v6) && In(h, |b|, i)
    ensures |r| == h.hdrLen - h.csumStart
  {
    TotalFits(h, |b|, i, v6);
    var th := b[h.csumStart..h.hdrLen];
    if h.tcp then
      var t := Put32(th, 4, Sequence(Get32(th, 4), h, i));
      if End(h, |b|, i) != |b| then t[13 := ClearFinPsh(t[13])] else t
    else Put(th, 4, End(h, |b|, i) - Start(h, i) + (h.hdrLen - h.csumStart))
  }

  function Payload(b: seq<Byte>, h: Header, i: nat): (r: seq<Byte>)
    requires h.hdrLen <= Start(h, i) <= End(h, |b|, i) <= |b|
  {
    b[Start(h, i)..End(h, |b|, i)]
  }

  function Src(b: seq<Byte>, v6: bool): (r: seq<Byte>)
    requires |b| >= if v6 then 40 else 20
    ensures |r| == if v6 then 16 else 4
  {
    if v6 then b[8..24] else b[12..16]
  }

  function Dst(b: seq<Byte>, v6: bool): (r: seq<Byte>)
    requires |b| >= if v6 then 40 else 20
    ensures |r| == if v6 then 16 else 4
  {
    if v6 then b[24..40] else b[16..20]
  }

  /** The sum over the pseudo-header of a body of the given length. */
  ghost function PseudoSum(proto: Byte, v6: bool, addrs: seq<Byte>, length: nat): (s: nat)
    requires |addrs| >= if v6 then 40 else 20
  {
    Sum16(PseudoHeader(proto, Src(addrs, v6), Dst(addrs, v6), length % 0x10000))
  }

  ghost function Unsummed(b: seq<Byte>, h: Header, i: nat, v6: bool): (r: seq<Byte>)
    requires Fits(h, |b|, v6) && In(h, |b|, i)
    ensures |r| == TotalLen(h, |b|, i) - h.csumStart
  {
    TotalFits(h, |b|, i, v6);
    Transport(b, h, i, v6) + Payload(b, h, i)
  }

  ghost function Body(b: seq<Byte>, h: Header, i: nat, v6: bool): (r: seq<Byte>)
    requires Fits(h, |b|, v6) && In(h, |b|, i)
    ensures |r| == TotalLen(h, |b|, i) - h.csumStart
  {
    var u := Unsummed(b, h, i, v6);
    Completed(PseudoSum(Protocol(h), v6, b, |u|), u, h.csumOffset)
  }

  ghost function Segment(b: seq<Byte>, h: Header, i: nat, v6: bool): (r: seq<Byte>)
    requires Fits(h, |b|, v6) && In(h, |b|, i)
    ensures |r| == TotalLen(h, |b|, i)
  {
    IpHeader(b, h, i, v6) + Body(b, h, i, v6)
  }

  // ----- what every segment satisfies

  /** The check the receiver makes: the bytes of both addresses, the protocol, the
      16-bit length of the body and the body itself sum to all ones. */
  ghost predicate ChecksumValid(pkt: seq<Byte>, iphLen: nat, proto: Byte, v6: bool)
    requires (if v6 then 40 else 20) <= iphLen <= |pkt|
  {
    var addresses := if v6 then pkt[8..40] else pkt[12..20];
    Canon(Sum16(addresses) + proto + (|pkt| - iphLen) % 0x10000 + Sum16(pkt[iphLen..])) == 0xffff
  }

  /** The sum of the pseudo-header, from the bytes it is made of. */
  lemma PseudoSumIs(proto: Byte, v6: bool, pkt: seq<Byte>, length: nat)
    requires |pkt| >= if v6 then 40 else 20
    ensures PseudoSum(proto, v6, pkt, length) ==
            Sum16(if v6 then pkt[8..40] else pkt[12..20]) + proto + length % 0x10000
  {
    var src, dst, len := Src(pkt, v6), Dst(pkt, v6), Bytes16(length % 0x10000);
    assert src + dst == if v6 then pkt[8..40] else pkt[12..20];
    SumConcat(src + dst + Zeroed(proto), len);
    SumConcat(src + dst, Zeroed(proto));
    SumOfTwo(Zeroed(proto));
    SumOfTwo(len);
  }

  lemma SumOfTwo(w: seq<Byte>)
    requires |w| == 2
    ensures Sum16(w) == Get16(w, 0)
  {
    assert w[2..] == [];
  }

  /** So the check is on the sum of pseudo-header and body. */
  lemma ValidByPseudo(pkt: seq<Byte>, iphLen: nat, proto: Byte, v6: bool)
    requires (if v6 then 40 else 20) <= iphLen <= |pkt|
    ensures ChecksumValid(pkt, iphLen, proto, v6) <==>
            Canon(PseudoSum(proto, v6, pkt, |pkt| - iphLen) + Sum16(pkt[iphLen..])) == 0xffff
  {
    PseudoSumIs(proto, v6, pkt, |pkt| - iphLen);
  }

  /** Position k holds part of a checksum that is cleared on entry. */
  predicate SumField(h: Header, v6: bool, k: nat)
  {
    h.csumStart + h.csumOffset <= k < h.csumStart + h.csumOffset + 2 || (!v6 && 10 <= k < 12)
  }

  /** c is the packet b as gsoSplit leaves it: IPv4 and transport checksums cleared. */
  predicate Cleared(b: seq<Byte>, c: seq<Byte>, h: Header, v6: bool)
  {
    |c| == |b| && forall k: nat :: k < |c| ==> c[k] == if SumField(h, v6, k) then 0 else b[k]
  }

  lemma Get16At(b: seq<Byte>, c: seq<Byte>, at: nat, at': nat)
    requires at + 2 <= |b| && at' + 2 <= |c| && b[at] == c[at'] && b[at+1] == c[at'+1]
    ensures Get16(b, at) == Get16(c, at')
  {
  }

  lemma UnsummedIpFields(c: seq<Byte>, h: Header, i: nat)
    requires Fits(h, |c|, false) && In(h, |c|, i)
    ensures var ip := IpUnsummed(c, h, i);
            Get16(ip, 2) == TotalLen(h, |c|, i) && Get16(ip, 4) == AddMod(Get16(c, 4), i % 0x10000, 0x10000)
              && Get16(ip, 10) == Get16(c, 10)
  {
    TotalFits(h, |c|, i, false);
    var ip := c[..h.csumStart];
    Get16At(ip, c, 4, 4);
    Get16At(IpUnsummed(c, h, i), c, 10, 10);
    Get16At(IpUnsummed(c, h, i), WithId(ip, i), 4, 4);
  }

  lemma Parts(c: seq<Byte>, h: Header, i: nat, v6: bool)
    requires Fits(h, |c|, v6) && In(h, |c|, i)
    ensures var s := Segment(c, h, i, v6);
            s[..h.csumStart] == IpHeader(c, h, i, v6) && s[h.csumStart..] == Body(c, h, i, v6)
  {
  }

  lemma Ipv4Fields(c: seq<Byte>, h: Header, i: nat)
    requires Fits(h, |c|, false) && In(h, |c|, i) && Get16(c, 10) == 0
    ensures var ip := IpHeader(c, h, i, false);
            && Canon(Sum16(ip)) == 0xffff
            && Get16(ip, 2) == TotalLen(h, |c|, i) && Get16(ip, 4) == AddMod(Get16(c, 4), i % 0x10000, 0x10000)
  {
    var ip, full := IpUnsummed(c, h, i), IpHeader(c, h, i, false);
    UnsummedIpFields(c, h, i);
    CompletedField(ip, 10);
    Get16At(full, ip, 2, 2);
    Get16At(full, ip, 4, 4);
  }

  /** IPv4 headers check out and carry the segment's own length and identification. */
  lemma Ipv4HeaderIsValid(b: seq<Byte>, c: seq<Byte>, h: Header, i: nat)
    requires Fits(h, |b|, false) && Cleared(b, c, h, false) && In(h, |b|, i)
    ensures var s := Segment(c, h, i, false);
            && Canon(Sum16(s[..h.csumStart])) == 0xffff
            && Get16(s, 2) == |s| && Get16(s, 4) == AddMod(Get16(b, 4), i % 0x10000, 0x10000)
  {
    Get16At(b, c, 4, 4);
    Ipv4Fields(c, h, i);
    Parts(c, h, i, false);
    var s := Segment(c, h, i, false);
    Get16At(s, s[..h.csumStart], 2, 2);
    Get16At(s, s[..h.csumStart], 4, 4);
  }

  /** Writing the complement of a sum into its cleared, even-placed field completes it. */
  lemma CompletedField(b: seq<Byte>, at: nat)
    requires at + 2 <= |b| && at % 2 == 0 && Get16(b, at) == 0
    ensures Canon(Sum16(Put(b, at, 0xffff - Canon(Sum16(b))))) == 0xffff
  {
    PutSum(b, at, 0xffff - Canon(Sum16(b)));
    ComplementCompletes(Sum16(b));
  }

  lemma Ipv6LengthIsOwn(b: seq<Byte>, c: seq<Byte>, h: Header, i: nat)
    requires Fits(h, |b|, true) && Cleared(b, c, h, true) && In(h, |b|, i)
    ensures var s := Segment(c, h, i, true);
            Get16(s, 4) == |s| - h.csumStart
  {
    TotalFits(h, |b|, i, true);
  }

  lemma AddressesKept(c: seq<Byte>, h: Header, i: nat, v6: bool)
    requires Fits(h, |c|, v6) && In(h, |c|, i)
    ensures var s := Segment(c, h, i, v6); Src(s, v6) == Src(c, v6) && Dst(s, v6) == Dst(c, v6)
  {
    var s, ip := Segment(c, h, i, v6), IpHeader(c, h, i, v6);
    forall k | (if v6 then 8 else 12) <= k < h.csumStart ensures s[k] == c[k] {
      IpAt(c, h, i, v6, k);
    }
  }

  lemma ChecksumFieldStaysClear(c: seq<Byte>, h: Header, i: nat, v6: bool)
    requires Fits(h, |c|, v6) && In(h, |c|, i) && Standard(h) && Get16(c, h.csumStart + h.csumOffset) == 0
    ensures Get16(Unsummed(c, h, i, v6), h.csumOffset) == 0
  {
    var t := Transport(c, h, i, v6);
    var u := Unsummed(c, h, i, v6);
    assert u[h.csumOffset] == t[h.csumOffset] == c[h.csumStart + h.csumOffset];
    assert u[h.csumOffset+1] == t[h.csumOffset+1] == c[h.csumStart + h.csumOffset + 1];
  }

  lemma SameAddressesSameSum(proto: Byte, v6: bool, a: seq<Byte>, a': seq<Byte>, length: nat)
    requires |a| >= (if v6 then 40 else 20) && |a'| >= if v6 then 40 else 20
    requires Src(a, v6) == Src(a', v6) && Dst(a, v6) == Dst(a', v6)
    ensures PseudoSum(proto, v6, a', length) == PseudoSum(proto, v6, a, length)
  {
  }

  /** u with the complement of its sum, on top of the given one, written at an offset. */
  ghost function Completed(pseudo: nat, u: seq<Byte>, at: nat): (r: seq<Byte>)
    requires at + 2 <= |u|
    ensures |r| == |u|
  {
    Put(u, at, 0xffff - Canon(pseudo + Sum16(u)))
  }

  lemma CompletedSum(pseudo: nat, u: seq<Byte>, at: nat)
    requires at + 2 <= |u| && at % 2 == 0 && Get16(u, at) == 0
    ensures Canon(pseudo + Sum16(Completed(pseudo, u, at))) == 0xffff
  {
    var sum := pseudo + Sum16(u);
    PutSum(u, at, 0xffff - Canon(sum));
    ComplementCompletes(sum);
  }

  /** With the protocol's own checksum offset every segment passes the receiver's check. */
  lemma SegmentChecksumIsValid(b: seq<Byte>, c: seq<Byte>, h: Header, i: nat, v6: bool)
    requires Fits(h, |b|, v6) && Cleared(b, c, h, v6) && In(h, |b|, i) && Standard(h)
    ensures ChecksumValid(Segment(c, h, i, v6), h.csumStart, if h.tcp then 6 else 17, v6)
  {
    var s, u, body := Segment(c, h, i, v6), Unsummed(c, h, i, v6), Body(c, h, i, v6);
    Parts(c, h, i, v6);
    AddressesKept(c, h, i, v6);
    ChecksumFieldStaysClear(c, h, i, v6);
    CompletedSum(PseudoSum(Protocol(h), v6, c, |u|), u, h.csumOffset);
    SameAddressesSameSum(Protocol(h), v6, c, s, |u|);
    ValidByPseudo(s, h.csumStart, Protocol(h), v6);
  }

  lemma Get32At(b: seq<Byte>, c: seq<Byte>, at: nat, at': nat)
    requires at + 4 <= |b| && at' + 4 <= |c|
    requires b[at] == c[at'] && b[at+1] == c[at'+1] && b[at+2] == c[at'+2] && b[at+3] == c[at'+3]
    ensures Get32(b, at) == Get32(c, at')
  {
  }

  lemma Put32Get(b: seq<Byte>, at: nat, v: nat)
    requires at + 4 <= |b| && v < 0x1_0000_0000
    ensures Get32(Put32(b, at, v), at) == v
  {
    Get32At(Put32(b, at, v), Bytes32(v), at, 0);
  }

  lemma SegmentAt(c: seq<Byte>, h: Header, i: nat, v6: bool, k: nat)
    requires Fits(h, |c|, v6) && In(h, |c|, i) && k < h.hdrLen
    requires !(h.csumStart + h.csumOffset <= k < h.csumStart + h.csumOffset + 2)
    ensures Segment(c, h, i, v6)[k] ==
            if k < h.csumStart then IpHeader(c, h, i, v6)[k] else Transport(c, h, i, v6)[k - h.csumStart]
  {
  }

  /** The 16-bit product never wraps inside a packet. */
  lemma {:induction false} ProductIsExact(h: Header, i: nat)
    requires Start(h, i) < MAX_LEN && h.gsoSize < 0x10000
    ensures Product16(h.gsoSize, i) == Start(h, i) - h.hdrLen
  {
    if i > 0 { ProductIsExact(h, i - 1); }
  }

  lemma TransportSequence(c: seq<Byte>, h: Header, i: nat, v6: bool)
    requires Fits(h, |c|, v6) && In(h, |c|, i) && h.tcp
    ensures Get32(Transport(c, h, i, v6), 4) == Sequence(Get32(c, h.csumStart + 4), h, i)
  {
    var th := c[h.csumStart..h.hdrLen];
    Get32At(th, c, 4, h.csumStart + 4);
    var s := Sequence(Get32(th, 4), h, i);
    Put32Get(th, 4, s);
    Get32At(Transport(c, h, i, v6), Put32(th, 4, s), 4, 4);
  }

  lemma SequenceIsExact(first: nat, h: Header, i: nat)
    requires Start(h, i) < MAX_LEN && h.gsoSize < 0x10000 && first < 0x1_0000_0000
    ensures Sequence(first, h, i) == AddMod(first, Start(h, i) - h.hdrLen, 0x1_0000_0000)
  {
    ProductIsExact(h, i);
  }

  lemma ClearedSequence(b: seq<Byte>, c: seq<Byte>, h: Header, v6: bool)
    requires Fits(h, |b|, v6) && Cleared(b, c, h, v6) && h.tcp && Standard(h)
    ensures Get32(c, h.csumStart + 4) == Get32(b, h.csumStart + 4)
  {
    var at := h.csumStart + 4;
    Get32At(c, b, at, at);
  }

  lemma SegmentSequence(c: seq<Byte>, h: Header, i: nat, v6: bool)
    requires Fits(h, |c|, v6) && In(h, |c|, i) && h.tcp && Standard(h)
    ensures Get32(Segment(c, h, i, v6), h.csumStart + 4) == Get32(Transport(c, h, i, v6), 4)
  {
    var s, t, at := Segment(c, h, i, v6), Transport(c, h, i, v6), h.csumStart + 4;
    SegmentAt(c, h, i, v6, at);
    SegmentAt(c, h, i, v6, at + 1);
    SegmentAt(c, h, i, v6, at + 2);
    SegmentAt(c, h, i, v6, at + 3);
    Get32At(s, t, at, 4);
  }

  /** TCP sequence numbers continue the original's. */
  lemma SequencesAreContiguous(b: seq<Byte>, c: seq<Byte>, h: Header, i: nat, v6: bool)
    requires Fits(h, |b|, v6) && Cleared(b, c, h, v6) && In(h, |b|, i) && h.tcp && Standard(h)
    ensures Get32(Segment(c, h, i, v6), h.csumStart + 4) ==
            AddMod(Get32(b, h.csumStart + 4), Start(h, i) - h.hdrLen, 0x1_0000_0000)
  {
    ClearedSequence(b, c, h, v6);
    TransportSequence(c, h, i, v6);
    SequenceIsExact(Get32(c, h.csumStart + 4), h, i);
    SegmentSequence(c, h, i, v6);
  }

  /** Fields gsoSplit writes on purpose. */
  predicate Rewritten(h: Header, v6: bool, k: nat)
  {
    || SumField(h, v6, k)
    || (if v6 then 4 <= k < 6 else 2 <= k < 6)
    || (if h.tcp then h.csumStart + 4 <= k < h.csumStart + 8 else h.csumStart + 4 <= k < h.csumStart + 6)
  }

  /** FIN and PSH survive on the last segment only; no other header byte outside
      the rewritten fields changes. */
  lemma OtherHeaderBytesKept(c: seq<Byte>, h: Header, i: nat, v6: bool, k: nat)
    requires Fits(h, |c|, v6) && In(h, |c|, i) && k < h.hdrLen && !Rewritten(h, v6, k)
    ensures Segment(c, h, i, v6)[k] ==
            if h.tcp && k == h.csumStart + 13 && End(h, |c|, i) != |c| then ClearFinPsh(c[k]) else c[k]
  {
    SegmentAt(c, h, i, v6, k);
    if k < h.csumStart { IpAt(c, h, i, v6, k); } else { TransportAt(c, h, i, v6, k - h.csumStart); }
  }

  lemma IpAt(c: seq<Byte>, h: Header, i: nat, v6: bool, k: nat)
    requires Fits(h, |c|, v6) && In(h, |c|, i) && k < h.csumStart
    requires if v6 then !(4 <= k < 6) else !(2 <= k < 6) && !(10 <= k < 12)
    ensures IpHeader(c, h, i, v6)[k] == c[k]
  {
    TotalFits(h, |c|, i, v6);
  }

  lemma TransportAt(c: seq<Byte>, h: Header, i: nat, v6: bool, k: nat)
    requires Fits(h, |c|, v6) && In(h, |c|, i) && k < h.hdrLen - h.csumStart
    requires if h.tcp then !(4 <= k < 8) else !(4 <= k < 6)
    ensures Transport(c, h, i, v6)[k] ==
            if h.tcp && k == 13 && End(h, |c|, i) != |c| then ClearFinPsh(c[h.csumStart + k]) else c[h.csumStart + k]
  {
  }

  lemma UdpLengthIsOwn(c: seq<Byte>, h: Header, i: nat, v6: bool)
    requires Fits(h, |c|, v6) && In(h, |c|, i) && !h.tcp && Standard(h)
    ensures Get16(Segment(c, h, i, v6), h.csumStart + 4) == TotalLen(h, |c|, i) - h.csumStart
  {
    TotalFits(h, |c|, i, v6);
    SegmentAt(c, h, i, v6, h.csumStart + 4);
    SegmentAt(c, h, i, v6, h.csumStart + 5);
    Get16At(Segment(c, h, i, v6), Transport(c, h, i, v6), h.csumStart + 4, 4);
  }

  /** Behind the headers stands the segment's share of the payload. */
  lemma SegmentPayload(c: seq<Byte>, h: Header, i: nat, v6: bool)
    requires Fits(h, |c|, v6) && In(h, |c|, i)
    ensures h.hdrLen <= Start(h, i) <= End(h, |c|, i) <= |c|
    ensures Segment(c, h, i, v6)[h.hdrLen..] == Payload(c, h, i)
  {
    TotalFits(h, |c|, i, v6);
    Parts(c, h, i, v6);
    var n := h.hdrLen - h.csumStart;
    assert Segment(c, h, i, v6)[h.hdrLen..] == Body(c, h, i, v6)[n..];
    BodyPayload(c, h, i, v6);
  }

  lemma BodyPayload(c: seq<Byte>, h: Header, i: nat, v6: bool)
    requires Fits(h, |c|, v6) && In(h, |c|, i)
    ensures h.hdrLen <= Start(h, i) <= End(h, |c|, i) <= |c|
    ensures Body(c, h, i, v6)[h.hdrLen-h.csumStart..] == Payload(c, h, i)
  {
    TotalFits(h, |c|, i, v6);
    var n, u := h.hdrLen - h.csumStart, Unsummed(c, h, i, v6);
    assert u[n..] == Payload(c, h, i);
    assert Body(c, h, i, v6)[n..] == u[n..];
  }

  /** The payloads of the first k segments in order. */
  function Payloads(b: seq<Byte>, h: Header, k: nat): (r: seq<Byte>)
    requires Fits(h, |b|, true) || Fits(h, |b|, false)
    requires k > 0 ==> In(h, |b|, k - 1)
  {
    if k == 0 then [] else
      TotalFits(h, |b|, k - 1, !Fits(h, |b|, false));
      InDownward(h, |b|, k - 1);
      Payloads(b, h, k - 1) + Payload(b, h, k - 1)
  }

  lemma InDownward(h: Header, n: nat, i: nat)
    requires In(h, n, i)
    ensures i > 0 ==> In(h, n, i - 1) && (h.gsoSize > 0 ==> End(h, n, i - 1) == Start(h, i))
  {
  }

  lemma {:induction false} PayloadsArePrefix(b: seq<Byte>, h: Header, k: nat, v6: bool)
    requires Fits(h, |b|, v6) && h.gsoSize > 0 && k > 0 && In(h, |b|, k - 1)
    ensures Payloads(b, h, k) == b[h.hdrLen..End(h, |b|, k - 1)]
  {
    TotalFits(h, |b|, k - 1, v6);
    if k == 1 {
      assert Payloads(b, h, 0) == [];
    } else {
      InDownward(h, |b|, k - 1);
      TotalFits(h, |b|, k - 2, v6);
      PayloadsArePrefix(b, h, k - 1, v6);
    }
  }

  /** With all n segments made, their payloads are the packet's, all but the last full. */
  lemma PayloadsConcatenate(b: seq<Byte>, h: Header, n: nat, v6: bool)
    requires Fits(h, |b|, v6) && h.gsoSize > 0 && !In(h, |b|, n) && (n > 0 ==> In(h, |b|, n - 1))
    ensures Payloads(b, h, n) == b[h.hdrLen..]
    ensures forall i: nat :: i < n ==> In(h, |b|, i)
    ensures forall i: nat :: i < n ==> (if i < n - 1 then End(h, |b|, i) - Start(h, i) == h.gsoSize
                                        else 0 < End(h, |b|, i) - Start(h, i) <= h.gsoSize)
  {
    if n > 0 {
      PayloadsArePrefix(b, h, n, v6);
      forall i: nat | i < n ensures In(h, |b|, i) && (i < n - 1 ==> End(h, |b|, i) == Start(h, i) + h.gsoSize) {
        StartGrows(h, i, n - 1);
      }
    }
  }

  // ----- in place

  /** s stands in the buffer at position at. */
  predicate Has(buf: seq<Byte>, at: nat, s: seq<Byte>) { at + |s| <= |buf| && buf[at..at+|s|] == s }

  method CopyTo(out: array<Byte>, at: nat, s: seq<Byte>)
    requires at + |s| <= out.Length
    modifies out
    ensures Has(out[..], at, s) && out[..at] == old(out[..at]) && out[at+|s|..] == old(out[at+|s|..])
  {
    for k := 0 to |s|
      invariant out[at..at+k] == s[..k] && out[..at] == old(out[..at]) && out[at+|s|..] == old(out[at+|s|..])
    {
      out[at+k] := s[k];
      assert out[at..at+k+1] == out[at..at+k] + [out[at+k]];
    }
  }

  /** Write a 16-bit field inside the part of the buffer that holds s. */
  method PutAt(out: array<Byte>, base: nat, ghost s: seq<Byte>, at: nat, v: nat)
    requires Has(out[..], base, s) && at + 2 <= |s| && v < 0x10000
    modifies out
    ensures Has(out[..], base, Put(s, at, v)) && out[..base] == old(out[..base])
    ensures out[base+|s|..] == old(out[base+|s|..])
  {
    var w := Put16(v);
    out[base+at], out[base+at+1] := w[0], w[1];
    assert out[base..base+|s|] == Put(s, at, v);
  }

  method Put32At(out: array<Byte>, base: nat, ghost s: seq<Byte>, at: nat, v: nat)
    requires Has(out[..], base, s) && at + 4 <= |s| && v < 0x1_0000_0000
    modifies out
    ensures Has(out[..], base, Put32(s, at, v)) && out[..base] == old(out[..base])
  {
    var hi := Put16(v / 0x10000);
    var lo := Put16(v % 0x10000);
    var w := hi + lo;
    assert Encodes32(w, v);
    Encoding32IsUnique(w, Bytes32(v), v);
    var k := base + at;
    out[k], out[k+1], out[k+2], out[k+3] := w[0], w[1], w[2], w[3];
    assert out[base..base+|s|] == Put32(s, at, v);
  }

  lemma Encoding32IsUnique(w: seq<Byte>, w': seq<Byte>, v: nat)
    requires Encodes32(w, v) && Encodes32(w', v)
    ensures w == w'
  {
    var a, b, a', b' := Get16(w, 0), Get16(w, 2), Get16(w', 0), Get16(w', 2);
    assert a == a' && b == b';
    EncodingIsUnique(w[..2], w'[..2], a);
    EncodingIsUnique(w[2..], w'[2..], b);
    assert w == w[..2] + w[2..] && w' == w'[..2] + w'[2..];
  }

  method Read16(b: array<Byte>, at: nat) returns (v: nat)
    requires at + 2 <= b.Length
    ensures v == Get16(b[..], at) < 0x10000
  {
    var hi: int := b[at];
    v := 256 * hi + b[at+1];
  }

  method AdvanceId(out: array<Byte>, off: nat, ghost ip: seq<Byte>, i: nat)
    requires Has(out[..], off, ip) && |ip| >= 6
    modifies out
    ensures Has(out[..], off, WithId(ip, i)) && out[..off] == old(out[..off])
  {
    if i > 0 {
      var id := Read16(out, off + 4);
      assert out[..][off..off+|ip|] == ip;
      Get16At(out[..], ip, off + 4, 4);
      PutAt(out, off, ip, 4, AddMod(id, i % 0x10000, 0x10000));
    }
  }

  method WriteIpv4(e: Endian, b: seq<Byte>, h: Header, i: nat, out: array<Byte>, off: nat)
    requires Fits(h, |b|, false) && In(h, |b|, i) && off + h.csumStart <= out.Length
    modifies out
    ensures Has(out[..], off, IpHeader(b, h, i, false)) && out[..off] == old(out[..off])
  {
    TotalFits(h, |b|, i, false);
    ghost var ip := b[..h.csumStart];
    CopyTo(out, off, b[..h.csumStart]);
    AdvanceId(out, off, ip, i);
    PutAt(out, off, WithId(ip, i), 2, TotalLen(h, |b|, i));
    CompleteHeader(e, out, off, IpUnsummed(b, h, i), h.csumStart);
  }

  method CompleteHeader(e: Endian, out: array<Byte>, off: nat, ghost ip: seq<Byte>, iphLen: nat)
    requires Has(out[..], off, ip) && |ip| == iphLen >= 12
    modifies out
    ensures Has(out[..], off, Put(ip, 10, 0xffff - Canon(Sum16(ip)))) && out[..off] == old(out[..off])
  {
    var sum := ChecksumOf(e, out[off..off+iphLen], 0);
    PutAt(out, off, ip, 10, 0xffff - sum);
  }

  method WriteIp(e: Endian, b: seq<Byte>, h: Header, i: nat, v6: bool, out: array<Byte>, off: nat)
    requires Fits(h, |b|, v6) && In(h, |b|, i) && off + h.csumStart <= out.Length
    modifies out
    ensures Has(out[..], off, IpHeader(b, h, i, v6)) && out[..off] == old(out[..off])
  {
    if v6 {
      TotalFits(h, |b|, i, v6);
      CopyTo(out, off, b[..h.csumStart]);
      PutAt(out, off, b[..h.csumStart], 4, TotalLen(h, |b|, i) - h.csumStart);
    } else {
      WriteIpv4(e, b, h, i, out, off);
    }
  }

  method WriteTransport(b: seq<Byte>, h: Header, i: nat, v6: bool, first: nat, out: array<Byte>, off: nat)
    requires Fits(h, |b|, v6) && In(h, |b|, i) && off + h.hdrLen <= out.Length
    requires h.tcp ==> first == Get32(b[h.csumStart..h.hdrLen], 4)
    modifies out
    ensures Has(out[..], off + h.csumStart, Transport(b, h, i, v6))
    ensures out[..off+h.csumStart] == old(out[..off+h.csumStart])
  {
    TotalFits(h, |b|, i, v6);
    var th, at := b[h.csumStart..h.hdrLen], off + h.csumStart;
    CopyTo(out, at, th);
    if h.tcp {
      var s := Sequence(first, h, i);
      Put32At(out, at, th, 4, s);
      ghost var t := Put32(th, 4, s);
      if End(h, |b|, i) != |b| {
        ClearFlags(out, at, t);
      }
    } else {
      PutAt(out, at, th, 4, (End(h, |b|, i) - Start(h, i)) % 0x10000 + (h.hdrLen - h.csumStart));
    }
  }

  method ClearFlags(out: array<Byte>, at: nat, ghost t: seq<Byte>)
    requires Has(out[..], at, t) && |t| > 13
    modifies out
    ensures Has(out[..], at, t[13 := ClearFinPsh(t[13])]) && out[..at] == old(out[..at])
  {
    assert out[..][at..at+|t|][13] == t[13];
    var f: Byte := out[at+13];
    var r: Byte := f - f % 2 - 8 * (f / 8 % 2);
    FlagsSplit(f);
    ClearingIsUnique(f, r, ClearFinPsh(f));
    out[at+13] := r;
    assert out[at..at+|t|] == t[13 := ClearFinPsh(t[13])];
  }

  lemma HasJoin(buf: seq<Byte>, at: nat, s: seq<Byte>, t: seq<Byte>)
    requires Has(buf, at, s) && Has(buf, at + |s|, t)
    ensures Has(buf, at, s + t)
  {
    assert buf[at..at+|s|+|t|] == buf[at..at+|s|] + buf[at+|s|..at+|s|+|t|];
  }

  lemma HasKept(buf: seq<Byte>, buf': seq<Byte>, at: nat, s: seq<Byte>)
    requires Has(buf, at, s) && at + |s| <= |buf'| && buf'[..at+|s|] == buf[..at+|s|]
    ensures Has(buf', at, s)
  {
    assert buf'[at..at+|s|] == buf'[..at+|s|][at..] == buf[..at+|s|][at..] == s;
  }

  /** Payload and transport checksum, behind the transport header already written. */
  method WriteBody(e: Endian, pseudo: nat, ghost sum: nat, ghost th: seq<Byte>, thLen: nat, payload: seq<Byte>,
                   csumOffset: nat, out: array<Byte>, at: nat)
    requires pseudo < WORD && Canon(pseudo) == Canon(sum) && |th| == thLen && csumOffset + 2 <= thLen
    requires Has(out[..], at, th) && at + thLen + |payload| <= out.Length
    modifies out
    ensures Has(out[..], at, Completed(sum, th + payload, csumOffset)) && out[..at] == old(out[..at])
  {
    ghost var before := out[..];
    CopyTo(out, at + thLen, payload);
    HasKept(before, out[..], at, th);
    HasJoin(out[..], at, th, payload);
    assert out[..at] == out[..at+thLen][..at] == before[..at+thLen][..at];
    ghost var u := th + payload;
    var folded := ChecksumOf(e, out[at..at+thLen+|payload|], pseudo);
    CanonAdds(pseudo, sum, Sum16(u));
    PutAt(out, at, u, csumOffset, 0xffff - folded);
  }

  method PseudoChecksum(e: Endian, proto: Byte, v6: bool, addrs: seq<Byte>, length: nat) returns (r: nat)
    requires |addrs| >= if v6 then 40 else 20
    ensures r < WORD && Canon(r) == Canon(PseudoSum(proto, v6, addrs, length))
  {
    r := PseudoHeaderChecksumNoFold(e, proto, Src(addrs, v6), Dst(addrs, v6), length % 0x10000);
  }

  /** checksumValid. */
  method CheckChecksum(e: Endian, pkt: seq<Byte>, iphLen: nat, proto: Byte, v6: bool) returns (ok: bool)
    requires (if v6 then 40 else 20) <= iphLen <= |pkt|
    ensures ok <==> ChecksumValid(pkt, iphLen, proto, v6)
  {
    var pseudo := PseudoChecksum(e, proto, v6, pkt, |pkt| - iphLen);
    var sum := ChecksumOf(e, pkt[iphLen..], pseudo);
    CanonAdds(pseudo, PseudoSum(proto, v6, pkt, |pkt| - iphLen), Sum16(pkt[iphLen..]));
    ValidByPseudo(pkt, iphLen, proto, v6);
    ok := 0xffff - sum == 0;
  }

  method WriteHeaders(e: Endian, b: seq<Byte>, h: Header, i: nat, v6: bool, first: nat, out: array<Byte>, off: nat)
    requires Fits(h, |b|, v6) && In(h, |b|, i) && off + h.hdrLen <= out.Length
    requires h.tcp ==> first == Get32(b[h.csumStart..h.hdrLen], 4)
    modifies out
    ensures Has(out[..], off, IpHeader(b, h, i, v6)) && Has(out[..], off + h.csumStart, Transport(b, h, i, v6))
    ensures out[..off] == old(out[..off])
  {
    var at := off + h.csumStart;
    WriteIp(e, b, h, i, v6, out, off);
    ghost var before := out[..];
    WriteTransport(b, h, i, v6, first, out, off);
    HasKept(before, out[..], off, IpHeader(b, h, i, v6));
    assert out[..off] == out[..at][..off] == before[..at][..off] == before[..off];
  }

  /** Body behind both headers, whatever they are. */
  method WriteRest(e: Endian, pseudo: nat, ghost sum: nat, ghost ip: seq<Byte>, ghost th: seq<Byte>, thLen: nat,
                   payload: seq<Byte>, csumOffset: nat, out: array<Byte>, ghost off: nat, at: nat)
    requires pseudo < WORD && Canon(pseudo) == Canon(sum) && |th| == thLen && csumOffset + 2 <= thLen
    requires Has(out[..], off, ip) && at == off + |ip| && Has(out[..], at, th) && at + thLen + |payload| <= out.Length
    modifies out
    ensures Has(out[..], off, ip + Completed(sum, th + payload, csumOffset)) && out[..off] == old(out[..off])
  {
    ghost var before := out[..];
    WriteBody(e, pseudo, sum, th, thLen, payload, csumOffset, out, at);
    HasKept(before, out[..], off, ip);
    HasJoin(out[..], off, ip, Completed(sum, th + payload, csumOffset));
    assert out[..off] == out[..at][..off] == before[..at][..off] == before[..off];
  }

  lemma BodyIs(b: seq<Byte>, h: Header, i: nat, v6: bool)
    requires Fits(h, |b|, v6) && In(h, |b|, i)
    ensures var th := Transport(b, h, i, v6);
            && |th| == h.hdrLen - h.csumStart && |th + Payload(b, h, i)| == TotalLen(h, |b|, i) - h.csumStart
            && Body(b, h, i, v6) ==
               Completed(PseudoSum(Protocol(h), v6, b, |th + Payload(b, h, i)|), th + Payload(b, h, i), h.csumOffset)
  {
    TotalFits(h, |b|, i, v6);
  }

  /** Payload and checksum behind the two headers. */
  method WriteBehind(e: Endian, b: seq<Byte>, h: Header, i: nat, v6: bool, ghost ip: seq<Byte>, ghost th: seq<Byte>,
                     out: array<Byte>, off: nat)
    requires Fits(h, |b|, v6) && In(h, |b|, i) && off + TotalLen(h, |b|, i) <= out.Length && |ip| == h.csumStart
    requires |th| == h.hdrLen - h.csumStart && |th + Payload(b, h, i)| == TotalLen(h, |b|, i) - h.csumStart
    requires Has(out[..], off, ip) && Has(out[..], off + h.csumStart, th)
    modifies out
    ensures var u := th + Payload(b, h, i);
            Has(out[..], off, ip + Completed(PseudoSum(Protocol(h), v6, b, |u|), u, h.csumOffset))
    ensures out[..off] == old(out[..off])
  {
    var length := TotalLen(h, |b|, i) - h.csumStart;
    var pseudo := PseudoChecksum(e, Protocol(h), v6, b, length);
    WriteRest(e, pseudo, PseudoSum(Protocol(h), v6, b, length), ip, th, h.hdrLen - h.csumStart,
              Payload(b, h, i), h.csumOffset, out, off, off + h.csumStart);
  }

  method WriteSegment(e: Endian, b: seq<Byte>, h: Header, i: nat, v6: bool, first: nat, out: array<Byte>, off: nat)
    requires Fits(h, |b|, v6) && In(h, |b|, i) && off + TotalLen(h, |b|, i) <= out.Length
    requires h.tcp ==> first == Get32(b[h.csumStart..h.hdrLen], 4)
    modifies out
    ensures Has(out[..], off, Segment(b, h, i, v6)) && out[..off] == old(out[..off])
  {
    WriteHeaders(e, b, h, i, v6, first, out, off);
    BodyIs(b, h, i, v6);
    WriteBehind(e, b, h, i, v6, IpHeader(b, h, i, v6), Transport(b, h, i, v6), out, off);
  }

  /** Clear the checksums in place. */
  method ClearSums(b: array<Byte>, h: Header, v6: bool)
    requires Fits(h, b.Length, v6)
    modifies b
    ensures Cleared(old(b[..]), b[..], h, v6)
  {
    if !v6 { b[10], b[11] := 0, 0; }
    var at := h.csumStart + h.csumOffset;
    b[at], b[at+1] := 0, 0;
  }

  /** The buffer set is what gsoSplit may be given: apart from each other, from the
      packet, and long enough. */
  predicate Roomy(outs: seq<array<Byte>>, b: array<Byte>, h: Header, off: nat)
  {
    && (forall k :: 0 <= k < |outs| ==>
      outs[k] != b && (In(h, b.Length, k) ==> off + TotalLen(h, b.Length, k) <= outs[k].Length))
    && (forall j, k :: 0 <= j < k < |outs| ==> outs[j] != outs[k])
  }

  /** Buffer k holds segment k of c. */
  ghost predicate Written(out: array<Byte>, size: int, off: nat, c: seq<Byte>, h: Header, v6: bool, k: nat)
    reads out
  {
    Fits(h, |c|, v6) && In(h, |c|, k) && size == TotalLen(h, |c|, k) && Has(out[..], off, Segment(c, h, k, v6))
  }

  ghost predicate Filled(outs: seq<array<Byte>>, sizes: array<int>, off: nat, c: seq<Byte>, h: Header, v6: bool, n: nat)
    requires n <= |outs| <= sizes.Length
    reads outs, sizes
  {
    forall k: nat {:trigger outs[k]} :: k < n ==> Written(outs[k], sizes[k], off, c, h, v6, k)
  }

  method WriteNext(e: Endian, c: seq<Byte>, h: Header, i: nat, v6: bool, first: nat, outs: seq<array<Byte>>,
                   sizes: array<int>, off: nat, ghost b: array<Byte>)
    requires Fits(h, |c|, v6) && In(h, |c|, i) && i < |outs| <= sizes.Length && |c| == b.Length
             && Roomy(outs, b, h, off)
    requires h.tcp ==> first == Get32(c[h.csumStart..h.hdrLen], 4)
    requires Filled(outs, sizes, off, c, h, v6, i)
    modifies outs[i], sizes
    ensures Filled(outs, sizes, off, c, h, v6, i + 1) && b[..] == old(b[..])
  {
    sizes[i] := TotalLen(h, |c|, i);
    WriteSegment(e, c, h, i, v6, first, outs[i], off);
    assert Written(outs[i], sizes[i], off, c, h, v6, i);
    forall k: nat | k < i + 1 ensures Written(outs[k], sizes[k], off, c, h, v6, k) {
      if k < i { assert outs[k] != outs[i]; }
    }
  }

  /** gsoSplit: either every segment is in its buffer, or the buffers do not
      suffice and the count returned is one less than their number. */
  method Split(e: Endian, b: array<Byte>, h: Header, outs: seq<array<Byte>>, sizes: array<int>, off: nat, v6: bool)
    returns (n: int, tooMany: bool)
    requires Fits(h, b.Length, v6) && Roomy(outs, b, h, off) && |outs| <= sizes.Length
    modifies b, outs, sizes
    ensures Cleared(old(b[..]), b[..], h, v6)
    ensures tooMany <==> In(h, b.Length, |outs|)
    ensures tooMany ==> n == |outs| - 1 && Filled(outs, sizes, off, b[..], h, v6, |outs|)
    ensures !tooMany ==> 0 <= n <= |outs| && !In(h, b.Length, n) && Filled(outs, sizes, off, b[..], h, v6, n)
  {
    ClearSums(b, h, v6);
    var c := b[..];
    var first := if h.tcp then Get32(c[h.csumStart..h.hdrLen], 4) else 0;
    var at, i := h.hdrLen, 0;
    while at < b.Length
      invariant 0 <= i <= |outs| && at == Start(h, i) && b[..] == c
      invariant Filled(outs, sizes, off, c, h, v6, i)
      decreases |outs| - i
    {
      if i == |outs| { return i - 1, true; }
      WriteNext(e, c, h, i, v6, first, outs, sizes, off, b);
      at := at + h.gsoSize;
      i := i + 1;
    }
    StartGrows(h, i, |outs|);
    return i, false;
  }

  /** gsoNoneChecksum: the partial sum found in the checksum field (the sum of the
      pseudo-header) is completed in place; an even offset makes the whole check out. */
  method CompletePartial(e: Endian, b: array<Byte>, csumStart: nat, csumOffset: nat)
    requires csumStart + csumOffset + 2 <= b.Length <= MAX_LEN
    modifies b
    ensures csumOffset % 2 == 0 ==>
              Canon(old(Get16(b[..], csumStart + csumOffset)) + Sum16(b[csumStart..])) == 0xffff
    ensures forall k :: 0 <= k < b.Length && !(csumStart + csumOffset <= k < csumStart + csumOffset + 2) ==>
              b[k] == old(b[k])
  {
    var at := csumStart + csumOffset;
    var initial := Read16(b, at);
    b[at], b[at+1] := 0, 0;
    CompleteField(e, b, csumStart, csumOffset, initial);
  }

  lemma TailOf(b: seq<Byte>, base: nat, s: seq<Byte>)
    requires base + |s| == |b|
    ensures Has(b, base, s) <==> b[base..] == s
  {
  }

  /** Complete the sum of what lies behind csumStart in its cleared field. */
  method CompleteField(e: Endian, b: array<Byte>, csumStart: nat, csumOffset: nat, initial: nat)
    requires csumStart + csumOffset + 2 <= b.Length && initial < 0x10000
             && b[csumStart+csumOffset] == b[csumStart+csumOffset+1] == 0
    modifies b
    ensures csumOffset % 2 == 0 ==> Canon(initial + Sum16(b[csumStart..])) == 0xffff
    ensures b[..csumStart] == old(b[..csumStart])
    ensures forall k :: csumStart <= k < b.Length && k != csumStart + csumOffset && k != csumStart + csumOffset + 1 ==>
              b[k] == old(b[k])
  {
    ghost var u := b[csumStart..];
    var sum := ChecksumOf(e, b[csumStart..], initial);
    ghost var r := Completed(initial, u, csumOffset);
    assert r == Put(u, csumOffset, 0xffff - sum);
    TailOf(b[..], csumStart, u);
    PutAt(b, csumStart, u, csumOffset, 0xffff - sum);
    TailOf(b[..], csumStart, r);
    assert b[csumStart..] == r;
    forall k | csumStart <= k < b.Length && k != csumStart + csumOffset && k != csumStart + csumOffset + 1
      ensures b[k] == old(b[k])
    {
      assert b[k] == r[k - csumStart] == u[k - csumStart];
    }
    if csumOffset % 2 == 0 { CompletedSum(initial, u, csumOffset); }
  }
}
