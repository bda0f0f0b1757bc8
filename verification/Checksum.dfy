/** The Internet checksum (sections 1 and 2 of RFC 1071): a 64-bit native-endian
    accumulation with end-around carry, folded to 16 bits, against the 16-bit
    big-endian one's-complement sum. */
module Checksum {
  type Byte = x: int | 0 <= x < 256

  const WORD: int := 0x1_0000_0000_0000_0000

  datatype Endian = Little | Big

  // ----- the reference sum

  /** Sum of the 16-bit big-endian words; an odd last byte is padded with zero. */
  function Sum16(b: seq<Byte>): (s: nat)
  {
    if |b| == 0 then 0
    else if |b| == 1 then 256 * (b[0] as int)
    else 256 * (b[0] as int) + (b[1] as int) + Sum16(b[2..])
  }

  /** One's-complement addition of 16-bit words: a carry out of bit 15 comes back in at bit 0. */
  function OnesAdd(x: int, y: int): int { if x + y > 0xffff then x + y - 0xffff else x + y }

  /** The sum as section 1 of RFC 1071 defines it, one word at a time. */
  function OnesSum(b: seq<Byte>, acc: int): int
  {
    if |b| == 0 then acc
    else if |b| == 1 then OnesAdd(acc, 256 * (b[0] as int))
    else OnesSum(b[2..], OnesAdd(acc, 256 * (b[0] as int) + (b[1] as int)))
  }

  predicate Apart(x: int, y: int, k: int) { x - y == 0xffff * k }

  /** x and y are congruent modulo 2^16 - 1. */
  ghost predicate Same(x: int, y: int) { exists k :: Apart(x, y, k) }

  lemma SameBy(x: int, y: int, k: int)
    requires x == y + 0xffff * k
    ensures Same(x, y)
  {
    assert Apart(x, y, k);
  }

  lemma SameAdd(x: int, y: int, u: int, v: int)
    requires Same(x, y) && Same(u, v)
    ensures Same(x + u, y + v)
  {
    var k, j :| Apart(x, y, k) && Apart(u, v, j);
    SameBy(x + u, y + v, k + j);
  }

  lemma SameScale(e: Endian, x: nat, y: nat)
    requires Same(x, y)
    ensures Same(Scale(e, x), Scale(e, y))
  {
    var k :| Apart(x, y, k);
    SameBy(Scale(e, x), Scale(e, y), if e.Little? then 256 * k else k);
  }

  /** Swapping twice is no swap: 2^16 is one. */
  lemma ScaleTwice(e: Endian, x: nat)
    ensures Same(Scale(e, Scale(e, x)), x)
  {
    SameBy(Scale(e, Scale(e, x)), x, if e.Little? then x else 0);
  }

  lemma SameSym(x: int, y: int)
    requires Same(x, y) || Same(y, x)
    ensures Same(x, y) && Same(y, x)
  {
    if Same(x, y) {
      var k :| Apart(x, y, k);
      SameBy(y, x, -k);
    } else {
      var k :| Apart(y, x, k);
      SameBy(x, y, -k);
    }
  }

  lemma SameTrans(x: int, y: int, z: int)
    requires (Same(x, y) || Same(y, x)) && (Same(y, z) || Same(z, y))
    ensures Same(x, z) && Same(z, x)
  {
    SameSym(x, y);
    SameSym(y, z);
    var k, j :| Apart(x, y, k) && Apart(y, z, j);
    SameBy(x, z, k + j);
    SameSym(x, z);
  }

  /** r is the 16-bit one's-complement representative of n: zero only for zero. */
  ghost predicate IsCanon(r: nat, n: nat) { r <= 0xffff && Same(r, n) && (r == 0 <==> n == 0) }

  lemma CanonExists(n: nat)
    ensures exists r: nat :: IsCanon(r, n)
  {
    var r := if n == 0 then 0 else if n % 0xffff == 0 then 0xffff else n % 0xffff;
    SameBy(r, n, r / 0xffff - n / 0xffff);
    assert IsCanon(r, n);
  }

  lemma CanonIsUnique(r: nat, r': nat, n: nat)
    requires IsCanon(r, n) && IsCanon(r', n)
    ensures r == r'
  {
    SameTrans(r, n, r');
    var k :| Apart(r, r', k);
  }

  ghost function Canon(n: nat): (r: nat)
    ensures IsCanon(r, n)
  {
    CanonExists(n);
    var r: nat :| IsCanon(r, n);
    r
  }

  lemma CanonEqual(m: nat, n: nat)
    requires Same(m, n) && (m == 0 <==> n == 0)
    ensures Canon(m) == Canon(n)
  {
    SameTrans(Canon(m), m, n);
    CanonIsUnique(Canon(m), Canon(n), n);
  }

  lemma CanonAdds(m: nat, n: nat, k: nat)
    requires Canon(m) == Canon(n)
    ensures Canon(m + k) == Canon(n + k)
  {
    SameTrans(m, Canon(m), n);
    SameBy(k, k, 0);
    SameAdd(m, n, k, k);
    CanonEqual(m + k, n + k);
  }

  lemma OnesAddIsCanon(x: nat, y: nat)
    requires x <= 0xffff && y <= 0xffff
    ensures OnesAdd(x, y) == Canon(x + y) == Canon(OnesAdd(x, y))
  {
    var r := OnesAdd(x, y);
    SameBy(r, x + y, if r == x + y then 0 else -1);
    CanonIsUnique(r, Canon(x + y), x + y);
    CanonEqual(r, x + y);
  }

  lemma CanonOfWord(x: nat)
    requires x <= 0xffff
    ensures Canon(x) == x
  {
    SameBy(x, x, 0);
    CanonIsUnique(x, Canon(x), x);
  }

  /** Word by word with end-around carry, or all at once: the same 16 bits. */
  lemma {:induction false} OnesSumIsCanon(b: seq<Byte>, acc: nat)
    requires acc <= 0xffff
    ensures OnesSum(b, acc) == Canon(acc + Sum16(b))
  {
    if |b| == 0 {
      CanonOfWord(acc);
    } else if |b| == 1 {
      OnesAddIsCanon(acc, 256 * (b[0] as int));
    } else if |b| >= 2 {
      var w := 256 * (b[0] as int) + (b[1] as int);
      OnesAddIsCanon(acc, w);
      OnesSumIsCanon(b[2..], OnesAdd(acc, w));
      CanonAdds(OnesAdd(acc, w), acc + w, Sum16(b[2..]));
    }
  }

  /** Even-length parts chain. */
  lemma {:induction false} SumConcat(a: seq<Byte>, b: seq<Byte>)
    requires |a| % 2 == 0
    ensures Sum16(a + b) == Sum16(a) + Sum16(b)
  {
    if |a| == 0 {
      assert a + b == b;
    } else {
      SumConcat(a[2..], b);
      assert (a + b)[2..] == a[2..] + b;
    }
  }

  // ----- words in memory

  function Be(w: seq<Byte>): (v: nat) { if |w| == 0 then 0 else 256 * Be(w[..|w|-1]) + w[|w|-1] }

  function Le(w: seq<Byte>): (v: nat) { if |w| == 0 then 0 else w[0] + 256 * Le(w[1..]) }

  function Native(e: Endian, w: seq<Byte>): (v: nat) { if e.Little? then Le(w) else Be(w) }

  function Power(n: nat): (p: nat) ensures p >= 1 { if n == 0 then 1 else 256 * Power(n - 1) }

  /** The n low bytes of x, least significant first. */
  function LeBytes(x: nat, n: nat): (w: seq<Byte>)
    ensures |w| == n
  {
    if n == 0 then [] else [x % 256] + LeBytes(x / 256, n - 1)
  }

  function BeBytes(x: nat, n: nat): (w: seq<Byte>)
    ensures |w| == n
  {
    if n == 0 then [] else BeBytes(x / 256, n - 1) + [x % 256]
  }

  function PutNative(e: Endian, x: nat): (w: seq<Byte>)
    ensures |w| == 8
  {
    if e.Little? then LeBytes(x, 8) else BeBytes(x, 8)
  }

  lemma {:induction false} LeRoundTrip(x: nat, n: nat)
    requires x < Power(n)
    ensures Le(LeBytes(x, n)) == x
  {
    if n > 0 {
      LeRoundTrip(x / 256, n - 1);
      assert LeBytes(x, n)[1..] == LeBytes(x / 256, n - 1);
    }
  }

  lemma {:induction false} BeRoundTrip(x: nat, n: nat)
    requires x < Power(n)
    ensures Be(BeBytes(x, n)) == x
  {
    if n > 0 {
      BeRoundTrip(x / 256, n - 1);
      assert BeBytes(x, n)[..n-1] == BeBytes(x / 256, n - 1);
    }
  }

  lemma Power8()
    ensures Power(8) == WORD && Power(4) == 0x1_0000_0000 && Power(2) == 0x1_0000
  {
    assert Power(2) == 256 * Power(1) && Power(1) == 256;
    assert Power(4) == 256 * Power(3) && Power(3) == 256 * Power(2);
    assert Power(6) == 256 * Power(5) && Power(5) == 256 * Power(4);
    assert Power(8) == 256 * Power(7) && Power(7) == 256 * Power(6);
  }

  lemma {:induction false} LeBound(w: seq<Byte>)
    ensures Le(w) < Power(|w|)
  {
    if |w| > 0 { LeBound(w[1..]); }
  }

  lemma {:induction false} BeBound(w: seq<Byte>)
    ensures Be(w) < Power(|w|)
  {
    if |w| > 0 { BeBound(w[..|w|-1]); }
  }

  /** What a word's numeric value is congruent to: a byte-swapped sum is 256 times the sum. */
  function Scale(e: Endian, n: nat): (m: nat) { if e.Little? then 256 * n else n }

  lemma {:induction false} LeSame(w: seq<Byte>)
    requires |w| % 2 == 0
    ensures Same(Le(w), 256 * Sum16(w)) && (Le(w) == 0 <==> Sum16(w) == 0)
  {
    if |w| == 0 {
      SameBy(0, 0, 0);
    } else {
      LeSame(w[2..]);
      assert w[1..][1..] == w[2..];
      var rest, swapped, word := Le(w[2..]), 256 * (w[1] as int) + (w[0] as int), 256 * (w[0] as int) + (w[1] as int);
      assert Le(w) == swapped + 0x10000 * rest;
      SameBy(swapped, 256 * word, -(w[0] as int));
      SameBy(0x10000 * rest, rest, rest);
      SameTrans(0x10000 * rest, rest, 256 * Sum16(w[2..]));
      SameAdd(swapped, 256 * word, 0x10000 * rest, 256 * Sum16(w[2..]));
    }
  }

  lemma {:induction false} BeSame(w: seq<Byte>)
    requires |w| % 2 == 0
    ensures Same(Be(w), Sum16(w)) && (Be(w) == 0 <==> Sum16(w) == 0)
  {
    if |w| == 0 {
      SameBy(0, 0, 0);
    } else {
      var n := |w| - 2;
      BeSame(w[..n]);
      assert w[..n+1][..n] == w[..n];
      var front, last := Be(w[..n]), 256 * (w[n] as int) + (w[n+1] as int);
      assert Be(w) == 0x10000 * front + last;
      SumConcat(w[..n], w[n..]);
      assert w[..n] + w[n..] == w;
      assert Sum16(w[n..]) == last;
      SameBy(0x10000 * front, front, front);
      SameTrans(0x10000 * front, front, Sum16(w[..n]));
      SameBy(last, last, 0);
      SameAdd(0x10000 * front, Sum16(w[..n]), last, last);
    }
  }

  lemma NativeSame(e: Endian, w: seq<Byte>)
    requires |w| % 2 == 0
    ensures Same(Native(e, w), Scale(e, Sum16(w))) && (Native(e, w) == 0 <==> Sum16(w) == 0)
    ensures Native(e, w) < Power(|w|)
  {
    LeSame(w);
    BeSame(w);
    LeBound(w);
    BeBound(w);
  }

  /** Writing a word natively and reading it back big-endian scales it. */
  function Swapped(e: Endian, x: nat): (y: nat) { Be(PutNative(e, x)) }

  lemma SwappedSame(e: Endian, x: nat)
    requires x < WORD
    ensures Swapped(e, x) < WORD && Same(Swapped(e, x), Scale(e, x)) && (Swapped(e, x) == 0 <==> x == 0)
  {
    var t := PutNative(e, x);
    Power8();
    LeRoundTrip(x, 8);
    BeRoundTrip(x, 8);
    NativeSame(e, t);
    BeSame(t);
    BeBound(t);
    SameScale(e, x, Scale(e, Sum16(t)));
    ScaleTwice(e, Sum16(t));
    SameTrans(Scale(e, x), Scale(e, Scale(e, Sum16(t))), Sum16(t));
    SameTrans(Swapped(e, x), Sum16(t), Scale(e, x));
  }

  // ----- the accumulation

  function Add64(x: nat, y: nat, carry: nat): (r: (nat, nat))
  {
    ((x + y + carry) % WORD, (x + y + carry) / WORD)
  }

  /** An accumulator and its pending carry stand for the one's-complement sum s,
      and the carry can still be added without overflow. */
  ghost predicate Holds(e: Endian, ac: nat, carry: nat, s: nat)
  {
    carry <= 1 && ac + carry < WORD && Same(ac + carry, Scale(e, s)) && (ac + carry == 0 <==> s == 0)
  }

  lemma CarryHolds(ac: nat, v: nat, carry: nat)
    requires carry <= 1 && ac + carry < WORD && v < WORD
    ensures var (x, c) := Add64(ac, v, carry);
            c <= 1 && x + c < WORD && Same(x + c, ac + carry + v) && (x + c == 0 <==> ac + carry + v == 0)
  {
    var (x, c) := Add64(ac, v, carry);
    assert c == if ac + v + carry < WORD then 0 else 1;
    SameBy(x + c, ac + carry + v, -0x0001_0001_0001_0001 * c);
  }

  /** No end-around carry is lost. */
  lemma AddHolds(e: Endian, ac: nat, carry: nat, s: nat, w: seq<Byte>)
    requires Holds(e, ac, carry, s) && |w| % 2 == 0 && Native(e, w) < WORD
    ensures var (x, c) := Add64(ac, Native(e, w), carry); Holds(e, x, c, s + Sum16(w))
  {
    NativeSame(e, w);
    var v := Native(e, w);
    var (x, c) := Add64(ac, v, carry);
    CarryHolds(ac, v, carry);
    SameAdd(ac + carry, Scale(e, s), v, Scale(e, Sum16(w)));
    SameTrans(x + c, (ac + carry) + v, Scale(e, s) + Scale(e, Sum16(w)));
  }

  lemma NativeFits(e: Endian, w: seq<Byte>)
    requires |w| == 2 || |w| == 4 || |w| == 8
    ensures Native(e, w) < WORD
  {
    Power8();
    LeBound(w);
    BeBound(w);
  }

  lemma LastCarry(e: Endian, ac: nat, carry: nat, s: nat)
    requires Holds(e, ac, carry, s)
    ensures Holds(e, (ac + carry) % WORD, 0, s)
  {
    assert (ac + carry) % WORD == ac + carry;
  }

  lemma Advance(b: seq<Byte>, k: nat)
    requires k <= |b| && k % 2 == 0
    ensures Sum16(b) == Sum16(b[..k]) + Sum16(b[k..])
  {
    SplitJoins(b, k);
    SumConcat(b[..k], b[k..]);
  }

  lemma SplitJoins(b: seq<Byte>, k: nat)
    requires k <= |b|
    ensures b[..k] + b[k..] == b
  {
  }

  /** Add n eight-byte words to the accumulator, then the last carry, and move past them. */
  method AddWords(e: Endian, ac0: nat, b: seq<Byte>, n: nat, ghost s: nat)
    returns (ac: nat, rest: seq<Byte>, ghost s': nat)
    requires 8 * n <= |b| && Holds(e, ac0, 0, s)
    ensures rest == b[8*n..] && Holds(e, ac, 0, s') && s' + Sum16(rest) == s + Sum16(b)
  {
    var carry := 0;
    ac, rest, s' := ac0, b, s;
    for i := 0 to n
      invariant rest == b[8*i..] && Holds(e, ac, carry, s') && s' + Sum16(rest) == s + Sum16(b)
    {
      var w := rest[..8];
      NativeFits(e, w);
      AddHolds(e, ac, carry, s', w);
      Advance(rest, 8);
      var r := Add64(ac, Native(e, w), carry);
      ac, carry, rest, s' := r.0, r.1, rest[8..], s' + Sum16(w);
    }
    LastCarry(e, ac, carry, s');
    ac := (ac + carry) % WORD;
  }

  /** Add one short word to the accumulator and its carry back in. */
  method AddShort(e: Endian, ac0: nat, w: seq<Byte>, ghost s: nat) returns (ac: nat)
    requires (|w| == 2 || |w| == 4) && Holds(e, ac0, 0, s)
    ensures Holds(e, ac, 0, s + Sum16(w))
  {
    NativeFits(e, w);
    AddHolds(e, ac0, 0, s, w);
    var r := Add64(ac0, Native(e, w), 0);
    LastCarry(e, r.0, r.1, s + Sum16(w));
    ac := (r.0 + r.1) % WORD;
  }

  /** The part of checksumNoFold on whole 64-bit words. */
  method AddBulk(e: Endian, ac0: nat, b0: seq<Byte>, ghost s0: nat) returns (ac: nat, b: seq<Byte>, ghost s: nat)
    requires Holds(e, ac0, 0, s0)
    ensures Holds(e, ac, 0, s) && s + Sum16(b) == s0 + Sum16(b0) && |b| < 8
  {
    ac, b, s := ac0, b0, s0;
    while |b| >= 128
      invariant Holds(e, ac, 0, s) && s + Sum16(b) == s0 + Sum16(b0)
    {
      ac, b, s := AddWords(e, ac, b, 16, s);
    }
    if |b| >= 64 { ac, b, s := AddWords(e, ac, b, 8, s); }
    if |b| >= 32 { ac, b, s := AddWords(e, ac, b, 4, s); }
    if |b| >= 16 { ac, b, s := AddWords(e, ac, b, 2, s); }
    if |b| >= 8 { ac, b, s := AddWords(e, ac, b, 1, s); }
  }

  method AddTail(e: Endian, ac0: nat, b0: seq<Byte>, ghost s0: nat) returns (ac: nat)
    requires Holds(e, ac0, 0, s0) && |b0| < 8
    ensures Holds(e, ac, 0, s0 + Sum16(b0))
  {
    var b := b0;
    ghost var s := s0;
    ac := ac0;
    if |b| >= 4 {
      ac := AddShort(e, ac, b[..4], s);
      Advance(b, 4);
      s, b := s + Sum16(b[..4]), b[4..];
    }
    if |b| >= 2 {
      ac := AddShort(e, ac, b[..2], s);
      Advance(b, 2);
      s, b := s + Sum16(b[..2]), b[2..];
    }
    if |b| == 1 {
      assert Sum16([b[0], 0]) == Sum16(b);
      ac := AddShort(e, ac, [b[0], 0], s);
    }
  }

  /** The unfolded checksum, on either kind of machine and for every byte string,
      stands for the initial value plus the 16-bit sum; it is zero only if both are. */
  method ChecksumNoFold(e: Endian, b: seq<Byte>, initial: nat) returns (r: nat)
    requires initial < WORD
    ensures r < WORD && Canon(r) == Canon(initial + Sum16(b))
  {
    var ac := AddAll(e, b, initial);
    r := Swapped(e, ac);
    SwappedStandsFor(e, ac, initial + Sum16(b));
  }

  /** The accumulator after all bytes, started from the swapped initial value. */
  method AddAll(e: Endian, b: seq<Byte>, initial: nat) returns (ac: nat)
    requires initial < WORD
    ensures Holds(e, ac, 0, initial + Sum16(b))
  {
    SwappedSame(e, initial);
    ac := Swapped(e, initial);
    var rest: seq<Byte>;
    ghost var s;
    ac, rest, s := AddBulk(e, ac, b, initial);
    ac := AddTail(e, ac, rest, s);
  }

  /** What stands for the scaled sum stands for the sum once swapped back. */
  lemma SwappedStandsFor(e: Endian, ac: nat, total: nat)
    requires Holds(e, ac, 0, total)
    ensures Swapped(e, ac) < WORD && Canon(Swapped(e, ac)) == Canon(total)
  {
    SwappedSame(e, ac);
    SameScale(e, ac, Scale(e, total));
    ScaleTwice(e, total);
    SameTrans(Scale(e, ac), Scale(e, Scale(e, total)), total);
    SameTrans(Swapped(e, ac), Scale(e, ac), total);
    CanonEqual(Swapped(e, ac), total);
  }

  function Fold(n: nat): (r: nat) { n / 0x10000 + n % 0x10000 }

  lemma FoldKeeps(n: nat)
    ensures Canon(Fold(n)) == Canon(n)
  {
    SameBy(Fold(n), n, -(n / 0x10000));
    CanonEqual(Fold(n), n);
  }

  lemma FoldBound(n: nat, k: nat)
    requires n <= 0x10000 * k + 0xfffe
    ensures Fold(n) <= k + 0xfffe || (k == 0 && Fold(n) <= 0xffff)
  {
  }

  /** Four folds bring any 64-bit value into 16 bits. */
  lemma FourFoldsFit(n: nat)
    requires n < WORD
    ensures Fold(Fold(Fold(Fold(n)))) == Canon(n)
  {
    var f1 := Fold(n);
    var f2 := Fold(f1);
    var f3 := Fold(f2);
    assert f1 <= 0x1_0000_0000_0000 + 0xfffe;
    FoldBound(f1, 0x1_0000_0000);
    FoldBound(f2, 0x1_0000);
    FoldBound(f3, 1);
    FoldKeeps(n);
    FoldKeeps(f1);
    FoldKeeps(f2);
    FoldKeeps(f3);
    CanonOfWord(Fold(f3));
  }

  /** checksum is the one's-complement sum of RFC 1071. */
  method ChecksumOf(e: Endian, b: seq<Byte>, initial: nat) returns (r: nat)
    requires initial < WORD
    ensures r == Canon(initial + Sum16(b))
    ensures initial <= 0xffff ==> r == OnesSum(b, initial)
  {
    var ac := ChecksumNoFold(e, b, initial);
    FourFoldsFit(ac);
    ac := Fold(ac);
    ac := Fold(ac);
    ac := Fold(ac);
    ac := Fold(ac);
    r := ac % 0x10000;
    if initial <= 0xffff { OnesSumIsCanon(b, initial); }
  }

  /** w is n written as two bytes, most significant first. */
  predicate Encodes(w: seq<Byte>, n: nat) { |w| == 2 && 256 * (w[0] as int) + (w[1] as int) == n }

  method Put16(n: nat) returns (w: seq<Byte>)
    requires n < 0x10000
    ensures w == Bytes16(n)
  {
    w := [n / 256, n % 256];
    assert Encodes(w, n);
    EncodingIsUnique(w, Bytes16(n), n);
  }

  ghost function Bytes16(n: nat): (w: seq<Byte>)
    requires n < 0x10000
    ensures Encodes(w, n)
  {
    assert Encodes([n / 256, n % 256], n);
    var w :| Encodes(w, n);
    w
  }

  lemma EncodingIsUnique(w: seq<Byte>, w': seq<Byte>, n: nat)
    requires Encodes(w, n) && Encodes(w', n)
    ensures w == w'
  {
  }

  lemma SumOfParts(a: seq<Byte>, b: seq<Byte>, c: seq<Byte>, d: seq<Byte>)
    requires |a| % 2 == 0 && |b| % 2 == 0 && |c| % 2 == 0
    ensures Sum16(a + b + c + d) == Sum16(a) + Sum16(b) + Sum16(c) + Sum16(d)
  {
    SumConcat(a, b);
    SumConcat(a + b, c);
    SumConcat(a + b + c, d);
  }

  /** The pseudo-header as it would lie in memory: both addresses, the protocol
      and the length (section 3.1 of RFC 9293). */
  ghost function PseudoHeader(protocol: Byte, src: seq<Byte>, dst: seq<Byte>, totalLen: nat): (b: seq<Byte>)
    requires totalLen < 0x10000
  {
    src + dst + Zeroed(protocol) + Bytes16(totalLen)
  }

  function Zeroed(protocol: Byte): (w: seq<Byte>)
    ensures |w| == 2
  {
    [0, protocol]
  }

  /** Chaining the parts is summing the pseudo-header they make up. */
  method PseudoHeaderChecksumNoFold(e: Endian, protocol: Byte, src: seq<Byte>, dst: seq<Byte>, totalLen: nat)
    returns (r: nat)
    requires totalLen < 0x10000 && |src| % 2 == 0 && |dst| % 2 == 0
    ensures r < WORD && Canon(r) == Canon(Sum16(PseudoHeader(protocol, src, dst, totalLen)))
  {
    var length := Put16(totalLen);
    r := ChainChecksum(e, src, dst, Zeroed(protocol), length);
  }

  method ChainChecksum(e: Endian, a: seq<Byte>, b: seq<Byte>, c: seq<Byte>, d: seq<Byte>) returns (r: nat)
    requires |a| % 2 == 0 && |b| % 2 == 0 && |c| % 2 == 0
    ensures r < WORD && Canon(r) == Canon(Sum16(a + b + c + d))
  {
    SumOfParts(a, b, c, d);
    var s1 := ChecksumNoFold(e, a, 0);
    var s2 := ChecksumNoFold(e, b, s1);
    CanonAdds(s1, Sum16(a), Sum16(b));
    var s3 := ChecksumNoFold(e, c, s2);
    CanonAdds(s2, Sum16(a) + Sum16(b), Sum16(c));
    r := ChecksumNoFold(e, d, s3);
    CanonAdds(s3, Sum16(a) + Sum16(b) + Sum16(c), Sum16(d));
  }
}
