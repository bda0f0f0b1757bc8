/** IP prefixes as bit strings, and longest-prefix match over a map of prefixes.
    A prefix of length n is the sequence of its n leading bits, so it is masked
    by construction; an address is a prefix of full width. */
module Prefixes {

  datatype Family = V4 | V6

  function Width(f: Family): (w: nat)
  {
    match f
    case V4 => 32
    case V6 => 128
  }

  datatype Prefix = Prefix(family: Family, bits: seq<bool>) {
    predicate Valid() { |bits| <= Width(family) }

    predicate IsHost() { |bits| == Width(family) }
  }

  predicate Covers(p: Prefix, q: Prefix)
  {
    p.family == q.family && p.bits <= q.bits
  }

  predicate StrictlyCovers(p: Prefix, q: Prefix)
  {
    Covers(p, q) && |p.bits| < |q.bits|
  }

  /** p is the longest prefix in m that covers a. */
  ghost predicate LongestMatch<T>(m: map<Prefix, T>, a: Prefix, p: Prefix)
  {
    && p in m
    && Covers(p, a)
    && forall q :: q in m && Covers(q, a) ==> |q.bits| <= |p.bits|
  }

  lemma CoversTransitive(p: Prefix, q: Prefix, r: Prefix)
    requires Covers(p, q) && Covers(q, r)
    ensures Covers(p, r)
  {
  }

  /** Two prefixes that cover the same address are nested. */
  lemma CoversComparable(p: Prefix, q: Prefix, r: Prefix)
    requires Covers(p, r) && Covers(q, r)
    ensures |p.bits| <= |q.bits| ==> Covers(p, q)
    ensures |q.bits| <= |p.bits| ==> Covers(q, p)
    ensures |p.bits| == |q.bits| ==> p == q
  {
    assert p.bits == r.bits[..|p.bits|];
    assert q.bits == r.bits[..|q.bits|];
  }

  /** Longest-prefix match is a function: at most one prefix is the longest match. */
  lemma LongestMatchUnique<T>(m: map<Prefix, T>, a: Prefix, p: Prefix, q: Prefix)
    requires LongestMatch(m, a, p) && LongestMatch(m, a, q)
    ensures p == q
  {
    CoversComparable(p, q, a);
  }
}
