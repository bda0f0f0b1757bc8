/** What the handshake is bound to, written as sections 5.4.2 and 5.4.3 of the
    WireGuard whitepaper list it: the inputs of the chaining key, the fields of the
    hash, and what each sealed field is sealed with. */
module Transcript {
  import opened Common
  import opened Noise

  /** What goes into the chaining key, by the number of keys derived with it. */
  datatype Mix = One(data: Bytes) | Two(data: Bytes) | Three(data: Bytes)

  function Mixed(c: Crypto, chain: Bytes, m: Mix): (r: Bytes)
  {
    match m
    case One(data) => c.kdf1(chain, data)
    case Two(data) => c.kdf2(chain, data).0
    case Three(data) => c.kdf3(chain, data).0
  }

  /** The chaining key after inputs in order. */
  function Chain(c: Crypto, mixes: seq<Mix>): (r: Bytes)
  {
    if mixes == [] then c.initialChain else Mixed(c, Chain(c, mixes[..|mixes|-1]), mixes[|mixes|-1])
  }

  /** The hash of fields in order. */
  function Hashed(c: Crypto, fields: seq<Bytes>): (r: Bytes)
  {
    if fields == [] then c.initialHash else c.hash(Hashed(c, fields[..|fields|-1]), fields[|fields|-1])
  }

  /** The secrets of a run: static and ephemeral of initiator and responder, the
      preshared key, and the initiator's timestamp. */
  datatype Inputs = Inputs(i: Bytes, r: Bytes, e: Bytes, f: Bytes, psk: Bytes, now: Bytes)

  /** Ephemeral, es, ss, ephemeral, ee, se, preshared key. */
  function Mixes(c: Crypto, x: Inputs): (ms: seq<Mix>)
  {
    [One(c.pub(x.e)), Two(c.dh(x.e, c.pub(x.r))), Two(c.dh(x.i, c.pub(x.r))), One(c.pub(x.f)),
     One(c.dh(x.f, c.pub(x.e))), One(c.dh(x.f, c.pub(x.i))), Three(x.psk)]
  }

  function Fields(c: Crypto, x: Inputs, m: Initiation, n: Response): (fs: seq<Bytes>)
  {
    [c.pub(x.r), m.ephemeral, m.sealedStatic, m.timestamp, n.ephemeral,
     c.kdf3(Chain(c, Mixes(c, x)[..6]), x.psk).1, n.empty]
  }

  /** The initiation, and the state it leaves. */
  ghost predicate Initiates(c: Crypto, x: Inputs, m: Initiation, s: Sym)
  {
    var ms, fs := Mixes(c, x), [c.pub(x.r), m.ephemeral, m.sealedStatic, m.timestamp];
    && m.ephemeral == c.pub(x.e)
    && m.sealedStatic == c.seal(c.kdf2(Chain(c, ms[..1]), c.dh(x.e, c.pub(x.r))).1, c.pub(x.i), Hashed(c, fs[..2]))
    && m.timestamp == c.seal(c.kdf2(Chain(c, ms[..2]), c.dh(x.i, c.pub(x.r))).1, x.now, Hashed(c, fs[..3]))
    && s == Sym(Hashed(c, fs), Chain(c, ms[..3]))
  }

  /** Both messages, and the state both sides end in. */
  ghost predicate Follows(c: Crypto, x: Inputs, m: Initiation, n: Response, s: Sym)
  {
    var ms, fs := Mixes(c, x), Fields(c, x, m, n);
    && Initiates(c, x, m, Sym(Hashed(c, fs[..4]), Chain(c, ms[..3])))
    && n.ephemeral == c.pub(x.f)
    && n.empty == c.seal(c.kdf3(Chain(c, ms[..6]), x.psk).2, [], Hashed(c, fs[..6]))
    && s == Sym(Hashed(c, fs), Chain(c, ms))
  }

  // ----- what the two sides compute is this

  lemma ChainStep(c: Crypto, ms: seq<Mix>, k: nat)
    requires k < |ms|
    ensures Chain(c, ms[..k+1]) == Mixed(c, Chain(c, ms[..k]), ms[k])
  {
    assert ms[..k+1][..k] == ms[..k];
  }

  lemma HashStep(c: Crypto, fs: seq<Bytes>, k: nat)
    requires k < |fs|
    ensures Hashed(c, fs[..k+1]) == c.hash(Hashed(c, fs[..k]), fs[k])
  {
    assert fs[..k+1][..k] == fs[..k];
  }

  lemma InitiationFollows(c: Crypto, x: Inputs, m: Initiation)
    requires SealedBy(c, x.e, Pub(c, x.i), Pub(c, x.r), Dh(c, x.i, Pub(c, x.r)), x.now, m)
    ensures Initiates(c, x, m, InitiatorSym(c, x.e, Pub(c, x.r), Dh(c, x.i, Pub(c, x.r)), m))
  {
    var ms, fs := Mixes(c, x), [c.pub(x.r), m.ephemeral, m.sealedStatic, m.timestamp];
    assert ms[..0] == [] && fs[..0] == [] && fs[..4] == fs;
    ChainStep(c, ms, 0);
    ChainStep(c, ms, 1);
    ChainStep(c, ms, 2);
    HashStep(c, fs, 0);
    HashStep(c, fs, 1);
    HashStep(c, fs, 2);
    HashStep(c, fs, 3);
  }

  lemma ResponseFollows(c: Crypto, x: Inputs, m: Initiation, s: Sym, n: Response)
    requires Initiates(c, x, m, s) && n.ephemeral == Pub(c, x.f)
    requires n.empty == Seal(c, ResponseKeyOf(c, x, s), [], ResponseSymOf(c, x, s).hash)
    ensures Follows(c, x, m, n, MixHash(c, ResponseSymOf(c, x, s), n.empty))
  {
    var ms, fs := Mixes(c, x), Fields(c, x, m, n);
    assert fs[..4] == [c.pub(x.r), m.ephemeral, m.sealedStatic, m.timestamp];
    assert ms[..7] == ms && fs[..7] == fs;
    ChainStep(c, ms, 3);
    ChainStep(c, ms, 4);
    ChainStep(c, ms, 5);
    ChainStep(c, ms, 6);
    HashStep(c, fs, 4);
    HashStep(c, fs, 5);
    HashStep(c, fs, 6);
  }

  function ResponseSymOf(c: Crypto, x: Inputs, s: Sym): Sym
  {
    ResponseSym(c, s, Pub(c, x.f), Dh(c, x.f, Pub(c, x.e)), Dh(c, x.f, Pub(c, x.i)), x.psk)
  }

  function ResponseKeyOf(c: Crypto, x: Inputs, s: Sym): Bytes
  {
    ResponseKey(c, s, Pub(c, x.f), Dh(c, x.f, Pub(c, x.e)), Dh(c, x.f, Pub(c, x.i)), x.psk)
  }

  // ----- what equal states are bound to

  /** No two inputs give the same hash or chaining key. */
  ghost predicate CollisionFree(c: Crypto)
  {
    && (forall a, x, b, y :: c.hash(a, x) == c.hash(b, y) ==> a == b && x == y)
    && (forall a, x, b, y :: c.kdf1(a, x) == c.kdf1(b, y) ==> a == b && x == y)
    && (forall a, x, b, y :: c.kdf2(a, x).0 == c.kdf2(b, y).0 ==> a == b && x == y)
    && (forall a, x, b, y :: c.kdf3(a, x).0 == c.kdf3(b, y).0 ==> a == b && x == y)
  }

  /** The same kinds of input in the same places. */
  predicate Alike(a: seq<Mix>, b: seq<Mix>)
  {
    |a| == |b| && forall k :: 0 <= k < |a| ==> a[k].One? == b[k].One? && a[k].Two? == b[k].Two?
  }

  lemma {:induction false} ChainBinds(c: Crypto, a: seq<Mix>, b: seq<Mix>)
    requires CollisionFree(c) && Alike(a, b) && Chain(c, a) == Chain(c, b)
    ensures a == b
  {
    if a != [] {
      var n := |a| - 1;
      var x, y := Chain(c, a[..n]), Chain(c, b[..n]);
      assert Mixed(c, x, a[n]) == Mixed(c, y, b[n]);
      assert x == y && a[n] == b[n];
      ChainBinds(c, a[..n], b[..n]);
      assert a == a[..n] + [a[n]] && b == b[..n] + [b[n]];
    }
  }

  lemma {:induction false} HashBinds(c: Crypto, a: seq<Bytes>, b: seq<Bytes>)
    requires CollisionFree(c) && |a| == |b| && Hashed(c, a) == Hashed(c, b)
    ensures a == b
  {
    if a != [] {
      var n := |a| - 1;
      HashBinds(c, a[..n], b[..n]);
      assert a == a[..n] + [a[n]] && b == b[..n] + [b[n]];
    }
  }

  /** Without collisions, runs that end in the same state had the same keys, secrets
      and preshared key, and exchanged the same sealed fields. */
  lemma StateBindsInputs(c: Crypto, x: Inputs, m: Initiation, n: Response, y: Inputs, m': Initiation, n': Response,
                         s: Sym)
    requires Lawful(c) && CollisionFree(c) && Follows(c, x, m, n, s) && Follows(c, y, m', n', s)
    ensures c.pub(x.r) == c.pub(y.r) && c.pub(x.e) == c.pub(y.e) && c.pub(x.f) == c.pub(y.f) && x.psk == y.psk
    ensures c.dh(x.e, c.pub(x.r)) == c.dh(y.e, c.pub(y.r)) && c.dh(x.i, c.pub(x.r)) == c.dh(y.i, c.pub(y.r))
    ensures c.dh(x.f, c.pub(x.e)) == c.dh(y.f, c.pub(y.e)) && c.dh(x.f, c.pub(x.i)) == c.dh(y.f, c.pub(y.i))
    ensures m.sealedStatic == m'.sealedStatic && m.timestamp == m'.timestamp && n.empty == n'.empty
    ensures c.pub(x.i) == c.pub(y.i) && x.now == y.now
  {
    var fs, gs := Fields(c, x, m, n), Fields(c, y, m', n');
    ChainBinds(c, Mixes(c, x), Mixes(c, y));
    HashBinds(c, fs, gs);
    MixesBind(c, x, y);
    assert fs[0] == gs[0] && fs[2] == gs[2] && fs[3] == gs[3] && fs[6] == gs[6];
    SealsBind(c, x, m, y, m');
  }

  lemma MixesBind(c: Crypto, x: Inputs, y: Inputs)
    requires Mixes(c, x) == Mixes(c, y)
    ensures c.pub(x.e) == c.pub(y.e) && c.pub(x.f) == c.pub(y.f) && x.psk == y.psk
    ensures c.dh(x.e, c.pub(x.r)) == c.dh(y.e, c.pub(y.r)) && c.dh(x.i, c.pub(x.r)) == c.dh(y.i, c.pub(y.r))
    ensures c.dh(x.f, c.pub(x.e)) == c.dh(y.f, c.pub(y.e)) && c.dh(x.f, c.pub(x.i)) == c.dh(y.f, c.pub(y.i))
  {
    var a, b := Mixes(c, x), Mixes(c, y);
    assert a[0] == b[0] && a[1] == b[1] && a[2] == b[2] && a[3] == b[3] && a[4] == b[4] && a[5] == b[5] && a[6] == b[6];
  }

  /** Equal sealed fields under equal keys have equal texts. */
  lemma SealsBind(c: Crypto, x: Inputs, m: Initiation, y: Inputs, m': Initiation)
    requires Lawful(c) && (exists s :: Initiates(c, x, m, s)) && (exists s :: Initiates(c, y, m', s))
    requires Mixes(c, x) == Mixes(c, y) && c.pub(x.r) == c.pub(y.r)
    requires m.sealedStatic == m'.sealedStatic && m.timestamp == m'.timestamp
    ensures c.pub(x.i) == c.pub(y.i) && x.now == y.now
  {
    MixesBind(c, x, y);
    var ms, fs := Mixes(c, x), [c.pub(x.r), m.ephemeral, m.sealedStatic, m.timestamp];
    SealBinds(c, c.kdf2(Chain(c, ms[..1]), c.dh(x.e, c.pub(x.r))).1, c.pub(x.i), c.pub(y.i), Hashed(c, fs[..2]));
    SealBinds(c, c.kdf2(Chain(c, ms[..2]), c.dh(x.i, c.pub(x.r))).1, x.now, y.now, Hashed(c, fs[..3]));
  }

  lemma SealBinds(c: Crypto, key: Bytes, p: Bytes, q: Bytes, ad: Bytes)
    requires Lawful(c)
    ensures c.seal(key, p, ad) == c.seal(key, q, ad) ==> p == q
  {
    assert Open(c, key, Seal(c, key, p, ad), ad) == Some(p) && Open(c, key, Seal(c, key, q, ad), ad) == Some(q);
  }
}
