/** The Noise transcript of the WireGuard handshake, over any cryptography that
    satisfies two laws: Diffie-Hellman commutes, and opening undoes sealing. */
module Noise {
  import opened Common

  type Bytes = seq<int>

  /** Keys, hashes and ciphertexts are opaque byte strings. */
  datatype Crypto = Crypto(
    pub: Bytes -> Bytes,
    dh: (Bytes, Bytes) -> Bytes,
    hash: (Bytes, Bytes) -> Bytes,
    kdf1: (Bytes, Bytes) -> Bytes,
    kdf2: (Bytes, Bytes) -> (Bytes, Bytes),
    kdf3: (Bytes, Bytes) -> (Bytes, Bytes, Bytes),
    seal: (Bytes, Bytes, Bytes) -> Bytes,
    open: (Bytes, Bytes, Bytes) -> Option<Bytes>,
    after: (Bytes, Bytes) -> bool,
    initialChain: Bytes,
    initialHash: Bytes,
    zero: Bytes)

  ghost predicate Lawful(c: Crypto)
  {
    && (forall a, b :: Dh(c, a, Pub(c, b)) == Dh(c, b, Pub(c, a)))
    && (forall k, p, ad :: Open(c, k, Seal(c, k, p, ad), ad) == Some(p))
  }

  function Pub(c: Crypto, secret: Bytes): Bytes { c.pub(secret) }

  function Dh(c: Crypto, secret: Bytes, public: Bytes): Bytes { c.dh(secret, public) }

  function Seal(c: Crypto, key: Bytes, text: Bytes, ad: Bytes): Bytes { c.seal(key, text, ad) }

  function Open(c: Crypto, key: Bytes, sealed: Bytes, ad: Bytes): Option<Bytes> { c.open(key, sealed, ad) }

  function After(c: Crypto, s: Bytes, t: Bytes): bool { c.after(s, t) }

  /** The running hash and chaining key. */
  datatype Sym = Sym(hash: Bytes, chain: Bytes)

  function MixHash(c: Crypto, s: Sym, data: Bytes): Sym { s.(hash := c.hash(s.hash, data)) }

  function MixKey(c: Crypto, s: Sym, data: Bytes): Sym { s.(chain := c.kdf1(s.chain, data)) }

  /** Both sides' state once the initiator's ephemeral key is known. */
  function Greeting(c: Crypto, responder: Bytes, ephemeral: Bytes): Sym
  {
    MixHash(c, MixKey(c, MixHash(c, Sym(c.initialHash, c.initialChain), responder), ephemeral), ephemeral)
  }

  /** The key that seals the next field, and the state after the field is hashed. */
  function SealKey(c: Crypto, s: Sym, secret: Bytes): Bytes { c.kdf2(s.chain, secret).1 }

  function AfterSealed(c: Crypto, s: Sym, secret: Bytes, field: Bytes): Sym
  {
    MixHash(c, s.(chain := c.kdf2(s.chain, secret).0), field)
  }

  /** State after the response's ephemeral key, both secrets and the preshared key. */
  function AfterSecrets(c: Crypto, s: Sym, ephemeral: Bytes, ee: Bytes, se: Bytes): Sym
  {
    MixKey(c, MixKey(c, MixKey(c, MixHash(c, s, ephemeral), ephemeral), ee), se)
  }

  function AfterPsk(c: Crypto, s: Sym, psk: Bytes): Sym
  {
    MixHash(c, s.(chain := c.kdf3(s.chain, psk).0), c.kdf3(s.chain, psk).1)
  }

  function EmptyKey(c: Crypto, s: Sym, psk: Bytes): Bytes { c.kdf3(s.chain, psk).2 }

  function TransportKeys(c: Crypto, s: Sym): (Bytes, Bytes) { c.kdf2(s.chain, []) }

  // ----- messages

  datatype Initiation = Initiation(sender: nat, ephemeral: Bytes, sealedStatic: Bytes, timestamp: Bytes)

  datatype Response = Response(sender: nat, receiver: nat, ephemeral: Bytes, empty: Bytes)

  // ----- what each side computes

  /** The initiator's state after creating an initiation with ephemeral secret e. */
  function InitiatorSym(c: Crypto, e: Bytes, remote: Bytes, pss: Bytes, m: Initiation): Sym
  {
    AfterSealed(c, AfterSealed(c, Greeting(c, remote, Pub(c, e)), Dh(c, e, remote), m.sealedStatic), pss, m.timestamp)
  }

  /** The sealed fields the initiator sends. */
  predicate SealedBy(c: Crypto, e: Bytes, me: Bytes, remote: Bytes, pss: Bytes, now: Bytes, m: Initiation)
  {
    var g := Greeting(c, remote, Pub(c, e));
    var s := AfterSealed(c, g, Dh(c, e, remote), m.sealedStatic);
    && m.ephemeral == Pub(c, e)
    && m.sealedStatic == Seal(c, SealKey(c, g, Dh(c, e, remote)), me, g.hash)
    && m.timestamp == Seal(c, SealKey(c, s, pss), now, s.hash)
  }

  /** The responder's view of the same message, with its own static secret r. */
  function ResponderSym(c: Crypto, r: Bytes, pss: Bytes, m: Initiation): Sym
  {
    AfterSealed(c, AfterSealed(c, Greeting(c, Pub(c, r), m.ephemeral), Dh(c, r, m.ephemeral), m.sealedStatic), pss,
      m.timestamp)
  }

  function OpenStatic(c: Crypto, r: Bytes, m: Initiation): Option<Bytes>
  {
    var g := Greeting(c, Pub(c, r), m.ephemeral);
    Open(c, SealKey(c, g, Dh(c, r, m.ephemeral)), m.sealedStatic, g.hash)
  }

  function OpenTimestamp(c: Crypto, r: Bytes, pss: Bytes, m: Initiation): Option<Bytes>
  {
    var s := AfterSealed(c, Greeting(c, Pub(c, r), m.ephemeral), Dh(c, r, m.ephemeral), m.sealedStatic);
    Open(c, SealKey(c, s, pss), m.timestamp, s.hash)
  }

  /** State on either side when the response is sealed or opened. */
  function ResponseSym(c: Crypto, s: Sym, ephemeral: Bytes, ee: Bytes, se: Bytes, psk: Bytes): Sym
  {
    AfterPsk(c, AfterSecrets(c, s, ephemeral, ee, se), psk)
  }

  function ResponseKey(c: Crypto, s: Sym, ephemeral: Bytes, ee: Bytes, se: Bytes, psk: Bytes): Bytes
  {
    EmptyKey(c, AfterSecrets(c, s, ephemeral, ee, se), psk)
  }

  // ----- an honest exchange

  /** The responder reads an honest initiation: it opens both fields, learns who
      sent it, and ends in the initiator's state. */
  lemma InitiationAgrees(c: Crypto, i: Bytes, r: Bytes, e: Bytes, now: Bytes, m: Initiation)
    requires Lawful(c)
    requires SealedBy(c, e, Pub(c, i), Pub(c, r), Dh(c, i, Pub(c, r)), now, m)
    ensures OpenStatic(c, r, m) == Some(Pub(c, i))
    ensures OpenTimestamp(c, r, Dh(c, r, Pub(c, i)), m) == Some(now)
    ensures ResponderSym(c, r, Dh(c, r, Pub(c, i)), m) == InitiatorSym(c, e, Pub(c, r), Dh(c, i, Pub(c, r)), m)
  {
    assert Dh(c, r, Pub(c, e)) == Dh(c, e, Pub(c, r));
    assert Dh(c, r, Pub(c, i)) == Dh(c, i, Pub(c, r));
  }

  /** The initiator reads an honest response: the empty field opens, and both end
      in the same state. The initiator uses its ephemeral secret e and static
      secret i; the responder its ephemeral secret f. */
  lemma ResponseAgrees(c: Crypto, s: Sym, i: Bytes, e: Bytes, f: Bytes, psk: Bytes)
    requires Lawful(c)
    ensures ResponseSym(c, s, Pub(c, f), Dh(c, e, Pub(c, f)), Dh(c, i, Pub(c, f)), psk)
            == ResponseSym(c, s, Pub(c, f), Dh(c, f, Pub(c, e)), Dh(c, f, Pub(c, i)), psk)
    ensures var t := ResponseSym(c, s, Pub(c, f), Dh(c, f, Pub(c, e)), Dh(c, f, Pub(c, i)), psk);
            var k := ResponseKey(c, s, Pub(c, f), Dh(c, f, Pub(c, e)), Dh(c, f, Pub(c, i)), psk);
            Open(c, ResponseKey(c, s, Pub(c, f), Dh(c, e, Pub(c, f)), Dh(c, i, Pub(c, f)), psk), Seal(c, k, [], t.hash),
              t.hash) == Some([])
  {
    assert Dh(c, e, Pub(c, f)) == Dh(c, f, Pub(c, e));
    assert Dh(c, i, Pub(c, f)) == Dh(c, f, Pub(c, i));
  }
}
