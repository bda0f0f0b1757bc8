/** Port forwards: rules are checked, normalised and merged at the Master, split by
    protocol for the agent and expanded there into listeners. */
module PortForwards {
  import opened Common
  import opened PortSpans

  const ANY_HOST := "0.0.0.0"
  const MAX_FORWARDS := 256

  datatype Proto = Tcp | Udp

  /** A protocol field: one protocol, both, or text that means neither. */
  datatype Protocol = One(proto: Proto) | Both | Bad

  predicate Speaks(p: Protocol, x: Proto) { p == Both || p == One(x) }

  /** What a host text means: an unspecified address of either family, on which the
      sockets listen on all local addresses of both, or one address. */
  datatype Address = Any | V4(n: int) | V6(n: int)

  /** Two sockets on the same port cannot both be opened. */
  predicate Meets(a: Address, b: Address) { a == b || a == Any || b == Any }

  /** A listen text with the host text, its address and the ports it parses to. */
  datatype Listen = Listen(text: string, host: string, addr: Address, span: Span)

  type NodeId = int

  datatype Forward = Forward(protocol: Protocol, listen: Listen, destNode: NodeId, dest: string, destPort: nat)

  /** A rule as submitted; its listen text may not parse. */
  datatype Rule = Rule(protocol: Protocol, listen: Option<Listen>, destNode: NodeId, dest: string, destPort: nat)

  /** A socket to open and where it leads. */
  datatype Listener = Listener(proto: Proto, host: string, addr: Address, port: int, destNode: NodeId, destPort: int)

  /** The destination ports of a rule that resolves. */
  function DestOf(f: Forward): (d: Option<Span>) { ResolveDest(f.listen.span, f.dest, f.destPort) }

  /** Port start+i leads to destination start+i. */
  predicate Opens(f: Forward, l: Listener)
  {
    && Speaks(f.protocol, l.proto) && l.host == f.listen.host && l.addr == f.listen.addr && l.destNode == f.destNode
    && f.listen.span.start <= l.port <= f.listen.span.end
    && DestOf(f).Some? && l.destPort - DestOf(f).value.start == l.port - f.listen.span.start
  }

  /** The store's test on host texts. */
  predicate Clash(a: string, b: string) { a == ANY_HOST || b == ANY_HOST || a == b }

  /** Two listeners that cannot both be opened. */
  predicate Conflict(a: Listener, b: Listener) { a.proto == b.proto && a.port == b.port && Meets(a.addr, b.addr) }

  predicate Occupies(f: Forward, p: Proto, port: int)
  {
    Speaks(f.protocol, p) && f.listen.span.start <= port <= f.listen.span.end
  }

  /** No socket of f gets in the way of one of g. */
  ghost predicate Compatible(f: Forward, g: Forward)
  {
    forall p, port :: Occupies(f, p, port) && Occupies(g, p, port) ==> !Clash(f.listen.host, g.listen.host)
  }

  ghost predicate AllCompatible(fs: seq<Forward>) { forall i, j :: 0 <= i < j < |fs| ==> Compatible(fs[i], fs[j]) }

  predicate Proper(f: Forward)
  {
    f.protocol != Bad && f.listen.span.Valid() && f.destPort <= 65535 && DestOf(f).Some?
  }

  predicate AllProper(fs: seq<Forward>) { forall i :: 0 <= i < |fs| ==> Proper(fs[i]) }

  /** Two rules share a port, and their addresses meet although the store's test on the
      texts sees nothing: two spellings of an address, or a wildcard that is not spelt
      0.0.0.0, such as :: or ::ffff:0.0.0.0. */
  ghost predicate Hidden(f: Forward, g: Forward)
  {
    && (exists p, port :: Occupies(f, p, port) && Occupies(g, p, port))
    && Meets(f.listen.addr, g.listen.addr) && !Clash(f.listen.host, g.listen.host)
  }

  ghost predicate NoneHidden(fs: seq<Forward>) { forall i, j :: 0 <= i < j < |fs| ==> !Hidden(fs[i], fs[j]) }

  /** No listener of f conflicts with one of g. */
  ghost predicate ConflictFree(f: Forward, g: Forward)
  {
    forall a, b :: Opens(f, a) && Opens(g, b) ==> !Conflict(a, b)
  }

  /** Rules that share a port conflict if and only if their addresses meet. */
  lemma ConflictIffMeets(f: Forward, g: Forward)
    requires Proper(f) && Proper(g)
    ensures !ConflictFree(f, g) <==>
            (exists p, port :: Occupies(f, p, port) && Occupies(g, p, port)) && Meets(f.listen.addr, g.listen.addr)
  {
    if (exists p, port :: Occupies(f, p, port) && Occupies(g, p, port)) && Meets(f.listen.addr, g.listen.addr) {
      var p, port :| Occupies(f, p, port) && Occupies(g, p, port);
      var a := Listener(p, f.listen.host, f.listen.addr, port, f.destNode,
        DestOf(f).value.start + port - f.listen.span.start);
      var b := Listener(p, g.listen.host, g.listen.addr, port, g.destNode,
        DestOf(g).value.start + port - g.listen.span.start);
      assert Opens(f, a) && Opens(g, b) && Conflict(a, b);
    }
    if !ConflictFree(f, g) {
      var a, b :| Opens(f, a) && Opens(g, b) && Conflict(a, b);
      assert Occupies(f, a.proto, a.port) && Occupies(g, a.proto, a.port);
    }
  }

  /** Rules the store accepts side by side open conflicting listeners if and only if
      the conflict is hidden from its test. */
  lemma AcceptedConflictIffHidden(f: Forward, g: Forward)
    requires Proper(f) && Proper(g) && Compatible(f, g)
    ensures ConflictFree(f, g) <==> !Hidden(f, g)
  {
    ConflictIffMeets(f, g);
  }

  /** Two spellings of the IPv6 loopback address, and a wildcard in its mapped spelling
      beside it: each pair is accepted and cannot be opened. */
  lemma AHiddenConflict() returns (f: Forward, g: Forward, h: Forward)
    ensures Proper(f) && Proper(g) && Proper(h)
    ensures f.listen.text == "[::1]:80" && g.listen.text == "[0:0:0:0:0:0:0:1]:80"
    ensures h.listen.text == "[::ffff:0.0.0.0]:80"
    ensures Compatible(f, g) && !ConflictFree(f, g)
    ensures Compatible(f, h) && !ConflictFree(f, h)
  {
    f := Forward(One(Tcp), Listen("[::1]:80", "::1", V6(1), Span(80, 80)), 0, "*", 0);
    g := f.(listen := Listen("[0:0:0:0:0:0:0:1]:80", "0:0:0:0:0:0:0:1", V6(1), Span(80, 80)));
    h := f.(listen := Listen("[::ffff:0.0.0.0]:80", "::ffff:0.0.0.0", Any, Span(80, 80)));
    TrimNothing("*");
    assert "::1"[0] != "0:0:0:0:0:0:0:1"[0] && "::1"[2] != "::ffff:0.0.0.0"[2] && "::ffff:0.0.0.0"[0] != ANY_HOST[0];
    assert Occupies(f, Tcp, 80) && Occupies(g, Tcp, 80) && Occupies(h, Tcp, 80);
    ConflictIffMeets(f, g);
    ConflictIffMeets(f, h);
  }

  // ----- merging tcp and udp rules

  datatype Key = Key(listen: Listen, destNode: NodeId, dest: string, destPort: nat)

  function KeyOf(f: Forward): (k: Key) { Key(f.listen, f.destNode, f.dest, f.destPort) }

  /** Some rule with key k speaks p. */
  ghost predicate Serves(fs: seq<Forward>, k: Key, p: Proto)
  {
    exists i :: 0 <= i < |fs| && KeyOf(fs[i]) == k && Speaks(fs[i].protocol, p)
  }

  datatype Pair = Pair(tcp: Option<Forward>, udp: Option<Forward>, others: seq<Forward>)

  ghost predicate HasOne(fs: seq<Forward>, k: Key, p: Protocol)
  {
    exists i :: 0 <= i < |fs| && KeyOf(fs[i]) == k && fs[i].protocol == p
  }

  /** The pair for key k holds what the rules of fs say. */
  ghost predicate Holds(fs: seq<Forward>, k: Key, p: Pair)
  {
    && (p.tcp.Some? <==> HasOne(fs, k, One(Tcp)))
      && (p.tcp.Some? ==> KeyOf(p.tcp.value) == k && p.tcp.value.protocol == One(Tcp))
    && (p.udp.Some? <==> HasOne(fs, k, One(Udp)))
      && (p.udp.Some? ==> KeyOf(p.udp.value) == k && p.udp.value.protocol == One(Udp))
    && (p.others != [] <==> HasOne(fs, k, Both))
    && (forall i :: 0 <= i < |p.others| ==> KeyOf(p.others[i]) == k && p.others[i].protocol == Both)
  }

  /** Rules with the same key speak different protocols. */
  predicate OnePerKey(fs: seq<Forward>)
  {
    forall i, j :: 0 <= i < j < |fs| && KeyOf(fs[i]) == KeyOf(fs[j]) ==>
      fs[i].protocol.One? && fs[j].protocol.One? && fs[i].protocol != fs[j].protocol
  }

  lemma SameKeyApart(f: Forward, g: Forward)
    requires Proper(f) && Proper(g) && Compatible(f, g) && KeyOf(f) == KeyOf(g)
    ensures f.protocol.One? && g.protocol.One? && f.protocol != g.protocol
  {
    var s := f.listen.span.start;
    assert Clash(f.listen.host, g.listen.host);
    assert !(Occupies(f, Tcp, s) && Occupies(g, Tcp, s));
    assert !(Occupies(f, Udp, s) && Occupies(g, Udp, s));
    assert f.protocol.One? ==> f.protocol.proto == Tcp || f.protocol.proto == Udp;
    assert g.protocol.One? ==> g.protocol.proto == Tcp || g.protocol.proto == Udp;
  }

  lemma CompatibleMeansOnePerKey(fs: seq<Forward>)
    requires AllProper(fs) && AllCompatible(fs)
    ensures OnePerKey(fs)
  {
    forall i, j | 0 <= i < j < |fs| && KeyOf(fs[i]) == KeyOf(fs[j])
      ensures fs[i].protocol.One? && fs[j].protocol.One? && fs[i].protocol != fs[j].protocol
    {
      SameKeyApart(fs[i], fs[j]);
    }
  }

  function PairOf(pairs: map<Key, Pair>, k: Key): (p: Pair) { if k in pairs then pairs[k] else Pair(None, None, []) }

  function With(p: Pair, f: Forward): (r: Pair)
  {
    match f.protocol
    case One(Tcp) => p.(tcp := Some(f))
    case One(Udp) => p.(udp := Some(f))
    case _ => p.(others := p.others + [f])
  }

  lemma HasOneStep(fs: seq<Forward>, n: nat, k: Key, p: Protocol)
    requires n < |fs|
    ensures HasOne(fs[..n+1], k, p) <==> HasOne(fs[..n], k, p) || (KeyOf(fs[n]) == k && fs[n].protocol == p)
  {
    if HasOne(fs[..n+1], k, p) {
      var i :| 0 <= i < n + 1 && KeyOf(fs[..n+1][i]) == k && fs[..n+1][i].protocol == p;
      assert i < n ==> KeyOf(fs[..n][i]) == k && fs[..n][i].protocol == p;
    }
    if HasOne(fs[..n], k, p) {
      var i :| 0 <= i < n && KeyOf(fs[..n][i]) == k && fs[..n][i].protocol == p;
      assert KeyOf(fs[..n+1][i]) == k && fs[..n+1][i].protocol == p;
    }
    assert fs[..n+1][n] == fs[n];
  }

  lemma HoldsStep(fs: seq<Forward>, n: nat, pairs: map<Key, Pair>, k: Key)
    requires n < |fs| && fs[n].protocol != Bad && Holds(fs[..n], k, PairOf(pairs, k))
    ensures Holds(fs[..n+1], k, if k == KeyOf(fs[n]) then With(PairOf(pairs, k), fs[n]) else PairOf(pairs, k))
  {
    HasOneStep(fs, n, k, One(Tcp));
    HasOneStep(fs, n, k, One(Udp));
    HasOneStep(fs, n, k, Both);
  }

  // ----- mergeForwardPairs

  ghost predicate Collected(fs: seq<Forward>, n: nat, pairs: map<Key, Pair>, order: seq<Key>)
    requires n <= |fs|
  {
    && (forall k {:trigger Holds(fs[..n], k, PairOf(pairs, k))} :: Holds(fs[..n], k, PairOf(pairs, k)))
    && (forall k :: k in pairs <==> k in order)
    && (forall i, j :: 0 <= i < j < |order| ==> order[i] != order[j])
    && (OnePerKey(fs) ==> forall k :: k in pairs ==> |pairs[k].others| <= 1)
  }

  lemma OthersOnce(fs: seq<Forward>, n: nat, p: Pair)
    requires n < |fs| && OnePerKey(fs) && Holds(fs[..n], KeyOf(fs[n]), p) && fs[n].protocol == Both
    ensures p.others == []
  {
    forall i | 0 <= i < n ensures KeyOf(fs[..n][i]) != KeyOf(fs[n]) { assert fs[..n][i] == fs[i]; }
  }

  method Collect(fs: seq<Forward>) returns (pairs: map<Key, Pair>, order: seq<Key>)
    requires forall i :: 0 <= i < |fs| ==> fs[i].protocol != Bad
    ensures Collected(fs, |fs|, pairs, order)
  {
    pairs, order := map[], [];
    for n := 0 to |fs|
      invariant Collected(fs, n, pairs, order)
    {
      var f := fs[n];
      var k := KeyOf(f);
      ghost var before := pairs;
      assert Holds(fs[..n], k, PairOf(pairs, k));
      if OnePerKey(fs) && f.protocol == Both { OthersOnce(fs, n, PairOf(pairs, k)); }
      if k !in pairs { order := order + [k]; }
      pairs := pairs[k := With(PairOf(pairs, k), f)];
      forall k' ensures Holds(fs[..n+1], k', PairOf(pairs, k')) {
        assert Holds(fs[..n], k', PairOf(before, k'));
        HoldsStep(fs, n, before, k');
      }
    }
  }

  /** The rules that come out for one pair. */
  function Emitted(p: Pair): (out: seq<Forward>)
  {
    p.others +
    (if p.tcp.Some? && p.udp.Some? then [p.tcp.value.(protocol := Both)]
     else if p.tcp.Some? then [p.tcp.value]
     else if p.udp.Some? then [p.udp.value] else [])
  }

  lemma EmittedServes(fs: seq<Forward>, k: Key, p: Pair, x: Proto)
    requires Holds(fs, k, p) && forall i :: 0 <= i < |fs| ==> fs[i].protocol != Bad
    ensures Serves(Emitted(p), k, x) <==> Serves(fs, k, x)
    ensures forall i :: 0 <= i < |Emitted(p)| ==> KeyOf(Emitted(p)[i]) == k && Emitted(p)[i].protocol != Bad
  {
    var out := Emitted(p);
    assert Serves(fs, k, x) <==> HasOne(fs, k, One(x)) || HasOne(fs, k, Both);
    if p.others != [] { assert KeyOf(out[0]) == k && Speaks(out[0].protocol, x); }
    if p.tcp.Some? || p.udp.Some? { assert out[|p.others|] == Emitted(p.(others := []))[0]; }
    if HasOne(fs, k, One(x)) && p.others == [] {
      assert KeyOf(out[0]) == k && Speaks(out[0].protocol, x);
    } else if HasOne(fs, k, One(x)) {
      assert KeyOf(out[0]) == k && Speaks(out[0].protocol, x);
    }
  }

  /** With one rule per key and protocol, at most one rule per key comes out. */
  lemma EmittedOnce(fs: seq<Forward>, k: Key, p: Pair)
    requires Holds(fs, k, p) && OnePerKey(fs) && |p.others| <= 1
    ensures |Emitted(p)| <= 1
  {
    if p.others != [] {
      var i :| 0 <= i < |fs| && KeyOf(fs[i]) == k && fs[i].protocol == Both;
      forall j | 0 <= j < |fs| && KeyOf(fs[j]) == k ensures j == i { assert j < i || j == i || j > i; }
    }
  }

  /** What comes out for the first n keys. */
  ghost predicate MergedTo(fs: seq<Forward>, order: seq<Key>, n: nat, out: seq<Forward>)
    requires n <= |order|
  {
    && (forall i :: 0 <= i < |out| ==> KeyOf(out[i]) in order[..n] && out[i].protocol != Bad)
    && (forall k, x {:trigger Serves(out, k, x)} :: k in order[..n] ==> (Serves(out, k, x) <==> Serves(fs, k, x)))
    && (OnePerKey(fs) ==> DistinctKeys(out))
  }

  predicate DistinctKeys(fs: seq<Forward>) { forall i, j :: 0 <= i < j < |fs| ==> KeyOf(fs[i]) != KeyOf(fs[j]) }

  lemma ServesConcat(a: seq<Forward>, b: seq<Forward>, k: Key, x: Proto)
    ensures Serves(a + b, k, x) <==> Serves(a, k, x) || Serves(b, k, x)
  {
    var c := a + b;
    if Serves(a, k, x) {
      var i :| 0 <= i < |a| && KeyOf(a[i]) == k && Speaks(a[i].protocol, x);
      assert c[i] == a[i];
    }
    if Serves(b, k, x) {
      var i :| 0 <= i < |b| && KeyOf(b[i]) == k && Speaks(b[i].protocol, x);
      assert c[|a| + i] == b[i];
    }
  }

  lemma MergeStep(fs: seq<Forward>, order: seq<Key>, n: nat, out: seq<Forward>, p: Pair)
    requires n < |order| && MergedTo(fs, order, n, out) && Holds(fs, order[n], p)
    requires (forall i :: 0 <= i < |fs| ==> fs[i].protocol != Bad) &&
             forall i, j :: 0 <= i < j < |order| ==> order[i] != order[j]
    requires OnePerKey(fs) ==> |p.others| <= 1
    ensures MergedTo(fs, order, n + 1, out + Emitted(p))
  {
    var k, more := order[n], Emitted(p);
    var out' := out + more;
    assert order[..n+1] == order[..n] + [k] && k !in order[..n];
    EmittedServes(fs, k, p, Tcp);
    forall i | 0 <= i < |out'| ensures KeyOf(out'[i]) in order[..n+1] && out'[i].protocol != Bad {
      assert i >= |out| ==> out'[i] == more[i - |out|];
    }
    forall k', x | k' in order[..n+1] ensures Serves(out', k', x) <==> Serves(fs, k', x) {
      ServesConcat(out, more, k', x);
      EmittedServes(fs, k, p, x);
      assert k' == k ==> !Serves(out, k', x);
      assert k' != k ==> !Serves(more, k', x);
    }
    if OnePerKey(fs) { EmittedOnce(fs, k, p); }
  }

  lemma NothingServed(fs: seq<Forward>, k: Key, x: Proto)
    requires Holds(fs, k, Pair(None, None, []))
    ensures !Serves(fs, k, x)
  {
    assert !HasOne(fs, k, Both) && !HasOne(fs, k, One(Tcp)) && !HasOne(fs, k, One(Udp));
    assert x == Tcp || x == Udp;
  }

  /** mergeForwardPairs: what is served under each key stays the same; rules that
      speak different protocols per key become one rule per key. */
  method MergeForwardPairs(fs: seq<Forward>) returns (out: seq<Forward>)
    requires forall i :: 0 <= i < |fs| ==> fs[i].protocol != Bad
    ensures forall k, x {:trigger Serves(out, k, x)} :: Serves(out, k, x) <==> Serves(fs, k, x)
    ensures (forall i :: 0 <= i < |out| ==> out[i].protocol != Bad) && (OnePerKey(fs) ==> DistinctKeys(out))
  {
    var pairs, order := Collect(fs);
    assert fs[..|fs|] == fs;
    out := [];
    for n := 0 to |order|
      invariant MergedTo(fs, order, n, out)
    {
      var p := PairOf(pairs, order[n]);
      assert Holds(fs[..|fs|], order[n], p);
      MergeStep(fs, order, n, out, p);
      out := out + Emitted(p);
    }
    assert order[..|order|] == order;
    forall k, x | k !in order ensures !Serves(out, k, x) && !Serves(fs, k, x) {
      assert Holds(fs[..|fs|], k, PairOf(pairs, k));
      NothingServed(fs, k, x);
    }
  }

  // ----- listeners of a list of rules

  ghost predicate OpensSome(fs: seq<Forward>, l: Listener) { exists i :: 0 <= i < |fs| && Opens(fs[i], l) }

  /** Same keys served, same listeners. */
  lemma SameServesSameListeners(fs: seq<Forward>, gs: seq<Forward>, l: Listener)
    requires forall k, x {:trigger Serves(gs, k, x)} :: Serves(gs, k, x) <==> Serves(fs, k, x)
    ensures OpensSome(gs, l) <==> OpensSome(fs, l)
  {
    if OpensSome(fs, l) {
      var i :| 0 <= i < |fs| && Opens(fs[i], l);
      assert Serves(gs, KeyOf(fs[i]), l.proto);
      var j :| 0 <= j < |gs| && KeyOf(gs[j]) == KeyOf(fs[i]) && Speaks(gs[j].protocol, l.proto);
      assert Opens(gs[j], l);
    }
    if OpensSome(gs, l) {
      var i :| 0 <= i < |gs| && Opens(gs[i], l);
      assert Serves(gs, KeyOf(gs[i]), l.proto);
      var j :| 0 <= j < |fs| && KeyOf(fs[j]) == KeyOf(gs[i]) && Speaks(fs[j].protocol, l.proto);
      assert Opens(fs[j], l);
    }
  }

  lemma MergedIsProper(fs: seq<Forward>, gs: seq<Forward>, i: nat)
    requires forall k, x {:trigger Serves(gs, k, x)} :: Serves(gs, k, x) <==> Serves(fs, k, x)
    requires AllProper(fs) && i < |gs| && gs[i].protocol != Bad
    ensures Proper(gs[i])
  {
    var x := if Speaks(gs[i].protocol, Tcp) then Tcp else Udp;
    assert gs[i].protocol.One? ==> gs[i].protocol.proto == Tcp || gs[i].protocol.proto == Udp;
    assert Serves(gs, KeyOf(gs[i]), x);
    var j :| 0 <= j < |fs| && KeyOf(fs[j]) == KeyOf(gs[i]) && Speaks(fs[j].protocol, x);
    assert Proper(fs[j]);
  }

  lemma MergedIsCompatible(fs: seq<Forward>, gs: seq<Forward>, i: nat, j: nat)
    requires forall k, x {:trigger Serves(gs, k, x)} :: Serves(gs, k, x) <==> Serves(fs, k, x)
    requires AllCompatible(fs) && DistinctKeys(gs) && i < j < |gs|
    ensures Compatible(gs[i], gs[j])
  {
    forall p, port | Occupies(gs[i], p, port) && Occupies(gs[j], p, port)
      ensures !Clash(gs[i].listen.host, gs[j].listen.host)
    {
      assert Serves(gs, KeyOf(gs[i]), p) && Serves(gs, KeyOf(gs[j]), p);
      var a :| 0 <= a < |fs| && KeyOf(fs[a]) == KeyOf(gs[i]) && Speaks(fs[a].protocol, p);
      var b :| 0 <= b < |fs| && KeyOf(fs[b]) == KeyOf(gs[j]) && Speaks(fs[b].protocol, p);
      assert Occupies(fs[a], p, port) && Occupies(fs[b], p, port);
      if a < b { assert Compatible(fs[a], fs[b]); } else { assert Compatible(fs[b], fs[a]); }
    }
  }

  // ----- the conflict check

  type Seen = map<(Proto, int), seq<string>>

  function HostsAt(seen: Seen, p: Proto, port: int): (hs: seq<string>)
  {
    if (p, port) in seen then seen[(p, port)] else []
  }

  method AnyClash(hosts: seq<string>, host: string) returns (clash: bool)
    ensures clash <==> exists i :: 0 <= i < |hosts| && Clash(hosts[i], host)
  {
    for i := 0 to |hosts|
      invariant forall j :: 0 <= j < i ==> !Clash(hosts[j], host)
    {
      if Clash(hosts[i], host) { return true; }
    }
    return false;
  }

  ghost predicate Taken(seen: Seen, p: Proto, port: int, host: string)
  {
    exists i :: 0 <= i < |HostsAt(seen, p, port)| && Clash(HostsAt(seen, p, port)[i], host)
  }

  ghost predicate Claimed(seen0: Seen, seen: Seen, p: Proto, host: string, span: Span)
  {
    forall q, port ::
      HostsAt(seen, q, port) == HostsAt(seen0, q, port) +
        if q == p && span.start <= port <= span.end then [host] else []
  }

  /** Claim every port of the span for one protocol, unless one is taken. */
  method Claim(seen0: Seen, p: Proto, host: string, span: Span) returns (ok: bool, seen: Seen)
    requires span.Valid()
    ensures ok <==> forall port :: span.start <= port <= span.end ==> !Taken(seen0, p, port, host)
    ensures ok ==> Claimed(seen0, seen, p, host, span)
  {
    seen := seen0;
    for port := span.start to span.end + 1
      invariant forall r :: span.start <= r < port ==> !Taken(seen0, p, r, host)
      invariant forall q, r ::
                  HostsAt(seen, q, r) == HostsAt(seen0, q, r) + if q == p && span.start <= r < port then [host] else []
    {
      var prev := HostsAt(seen, p, port);
      assert prev == HostsAt(seen0, p, port);
      var clash := AnyClash(prev, host);
      if clash {
        assert Taken(seen0, p, port, host);
        return false, seen;
      }
      seen := seen[(p, port) := prev + [host]];
    }
    ok := true;
  }

  /** seen tells exactly which hosts the rules listen on. */
  ghost predicate SeenAt(fs: seq<Forward>, seen: Seen, p: Proto, port: int, h: string)
  {
    h in HostsAt(seen, p, port) <==> exists i :: 0 <= i < |fs| && Occupies(fs[i], p, port) && fs[i].listen.host == h
  }

  ghost predicate Known(fs: seq<Forward>, seen: Seen)
  {
    forall p, port, h {:trigger SeenAt(fs, seen, p, port, h)} :: SeenAt(fs, seen, p, port, h)
  }

  lemma TakenMeansClash(fs: seq<Forward>, seen: Seen, p: Proto, port: int, host: string)
    requires Known(fs, seen)
    ensures Taken(seen, p, port, host) <==>
            exists i :: 0 <= i < |fs| && Occupies(fs[i], p, port) && Clash(fs[i].listen.host, host)
  {
    if Taken(seen, p, port, host) {
      var i :| 0 <= i < |HostsAt(seen, p, port)| && Clash(HostsAt(seen, p, port)[i], host);
      assert SeenAt(fs, seen, p, port, HostsAt(seen, p, port)[i]);
    }
    if exists i :: 0 <= i < |fs| && Occupies(fs[i], p, port) && Clash(fs[i].listen.host, host) {
      var i :| 0 <= i < |fs| && Occupies(fs[i], p, port) && Clash(fs[i].listen.host, host);
      assert SeenAt(fs, seen, p, port, fs[i].listen.host);
      var j :| 0 <= j < |HostsAt(seen, p, port)| && HostsAt(seen, p, port)[j] == fs[i].listen.host;
    }
  }

  /** The span of f is free for protocol p. */
  ghost predicate Free(fs: seq<Forward>, f: Forward, p: Proto)
  {
    forall i, port :: 0 <= i < |fs| && Occupies(fs[i], p, port) && f.listen.span.start <= port <= f.listen.span.end ==>
      !Clash(fs[i].listen.host, f.listen.host)
  }

  lemma FreeMeansUntaken(fs: seq<Forward>, seen: Seen, f: Forward, p: Proto)
    requires Known(fs, seen)
    ensures Free(fs, f, p) <==>
            forall port :: f.listen.span.start <= port <= f.listen.span.end ==> !Taken(seen, p, port, f.listen.host)
  {
    forall port | f.listen.span.start <= port <= f.listen.span.end
      ensures Taken(seen, p, port, f.listen.host) ==> !Free(fs, f, p)
    {
      TakenMeansClash(fs, seen, p, port, f.listen.host);
    }
    if forall port :: f.listen.span.start <= port <= f.listen.span.end ==> !Taken(seen, p, port, f.listen.host) {
      forall i, port | 0 <= i < |fs| && Occupies(fs[i], p, port) && f.listen.span.start <= port <= f.listen.span.end
        ensures !Clash(fs[i].listen.host, f.listen.host)
      {
        TakenMeansClash(fs, seen, p, port, f.listen.host);
        assert !Taken(seen, p, port, f.listen.host);
      }
    }
  }

  lemma FreeMeansCompatible(fs: seq<Forward>, f: Forward)
    ensures (Speaks(f.protocol, Tcp) ==> Free(fs, f, Tcp)) && (Speaks(f.protocol, Udp) ==> Free(fs, f, Udp)) <==>
            forall i :: 0 <= i < |fs| ==> Compatible(fs[i], f)
  {
    if (Speaks(f.protocol, Tcp) ==> Free(fs, f, Tcp)) && (Speaks(f.protocol, Udp) ==> Free(fs, f, Udp)) {
      forall i, p, port | 0 <= i < |fs| && Occupies(fs[i], p, port) && Occupies(f, p, port)
        ensures !Clash(fs[i].listen.host, f.listen.host)
      {
        assert p == Tcp || p == Udp;
      }
    }
    if forall i :: 0 <= i < |fs| ==> Compatible(fs[i], f) {
      forall p | Speaks(f.protocol, p) ensures Free(fs, f, p) {
        forall i, port | 0 <= i < |fs| && Occupies(fs[i], p, port) && f.listen.span.start <= port <= f.listen.span.end
          ensures !Clash(fs[i].listen.host, f.listen.host)
        {
          assert Compatible(fs[i], f) && Occupies(f, p, port);
        }
      }
    }
  }

  /** Claims for the protocols that f speaks; they succeed just when f gets in nobody's way. */
  method ClaimAll(fs: seq<Forward>, f: Forward, seen0: Seen) returns (ok: bool, seen: Seen)
    requires Known(fs, seen0) && f.listen.span.Valid()
    ensures ok <==> forall i :: 0 <= i < |fs| ==> Compatible(fs[i], f)
    ensures ok ==> Known(fs + [f], seen)
  {
    FreeMeansCompatible(fs, f);
    ok, seen := true, seen0;
    ghost var mid := seen0;
    if Speaks(f.protocol, Tcp) {
      FreeMeansUntaken(fs, seen0, f, Tcp);
      ok, seen := Claim(seen, Tcp, f.listen.host, f.listen.span);
      if !ok { return; }
      mid := seen;
    }
    if Speaks(f.protocol, Udp) {
      FreeMeansUntaken(fs, seen0, f, Udp);
      assert forall port :: HostsAt(mid, Udp, port) == HostsAt(seen0, Udp, port);
      assert forall port :: Taken(mid, Udp, port, f.listen.host) <==> Taken(seen0, Udp, port, f.listen.host);
      ok, seen := Claim(seen, Udp, f.listen.host, f.listen.span);
      if !ok { return; }
    }
    forall p, port, h ensures SeenAt(fs + [f], seen, p, port, h) {
      assert SeenAt(fs, seen0, p, port, h);
      assert p == Tcp || p == Udp;
      KnownStep(fs, f, seen0, seen, p, port, h);
    }
  }

  lemma KnownStep(fs: seq<Forward>, f: Forward, seen0: Seen, seen: Seen, p: Proto, port: int, h: string)
    requires SeenAt(fs, seen0, p, port, h)
    requires HostsAt(seen, p, port) == HostsAt(seen0, p, port) + if Occupies(f, p, port) then [f.listen.host] else []
    ensures SeenAt(fs + [f], seen, p, port, h)
  {
    var gs := fs + [f];
    assert gs[|fs|] == f;
    if exists i :: 0 <= i < |fs| && Occupies(fs[i], p, port) && fs[i].listen.host == h {
      var i :| 0 <= i < |fs| && Occupies(fs[i], p, port) && fs[i].listen.host == h;
      assert gs[i] == fs[i];
    }
  }

  // ----- PutNodeForwards

  /** The rule as the agent would read it before anything is normalised. */
  function AsForward(r: Rule): (f: Forward)
    requires r.listen.Some?
  {
    Forward(r.protocol, r.listen.value, r.destNode, r.dest, r.destPort)
  }

  predicate Acceptable(r: Rule, known: set<NodeId>)
  {
    r.listen.Some? && Proper(AsForward(r)) && r.destNode in known
  }

  /** The rule with its destination in canonical form. */
  function Normal(r: Rule): (f: Forward)
    requires r.listen.Some? && Proper(AsForward(r))
  {
    var f := AsForward(r);
    ResolvedFits(f.listen.span, f.dest, f.destPort);
    var (dest, port) := StoredDest(f.dest, DestOf(f).value);
    f.(dest := dest, destPort := port)
  }

  /** Normalising changes no listener. */
  lemma NormalOpensSame(r: Rule, l: Listener)
    requires r.listen.Some? && Proper(AsForward(r))
    ensures Proper(Normal(r)) && (Opens(Normal(r), l) <==> Opens(AsForward(r), l))
  {
    var f := AsForward(r);
    StoredResolves(f.listen.span, f.dest, f.destPort);
    ResolvedFits(f.listen.span, f.dest, f.destPort);
  }

  ghost predicate RulesOpen(rules: seq<Rule>, l: Listener)
  {
    exists i :: 0 <= i < |rules| && rules[i].listen.Some? && Opens(AsForward(rules[i]), l)
  }

  /** All rules can be kept: each is acceptable and no two get in each other's way. */
  ghost predicate Keepable(rules: seq<Rule>, known: set<NodeId>)
  {
    && |rules| <= MAX_FORWARDS && (forall i :: 0 <= i < |rules| ==> Acceptable(rules[i], known))
    && forall i, j :: 0 <= i < j < |rules| ==> Compatible(AsForward(rules[i]), AsForward(rules[j]))
  }

  ghost predicate Cleaned(rules: seq<Rule>, n: nat, known: set<NodeId>, clean: seq<Forward>)
  {
    && n <= |rules| && |clean| == n
    && forall i :: 0 <= i < n ==> Acceptable(rules[i], known) && clean[i] == Normal(rules[i])
  }

  /** The rules are kept exactly when all are acceptable and compatible; what is
      stored is again so, and opens exactly the listeners that were asked for. */
  method PutNodeForwards(rules: seq<Rule>, known: set<NodeId>) returns (r: Option<seq<Forward>>)
    requires forall i :: 0 <= i < |rules| ==>
             rules[i].destPort <= 65535 && (rules[i].listen.Some? ==> rules[i].listen.value.span.Valid())
    ensures r.Some? <==> Keepable(rules, known)
    ensures r.Some? ==> AllProper(r.value) && AllCompatible(r.value)
    ensures r.Some? ==> forall l :: OpensSome(r.value, l) <==> RulesOpen(rules, l)
  {
    if |rules| > MAX_FORWARDS { return None; }
    var clean: seq<Forward> := [];
    var seen: Seen := map[];
    assert Known(clean, seen) by {
      forall p, port, h ensures SeenAt(clean, seen, p, port, h) {}
    }
    for n := 0 to |rules|
      invariant Cleaned(rules, n, known, clean) && AllCompatible(clean) && Known(clean, seen)
    {
      var rule := rules[n];
      if rule.protocol == Bad || rule.listen.None? { return None; }
      var f := AsForward(rule);
      if DestOf(f).None? || rule.destNode !in known { return None; }
      f := Normal(rule);
      var ok;
      ok, seen := ClaimAll(clean, f, seen);
      if !ok {
        assert !Keepable(rules, known) by { NotKeepable(rules, n, known, clean); }
        return None;
      }
      clean := clean + [f];
    }
    CleanedIsProper(rules, known, clean);
    CompatibleMeansOnePerKey(clean);
    var out := MergeForwardPairs(clean);
    forall i | 0 <= i < |out| ensures Proper(out[i]) { MergedIsProper(clean, out, i); }
    forall i, j | 0 <= i < j < |out| ensures Compatible(out[i], out[j]) { MergedIsCompatible(clean, out, i, j); }
    forall l ensures OpensSome(out, l) <==> RulesOpen(rules, l) {
      SameServesSameListeners(clean, out, l);
      CleanedOpensSame(rules, known, clean, l);
    }
    r := Some(out);
  }

  lemma NotKeepable(rules: seq<Rule>, n: nat, known: set<NodeId>, clean: seq<Forward>)
    requires n < |rules| && Cleaned(rules, n, known, clean) && rules[n].listen.Some? && Proper(AsForward(rules[n]))
    requires exists i :: 0 <= i < n && !Compatible(clean[i], Normal(rules[n]))
    ensures !Keepable(rules, known)
  {
    var i :| 0 <= i < n && !Compatible(clean[i], Normal(rules[n]));
    assert Acceptable(rules[i], known);
    SameCompatible(rules[i], rules[n]);
  }

  lemma SameCompatible(r: Rule, r': Rule)
    requires r.listen.Some? && Proper(AsForward(r)) && r'.listen.Some? && Proper(AsForward(r'))
    ensures Compatible(Normal(r), Normal(r')) <==> Compatible(AsForward(r), AsForward(r'))
  {
    assert forall p, port :: Occupies(Normal(r), p, port) <==> Occupies(AsForward(r), p, port);
    assert forall p, port :: Occupies(Normal(r'), p, port) <==> Occupies(AsForward(r'), p, port);
  }

  lemma CleanedIsProper(rules: seq<Rule>, known: set<NodeId>, clean: seq<Forward>)
    requires Cleaned(rules, |rules|, known, clean) && AllCompatible(clean) && |rules| <= MAX_FORWARDS
    ensures AllProper(clean) && Keepable(rules, known)
  {
    forall i | 0 <= i < |rules| ensures Proper(clean[i]) {
      assert Acceptable(rules[i], known);
      NormalOpensSame(rules[i], Listener(Tcp, "", Any, 0, 0, 0));
    }
    forall i, j | 0 <= i < j < |rules| ensures Compatible(AsForward(rules[i]), AsForward(rules[j])) {
      assert Acceptable(rules[i], known) && Acceptable(rules[j], known) && Compatible(clean[i], clean[j]);
      SameCompatible(rules[i], rules[j]);
    }
  }

  lemma CleanedOpensSame(rules: seq<Rule>, known: set<NodeId>, clean: seq<Forward>, l: Listener)
    requires Cleaned(rules, |rules|, known, clean)
    ensures OpensSome(clean, l) <==> RulesOpen(rules, l)
  {
    forall i | 0 <= i < |rules| ensures Opens(clean[i], l) <==> Opens(AsForward(rules[i]), l) {
      assert Acceptable(rules[i], known);
      NormalOpensSame(rules[i], l);
    }
    if OpensSome(clean, l) {
      var i :| 0 <= i < |clean| && Opens(clean[i], l);
      assert rules[i].listen.Some? && Opens(AsForward(rules[i]), l);
    }
    if RulesOpen(rules, l) {
      var i :| 0 <= i < |rules| && rules[i].listen.Some? && Opens(AsForward(rules[i]), l);
      assert Opens(clean[i], l);
    }
  }

  // ----- at the agent

  /** One rule per protocol, as the Master compiles it. */
  method SplitProtocols(f: Forward) returns (out: seq<Forward>)
    requires f.protocol != Bad
    ensures forall i :: 0 <= i < |out| ==> out[i].protocol.One? && out[i] == f.(protocol := out[i].protocol)
    ensures forall l :: Opens(f, l) <==> OpensSome(out, l)
  {
    if f.protocol == Both {
      out := [f.(protocol := One(Tcp)), f.(protocol := One(Udp))];
      forall l ensures Opens(f, l) <==> OpensSome(out, l) {
        assert l.proto == Tcp || l.proto == Udp;
        assert Opens(f, l) ==> Opens(out[if l.proto == Tcp then 0 else 1], l);
      }
    } else {
      out := [f];
      assert forall l :: Opens(f, l) ==> Opens(out[0], l);
    }
  }

  /** ExpandForward: one listener per port, each to its own destination port. */
  method ExpandForward(f: Forward) returns (r: Option<seq<Listener>>)
    requires f.protocol.One? && f.listen.span.Valid() && f.destPort <= 65535
    ensures r.Some? <==> DestOf(f).Some?
    ensures r.Some? ==> |r.value| == f.listen.span.Len() && (forall l :: l in r.value <==> Opens(f, l))
    ensures r.Some? ==>
            forall i :: 0 <= i < |r.value| ==>
              r.value[i].port == f.listen.span.start + i && 1 <= r.value[i].destPort <= 65535
  {
    var dest := DestOf(f);
    if dest.None? { return None; }
    ResolvedFits(f.listen.span, f.dest, f.destPort);
    var out: seq<Listener> := [];
    for i := 0 to f.listen.span.Len()
      invariant |out| == i
      invariant forall j :: 0 <= j < i ==> out[j] == Nth(f, dest.value, j)
    {
      out := out + [Nth(f, dest.value, i)];
    }
    forall l ensures l in out <==> Opens(f, l) {
      if Opens(f, l) { assert out[l.port - f.listen.span.start] == l; }
    }
    r := Some(out);
  }

  function Nth(f: Forward, dest: Span, i: int): (l: Listener)
    requires f.protocol.One?
  {
    Listener(f.protocol.proto, f.listen.host, f.listen.addr, f.listen.span.start + i, f.destNode, dest.start + i)
  }

  method ExpandAll(fs: seq<Forward>) returns (all: seq<Listener>)
    requires forall i :: 0 <= i < |fs| ==> fs[i].protocol.One? && Proper(fs[i])
    ensures forall l :: l in all <==> OpensSome(fs, l)
  {
    all := [];
    for n := 0 to |fs|
      invariant forall l :: l in all <==> OpensSome(fs[..n], l)
    {
      assert Proper(fs[n]);
      var r := ExpandForward(fs[n]);
      forall l ensures OpensSome(fs[..n+1], l) <==> OpensSome(fs[..n], l) || Opens(fs[n], l) { OpensStep(fs, n, l); }
      all := all + r.value;
    }
    assert fs[..|fs|] == fs;
  }

  lemma OpensStep(fs: seq<Forward>, n: nat, l: Listener)
    requires n < |fs|
    ensures OpensSome(fs[..n+1], l) <==> OpensSome(fs[..n], l) || Opens(fs[n], l)
  {
    if OpensSome(fs[..n], l) {
      var i :| 0 <= i < n && Opens(fs[..n][i], l);
      assert fs[..n+1][i] == fs[..n][i];
    }
    if OpensSome(fs[..n+1], l) {
      var i :| 0 <= i < n + 1 && Opens(fs[..n+1][i], l);
      assert i < n ==> fs[..n][i] == fs[..n+1][i];
    }
    assert fs[..n+1][n] == fs[n];
  }

  /** From the store to the sockets: exactly the listeners of the stored rules, and no
      two of them in conflict if and only if no conflict was hidden from the store. */
  method Deploy(stored: seq<Forward>) returns (all: seq<Listener>)
    requires AllProper(stored) && AllCompatible(stored)
    ensures forall l :: l in all <==> OpensSome(stored, l)
    ensures (forall a, b :: a in all && b in all && a != b ==> !Conflict(a, b)) <==> NoneHidden(stored)
  {
    all := [];
    for n := 0 to |stored|
      invariant forall l :: l in all <==> OpensSome(stored[..n], l)
    {
      assert Proper(stored[n]);
      var parts := SplitProtocols(stored[n]);
      var more := ExpandAll(parts);
      forall l
        ensures OpensSome(stored[..n+1], l) <==> OpensSome(stored[..n], l) || Opens(stored[n], l)
      {
        OpensStep(stored, n, l);
      }
      all := all + more;
    }
    assert stored[..|stored|] == stored;
    ApartIffNoneHidden(stored);
  }

  /** Listeners of stored rules are apart. */
  ghost predicate Apart(stored: seq<Forward>)
  {
    forall a, b :: OpensSome(stored, a) && OpensSome(stored, b) && a != b ==> !Conflict(a, b)
  }

  lemma ApartIffNoneHidden(stored: seq<Forward>)
    requires AllProper(stored) && AllCompatible(stored)
    ensures Apart(stored) <==> NoneHidden(stored)
  {
    if NoneHidden(stored) {
      forall a, b | OpensSome(stored, a) && OpensSome(stored, b) && a != b
        ensures !Conflict(a, b)
      {
        StoredApart(stored, a, b);
      }
    }
    if Apart(stored) {
      forall i, j | 0 <= i < j < |stored| ensures !Hidden(stored[i], stored[j]) { ApartNotHidden(stored, i, j); }
    }
  }

  lemma StoredApart(stored: seq<Forward>, a: Listener, b: Listener)
    requires AllProper(stored) && AllCompatible(stored) && NoneHidden(stored)
    requires OpensSome(stored, a) && OpensSome(stored, b) && a != b
    ensures !Conflict(a, b)
  {
    var i :| 0 <= i < |stored| && Opens(stored[i], a);
    var j :| 0 <= j < |stored| && Opens(stored[j], b);
    if i < j {
      PairApart(stored, i, j);
    } else if j < i {
      PairApart(stored, j, i);
      assert Conflict(a, b) <==> Conflict(b, a);
    } else {
      ApartInOne(stored[i], a, b);
    }
  }

  lemma PairApart(stored: seq<Forward>, i: nat, j: nat)
    requires AllProper(stored) && AllCompatible(stored) && NoneHidden(stored) && i < j < |stored|
    ensures ConflictFree(stored[i], stored[j])
  {
    assert Proper(stored[i]) && Proper(stored[j]) && Compatible(stored[i], stored[j]) && !Hidden(stored[i], stored[j]);
    AcceptedConflictIffHidden(stored[i], stored[j]);
  }

  lemma ApartNotHidden(stored: seq<Forward>, i: nat, j: nat)
    requires AllProper(stored) && AllCompatible(stored) && Apart(stored) && i < j < |stored|
    ensures !Hidden(stored[i], stored[j])
  {
    var f, g := stored[i], stored[j];
    assert Proper(f) && Proper(g) && Compatible(f, g);
    AcceptedConflictIffHidden(f, g);
    if Hidden(f, g) {
      var a, b :| Opens(f, a) && Opens(g, b) && Conflict(a, b);
      assert OpensSome(stored, a) && OpensSome(stored, b);
    }
  }

  lemma ApartInOne(f: Forward, a: Listener, b: Listener)
    requires Opens(f, a) && Opens(f, b) && a != b
    ensures a.proto != b.proto || a.port != b.port
  {
  }
}
