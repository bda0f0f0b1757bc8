/** Hot apply: a script of differences against the live device, run by the UAPI
    set operation, must leave exactly the configuration that was asked for. */
module HotApply {
  import opened Common
  import opened Prefixes

  type Key = int
  type Endpoint = int

  const MAX_PEERS := 0x10000

  datatype Peer = Peer(endpoint: Option<Endpoint>, keepalive: int)

  datatype Selection = Nobody | Dummy | Chosen(key: Key)

  /** What the set operation works on. own: the public key of the device; sel: the
      peer the following lines configure. */
  datatype State = State(own: Key, peers: map<Key, Peer>, allowed: map<Prefix, Key>, sel: Selection)

  datatype Line =
    | PrivateKey(own: Key)
    | PublicKey(key: Key)
    | Remove
    | SetEndpoint(endpoint: Endpoint)
    | Keepalive(secs: int)
    | AllowedIp(add: bool, prefix: Prefix)

  // ----- the meaning of a line

  function Owner(s: State, q: Prefix): (k: Option<Key>) { if q in s.allowed then Some(s.allowed[q]) else None }

  function Evicted(s: State, k: Key): (r: State)
    ensures r.peers == s.peers - {k} && r.own == s.own && r.sel == s.sel
    ensures forall q :: Owner(r, q) == if Owner(s, q) == Some(k) then None else Owner(s, q)
  {
    s.(peers := s.peers - {k}, allowed := map q | q in s.allowed && s.allowed[q] != k :: s.allowed[q])
  }

  /** Whether the value of a line parses; parses says which endpoints the bind understands. */
  predicate Takes(line: Line, parses: set<Endpoint>)
  {
    match line
    case SetEndpoint(e) => e in parses
    case Keepalive(n) => 0 <= n < 0x10000
    case _ => true
  }

  /** What a line does once its value is parsed. */
  function Act(s: State, line: Line): (r: Option<State>)
  {
    match line
    case PrivateKey(own) => if s.sel == Nobody then Some(Evicted(s, own).(own := own)) else None
    case PublicKey(k) =>
      if k == s.own then Some(s.(sel := Dummy))
      else if k in s.peers then Some(s.(sel := Chosen(k)))
      else if |s.peers| >= MAX_PEERS then None
      else Some(s.(peers := s.peers[k := Peer(None, 0)], sel := Chosen(k)))
    case Remove =>
      (match s.sel
       case Nobody => None
       case Dummy => Some(s)
       case Chosen(k) => Some(Evicted(s, k).(sel := Dummy)))
    case SetEndpoint(e) =>
      if s.sel == Nobody then None
      else if s.sel.Chosen? && s.sel.key in s.peers then
        Some(s.(peers := s.peers[s.sel.key := s.peers[s.sel.key].(endpoint := Some(e))]))
      else Some(s)
    case Keepalive(n) =>
      if s.sel == Nobody then None
      else if s.sel.Chosen? && s.sel.key in s.peers then
        Some(s.(peers := s.peers[s.sel.key := s.peers[s.sel.key].(keepalive := n)]))
      else Some(s)
    case AllowedIp(add, q) =>
      if s.sel == Nobody then None
      else if s.sel == Dummy then Some(s)
      else if add then Some(s.(allowed := s.allowed[q := s.sel.key]))
      else if q in s.allowed && s.allowed[q] == s.sel.key then Some(s.(allowed := s.allowed - {q}))
      else Some(s)
  }

  /** handleDeviceLine, handlePublicKeyLine and handlePeerLine. */
  function Step(s: State, line: Line, parses: set<Endpoint>): (r: Option<State>)
  {
    if Takes(line, parses) then Act(s, line) else None
  }

  /** The whole script; none is the error that stops it. */
  function Run(s: State, lines: seq<Line>, parses: set<Endpoint>): (r: Option<State>)
    decreases |lines|
  {
    if |lines| == 0 then Some(s)
    else
      match Run(s, lines[..|lines|-1], parses)
      case None => None
      case Some(t) => Step(t, lines[|lines|-1], parses)
  }

  /** The same where every value parses. */
  function Play(s: State, lines: seq<Line>): (r: Option<State>)
    decreases |lines|
  {
    if |lines| == 0 then Some(s)
    else
      match Play(s, lines[..|lines|-1])
      case None => None
      case Some(t) => Act(t, lines[|lines|-1])
  }

  ghost predicate AllTaken(lines: seq<Line>, parses: set<Endpoint>)
  {
    forall line :: line in lines ==> Takes(line, parses)
  }

  /** A script stops exactly at a line whose value does not parse, or where it would
      stop anyway. */
  lemma {:induction false} RunIsPlay(s: State, lines: seq<Line>, parses: set<Endpoint>)
    ensures Run(s, lines, parses) == if AllTaken(lines, parses) then Play(s, lines) else None
    decreases |lines|
  {
    if |lines| > 0 {
      var init, last := lines[..|lines|-1], lines[|lines|-1];
      RunIsPlay(s, init, parses);
      assert lines == init + [last];
      assert AllTaken(lines, parses) <==> AllTaken(init, parses) && Takes(last, parses);
    }
  }

  lemma {:induction false} PlayConcat(s: State, a: seq<Line>, t: State, b: seq<Line>)
    requires Play(s, a) == Some(t)
    ensures Play(s, a + b) == Play(t, b)
  {
    if |b| == 0 {
      assert a + b == a;
    } else {
      var b' := b[..|b|-1];
      PlayConcat(s, a, t, b');
      assert (a + b)[..|a + b|-1] == a + b';
    }
  }

  lemma PlayOne(s: State, a: seq<Line>, t: State, line: Line)
    requires Play(s, a) == Some(t)
    ensures Play(s, a + [line]) == Act(t, line)
  {
    assert (a + [line])[..|a|] == a;
  }

  lemma RunOne(s: State, a: seq<Line>, t: State, line: Line, parses: set<Endpoint>)
    requires Run(s, a, parses) == Some(t)
    ensures Run(s, a + [line], parses) == Step(t, line, parses)
  {
    assert (a + [line])[..|a|] == a;
  }

  /** The device, changed line by line. */
  class Device {
    var state: State
    const parses: set<Endpoint>

    method IpcSetOperation(lines: seq<Line>) returns (ok: bool)
      modifies this
      ensures ok <==> Run(old(state).(sel := Nobody), lines, parses).Some?
      ensures ok ==> state == Run(old(state).(sel := Nobody), lines, parses).value
    {
      state := state.(sel := Nobody);
      ghost var start := state;
      var n := 0;
      ok := true;
      while n < |lines| && ok
        invariant 0 <= n <= |lines|
        invariant Run(start, lines[..n], parses) == if ok then Some(state) else None
      {
        var next := Step(state, lines[n], parses);
        assert lines[..n+1] == lines[..n] + [lines[n]];
        RunOne(start, lines[..n], state, lines[n], parses);
        if next.Some? { state := next.value; } else { ok := false; }
        n := n + 1;
      }
      if ok { assert lines[..n] == lines; } else { Stopped(start, lines, n, parses); }
    }
  }

  lemma {:induction false} Stopped(s: State, lines: seq<Line>, n: nat, parses: set<Endpoint>)
    requires n <= |lines| && Run(s, lines[..n], parses) == None
    ensures Run(s, lines, parses) == None
    decreases |lines| - n
  {
    if n == |lines| {
      assert lines[..n] == lines;
    } else {
      assert lines[..n+1][..n] == lines[..n];
      Stopped(s, lines, n + 1, parses);
    }
  }

  // ----- what is wanted and what is live

  datatype Wanted = Wanted(key: Key, endpoint: Option<Endpoint>, keepalive: int, allowed: seq<Prefix>)

  datatype Live = Live(endpoint: Option<Endpoint>, keepalive: int, allowed: set<Prefix>)

  function Owned(s: State, k: Key): (qs: set<Prefix>)
    ensures forall q :: q in qs <==> Owner(s, q) == Some(k)
  {
    set q | q in s.allowed && s.allowed[q] == k
  }

  /** What the get operation reports. */
  function LiveOf(s: State): (m: map<Key, Live>)
  {
    map k | k in s.peers :: Live(s.peers[k].endpoint, s.peers[k].keepalive, Owned(s, k))
  }

  /** Every prefix belongs to a peer, keepalives have 16 bits, and the device is no
      peer of itself. */
  predicate ValidState(s: State)
  {
    && s.own !in s.peers && (forall q :: q in s.allowed ==> s.allowed[q] in s.peers)
    && forall k :: k in s.peers ==> 0 <= s.peers[k].keepalive < 0x10000
  }

  predicate DistinctKeys(d: seq<Wanted>) { forall i, j :: 0 <= i < j < |d| ==> d[i].key != d[j].key }

  /** No prefix is wanted for two peers. */
  predicate Disjoint(d: seq<Wanted>)
  {
    forall i, j, q :: 0 <= i < j < |d| && q in d[i].allowed ==> q !in d[j].allowed
  }

  ghost predicate Done(d: seq<Wanted>, n: nat, k: Key) { exists j :: 0 <= j < n && j < |d| && d[j].key == k }

  ghost predicate Wants(d: seq<Wanted>, k: Key, q: Prefix)
  {
    exists j :: 0 <= j < |d| && d[j].key == k && q in d[j].allowed
  }

  ghost predicate WantedBySome(d: seq<Wanted>, n: nat, q: Prefix)
  {
    exists j :: 0 <= j < n && j < |d| && q in d[j].allowed
  }

  // ----- one peer's lines

  ghost predicate OnlyPeer(s: State, t: State, k: Key)
  {
    && t.own == s.own && t.sel == s.sel && t.peers.Keys == s.peers.Keys
    && forall k' :: k' in s.peers && k' != k ==> t.peers[k'] == s.peers[k']
  }

  /** A prefix to be added: wanted and not live. */
  ghost predicate Missing(p: Wanted, cur: Option<Live>, q: Prefix)
  {
    q in p.allowed && (cur.Some? ==> q !in cur.value.allowed)
  }

  /** A prefix to be taken away: live and not wanted. */
  ghost predicate Surplus(p: Wanted, cur: Option<Live>, q: Prefix)
  {
    cur.Some? && q in cur.value.allowed && q !in p.allowed
  }

  /** A line whose value may fail to parse. */
  predicate Valued(line: Line) { line.SetEndpoint? || line.Keepalive? }

  /** lines has no endpoint or keepalive that lines0 has not, and conversely. */
  ghost predicate Tells(lines0: seq<Line>, lines: seq<Line>)
  {
    forall line :: Valued(line) ==> (line in lines <==> line in lines0)
  }

  /** Of the prefixes seen, those that are missing have been added. */
  ghost predicate Added(p: Wanted, cur: Option<Live>, seen: seq<Prefix>, t0: State, t: State)
  {
    && t.(allowed := t0.allowed) == t0
    && forall q :: Owner(t, q) == if q in seen && Missing(p, cur, q) then Some(p.key) else Owner(t0, q)
  }

  lemma AddedStep(p: Wanted, cur: Option<Live>, seen: seq<Prefix>, t0: State, t: State, t': State, q: Prefix)
    requires Added(p, cur, seen, t0, t) && t'.(allowed := t.allowed) == t
    requires forall q' :: Owner(t', q') == if q' == q && Missing(p, cur, q) then Some(p.key) else Owner(t, q')
    ensures Added(p, cur, seen + [q], t0, t')
  {
    forall q' ensures Owner(t', q') ==
                      if q' in seen + [q] && Missing(p, cur, q') then Some(p.key) else Owner(t0, q')
    {
      assert Owner(t, q') == if q' in seen && Missing(p, cur, q') then Some(p.key) else Owner(t0, q');
    }
  }

  lemma AddedAll(p: Wanted, cur: Option<Live>, t0: State, t: State)
    requires Added(p, cur, p.allowed, t0, t)
    ensures t.(allowed := t0.allowed) == t0
    ensures forall q :: Owner(t, q) == if Missing(p, cur, q) then Some(p.key) else Owner(t0, q)
  {
  }

  ghost predicate NoneMissing(p: Wanted, cur: Option<Live>) { forall q :: !Missing(p, cur, q) }

  ghost predicate NoneSurplus(p: Wanted, cur: Option<Live>) { forall q :: !Surplus(p, cur, q) }

  /** Missing prefixes are added. */
  method AddLines(p: Wanted, cur: Option<Live>, lines0: seq<Line>, ghost s: State, ghost t0: State)
    returns (lines: seq<Line>, ghost t: State)
    requires Play(s, lines0) == Some(t0) && t0.sel == Chosen(p.key)
    ensures Play(s, lines) == Some(t) && t.(allowed := t0.allowed) == t0
    ensures forall q :: Owner(t, q) == if Missing(p, cur, q) then Some(p.key) else Owner(t0, q)
    ensures NoneMissing(p, cur) ==> lines == lines0
    ensures Tells(lines0, lines)
  {
    lines, t := lines0, t0;
    for j := 0 to |p.allowed|
      invariant Play(s, lines) == Some(t) && Added(p, cur, p.allowed[..j], t0, t)
      invariant NoneMissing(p, cur) ==> lines == lines0
      invariant Tells(lines0, lines)
    {
      assert p.allowed[..j+1] == p.allowed[..j] + [p.allowed[j]];
      lines, t := AddIfMissing(p, cur, p.allowed[j], lines0, lines, s, t0, t, p.allowed[..j]);
    }
    assert p.allowed[..|p.allowed|] == p.allowed;
    AddedAll(p, cur, t0, t);
  }

  method AddIfMissing(p: Wanted, cur: Option<Live>, q: Prefix, ghost lines0: seq<Line>, lines: seq<Line>,
                      ghost s: State, ghost t0: State, ghost t: State, ghost seen: seq<Prefix>)
    returns (lines': seq<Line>, ghost t': State)
    requires q in p.allowed && Play(s, lines) == Some(t) && t0.sel == Chosen(p.key)
    requires Added(p, cur, seen, t0, t) && Tells(lines0, lines)
    ensures Play(s, lines') == Some(t') && Added(p, cur, seen + [q], t0, t') && Tells(lines0, lines')
    ensures NoneMissing(p, cur) ==> lines' == lines
  {
    lines', t' := lines, t;
    if cur.None? || q !in cur.value.allowed {
      assert Missing(p, cur, q);
      t' := AddLine(p.key, q, s, lines, t);
      lines' := lines + [AllowedIp(true, q)];
    }
    AddedStep(p, cur, seen, t0, t, t', q);
  }

  ghost method AddLine(k: Key, q: Prefix, s: State, lines: seq<Line>, t: State)
      returns (t': State)
    requires Play(s, lines) == Some(t) && t.sel == Chosen(k)
    ensures Play(s, lines + [AllowedIp(true, q)]) == Some(t') && t'.(allowed := t.allowed) == t
    ensures forall q' :: Owner(t', q') == if q' == q then Some(k) else Owner(t, q')
  {
    PlayOne(s, lines, t, AllowedIp(true, q));
    t' := t.(allowed := t.allowed[q := k]);
  }

  /** Unwanted prefixes are taken away, in any order. */
  method RemoveLines(p: Wanted, cur: Option<Live>, lines0: seq<Line>, ghost s: State, ghost t0: State)
    returns (lines: seq<Line>, ghost t: State)
    requires Play(s, lines0) == Some(t0) && t0.sel == Chosen(p.key)
    ensures Play(s, lines) == Some(t) && t.(allowed := t0.allowed) == t0
    ensures forall q :: Owner(t, q) == if Surplus(p, cur, q) && Owner(t0, q) == Some(p.key) then None else Owner(t0, q)
    ensures NoneSurplus(p, cur) ==> lines == lines0
    ensures Tells(lines0, lines)
  {
    lines, t := lines0, t0;
    var rest := if cur.Some? then cur.value.allowed else {};
    while rest != {}
      invariant forall q :: q in rest ==> cur.Some? && q in cur.value.allowed
      invariant Play(s, lines) == Some(t) && t.(allowed := t0.allowed) == t0
      invariant forall q :: Owner(t, q) ==
                  if q !in rest && Surplus(p, cur, q) && Owner(t0, q) == Some(p.key) then None else Owner(t0, q)
      invariant NoneSurplus(p, cur) ==> lines == lines0
      invariant Tells(lines0, lines)
      decreases |rest|
    {
      var q := AnyOf(rest);
      if q !in p.allowed {
        assert Surplus(p, cur, q);
        t := RemoveLine(p.key, q, s, lines, t);
        lines := lines + [AllowedIp(false, q)];
      }
      rest := rest - {q};
    }
  }

  ghost method RemoveLine(k: Key, q: Prefix, s: State, lines: seq<Line>, t: State)
      returns (t': State)
    requires Play(s, lines) == Some(t) && t.sel == Chosen(k)
    ensures Play(s, lines + [AllowedIp(false, q)]) == Some(t') && t'.(allowed := t.allowed) == t
    ensures forall q' :: Owner(t', q') == if q' == q && Owner(t, q) == Some(k) then None else Owner(t, q')
  {
    PlayOne(s, lines, t, AllowedIp(false, q));
    t' := if Owner(t, q) == Some(k) then t.(allowed := t.allowed - {q}) else t;
  }

  /** The keepalive a peer ends up with: a negative one is never written for a new peer. */
  function Lands(p: Wanted, isLive: bool): (n: int) { if isLive || p.keepalive > 0 then p.keepalive else 0 }

  /** The endpoint a peer ends up with: the wanted one if it is given and the peer is
      new, or neither has it now nor had it in the last configuration; else what it had. */
  function Points(p: Wanted, before: Option<Peer>, prevEndpoint: Option<Endpoint>): (e: Option<Endpoint>)
  {
    if p.endpoint.Some? && (before.None? || (before.value.endpoint != p.endpoint && prevEndpoint != p.endpoint))
    then p.endpoint
    else if before.Some? then before.value.endpoint
    else None
  }

  function PeerOf(s: State, k: Key): (p: Option<Peer>) { if k in s.peers then Some(s.peers[k]) else None }

  /** What the lines for peer p do to a state in which it is selected. */
  ghost predicate Updated(s: State, t: State, p: Wanted, cur: Option<Live>, prevEndpoint: Option<Endpoint>)
    requires p.key in s.peers
  {
    && OnlyPeer(s, t, p.key) && t.peers[p.key].keepalive == Lands(p, cur.Some?)
    && t.peers[p.key].endpoint ==
       (if EndpointSettled(p, cur, prevEndpoint) then s.peers[p.key].endpoint else p.endpoint)
    && forall q :: Owner(t, q) == OwnerAfter(Owner(s, q), q, p, cur)
  }

  ghost function OwnerAfter(before: Option<Key>, q: Prefix, p: Wanted, cur: Option<Live>): Option<Key>
  {
    if Missing(p, cur, q) then Some(p.key)
    else if Surplus(p, cur, q) && before == Some(p.key) then None
    else before
  }

  /** The endpoint needs no line. */
  ghost predicate EndpointSettled(p: Wanted, cur: Option<Live>, prevEndpoint: Option<Endpoint>)
  {
    p.endpoint.Some? ==> cur.Some? && (cur.value.endpoint == p.endpoint || prevEndpoint == p.endpoint)
  }

  /** Nothing to say about this peer. */
  ghost predicate Settled(p: Wanted, cur: Option<Live>, prevEndpoint: Option<Endpoint>)
  {
    && cur.Some? && cur.value.keepalive == p.keepalive && EndpointSettled(p, cur, prevEndpoint)
    && NoneMissing(p, cur) && NoneSurplus(p, cur)
  }

  predicate KeepaliveDiffers(p: Wanted, cur: Option<Live>)
  {
    if cur.Some? then cur.value.keepalive != p.keepalive else p.keepalive > 0
  }

  /** The endpoint and keepalive lines written for p. */
  ghost predicate Says(p: Wanted, cur: Option<Live>, prevEndpoint: Option<Endpoint>, line: Line)
  {
    || (!EndpointSettled(p, cur, prevEndpoint) && line == SetEndpoint(p.endpoint.value))
    || (KeepaliveDiffers(p, cur) && line == Keepalive(p.keepalive))
  }

  /** Of such lines, lines has those of lines0 and those written for p. */
  ghost predicate Adds(lines0: seq<Line>, lines: seq<Line>, p: Wanted, cur: Option<Live>,
                       prevEndpoint: Option<Endpoint>)
  {
    forall line :: Valued(line) ==> (line in lines <==> line in lines0 || Says(p, cur, prevEndpoint, line))
  }

  method EndpointLine(p: Wanted, cur: Option<Live>, prevEndpoint: Option<Endpoint>, ghost s: State)
    returns (lines: seq<Line>, ghost t: State)
    requires s.sel == Chosen(p.key) && p.key in s.peers
    ensures Play(s, lines) == Some(t) && OnlyPeer(s, t, p.key) && t.allowed == s.allowed
    ensures t.peers[p.key].keepalive == s.peers[p.key].keepalive
    ensures t.peers[p.key].endpoint ==
            if EndpointSettled(p, cur, prevEndpoint) then s.peers[p.key].endpoint else p.endpoint
    ensures lines == if EndpointSettled(p, cur, prevEndpoint) then [] else [SetEndpoint(p.endpoint.value)]
  {
    lines, t := [], s;
    if p.endpoint.Some? && (cur.None? || (cur.value.endpoint != p.endpoint && prevEndpoint != p.endpoint)) {
      PlayOne(s, lines, t, SetEndpoint(p.endpoint.value));
      lines := [SetEndpoint(p.endpoint.value)];
      assert [] + lines == lines;
      t := t.(peers := t.peers[p.key := t.peers[p.key].(endpoint := p.endpoint)]);
    }
  }

  method KeepaliveLine(p: Wanted, cur: Option<Live>, lines0: seq<Line>, ghost s: State, ghost t0: State)
    returns (lines: seq<Line>, ghost t: State)
    requires Play(s, lines0) == Some(t0) && t0.sel == Chosen(p.key) && p.key in t0.peers
    requires t0.peers[p.key].keepalive == if cur.Some? then cur.value.keepalive else 0
    ensures Play(s, lines) == Some(t) && OnlyPeer(t0, t, p.key) && t.allowed == t0.allowed
    ensures t.peers[p.key] == t0.peers[p.key].(keepalive := Lands(p, cur.Some?))
    ensures lines == if KeepaliveDiffers(p, cur) then lines0 + [Keepalive(p.keepalive)] else lines0
  {
    lines, t := lines0, t0;
    if KeepaliveDiffers(p, cur) {
      PlayOne(s, lines, t, Keepalive(p.keepalive));
      lines := lines + [Keepalive(p.keepalive)];
      t := t.(peers := t.peers[p.key := t.peers[p.key].(keepalive := p.keepalive)]);
    }
  }

  /** All lines for one peer; none at all when nothing differs. */
  method Section(p: Wanted, cur: Option<Live>, prevEndpoint: Option<Endpoint>, ghost s: State)
    returns (lines: seq<Line>, ghost t: State)
    requires s.sel == Chosen(p.key) && p.key in s.peers
    requires s.peers[p.key].keepalive == if cur.Some? then cur.value.keepalive else 0
    ensures Play(s, lines) == Some(t) && Updated(s, t, p, cur, prevEndpoint)
    ensures Settled(p, cur, prevEndpoint) ==> lines == []
    ensures Adds([], lines, p, cur, prevEndpoint)
  {
    ghost var t1, t2;
    lines, t1 := EndpointLine(p, cur, prevEndpoint, s);
    ghost var first := lines;
    lines, t2 := PrefixLines(p, cur, lines, s, t1);
    ghost var middle := lines;
    lines, t := KeepaliveLine(p, cur, lines, s, t2);
    SectionUpdates(p, cur, prevEndpoint, s, t1, t2, t);
    SectionSays(p, cur, prevEndpoint, first, middle, lines);
  }

  /** Missing prefixes are added and unwanted ones taken away. */
  method PrefixLines(p: Wanted, cur: Option<Live>, lines0: seq<Line>, ghost s: State, ghost t0: State)
    returns (lines: seq<Line>, ghost t: State)
    requires Play(s, lines0) == Some(t0) && t0.sel == Chosen(p.key)
    ensures Play(s, lines) == Some(t) && t.(allowed := t0.allowed) == t0
    ensures forall q :: Owner(t, q) == OwnerAfter(Owner(t0, q), q, p, cur)
    ensures NoneMissing(p, cur) && NoneSurplus(p, cur) ==> lines == lines0
    ensures Tells(lines0, lines)
  {
    ghost var t1;
    lines, t1 := AddLines(p, cur, lines0, s, t0);
    lines, t := RemoveLines(p, cur, lines, s, t1);
  }

  lemma SectionUpdates(p: Wanted, cur: Option<Live>, prevEndpoint: Option<Endpoint>, s: State, t1: State, t2: State,
                       t: State)
    requires p.key in s.peers && OnlyPeer(s, t1, p.key) && t1.allowed == s.allowed
    requires t1.peers[p.key].endpoint ==
             if EndpointSettled(p, cur, prevEndpoint) then s.peers[p.key].endpoint else p.endpoint
    requires t2.(allowed := t1.allowed) == t1 && forall q :: Owner(t2, q) == OwnerAfter(Owner(t1, q), q, p, cur)
    requires OnlyPeer(t2, t, p.key) && t.allowed == t2.allowed
    requires t.peers[p.key] == t2.peers[p.key].(keepalive := Lands(p, cur.Some?))
    ensures Updated(s, t, p, cur, prevEndpoint)
  {
    assert t2.peers == t1.peers;
    forall q ensures Owner(t, q) == OwnerAfter(Owner(s, q), q, p, cur) {
      assert Owner(t1, q) == Owner(s, q) && Owner(t, q) == Owner(t2, q);
    }
  }

  lemma SectionSays(p: Wanted, cur: Option<Live>, prevEndpoint: Option<Endpoint>, first: seq<Line>, middle: seq<Line>,
                    lines: seq<Line>)
    requires first == if EndpointSettled(p, cur, prevEndpoint) then [] else [SetEndpoint(p.endpoint.value)]
    requires Tells(first, middle)
    requires lines == if KeepaliveDiffers(p, cur) then middle + [Keepalive(p.keepalive)] else middle
    ensures Adds([], lines, p, cur, prevEndpoint)
  {
    forall line | Valued(line) ensures line in lines <==> Says(p, cur, prevEndpoint, line) {
      assert line in middle <==> line in first;
    }
  }

  // ----- all peers

  /** Who owns a prefix once the first n wanted peers are written, if first owned it
      at the start: every peer that wants it and did not own it at the start takes it. */
  ghost function OwnerBy(d: seq<Wanted>, n: nat, first: Option<Key>, q: Prefix): Option<Key>
    requires n <= |d|
  {
    if n == 0 then first
    else
      var prev, p := OwnerBy(d, n - 1, first, q), d[n-1];
      if q in p.allowed && first != Some(p.key) then Some(p.key)
      else if q !in p.allowed && first == Some(p.key) && prev == first then None
      else prev
  }

  /** How prefix q stands once the first n wanted peers are written, from start state s1. */
  ghost predicate OwnAt(d: seq<Wanted>, n: nat, s1: State, t: State, q: Prefix)
    requires n <= |d|
  {
    var now, first := Owner(t, q), Owner(s1, q);
    && now == OwnerBy(d, n, first, q)
    && (now.Some? && Done(d, n, now.value) ==> Wants(d, now.value, q))
    && (now.Some? && !Done(d, n, now.value) ==> first == now)
    && (WantedBySome(d, n, q) ==> now.Some? && Done(d, n, now.value))
    && (first.Some? && !Done(d, n, first.value) && now != first ==> now.Some? && Done(d, n, now.value))
  }

  lemma OwnStep(d: seq<Wanted>, n: nat, s1: State, t: State, t': State, cur: Option<Live>, q: Prefix)
    requires n < |d| && OwnAt(d, n, s1, t, q) && !Done(d, n, d[n].key)
    requires Owner(t', q) == OwnerAfter(Owner(t, q), q, d[n], cur)
    requires Owner(s1, q) == Some(d[n].key) <==> cur.Some? && q in cur.value.allowed
    ensures OwnAt(d, n + 1, s1, t', q)
  {
    var k := d[n].key;
    assert forall k' :: Done(d, n + 1, k') <==> Done(d, n, k') || k' == k by {
      assert Done(d, n + 1, k);
    }
    assert WantedBySome(d, n + 1, q) <==> WantedBySome(d, n, q) || q in d[n].allowed;
    assert q in d[n].allowed ==> Wants(d, k, q);
  }

  ghost predicate PeerAt(d: seq<Wanted>, prev: seq<Wanted>, n: nat, s1: State, t: State, k: Key)
  {
    && (k in t.peers <==> k in s1.peers || Done(d, n, k))
    && (k in t.peers && k in s1.peers && !Done(d, n, k) ==> t.peers[k] == s1.peers[k])
    && (forall j :: 0 <= j < n && j < |d| && d[j].key == k && k in t.peers ==>
          t.peers[k] == Peer(Points(d[j], PeerOf(s1, k), Said(prev, k)), Lands(d[j], k in s1.peers)))
  }

  ghost predicate Progress(d: seq<Wanted>, prev: seq<Wanted>, n: nat, s1: State, t: State)
  {
    && n <= |d| && t.own == s1.own
    && (forall k {:trigger PeerAt(d, prev, n, s1, t, k)} :: PeerAt(d, prev, n, s1, t, k))
    && (forall q {:trigger OwnAt(d, n, s1, t, q)} :: OwnAt(d, n, s1, t, q))
  }

  lemma PeerStep(d: seq<Wanted>, prev: seq<Wanted>, n: nat, s1: State, t: State, t': State, k: Key)
    requires n < |d| && PeerAt(d, prev, n, s1, t, k) && DistinctKeys(d)
    requires k in t'.peers <==> k in t.peers || k == d[n].key
    requires k in t.peers && k != d[n].key ==> t'.peers[k] == t.peers[k]
    requires k == d[n].key ==>
               t'.peers[k] == Peer(Points(d[n], PeerOf(s1, k), Said(prev, k)), Lands(d[n], k in s1.peers))
    ensures PeerAt(d, prev, n + 1, s1, t', k)
  {
    assert Done(d, n + 1, k) <==> Done(d, n, k) || k == d[n].key;
  }

  lemma NotYetDone(d: seq<Wanted>, n: nat)
    requires n < |d| && DistinctKeys(d)
    ensures !Done(d, n, d[n].key)
  {
  }

  /** cur is what is live of peer k in s1. */
  ghost predicate Shows(s1: State, k: Key, cur: Option<Live>)
  {
    && (k in s1.peers <==> cur.Some?) && (k in s1.peers ==> cur.value.endpoint == s1.peers[k].endpoint)
    && forall q :: Owner(s1, q) == Some(k) <==> cur.Some? && q in cur.value.allowed
  }

  /** mid is t with peer k selected, and created if it was not there. */
  ghost predicate Selected(t: State, mid: State, k: Key)
  {
    && mid.sel == Chosen(k) && mid.allowed == t.allowed && mid.own == t.own && mid.peers.Keys == t.peers.Keys + {k}
    && (forall k' :: k' in t.peers ==> mid.peers[k'] == t.peers[k'])
    && (k !in t.peers ==> mid.peers[k] == Peer(None, 0))
  }

  lemma WrittenPeer(p: Wanted, prev: seq<Wanted>, s1: State, t: State, mid: State, t': State, cur: Option<Live>)
    requires Selected(t, mid, p.key) && Updated(mid, t', p, cur, Said(prev, p.key)) && Shows(s1, p.key, cur)
    requires PeerOf(t, p.key) == PeerOf(s1, p.key)
    ensures t'.peers[p.key] == Peer(Points(p, PeerOf(s1, p.key), Said(prev, p.key)), Lands(p, p.key in s1.peers))
  {
  }

  /** One more peer written. t is reached before its lines, t' after them. */
  lemma ProgressStep(d: seq<Wanted>, prev: seq<Wanted>, n: nat, s1: State, t: State, mid: State, t': State,
                     cur: Option<Live>)
    requires n < |d| && Progress(d, prev, n, s1, t) && DistinctKeys(d)
    requires Selected(t, mid, d[n].key) && Updated(mid, t', d[n], cur, Said(prev, d[n].key)) && Shows(s1, d[n].key, cur)
    ensures Progress(d, prev, n + 1, s1, t')
  {
    NotYetDone(d, n);
    var m := n + 1;
    forall k ensures PeerAt(d, prev, m, s1, t', k) {
      assert PeerAt(d, prev, n, s1, t, k);
      if k == d[n].key { WrittenPeer(d[n], prev, s1, t, mid, t', cur); }
      PeerStep(d, prev, n, s1, t, t', k);
    }
    forall q ensures OwnAt(d, m, s1, t', q) {
      assert OwnAt(d, n, s1, t, q) && Owner(mid, q) == Owner(t, q);
      OwnStep(d, n, s1, t, t', cur, q);
    }
  }

  function KeySet(d: seq<Wanted>): (ks: set<Key>) { set p | p in d :: p.key }

  lemma DoneIsWanted(d: seq<Wanted>, k: Key)
    ensures Done(d, |d|, k) <==> k in KeySet(d)
  {
    if k in KeySet(d) {
      var p :| p in d && p.key == k;
      var j :| 0 <= j < |d| && d[j] == p;
    }
  }

  function CurOf(live: map<Key, Live>, k: Key): (c: Option<Live>) { if k in live then Some(live[k]) else None }

  function EndpointOf(prevEp: map<Key, Option<Endpoint>>, k: Key): (e: Option<Endpoint>)
  {
    if k in prevEp then prevEp[k] else None
  }

  /** The state the first line leaves: the device's own key is no peer. */
  ghost predicate Rekeyed(s0: State, s1: State, own: Key) { s1 == Evicted(s0, own).(own := own) }

  ghost predicate Room(s0: State, d: seq<Wanted>) { |s0.peers.Keys + KeySet(d)| <= MAX_PEERS }

  lemma RoomLeft(d: seq<Wanted>, prev: seq<Wanted>, n: nat, s0: State, s1: State, t: State, own: Key)
    requires n < |d| && Room(s0, d) && Rekeyed(s0, s1, own) && Progress(d, prev, n, s1, t) && d[n].key !in t.peers
    ensures |t.peers| < MAX_PEERS
  {
    var k, all := d[n].key, s0.peers.Keys + KeySet(d);
    forall k' | k' in t.peers.Keys + {k} ensures k' in all {
      assert PeerAt(d, prev, n, s1, t, k');
      DoneIsWanted(d, k');
      assert Done(d, n, k') ==> Done(d, |d|, k');
      assert d[n] in d;
    }
    SubsetSize(t.peers.Keys + {k}, all);
    assert |t.peers.Keys + {k}| == |t.peers.Keys| + 1;
    assert |t.peers| == |t.peers.Keys|;
  }

  /** What cur says about peer k agrees with the state its lines start from. */
  lemma CurAgrees(d: seq<Wanted>, prev: seq<Wanted>, n: nat, s0: State, s1: State, t: State, own: Key)
    requires n < |d| && Rekeyed(s0, s1, own) && ValidState(s0) && Progress(d, prev, n, s1, t) && DistinctKeys(d)
             && d[n].key != own
    ensures var k, cur := d[n].key, CurOf(LiveOf(s0), d[n].key);
            && (k in t.peers <==> cur.Some?) && Shows(s1, k, cur)
            && (k in t.peers ==> t.peers[k].keepalive == cur.value.keepalive)
  {
    NotYetDone(d, n);
    assert PeerAt(d, prev, n, s1, t, d[n].key);
  }

  lemma SelectPeer(t: State, k: Key) returns (mid: State)
    requires k != t.own && (k in t.peers || |t.peers| < MAX_PEERS)
    ensures Act(t, PublicKey(k)) == Some(mid) && Selected(t, mid, k)
  {
    mid := Act(t, PublicKey(k)).value;
    assert k in t.peers ==> t.peers.Keys + {k} == t.peers.Keys;
  }

  /** Leaving out a selection that nothing follows changes nothing. */
  lemma Unselected(d: seq<Wanted>, prev: seq<Wanted>, n: nat, s1: State, t: State, mid: State, k: Key)
    requires Progress(d, prev, n, s1, mid) && Selected(t, mid, k) && k in t.peers
    ensures Progress(d, prev, n, s1, t)
  {
    forall k' ensures PeerAt(d, prev, n, s1, t, k') {
      assert PeerAt(d, prev, n, s1, mid, k');
      assert k' in mid.peers <==> k' in mid.peers.Keys;
    }
    forall q ensures OwnAt(d, n, s1, t, q) { assert OwnAt(d, n, s1, mid, q) && Owner(t, q) == Owner(mid, q); }
  }

  /** What holds when the lines of peer n begin. */
  lemma ToSection(d: seq<Wanted>, prev: seq<Wanted>, n: nat, s0: State, s1: State, t: State, own: Key)
    returns (mid: State)
    requires n < |d| && DistinctKeys(d) && d[n].key != own && Room(s0, d)
    requires ValidState(s0) && Rekeyed(s0, s1, own) && Progress(d, prev, n, s1, t)
    ensures var k, cur := d[n].key, CurOf(LiveOf(s0), d[n].key);
            && Act(t, PublicKey(k)) == Some(mid) && Selected(t, mid, k)
            && (k in t.peers <==> cur.Some?) && Shows(s1, k, cur)
            && mid.peers[k].keepalive == if cur.Some? then cur.value.keepalive else 0
  {
    CurAgrees(d, prev, n, s0, s1, t, own);
    if d[n].key !in t.peers { RoomLeft(d, prev, n, s0, s1, t, own); }
    mid := SelectPeer(t, d[n].key);
  }

  lemma PlaySection(s0: State, script: seq<Line>, t: State, k: Key, mid: State, lines: seq<Line>)
    requires Play(s0, script) == Some(t) && Act(t, PublicKey(k)) == Some(mid)
    ensures Play(s0, script + [PublicKey(k)] + lines) == Play(mid, lines)
  {
    PlayOne(s0, script, t, PublicKey(k));
    PlayConcat(s0, script + [PublicKey(k)], mid, lines);
  }

  /** The lines for one peer: none if it is live and nothing differs. */
  method PeerLines(d: seq<Wanted>, ghost prev: seq<Wanted>, n: nat, cur: Option<Live>, prevEndpoint: Option<Endpoint>,
                   script0: seq<Line>, ghost s0: State, ghost s1: State, ghost t: State, ghost own: Key)
    returns (script: seq<Line>, ghost t': State)
    requires n < |d| && prevEndpoint == Said(prev, d[n].key)
    requires n < |d| && DistinctKeys(d) && d[n].key != own && Room(s0, d)
    requires ValidState(s0) && cur == CurOf(LiveOf(s0), d[n].key) && Rekeyed(s0, s1, own)
    requires Progress(d, prev, n, s1, t) && Play(s0, script0) == Some(t)
    ensures Progress(d, prev, n + 1, s1, t') && Play(s0, script) == Some(t')
    ensures Settled(d[n], cur, prevEndpoint) ==> script == script0
    ensures Adds(script0, script, d[n], cur, prevEndpoint)
  {
    var p := d[n];
    ghost var mid := ToSection(d, prev, n, s0, s1, t, own);
    var lines;
    lines, t' := Section(p, cur, prevEndpoint, mid);
    script := script0;
    if cur.None? || |lines| > 0 {
      SectionWritten(d, prev, n, cur, prevEndpoint, script, s0, s1, t, mid, lines, t');
      script := script + [PublicKey(p.key)] + lines;
    } else {
      SectionSilent(d, prev, n, cur, prevEndpoint, script, s1, t, mid, t');
      t' := t;
    }
  }

  lemma SectionWritten(d: seq<Wanted>, prev: seq<Wanted>, n: nat, cur: Option<Live>, prevEndpoint: Option<Endpoint>,
                       script: seq<Line>, s0: State, s1: State, t: State, mid: State, lines: seq<Line>, t': State)
    requires n < |d| && prevEndpoint == Said(prev, d[n].key)
    requires n < |d| && DistinctKeys(d) && Progress(d, prev, n, s1, t) && Play(s0, script) == Some(t)
    requires Act(t, PublicKey(d[n].key)) == Some(mid) && Selected(t, mid, d[n].key) && Shows(s1, d[n].key, cur)
    requires Play(mid, lines) == Some(t') && Updated(mid, t', d[n], cur, prevEndpoint)
    requires Adds([], lines, d[n], cur, prevEndpoint)
    ensures Progress(d, prev, n + 1, s1, t') && Play(s0, script + [PublicKey(d[n].key)] + lines) == Some(t')
    ensures Adds(script, script + [PublicKey(d[n].key)] + lines, d[n], cur, prevEndpoint)
  {
    ProgressStep(d, prev, n, s1, t, mid, t', cur);
    PlaySection(s0, script, t, d[n].key, mid, lines);
    AddsBehind(script, [PublicKey(d[n].key)], lines, d[n], cur, prevEndpoint);
  }

  lemma SectionSilent(d: seq<Wanted>, prev: seq<Wanted>, n: nat, cur: Option<Live>, prevEndpoint: Option<Endpoint>,
                      script: seq<Line>, s1: State, t: State, mid: State, t': State)
    requires n < |d| && prevEndpoint == Said(prev, d[n].key)
    requires n < |d| && DistinctKeys(d) && Progress(d, prev, n, s1, t) && d[n].key in t.peers
    requires Selected(t, mid, d[n].key) && Shows(s1, d[n].key, cur)
    requires Play(mid, []) == Some(t') && Updated(mid, t', d[n], cur, prevEndpoint)
    requires Adds([], [], d[n], cur, prevEndpoint)
    ensures Progress(d, prev, n + 1, s1, t) && Adds(script, script, d[n], cur, prevEndpoint)
  {
    ProgressStep(d, prev, n, s1, t, mid, t', cur);
    Unselected(d, prev, n + 1, s1, t, t', d[n].key);
  }

  lemma AddsBehind(script: seq<Line>, select: seq<Line>, lines: seq<Line>, p: Wanted, cur: Option<Live>,
                   prevEndpoint: Option<Endpoint>)
    requires Adds([], lines, p, cur, prevEndpoint) && forall line :: line in select ==> !Valued(line)
    ensures Adds(script, script + select + lines, p, cur, prevEndpoint)
  {
    forall line | Valued(line)
      ensures line in script + select + lines <==> line in script || Says(p, cur, prevEndpoint, line)
    {
      assert line !in select && (line in lines <==> Says(p, cur, prevEndpoint, line));
    }
  }

  // ----- peers no longer wanted

  /** With all wanted peers written, only live keys in rest may still be too many. */
  ghost predicate LeftAt(d: seq<Wanted>, prev: seq<Wanted>, s1: State, t: State, rest: set<Key>, k: Key)
  {
    && (k in t.peers <==> k in KeySet(d) || (k in s1.peers && k in rest))
    && (forall j :: 0 <= j < |d| && d[j].key == k && k in t.peers ==>
          t.peers[k] == Peer(Points(d[j], PeerOf(s1, k), Said(prev, k)), Lands(d[j], k in s1.peers)))
  }

  ghost predicate HeldAt(d: seq<Wanted>, s1: State, t: State, rest: set<Key>, q: Prefix)
  {
    var now, last := Owner(t, q), OwnerBy(d, |d|, Owner(s1, q), q);
    && (now.Some? && now.value in KeySet(d) ==> last == now)
    && (last.Some? && last.value in KeySet(d) ==> now == last)
    && (now.Some? && now.value in KeySet(d) ==> Wants(d, now.value, q))
    && (now.Some? && now.value !in KeySet(d) ==> now.value in rest)
    && (WantedBySome(d, |d|, q) ==> now.Some? && now.value in KeySet(d))
    && now != Some(t.own)
  }

  ghost predicate Trimming(d: seq<Wanted>, prev: seq<Wanted>, s1: State, t: State, rest: set<Key>)
  {
    && t.own == s1.own
    && (forall k {:trigger LeftAt(d, prev, s1, t, rest, k)} :: LeftAt(d, prev, s1, t, rest, k))
    && (forall q {:trigger HeldAt(d, s1, t, rest, q)} :: HeldAt(d, s1, t, rest, q))
  }

  lemma TrimStart(d: seq<Wanted>, prev: seq<Wanted>, s0: State, s1: State, t: State, own: Key)
    requires Progress(d, prev, |d|, s1, t) && Rekeyed(s0, s1, own) && ValidState(s0) && own !in KeySet(d)
    ensures Trimming(d, prev, s1, t, s0.peers.Keys)
  {
    var rest := s0.peers.Keys;
    forall k ensures LeftAt(d, prev, s1, t, rest, k) {
      DoneIsWanted(d, k);
      assert PeerAt(d, prev, |d|, s1, t, k);
    }
    forall q ensures HeldAt(d, s1, t, rest, q) {
      assert OwnAt(d, |d|, s1, t, q);
      var now := Owner(t, q);
      if now.Some? {
        DoneIsWanted(d, now.value);
        assert Owner(s1, q) == now ==> Owner(s0, q) == now;
      }
    }
  }

  /** t' is t without peer k, if k was one. */
  ghost predicate Without(t: State, t': State, k: Key)
  {
    && t'.own == t.own && t'.peers == t.peers - {k}
    && forall q :: Owner(t', q) == if Owner(t, q) == Some(k) then None else Owner(t, q)
  }

  lemma RemoveRuns(t: State, k: Key) returns (t': State)
    requires if k == t.own then k !in t.peers && forall q :: Owner(t, q) != Some(k) else k in t.peers
    ensures Play(t, [PublicKey(k), Remove]) == Some(t') && Without(t, t', k)
  {
    var mid := t.(sel := if k == t.own then Dummy else Chosen(k));
    t' := if k == t.own then mid else Evicted(mid, k).(sel := Dummy);
    assert [PublicKey(k), Remove][..1] == [PublicKey(k)] && [PublicKey(k)][..0] == [];
    assert Play(t, [PublicKey(k)]) == Some(mid);
    RemoveEvicts(t, mid, t', k);
  }

  lemma RemoveEvicts(t: State, mid: State, t': State, k: Key)
    requires if k == t.own then k !in t.peers && forall q :: Owner(t, q) != Some(k) else k in t.peers
    requires mid.(sel := t.sel) == t && t' == if k == t.own then mid else Evicted(mid, k).(sel := Dummy)
    ensures Without(t, t', k)
  {
    assert mid.peers == t.peers && mid.own == t.own;
    assert k == t.own ==> t.peers - {k} == t.peers;
    forall q ensures Owner(t', q) == if Owner(t, q) == Some(k) then None else Owner(t, q) {
      assert Owner(mid, q) == Owner(t, q);
    }
  }

  /** A live peer that is not wanted is removed. */
  lemma TrimStep(d: seq<Wanted>, prev: seq<Wanted>, s1: State, t: State, t': State, rest: set<Key>, k: Key)
    requires Trimming(d, prev, s1, t, rest) && k in rest && k !in KeySet(d) && Without(t, t', k)
    ensures Trimming(d, prev, s1, t', rest - {k})
  {
    var rest' := rest - {k};
    forall k' ensures LeftAt(d, prev, s1, t', rest', k') { assert LeftAt(d, prev, s1, t, rest, k'); }
    forall q ensures HeldAt(d, s1, t', rest', q) { assert HeldAt(d, s1, t, rest, q); }
  }

  lemma KeepStep(d: seq<Wanted>, prev: seq<Wanted>, s1: State, t: State, rest: set<Key>, k: Key)
    requires Trimming(d, prev, s1, t, rest) && k in KeySet(d)
    ensures Trimming(d, prev, s1, t, rest - {k})
  {
    var rest' := rest - {k};
    forall k' ensures LeftAt(d, prev, s1, t, rest', k') { assert LeftAt(d, prev, s1, t, rest, k'); }
    forall q ensures HeldAt(d, s1, t, rest', q) { assert HeldAt(d, s1, t, rest, q); }
  }

  lemma RemoveUnwanted(d: seq<Wanted>, prev: seq<Wanted>, s0: State, s1: State, t: State, rest: set<Key>, k: Key,
                       own: Key)
    returns (t': State)
    requires Trimming(d, prev, s1, t, rest) && k in rest && k in s0.peers && k !in KeySet(d) && Rekeyed(s0, s1, own)
    ensures Play(t, [PublicKey(k), Remove]) == Some(t') && Trimming(d, prev, s1, t', rest - {k})
  {
    assert LeftAt(d, prev, s1, t, rest, k);
    forall q ensures Owner(t, q) != Some(t.own) { assert HeldAt(d, s1, t, rest, q); }
    t' := RemoveRuns(t, k);
    TrimStep(d, prev, s1, t, t', rest, k);
  }

  /** Lines for the live peers that are not wanted, in any order. */
  method TrimLines(d: seq<Wanted>, ghost prev: seq<Wanted>, live: map<Key, Live>, script0: seq<Line>, ghost s0: State,
                   ghost s1: State, ghost t0: State, ghost own: Key)
    returns (script: seq<Line>, ghost t: State)
    requires live == LiveOf(s0) && Rekeyed(s0, s1, own) && own !in KeySet(d)
    requires Play(s0, script0) == Some(t0) && Trimming(d, prev, s1, t0, s0.peers.Keys)
    ensures Play(s0, script) == Some(t) && Trimming(d, prev, s1, t, {})
    ensures (live.Keys <= KeySet(d) ==> script == script0) && Tells(script0, script)
  {
    script, t := script0, t0;
    var wanted, rest := KeySet(d), live.Keys;
    assert rest == s0.peers.Keys;
    while rest != {}
      invariant rest <= live.Keys && Play(s0, script) == Some(t) && Trimming(d, prev, s1, t, rest)
      invariant (live.Keys <= KeySet(d) ==> script == script0) && Tells(script0, script)
      decreases |rest|
    {
      var k := AnyOf(rest);
      if k !in wanted {
        ghost var t' := RemoveUnwanted(d, prev, s0, s1, t, rest, k, own);
        PlayConcat(s0, script, t, [PublicKey(k), Remove]);
        script := script + [PublicKey(k), Remove];
        t := t';
      } else {
        KeepStep(d, prev, s1, t, rest, k);
      }
      rest := rest - {k};
    }
  }

  // ----- the whole apply

  /** What the device has come to: a negative keepalive is none. */
  ghost predicate Reached(d: seq<Wanted>, t: State)
  {
    && (forall k :: k in t.peers <==> k in KeySet(d))
    && (forall j :: 0 <= j < |d| ==> d[j].key in t.peers && t.peers[d[j].key].keepalive == Lands(d[j], false))
    && (forall q :: Owner(t, q).Some? ==> Wants(d, Owner(t, q).value, q))
    && (forall q :: WantedBySome(d, |d|, q) ==> Owner(t, q).Some?)
  }

  /** Exactly the wanted peers, keepalives and prefixes. */
  ghost predicate Exact(d: seq<Wanted>, t: State)
  {
    && (forall k :: k in t.peers <==> k in KeySet(d))
    && (forall j :: 0 <= j < |d| ==> d[j].key in t.peers && t.peers[d[j].key].keepalive == d[j].keepalive)
    && (forall j, q :: 0 <= j < |d| ==> (q in d[j].allowed <==> Owner(t, q) == Some(d[j].key)))
    && (forall q :: Owner(t, q).Some? ==> Owner(t, q).value in KeySet(d))
  }

  /** Who owns a prefix in the end. */
  ghost function Final(d: seq<Wanted>, first: Option<Key>, q: Prefix): Option<Key>
  {
    var last := OwnerBy(d, |d|, first, q);
    if last.Some? && last.value in KeySet(d) then last else None
  }

  /** No peer that is live is wanted with a negative keepalive. */
  ghost predicate LiveNotNegative(d: seq<Wanted>, live: set<Key>)
  {
    forall j :: 0 <= j < |d| && d[j].key in live ==> d[j].keepalive >= 0
  }

  lemma TrimmedEnds(d: seq<Wanted>, prev: seq<Wanted>, s1: State, t: State)
    requires Trimming(d, prev, s1, t, {})
    ensures forall q :: Owner(t, q) == Final(d, Owner(s1, q), q)
  {
    forall q ensures Owner(t, q) == Final(d, Owner(s1, q), q) { assert HeldAt(d, s1, t, {}, q); }
  }

  /** Every wanted peer has the endpoint that it should. */
  ghost predicate Pointed(d: seq<Wanted>, s0: State, prev: seq<Wanted>, t: State)
  {
    forall j :: 0 <= j < |d| ==> d[j].key in t.peers && PointedAt(d[j], PeerOf(s0, d[j].key), Said(prev, d[j].key),
                                                                  t.peers[d[j].key].endpoint)
  }

  /** e is the endpoint of p afterwards. */
  ghost predicate PointedAt(p: Wanted, before: Option<Peer>, prevEndpoint: Option<Endpoint>, e: Option<Endpoint>)
  {
    && (before.None? ==> e == p.endpoint)
    && (before.Some? && p.endpoint.None? ==> e == before.value.endpoint)
    && (before.Some? && p.endpoint.Some? && prevEndpoint != p.endpoint ==> e == p.endpoint)
    && (before.Some? && p.endpoint.Some? && prevEndpoint == p.endpoint ==> e == before.value.endpoint)
  }

  lemma TrimmedPoints(d: seq<Wanted>, prev: seq<Wanted>, s0: State, s1: State, t: State, own: Key)
    requires Trimming(d, prev, s1, t, {}) && Rekeyed(s0, s1, own) && own !in KeySet(d)
    ensures Pointed(d, s0, prev, t)
  {
    forall j | 0 <= j < |d|
      ensures d[j].key in t.peers
      ensures PointedAt(d[j], PeerOf(s0, d[j].key), Said(prev, d[j].key), t.peers[d[j].key].endpoint)
    {
      assert d[j] in d;
      assert LeftAt(d, prev, s1, t, {}, d[j].key) && PeerOf(s1, d[j].key) == PeerOf(s0, d[j].key);
    }
  }

  lemma TrimmedIsReached(d: seq<Wanted>, prev: seq<Wanted>, s1: State, t: State)
    requires Trimming(d, prev, s1, t, {})
    ensures LiveNotNegative(d, s1.peers.Keys) ==> Reached(d, t)
  {
    forall k ensures k in t.peers <==> k in KeySet(d) { assert LeftAt(d, prev, s1, t, {}, k); }
    forall j | 0 <= j < |d|
      ensures d[j].key in t.peers
      ensures LiveNotNegative(d, s1.peers.Keys) ==> t.peers[d[j].key].keepalive == Lands(d[j], false)
    {
      assert d[j] in d;
      assert LeftAt(d, prev, s1, t, {}, d[j].key);
    }
    forall q | Owner(t, q).Some? ensures Wants(d, Owner(t, q).value, q) { assert HeldAt(d, s1, t, {}, q); }
    forall q | WantedBySome(d, |d|, q) ensures Owner(t, q).Some? { assert HeldAt(d, s1, t, {}, q); }
  }

  predicate NoneNegative(d: seq<Wanted>) { forall j :: 0 <= j < |d| ==> d[j].keepalive >= 0 }

  /** What is reached is exactly what was asked for if and only if no prefix is
      wanted for two peers and no keepalive is negative. */
  lemma ExactIffDisjoint(d: seq<Wanted>, t: State)
    requires Reached(d, t) && DistinctKeys(d)
    ensures Exact(d, t) <==> Disjoint(d) && NoneNegative(d)
  {
    if Disjoint(d) && NoneNegative(d) {
      forall j, q | 0 <= j < |d|
        ensures q in d[j].allowed <==> Owner(t, q) == Some(d[j].key)
      {
        ExactOwner(d, t, j, q);
      }
      forall q | Owner(t, q).Some? ensures Owner(t, q).value in KeySet(d) {
        var i :| 0 <= i < |d| && d[i].key == Owner(t, q).value && q in d[i].allowed;
        assert d[i] in d;
      }
    }
    if Exact(d, t) {
      forall i, j, q | 0 <= i < j < |d| && q in d[i].allowed ensures q !in d[j].allowed {
        assert Owner(t, q) == Some(d[i].key);
      }
    }
  }

  lemma ExactOwner(d: seq<Wanted>, t: State, j: nat, q: Prefix)
    requires Reached(d, t) && DistinctKeys(d) && Disjoint(d) && j < |d|
    ensures q in d[j].allowed <==> Owner(t, q) == Some(d[j].key)
  {
    if q in d[j].allowed {
      assert WantedBySome(d, |d|, q);
      var i :| 0 <= i < |d| && d[i].key == Owner(t, q).value && q in d[i].allowed;
    }
    if Owner(t, q) == Some(d[j].key) {
      var i :| 0 <= i < |d| && d[i].key == d[j].key && q in d[i].allowed;
    }
  }

  /** What the previous configuration said of a key, the last word counting. */
  function Said(prev: seq<Wanted>, k: Key): (e: Option<Endpoint>)
  {
    if |prev| == 0 then None
    else if prev[|prev|-1].key == k then prev[|prev|-1].endpoint
    else Said(prev[..|prev|-1], k)
  }

  lemma {:induction false} SaidOnce(prev: seq<Wanted>, j: nat)
    requires DistinctKeys(prev) && j < |prev|
    ensures Said(prev, prev[j].key) == prev[j].endpoint
  {
    var n := |prev| - 1;
    if j < n {
      assert prev[..n][j] == prev[j];
      SaidOnce(prev[..n], j);
    }
  }

  /** prevEndpoints. */
  method PrevEndpoints(prev: seq<Wanted>) returns (m: map<Key, Option<Endpoint>>)
    ensures forall k :: EndpointOf(m, k) == Said(prev, k)
  {
    m := map[];
    for n := 0 to |prev|
      invariant forall k :: EndpointOf(m, k) == Said(prev[..n], k)
    {
      var next := n + 1;
      assert prev[..next][..n] == prev[..n] && prev[..next][n] == prev[n];
      m := m[prev[n].key := prev[n].endpoint];
      forall k ensures EndpointOf(m, k) == Said(prev[..next], k) {}
    }
    assert prev[..|prev|] == prev;
  }

  /** Distinct keys, none the device's own, and room for them. */
  ghost predicate Sound(d: seq<Wanted>, own: Key, s0: State)
  {
    DistinctKeys(d) && Room(s0, d) && own !in KeySet(d)
  }

  /** A peer for which the device refuses a line: a keepalive beyond 16 bits, a
      negative one for a live peer, or an endpoint that is written and not understood. */
  ghost predicate Refused(p: Wanted, cur: Option<Live>, prevEndpoint: Option<Endpoint>, parses: set<Endpoint>)
  {
    || p.keepalive > 0xffff || (cur.Some? && p.keepalive < 0)
    || (!EndpointSettled(p, cur, prevEndpoint) && p.endpoint.value !in parses)
  }

  ghost predicate SomeRefused(d: seq<Wanted>, live: map<Key, Live>, prev: seq<Wanted>, parses: set<Endpoint>)
  {
    exists j :: 0 <= j < |d| && Refused(d[j], CurOf(live, d[j].key), Said(prev, d[j].key), parses)
  }

  lemma RefusedIffUntaken(p: Wanted, cur: Option<Live>, prevEndpoint: Option<Endpoint>, parses: set<Endpoint>)
    requires cur.Some? ==> 0 <= cur.value.keepalive < 0x10000
    ensures Refused(p, cur, prevEndpoint, parses) <==>
            exists line :: Says(p, cur, prevEndpoint, line) && !Takes(line, parses)
  {
    if p.keepalive > 0xffff || (cur.Some? && p.keepalive < 0) {
      assert Says(p, cur, prevEndpoint, Keepalive(p.keepalive)) && !Takes(Keepalive(p.keepalive), parses);
    }
    if !EndpointSettled(p, cur, prevEndpoint) {
      assert Says(p, cur, prevEndpoint, SetEndpoint(p.endpoint.value));
    }
  }

  /** The endpoint and keepalive lines of the first n peers are those in the script. */
  ghost predicate SaysFirst(d: seq<Wanted>, n: nat, live: map<Key, Live>, prev: seq<Wanted>, line: Line)
  {
    exists j :: 0 <= j < n && j < |d| && Says(d[j], CurOf(live, d[j].key), Said(prev, d[j].key), line)
  }

  ghost predicate Spoken(d: seq<Wanted>, n: nat, live: map<Key, Live>, prev: seq<Wanted>, script: seq<Line>)
  {
    forall line :: Valued(line) ==> (line in script <==> SaysFirst(d, n, live, prev, line))
  }

  lemma SpokenStep(d: seq<Wanted>, n: nat, live: map<Key, Live>, prev: seq<Wanted>, script: seq<Line>,
                   script': seq<Line>)
    requires n < |d| && Spoken(d, n, live, prev, script)
    requires Adds(script, script', d[n], CurOf(live, d[n].key), Said(prev, d[n].key))
    ensures Spoken(d, n + 1, live, prev, script')
  {
    forall line | Valued(line) ensures line in script' <==> SaysFirst(d, n + 1, live, prev, line) {
      assert SaysFirst(d, n + 1, live, prev, line) <==>
             SaysFirst(d, n, live, prev, line) || Says(d[n], CurOf(live, d[n].key), Said(prev, d[n].key), line);
    }
  }

  /** The script is refused exactly if some peer is. */
  lemma TakenIffNoneRefused(d: seq<Wanted>, s: State, prev: seq<Wanted>, script: seq<Line>, parses: set<Endpoint>)
    requires ValidState(s) && Spoken(d, |d|, LiveOf(s), prev, script)
    ensures AllTaken(script, parses) <==> !SomeRefused(d, LiveOf(s), prev, parses)
  {
    var live := LiveOf(s);
    if j :| 0 <= j < |d| && Refused(d[j], CurOf(live, d[j].key), Said(prev, d[j].key), parses) {
      var cur, e := CurOf(live, d[j].key), Said(prev, d[j].key);
      RefusedIffUntaken(d[j], cur, e, parses);
      var line :| Says(d[j], cur, e, line) && !Takes(line, parses);
      assert Valued(line) && SaysFirst(d, |d|, live, prev, line);
    }
    if line :| line in script && !Takes(line, parses) {
      assert Valued(line) && SaysFirst(d, |d|, live, prev, line);
      var j :| 0 <= j < |d| && Says(d[j], CurOf(live, d[j].key), Said(prev, d[j].key), line);
      RefusedIffUntaken(d[j], CurOf(live, d[j].key), Said(prev, d[j].key), parses);
    }
  }

  ghost predicate AllSettled(d: seq<Wanted>, live: map<Key, Live>, prev: seq<Wanted>)
  {
    live.Keys <= KeySet(d) &&
    forall j :: 0 <= j < |d| ==> Settled(d[j], CurOf(live, d[j].key), Said(prev, d[j].key))
  }

  lemma Begin(d: seq<Wanted>, prev: seq<Wanted>, s0: State, own: Key) returns (s1: State)
    requires s0.sel == Nobody
    ensures Rekeyed(s0, s1, own) && Play(s0, [PrivateKey(own)]) == Some(s1) && Progress(d, prev, 0, s1, s1)
  {
    s1 := Evicted(s0, own).(own := own);
    assert [PrivateKey(own)][..0] == [];
    forall k ensures PeerAt(d, prev, 0, s1, s1, k) {}
    forall q ensures OwnAt(d, 0, s1, s1, q) {}
  }

  /** Who owns a prefix after the first line: the device's own key owns nothing. */
  ghost function FirstOwner(s0: State, own: Key, q: Prefix): Option<Key>
  {
    if Owner(s0, q) == Some(own) then None else Owner(s0, q)
  }

  /** Every prefix ends with the owner that the order of the peers and the owner at the start decide. */
  ghost predicate EndsAs(d: seq<Wanted>, s0: State, own: Key, t: State)
  {
    forall q {:trigger Owner(t, q)} :: Owner(t, q) == Final(d, FirstOwner(s0, own, q), q)
  }

  lemma SelectionIsNoMatter(d: seq<Wanted>, s0: State, s: State, own: Key, t: State)
    requires EndsAs(d, s0, own, t) && s0 == s.(sel := Nobody)
    ensures EndsAs(d, s, own, t)
  {
    forall q ensures Owner(t, q) == Final(d, FirstOwner(s, own, q), q) { assert Owner(s, q) == Owner(s0, q); }
  }

  lemma RekeyedEnds(d: seq<Wanted>, s0: State, s1: State, own: Key, t: State)
    requires Rekeyed(s0, s1, own) && forall q :: Owner(t, q) == Final(d, Owner(s1, q), q)
    ensures EndsAs(d, s0, own, t)
  {
    forall q
      ensures Owner(t, q) == Final(d, FirstOwner(s0, own, q), q)
    {
      assert Owner(s1, q) == FirstOwner(s0, own, q);
    }
  }

  /** The script plays through and reaches what is wanted if no live peer is wanted
      with a negative keepalive; its endpoint and keepalive lines are those that differ. */
  method WriteScript(d: seq<Wanted>, own: Key, live: map<Key, Live>, prev: seq<Wanted>, ghost s0: State)
    returns (script: seq<Line>, ghost t: State)
    requires ValidState(s0) && s0.sel == Nobody && live == LiveOf(s0) && Sound(d, own, s0)
    ensures Play(s0, script) == Some(t) && t.own == own && EndsAs(d, s0, own, t) && Pointed(d, s0, prev, t)
    ensures LiveNotNegative(d, live.Keys) ==> Reached(d, t)
    ensures Spoken(d, |d|, live, prev, script)
    ensures AllSettled(d, live, prev) ==> script == [PrivateKey(own)]
  {
    ghost var s1 := Begin(d, prev, s0, own);
    script, t := WritePeers(d, [PrivateKey(own)], own, live, prev, s0, s1);
    TrimStart(d, prev, s0, s1, t, own);
    ghost var written := script;
    script, t := TrimLines(d, prev, live, script, s0, s1, t, own);
    SpokenStill(d, live, prev, written, script);
    TrimmedEnds(d, prev, s1, t);
    RekeyedEnds(d, s0, s1, own, t);
    TrimmedPoints(d, prev, s0, s1, t, own);
    TrimmedIsReached(d, prev, s1, t);
  }

  /** The script has played to t and has the lines of the first n peers. */
  ghost predicate Written(d: seq<Wanted>, n: nat, live: map<Key, Live>, prev: seq<Wanted>, s0: State, s1: State,
                          t: State, script: seq<Line>)
  {
    Play(s0, script) == Some(t) && Progress(d, prev, n, s1, t) && Spoken(d, n, live, prev, script)
  }

  /** The lines of one more peer. */
  method WritePeer(d: seq<Wanted>, n: nat, script0: seq<Line>, ghost own: Key, live: map<Key, Live>,
                   prevEndpoint: Option<Endpoint>, ghost prev: seq<Wanted>, ghost s0: State, ghost s1: State,
                   ghost t0: State)
    returns (script: seq<Line>, ghost t: State)
    requires ValidState(s0) && live == LiveOf(s0) && Sound(d, own, s0) && Rekeyed(s0, s1, own)
    requires n < |d| && prevEndpoint == Said(prev, d[n].key) && Written(d, n, live, prev, s0, s1, t0, script0)
    ensures Written(d, n + 1, live, prev, s0, s1, t, script)
    ensures AllSettled(d, live, prev) ==> script == script0
  {
    assert d[n] in d;
    script, t := PeerLines(d, prev, n, CurOf(live, d[n].key), prevEndpoint, script0, s0, s1, t0, own);
    SpokenStep(d, n, live, prev, script0, script);
  }

  /** The lines of all wanted peers. */
  method WritePeers(d: seq<Wanted>, script0: seq<Line>, ghost own: Key, live: map<Key, Live>, prev: seq<Wanted>,
                    ghost s0: State, ghost s1: State)
    returns (script: seq<Line>, ghost t: State)
    requires ValidState(s0) && live == LiveOf(s0) && Sound(d, own, s0)
    requires Rekeyed(s0, s1, own) && Play(s0, script0) == Some(s1) && Progress(d, prev, 0, s1, s1)
    requires Spoken(d, 0, live, prev, script0)
    ensures Play(s0, script) == Some(t) && Progress(d, prev, |d|, s1, t) && Spoken(d, |d|, live, prev, script)
    ensures AllSettled(d, live, prev) ==> script == script0
  {
    var prevEp := PrevEndpoints(prev);
    script, t := script0, s1;
    for n := 0 to |d|
      invariant Written(d, n, live, prev, s0, s1, t, script)
      invariant AllSettled(d, live, prev) ==> script == script0
    {
      assert EndpointOf(prevEp, d[n].key) == Said(prev, d[n].key);
      script, t := WritePeer(d, n, script, own, live, EndpointOf(prevEp, d[n].key), prev, s0, s1, t);
    }
  }

  lemma SpokenStill(d: seq<Wanted>, live: map<Key, Live>, prev: seq<Wanted>, script: seq<Line>, script': seq<Line>)
    requires Spoken(d, |d|, live, prev, script) && Tells(script, script')
    ensures Spoken(d, |d|, live, prev, script')
  {
  }

  /** From any live state: the apply succeeds if and only if no wanted peer is refused.
      It then leaves the wanted peers, every prefix with the owner that the order decides,
      and exactly what is wanted just when nothing is wanted twice and no keepalive is
      negative. */
  method ApplyDesired(dev: Device, d: seq<Wanted>, own: Key, prev: seq<Wanted>) returns (ok: bool, script: seq<Line>)
    requires ValidState(dev.state) && Sound(d, own, dev.state.(sel := Nobody))
    modifies dev
    ensures ok <==> !SomeRefused(d, LiveOf(old(dev.state)), prev, dev.parses)
    ensures ok ==> Reached(d, dev.state) && ValidState(dev.state) && dev.state.own == own
    ensures ok ==> (Exact(d, dev.state) <==> Disjoint(d) && NoneNegative(d))
    ensures ok ==> EndsAs(d, old(dev.state), own, dev.state) && Pointed(d, old(dev.state), prev, dev.state)
    ensures Exact(d, old(dev.state)) && prev == d ==> script == [PrivateKey(own)]
  {
    ghost var s0 := dev.state.(sel := Nobody);
    var live := LiveOf(dev.state);
    assert live == LiveOf(s0) && forall k :: PeerOf(s0, k) == PeerOf(dev.state, k);
    ghost var t;
    script, t := WriteScript(d, own, live, prev, s0);
    SelectionIsNoMatter(d, s0, dev.state, own, t);
    if Exact(d, dev.state) && prev == d { SecondApplyIsSettled(d, dev.state); }
    RunIsPlay(s0, script, dev.parses);
    TakenIffNoneRefused(d, s0, prev, script, dev.parses);
    ok := dev.IpcSetOperation(script);
    if ok {
      NoneRefusedIsInRange(d, live, prev, dev.parses);
      ExactIffDisjoint(d, dev.state);
      ReachedIsValid(d, own, dev.state);
    }
  }

  lemma NoneRefusedIsInRange(d: seq<Wanted>, live: map<Key, Live>, prev: seq<Wanted>, parses: set<Endpoint>)
    requires !SomeRefused(d, live, prev, parses)
    ensures LiveNotNegative(d, live.Keys) && forall j :: 0 <= j < |d| ==> d[j].keepalive <= 0xffff
  {
    forall j | 0 <= j < |d| ensures d[j].keepalive <= 0xffff && (d[j].key in live ==> d[j].keepalive >= 0) {
      assert !Refused(d[j], CurOf(live, d[j].key), Said(prev, d[j].key), parses);
    }
  }

  lemma ReachedIsValid(d: seq<Wanted>, own: Key, t: State)
    requires Reached(d, t) && own !in KeySet(d) && t.own == own
    requires forall j :: 0 <= j < |d| ==> d[j].keepalive <= 0xffff
    ensures ValidState(t)
  {
    forall q | q in t.allowed ensures t.allowed[q] in t.peers {
      assert Owner(t, q).Some?;
      var i :| 0 <= i < |d| && d[i].key == t.allowed[q] && q in d[i].allowed;
      assert d[i] in d;
    }
    forall k | k in t.peers ensures 0 <= t.peers[k].keepalive < 0x10000 {
      DoneIsWanted(d, k);
      var j :| 0 <= j < |d| && d[j].key == k;
    }
  }

  /** Endpoints may have roamed; a second apply of the same configuration has nothing to say. */
  lemma SecondApplyIsSettled(d: seq<Wanted>, t: State)
    requires Exact(d, t) && DistinctKeys(d)
    ensures AllSettled(d, LiveOf(t), d)
  {
    forall j | 0 <= j < |d| ensures Settled(d[j], CurOf(LiveOf(t), d[j].key), Said(d, d[j].key)) {
      var cur := CurOf(LiveOf(t), d[j].key);
      SaidOnce(d, j);
      forall q ensures !Missing(d[j], cur, q) && !Surplus(d[j], cur, q) {}
    }
  }

  // ----- negative keepalives

  /** On a device that a configuration was applied to, the same one is refused if and
      only if it has a negative keepalive. */
  lemma AgainRefusedIffNegative(d: seq<Wanted>, t: State, parses: set<Endpoint>)
    requires Reached(d, t) && DistinctKeys(d) && forall j :: 0 <= j < |d| ==> d[j].keepalive <= 0xffff
    ensures SomeRefused(d, LiveOf(t), d, parses) <==> !NoneNegative(d)
  {
    forall j | 0 <= j < |d|
      ensures Refused(d[j], CurOf(LiveOf(t), d[j].key), Said(d, d[j].key), parses) <==> d[j].keepalive < 0
    {
      SaidOnce(d, j);
    }
  }

  /** A first apply that succeeds and a second of the same configuration: the second
      succeeds if and only if no keepalive is negative. */
  method ApplyTwice(dev: Device, d: seq<Wanted>, own: Key, prev: seq<Wanted>) returns (first: bool, second: bool)
    requires ValidState(dev.state) && Sound(d, own, dev.state.(sel := Nobody))
    modifies dev
    ensures first <==> !SomeRefused(d, LiveOf(old(dev.state)), prev, dev.parses)
    ensures first ==> (second <==> NoneNegative(d))
  {
    ghost var was := dev.state;
    var script;
    first, script := ApplyDesired(dev, d, own, prev);
    second := false;
    if first {
      NoneRefusedIsInRange(d, LiveOf(was), prev, dev.parses);
      AgainRefusedIffNegative(d, dev.state, dev.parses);
      RoomAgain(d, was.(sel := Nobody), dev.state.(sel := Nobody));
      second, script := ApplyDesired(dev, d, own, d);
    }
  }

  lemma RoomAgain(d: seq<Wanted>, s: State, t: State)
    requires Room(s, d) && forall k :: k in t.peers <==> k in KeySet(d)
    ensures Room(t, d)
  {
    var ks := KeySet(d);
    forall k | k in t.peers.Keys ensures k in ks { assert k in t.peers; }
    assert t.peers.Keys + ks == ks;
    SubsetSize(ks, s.peers.Keys + ks);
  }

  /** A new peer wanted with keepalive -5: no keepalive is written, the peer has 0, and
      from then on the script asks for -5 and stops. */
  lemma ANegativeKeepalive() returns (s: State, t: State, d: seq<Wanted>)
    ensures d == [Wanted(2, None, -5, [])] && s == State(1, map[], map[], Nobody)
    ensures Sound(d, 1, s) && ValidState(s) && !SomeRefused(d, LiveOf(s), [], {})
    ensures Run(s, [PrivateKey(1), PublicKey(2)], {}) == Some(t) && Reached(d, t) && ValidState(t)
    ensures Run(t.(sel := Nobody), [PrivateKey(1), PublicKey(2), Keepalive(-5)], {}) == None
  {
    s, d := State(1, map[], map[], Nobody), [Wanted(2, None, -5, [])];
    t := State(1, map[2 := Peer(None, 0)], map[], Chosen(2));
    assert d[0] in d;
    OneIsSound(s, d, t);
    RunTwo(s, PrivateKey(1), PublicKey(2), {});
    assert Evicted(s, 1).peers == map[] && Evicted(s, 1).allowed == map[];
    var three := [PrivateKey(1), PublicKey(2), Keepalive(-5)];
    RunIsPlay(t.(sel := Nobody), three, {});
    assert three[2] in three && !Takes(three[2], {});
  }

  lemma RunTwo(s: State, a: Line, b: Line, parses: set<Endpoint>)
    ensures Run(s, [a, b], parses) ==
            match Step(s, a, parses) { case None => None case Some(t) => Step(t, b, parses) }
  {
    assert [a, b][..1] == [a] && [a][..0] == [];
    assert Run(s, [a], parses) == Step(s, a, parses);
  }

  lemma OneIsSound(s: State, d: seq<Wanted>, t: State)
    requires d == [Wanted(2, None, -5, [])] && s == State(1, map[], map[], Nobody)
    requires t == State(1, map[2 := Peer(None, 0)], map[], Chosen(2))
    ensures Sound(d, 1, s) && Reached(d, t)
  {
    assert d[0] in d;
    assert KeySet(d) == {2} && s.peers.Keys + KeySet(d) == {2};
    forall q ensures !WantedBySome(d, |d|, q) && Owner(t, q).None? {}
  }

  // ----- prefixes wanted for two peers

  lemma {:induction false} OnlyTwoTake(d: seq<Wanted>, n: nat, i: nat, j: nat, q: Prefix, first: Option<Key>)
    requires i < j < |d| && n <= |d| && DistinctKeys(d) && (first == Some(d[i].key) || first == Some(d[j].key))
    requires forall k :: 0 <= k < |d| ==> (q in d[k].allowed <==> k == i || k == j)
    ensures OwnerBy(d, n, first, q) ==
            if first == Some(d[i].key) then (if n > j then Some(d[j].key) else first)
            else (if n > i then Some(d[i].key) else first)
  {
    if n > 0 { OnlyTwoTake(d, n - 1, i, j, q, first); }
  }

  /** A prefix wanted for two peers changes hands at every apply, the same configuration included. */
  lemma ContestedPrefixMoves(d: seq<Wanted>, i: nat, j: nat, q: Prefix, first: Option<Key>)
    requires i < j < |d| && DistinctKeys(d) && (first == Some(d[i].key) || first == Some(d[j].key))
    requires forall k :: 0 <= k < |d| ==> (q in d[k].allowed <==> k == i || k == j)
    ensures Final(d, first, q) == if first == Some(d[i].key) then Some(d[j].key) else Some(d[i].key)
  {
    OnlyTwoTake(d, |d|, i, j, q, first);
    assert d[i] in d && d[j] in d;
  }
}
