/** Pushing configurations to an agent: concurrent callers replace one pending
    configuration with compare-and-swap and ring a one-slot bell; a single writer
    answers the bell. */
module ConfigPush {
  import opened Common

  /** A configuration object: its identity and its revision. */
  datatype Config = Config(id: nat, rev: int)

  /** Where a queueConfig call stands: about to load, about to compare-and-swap
      with what it loaded, or about to signal. */
  datatype Caller = Idle | Loading(d: Config) | Swapping(d: Config, seen: Option<Config>) | Signalling

  datatype Writer = Waiting | Fetching | Writing(d: Config)

  /** queued: the configurations whose call took effect, by swap or by giving way;
      fetched: the last configuration the writer loaded; unencodable: those
      given up because they could not be encoded. */
  datatype State = State(
    cfg: Option<Config>, bell: bool, callers: map<nat, Caller>, writer: Writer,
    queued: set<Config>, fetched: Option<Config>, written: seq<Config>,
    unencodable: set<Config>)

  ghost predicate Init(s: State) { s == State(None, false, map[], Waiting, {}, None, [], {}) }

  ghost function CallerAt(s: State, t: nat): Caller { if t in s.callers then s.callers[t] else Idle }

  datatype Step = Call(t: nat, d: Config) | Load(t: nat) | Swap(t: nat) | Signal(t: nat) | Answer | Fetch | Write
    | GiveUp

  ghost predicate Enabled(s: State, a: Step)
  {
    match a
    case Call(t, d) => CallerAt(s, t) == Idle
    case Load(t) => CallerAt(s, t).Loading?
    case Swap(t) => CallerAt(s, t).Swapping?
    case Signal(t) => CallerAt(s, t) == Signalling
    case Answer => s.writer == Waiting && s.bell
    case Fetch => s.writer == Fetching
    case Write => s.writer.Writing?
    case GiveUp => s.writer.Writing?
  }

  ghost function After(s: State, a: Step): State
    requires Enabled(s, a)
  {
    match a
    case Call(t, d) => s.(callers := s.callers[t := Loading(d)])
    case Load(t) =>
      var d := CallerAt(s, t).d;
      if s.cfg.Some? && s.cfg.value.rev > d.rev then s.(callers := s.callers[t := Idle], queued := s.queued + {d})
      else s.(callers := s.callers[t := Swapping(d, s.cfg)])
    case Swap(t) =>
      var d := CallerAt(s, t).d;
      if s.cfg == CallerAt(s, t).seen then
        s.(cfg := Some(d), callers := s.callers[t := Signalling], queued := s.queued + {d})
      else s.(callers := s.callers[t := Loading(d)])
    case Signal(t) => s.(bell := true, callers := s.callers[t := Idle])
    case Answer => s.(bell := false, writer := Fetching)
    case Fetch =>
      if s.cfg.None? then s.(writer := Waiting) else s.(writer := Writing(s.cfg.value), fetched := s.cfg)
    case Write => s.(writer := Waiting, written := s.written + [s.writer.d])
    case GiveUp => s.(writer := Waiting, unencodable := s.unencodable + {s.writer.d})
  }

  // ----- invariant

  /** The pending configuration is a newest one among those queued. */
  ghost predicate Newest(s: State)
  {
    && (s.cfg.Some? ==> s.cfg.value in s.queued)
    && (forall d :: d in s.queued ==> s.cfg.Some? && d.rev <= s.cfg.value.rev)
  }

  /** A caller about to swap saw nothing newer than what it brings. */
  ghost predicate SwapOk(s: State, t: nat)
  {
    var c := CallerAt(s, t);
    c.Swapping? && c.seen.Some? ==> c.seen.value.rev <= c.d.rev
  }

  ghost predicate Ascending(w: seq<Config>) { forall i, j :: 0 <= i < j < |w| ==> w[i].rev <= w[j].rev }

  /** Written revisions ascend, up to the one in the writer's hands, up to the pending one. */
  ghost predicate InOrder(s: State)
  {
    && Ascending(s.written)
    && (s.fetched.Some? ==> s.cfg.Some? && s.fetched.value.rev <= s.cfg.value.rev)
    && (s.fetched.None? ==> s.written == [] && !s.writer.Writing?)
    && (s.fetched.Some? ==> forall d :: d in s.written ==> d.rev <= s.fetched.value.rev)
    && (s.writer.Writing? ==> s.fetched == Some(s.writer.d))
    && (s.fetched.Some? && !s.writer.Writing? && s.fetched.value !in s.unencodable ==>
          s.written != [] && s.written[|s.written|-1] == s.fetched.value)
  }

  ghost predicate SomeoneSignals(s: State) { exists t :: CallerAt(s, t) == Signalling }

  /** A pending configuration the writer has not picked up will be. */
  ghost predicate Awake(s: State)
  {
    s.cfg == s.fetched || s.bell || SomeoneSignals(s) || s.writer == Fetching
  }

  ghost predicate Inv(s: State)
  {
    Newest(s) && InOrder(s) && Awake(s) && forall t {:trigger SwapOk(s, t)} :: SwapOk(s, t)
  }

  lemma StepKeepsNewest(s: State, a: Step)
    requires Inv(s) && Enabled(s, a)
    ensures Newest(After(s, a))
  {
    if a.Swap? { assert SwapOk(s, a.t); }
  }

  lemma AscendingAppend(w: seq<Config>, d: Config)
    requires Ascending(w) && forall x :: x in w ==> x.rev <= d.rev
    ensures Ascending(w + [d])
  {
    assert forall i :: 0 <= i < |w| ==> w[i] in w;
  }

  lemma WriteKeepsOrder(s: State)
    requires InOrder(s) && s.writer.Writing?
    ensures InOrder(After(s, Write))
  {
    AscendingAppend(s.written, s.writer.d);
  }

  lemma StepKeepsOrder(s: State, a: Step)
    requires Inv(s) && Enabled(s, a)
    ensures InOrder(After(s, a))
  {
    if a.Write? {
      WriteKeepsOrder(s);
    } else if a.Swap? {
      assert SwapOk(s, a.t);
    }
  }

  lemma StepKeepsAwake(s: State, a: Step)
    requires Inv(s) && Enabled(s, a)
    ensures Awake(After(s, a))
  {
    var s' := After(s, a);
    if SomeoneSignals(s) {
      var t :| CallerAt(s, t) == Signalling;
      assert CallerAt(s', t) == Signalling || s'.bell;
    }
    if a.Swap? { assert CallerAt(s', a.t) == Signalling || s'.cfg == s.cfg; }
  }

  lemma StepKeeps(s: State, a: Step)
    requires Inv(s) && Enabled(s, a)
    ensures Inv(After(s, a))
  {
    StepKeepsNewest(s, a);
    StepKeepsOrder(s, a);
    StepKeepsAwake(s, a);
    forall t ensures SwapOk(After(s, a), t) { assert SwapOk(s, t); }
  }

  // ----- runs

  ghost predicate StepBetween(s: State, s': State) { exists a :: Enabled(s, a) && s' == After(s, a) }

  ghost predicate Run(trace: seq<State>)
  {
    |trace| > 0 && Init(trace[0]) && forall i :: 0 <= i < |trace| - 1 ==> StepBetween(trace[i], trace[i+1])
  }

  lemma {:induction false} RunKeeps(trace: seq<State>, k: nat)
    requires Run(trace) && k < |trace|
    ensures Inv(trace[k])
  {
    if k > 0 {
      RunKeeps(trace, k - 1);
      assert StepBetween(trace[k-1], trace[k-1+1]);
      var a :| Enabled(trace[k-1], a) && trace[k] == After(trace[k-1], a);
      StepKeeps(trace[k-1], a);
    }
  }

  ghost predicate Quiet(s: State)
  {
    !s.bell && s.writer == Waiting && forall t :: CallerAt(s, t) == Idle
  }

  /** In every state of every interleaving the pending configuration is a newest
      one queued, revisions are written in ascending order, and no wake-up is
      lost; so once all is quiet, the last configuration written is the pending one unless
      it could not be encoded. */
  lemma PushIsOrderedAndAwake(trace: seq<State>, k: nat)
    requires Run(trace) && k < |trace|
    ensures var s := trace[k];
            && (forall d :: d in s.queued ==> s.cfg.Some? && d.rev <= s.cfg.value.rev)
            && Ascending(s.written) && Awake(s)
            && (Quiet(s) && s.queued != {} ==> s.cfg.Some? && s.cfg.value in s.queued)
            && (Quiet(s) && s.queued != {} && s.cfg.value !in s.unencodable ==>
                  s.written != [] && s.written[|s.written|-1] == s.cfg.value)
  {
    RunKeeps(trace, k);
    var s := trace[k];
    if Quiet(s) && s.queued != {} {
      var d :| d in s.queued;
      assert s.cfg.Some?;
      assert !SomeoneSignals(s);
    }
  }

  // ----- the agent

  /** What the outside world makes of one call: whether the bind could be replaced
      and whether the device took the configuration. */
  datatype Outcome = Ignored | Current | BindFailed | ApplyFailed | Applied

  class Applier {
    var newestRev: int
    var appliedRev: int
    var udpMode: bool
    ghost var log: seq<int>

    /** log: the revisions applied since the session began, oldest first. */
    ghost predicate Valid()
      reads this
    {
      && (forall i, j :: 0 <= i < j < |log| ==> log[i] < log[j])
      && (log != [] ==> log[|log|-1] == appliedRev && appliedRev <= newestRev)
    }

    constructor ()
      ensures Valid() && newestRev == -1 && appliedRev == -1 && !udpMode && log == []
    {
      newestRev, appliedRev, udpMode, log := -1, -1, false, [];
    }

    /** A new session follows its Master even if revisions restarted. */
    method ResetSession()
      requires Valid()
      modifies this`newestRev, this`log
      ensures Valid() && newestRev == -1 && log == []
    {
      newestRev, log := -1, [];
    }

    /** Stale revisions are ignored, the current one is a no-op, and a failure
        leaves the revision to be retried. */
    method Apply(rev: int, udp: bool, bindOk: bool, applyOk: bool) returns (r: Outcome)
      requires Valid()
      modifies this
      ensures Valid()
      ensures r == if rev < old(newestRev) then Ignored
                   else if rev == old(appliedRev) then Current
                   else if udp != old(udpMode) && !bindOk then BindFailed
                   else if !applyOk then ApplyFailed else Applied
      ensures newestRev == if r == Ignored then old(newestRev) else rev
      ensures appliedRev == if r == Applied then rev else old(appliedRev)
      ensures log == if r == Applied then old(log) + [rev] else old(log)
      ensures udpMode == if r == ApplyFailed || r == Applied then udp else old(udpMode)
    {
      if rev < newestRev { return Ignored; }
      newestRev := rev;
      if rev == appliedRev { return Current; }
      if udp != udpMode {
        if !bindOk { return BindFailed; }
        udpMode := udp;
      }
      if !applyOk { return ApplyFailed; }
      appliedRev := rev;
      log := log + [rev];
      return Applied;
    }
  }

  /** One call of apply, from a push or from a retry; which of them it is makes no difference. */
  datatype Attempt = Attempt(rev: int, udp: bool, bindOk: bool, applyOk: bool)

  /** Within a session, whatever pushes and retries come in whatever order, the
      revisions that took effect strictly increase. */
  method Session(a: Applier, attempts: seq<Attempt>) returns (ghost applied: seq<int>)
    requires a.Valid()
    modifies a
    ensures a.Valid() && applied == a.log
    ensures forall i, j :: 0 <= i < j < |applied| ==> applied[i] < applied[j]
    ensures applied != [] ==> applied[|applied|-1] == a.appliedRev
  {
    a.ResetSession();
    for i := 0 to |attempts|
      invariant a.Valid()
    {
      var _ := a.Apply(attempts[i].rev, attempts[i].udp, attempts[i].bindOk, attempts[i].applyOk);
    }
    applied := a.log;
  }
}
