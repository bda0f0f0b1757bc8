/** Retrying a revision that failed to apply: each failed push starts a loop of its
    own, and the loops hand over through one atomic field. */
module RetryLoop {
  /** Where a retry loop stands: before its swap, asleep, about to apply, or about to
      reset the field on its way out. */
  datatype Loop = Gone | Starting(rev: int) | Sleeping(rev: int) | Applying(rev: int) | Leaving(rev: int)

  /** newest: the newest revision offered; pending: it failed and is not applied yet;
      retrying: the field, -1 for none. */
  datatype State = State(newest: int, pending: bool, retrying: int, loops: map<nat, Loop>)

  ghost predicate Init(s: State) { s == State(-1, false, -1, map[]) }

  ghost function At(s: State, id: nat): Loop { if id in s.loops then s.loops[id] else Gone }

  datatype Step =
    | Fail(id: nat, rev: int)
    | Good(rev: int)
    | Enter(id: nat)
    | Look(id: nat)
    | Try(id: nat, ok: bool)
    | Leave(id: nat)

  ghost predicate Enabled(s: State, a: Step)
  {
    match a
    case Fail(id, rev) => At(s, id) == Gone && (rev > s.newest || (rev == s.newest && s.pending))
    case Good(rev) => rev >= s.newest && rev >= 0
    case Enter(id) => At(s, id).Starting?
    case Look(id) => At(s, id).Sleeping?
    case Try(id, ok) => At(s, id).Applying?
    case Leave(id) => At(s, id).Leaving?
  }

  ghost function Put(s: State, id: nat, l: Loop): State { s.(loops := s.loops[id := l]) }

  ghost function After(s: State, a: Step): State
    requires Enabled(s, a)
  {
    match a
    case Fail(id, rev) => Put(s, id, Starting(rev)).(newest := rev, pending := true)
    case Good(rev) => s.(newest := rev, pending := false)
    case Enter(id) =>
      var rev := At(s, id).rev;
      if s.retrying == rev then Put(s, id, Gone) else Put(s, id, Sleeping(rev)).(retrying := rev)
    case Look(id) =>
      var rev := At(s, id).rev;
      Put(s, id, if s.retrying == rev then Applying(rev) else Leaving(rev))
    case Try(id, ok) =>
      var rev := At(s, id).rev;
      if rev < s.newest || !s.pending then Put(s, id, Leaving(rev))
      else if ok then Put(s, id, Leaving(rev)).(pending := false)
      else Put(s, id, Sleeping(rev))
    case Leave(id) =>
      Put(s, id, Gone).(retrying := if s.retrying == At(s, id).rev then -1 else s.retrying)
  }

  // ----- the promise

  ghost predicate Waiting(s: State) { exists id :: At(s, id) == Starting(s.newest) }

  ghost predicate Active(s: State) { exists id :: At(s, id) == Sleeping(s.newest) || At(s, id) == Applying(s.newest) }

  /** A newest revision that failed has a loop that will go on retrying it. */
  ghost predicate Promise(s: State) { s.pending ==> Waiting(s) || (Active(s) && s.retrying == s.newest) }

  /** The steps that break the promise: the newest revision is being retried, no
      other loop of it is still to enter, and a loop of an older revision enters or
      one of the newest revision, given up before, resets the field. */
  ghost predicate Breaks(s: State, a: Step)
  {
    && s.pending && s.retrying == s.newest && !Waiting(s)
    && match a
       case Enter(id) => At(s, id).Starting? && At(s, id).rev < s.newest
       case Leave(id) => At(s, id) == Leaving(s.newest)
       case _ => false
  }

  // ----- what holds in every run

  ghost predicate RevOk(s: State, id: nat) { At(s, id) != Gone ==> 0 <= At(s, id).rev <= s.newest }

  /** Revisions are at most the newest; whoever is named by the field is awake. */
  ghost predicate Inv(s: State)
  {
    && (forall id {:trigger RevOk(s, id)} :: RevOk(s, id))
    && -1 <= s.retrying <= s.newest && (s.pending ==> s.newest >= 0)
    && (s.pending && s.retrying == s.newest ==> Active(s))
  }

  /** Other loops stay where they are. */
  lemma Others(s: State, a: Step)
    requires Enabled(s, a)
    ensures forall id :: (a.Good? || id != a.id) ==> At(After(s, a), id) == At(s, id)
  {
  }

  lemma StillActive(s: State, a: Step)
    requires Inv(s) && Enabled(s, a) && s.pending && s.retrying == s.newest
    ensures var t := After(s, a); t.pending && t.retrying == t.newest ==> Active(t)
  {
    var t := After(s, a);
    Others(s, a);
    var id :| At(s, id) == Sleeping(s.newest) || At(s, id) == Applying(s.newest);
    assert t.pending && t.newest == s.newest ==> At(t, id) == Sleeping(t.newest) || At(t, id) == Applying(t.newest);
  }

  lemma StepKeeps(s: State, a: Step)
    requires Inv(s) && Enabled(s, a)
    ensures Inv(After(s, a))
  {
    var t := After(s, a);
    forall id ensures RevOk(t, id) { assert RevOk(s, id); }
    if !a.Good? { assert RevOk(s, a.id); }
    if s.pending && s.retrying == s.newest {
      StillActive(s, a);
    } else if a.Enter? && t.retrying == t.newest {
      assert At(t, a.id) == Sleeping(t.newest) || t == Put(s, a.id, Gone);
    }
  }

  /** Who is waiting afterwards. */
  lemma WaitingAfter(s: State, a: Step)
    requires Enabled(s, a) && !a.Fail? && !a.Good?
    ensures Waiting(After(s, a)) ==> Waiting(s)
    ensures Waiting(s) ==> Waiting(After(s, a)) || (a.Enter? && At(s, a.id) == Starting(s.newest))
  {
    var t := After(s, a);
    Others(s, a);
    if Waiting(t) {
      var w :| At(t, w) == Starting(t.newest);
      assert At(s, w) == Starting(s.newest);
    }
    if Waiting(s) {
      var w :| At(s, w) == Starting(s.newest);
      assert w != a.id ==> At(t, w) == Starting(t.newest);
    }
  }

  /** A step breaks the promise exactly if it is one of those named. */
  lemma StepBreaksPromise(s: State, a: Step)
    requires Inv(s) && Enabled(s, a) && Promise(s)
    ensures Promise(After(s, a)) <==> !Breaks(s, a)
  {
    var t := After(s, a);
    StepKeeps(s, a);
    if a.Fail? {
      assert At(t, a.id) == Starting(t.newest);
    } else if !a.Good? {
      WaitingAfter(s, a);
      assert RevOk(s, a.id);
    }
  }

  /** Once broken, only a new push can mend it, or a loop that had already looked. */
  lemma LostStaysLost(s: State, a: Step)
    requires Inv(s) && Enabled(s, a) && !Promise(s) && !a.Fail? && !a.Good?
    ensures Promise(After(s, a)) ==> a.Try? && a.ok && At(s, a.id) == Applying(s.newest) && !After(s, a).pending
  {
    WaitingAfter(s, a);
    assert RevOk(s, a.id);
    StepKeeps(s, a);
    if a.Enter? { assert At(s, a.id).rev != s.newest; }
  }

  // ----- runs

  /** The states that the steps go through from the start. */
  ghost predicate Run(trace: seq<State>, steps: seq<Step>)
  {
    |trace| == |steps| + 1 && Init(trace[0]) &&
      forall i {:trigger steps[i]} :: 0 <= i < |steps| ==> Taken(trace, steps, i)
  }

  ghost predicate Taken(trace: seq<State>, steps: seq<Step>, i: nat)
    requires |trace| == |steps| + 1 && i < |steps|
  {
    Enabled(trace[i], steps[i]) && trace[i+1] == After(trace[i], steps[i])
  }

  lemma {:induction false} RunKeeps(trace: seq<State>, steps: seq<Step>, k: nat)
    requires Run(trace, steps) && k < |trace|
    ensures Inv(trace[k])
  {
    if k > 0 {
      RunKeeps(trace, steps, k - 1);
      assert Taken(trace, steps, k - 1);
      StepKeeps(trace[k-1], steps[k-1]);
    }
  }

  lemma {:induction false} KeptSoFar(trace: seq<State>, steps: seq<Step>, k: nat)
    requires Run(trace, steps) && k < |trace| && forall i :: 0 <= i < k ==> !Breaks(trace[i], steps[i])
    ensures Promise(trace[k])
  {
    if k > 0 {
      KeptSoFar(trace, steps, k - 1);
      RunKeeps(trace, steps, k - 1);
      assert Taken(trace, steps, k - 1);
      StepBreaksPromise(trace[k-1], steps[k-1]);
    }
  }

  /** In every run: a failed newest revision is being retried in all states if and
      only if no step is one of those that break the promise. */
  lemma RetriesGoOn(trace: seq<State>, steps: seq<Step>)
    requires Run(trace, steps)
    ensures (forall k :: 0 <= k < |trace| ==> Promise(trace[k])) <==>
            forall i :: 0 <= i < |steps| ==> !Breaks(trace[i], steps[i])
  {
    if forall i :: 0 <= i < |steps| ==> !Breaks(trace[i], steps[i]) {
      forall k | 0 <= k < |trace| ensures Promise(trace[k]) { KeptSoFar(trace, steps, k); }
    }
    if forall k :: 0 <= k < |trace| ==> Promise(trace[k]) {
      forall i | 0 <= i < |steps| ensures !Breaks(trace[i], steps[i]) {
        RunKeeps(trace, steps, i);
        assert Taken(trace, steps, i) && Promise(trace[i+1]);
        StepBreaksPromise(trace[i], steps[i]);
      }
    }
  }

  // ----- an order of entering that is safe

  /** A loop enters while the field names a newer revision. */
  ghost predicate Overtakes(s: State, a: Step) { a.Enter? && At(s, a.id).Starting? && s.retrying > At(s, a.id).rev }

  /** While the newest revision is pending, all its loops past their entry are awake
      and the field names it. */
  ghost predicate Steady(s: State, id: nat)
  {
    var l := At(s, id);
    s.pending && l != Gone && !l.Starting? && l.rev == s.newest ==> !l.Leaving? && s.retrying == s.newest
  }

  lemma OrderlyStep(s: State, a: Step, id: nat)
    requires Inv(s) && Enabled(s, a) && !Overtakes(s, a) && (forall i {:trigger Steady(s, i)} :: Steady(s, i))
    ensures Steady(After(s, a), id) && !Breaks(s, a)
  {
    assert Steady(s, id) && RevOk(s, id);
    if !a.Good? { assert Steady(s, a.id) && RevOk(s, a.id); }
  }

  lemma {:induction false} OrderlyKeeps(trace: seq<State>, steps: seq<Step>, k: nat, id: nat)
    requires Run(trace, steps) && k < |trace| && forall i :: 0 <= i < k ==> !Overtakes(trace[i], steps[i])
    ensures Steady(trace[k], id)
  {
    if k > 0 {
      RunKeeps(trace, steps, k - 1);
      assert Taken(trace, steps, k - 1);
      var s := trace[k-1];
      forall i: nat ensures Steady(s, i) { OrderlyKeeps(trace, steps, k - 1, i); }
      OrderlyStep(s, steps[k-1], id);
    }
  }

  /** Loops that enter in the order of their revisions break nothing. */
  lemma InOrderIsSafe(trace: seq<State>, steps: seq<Step>)
    requires Run(trace, steps) && forall i :: 0 <= i < |steps| ==> !Overtakes(trace[i], steps[i])
    ensures forall k :: 0 <= k < |trace| ==> Promise(trace[k])
  {
    forall i | 0 <= i < |steps| ensures !Breaks(trace[i], steps[i]) {
      RunKeeps(trace, steps, i);
      assert Taken(trace, steps, i);
      var s := trace[i];
      forall j: nat ensures Steady(s, j) { OrderlyKeeps(trace, steps, i, j); }
      OrderlyStep(s, steps[i], 0);
    }
    RetriesGoOn(trace, steps);
  }

  // ----- two runs that lose the newest revision

  /** No loop will try to apply anything again. */
  ghost predicate AllOver(s: State) { forall id {:trigger At(s, id)} :: At(s, id) == Gone || At(s, id).Leaving? }

  lemma Then(trace: seq<State>, steps: seq<Step>, a: Step) returns (trace': seq<State>, steps': seq<Step>)
    requires Run(trace, steps) && Enabled(trace[|trace|-1], a)
    ensures Run(trace', steps') && |trace'| == |trace| + 1 && trace'[|trace|] == After(trace[|trace|-1], a)
    ensures steps' == steps + [a] && forall i :: 0 <= i < |trace| ==> trace'[i] == trace[i]
  {
    trace', steps' := trace + [After(trace[|trace|-1], a)], steps + [a];
    forall i | 0 <= i < |steps'| ensures Taken(trace', steps', i) { assert i < |steps| ==> Taken(trace, steps, i); }
  }

  /** What the runs below look at: three loops, the field, and nobody else. */
  ghost predicate Looks(s: State, retrying: int, l0: Loop, l1: Loop, l2: Loop)
  {
    && s.newest == 6 && s.pending && s.retrying == retrying && At(s, 0) == l0 && At(s, 1) == l1 && At(s, 2) == l2
    && forall id {:trigger At(s, id)} :: id > 2 ==> At(s, id) == Gone
  }

  lemma StepLooks(s: State, retrying: int, l0: Loop, l1: Loop, l2: Loop, a: Step)
    requires Looks(s, retrying, l0, l1, l2) && Enabled(s, a) && !a.Fail? && !a.Good? && (a.Try? ==> !a.ok) && a.id <= 2
    ensures var t := After(s, a); var l := At(t, a.id);
            Looks(t, t.retrying, if a.id == 0 then l else l0, if a.id == 1 then l else l1, if a.id == 2 then l else l2)
  {
    Others(s, a);
  }

  lemma Pushes() returns (trace: seq<State>, steps: seq<Step>)
    ensures Run(trace, steps) && |trace| == 4 && steps == [Fail(0, 5), Fail(1, 6), Fail(2, 6)]
    ensures Looks(trace[3], -1, Starting(5), Starting(6), Starting(6))
  {
    trace, steps := [State(-1, false, -1, map[])], [];
    trace, steps := Then(trace, steps, Fail(0, 5));
    trace, steps := Then(trace, steps, Fail(1, 6));
    trace, steps := Then(trace, steps, Fail(2, 6));
  }

  /** The entry of an older loop: both loops of revision 6 enter, the second finding
      the first at work and going away; then the loop of revision 5 enters. */
  lemma LostByEntering() returns (trace: seq<State>, steps: seq<Step>)
    ensures Run(trace, steps) && |steps| == 9 && trace[9].pending && AllOver(trace[9])
    ensures steps == [Fail(0, 5), Fail(1, 6), Fail(2, 6), Enter(1), Enter(2), Enter(0), Look(1), Look(0), Try(0, false)]
    ensures Breaks(trace[5], steps[5])
  {
    trace, steps := Pushes();
    StepLooks(trace[3], -1, Starting(5), Starting(6), Starting(6), Enter(1));
    trace, steps := Then(trace, steps, Enter(1));
    StepLooks(trace[4], 6, Starting(5), Sleeping(6), Starting(6), Enter(2));
    trace, steps := Then(trace, steps, Enter(2));
    NobodyWaits(trace[5], Sleeping(6), Gone);
    StepLooks(trace[5], 6, Starting(5), Sleeping(6), Gone, Enter(0));
    trace, steps := Then(trace, steps, Enter(0));
    StepLooks(trace[6], 5, Sleeping(5), Sleeping(6), Gone, Look(1));
    trace, steps := Then(trace, steps, Look(1));
    StepLooks(trace[7], 5, Sleeping(5), Leaving(6), Gone, Look(0));
    trace, steps := Then(trace, steps, Look(0));
    StepLooks(trace[8], 5, Applying(5), Leaving(6), Gone, Try(0, false));
    trace, steps := Then(trace, steps, Try(0, false));
    NobodyLeft(trace[9], 5, Leaving(6), Gone);
  }

  /** The exit of a loop that had been overtaken: no entry breaks anything, but the
      reset on the way out takes the field away from the other loop of revision 6. */
  lemma LostByLeaving() returns (trace: seq<State>, steps: seq<Step>)
    ensures Run(trace, steps) && |steps| == 10 && trace[10].pending && AllOver(trace[10])
    ensures steps == [Fail(0, 5), Fail(1, 6), Fail(2, 6), Enter(1), Enter(0), Look(1), Enter(2), Leave(1), Look(2),
            Look(0)]
    ensures Breaks(trace[7], steps[7])
  {
    trace, steps := Pushes();
    StepLooks(trace[3], -1, Starting(5), Starting(6), Starting(6), Enter(1));
    trace, steps := Then(trace, steps, Enter(1));
    StepLooks(trace[4], 6, Starting(5), Sleeping(6), Starting(6), Enter(0));
    trace, steps := Then(trace, steps, Enter(0));
    StepLooks(trace[5], 5, Sleeping(5), Sleeping(6), Starting(6), Look(1));
    trace, steps := Then(trace, steps, Look(1));
    StepLooks(trace[6], 5, Sleeping(5), Leaving(6), Starting(6), Enter(2));
    trace, steps := Then(trace, steps, Enter(2));
    NobodyWaits(trace[7], Leaving(6), Sleeping(6));
    StepLooks(trace[7], 6, Sleeping(5), Leaving(6), Sleeping(6), Leave(1));
    trace, steps := Then(trace, steps, Leave(1));
    StepLooks(trace[8], -1, Sleeping(5), Gone, Sleeping(6), Look(2));
    trace, steps := Then(trace, steps, Look(2));
    StepLooks(trace[9], -1, Sleeping(5), Gone, Leaving(6), Look(0));
    trace, steps := Then(trace, steps, Look(0));
    NobodyLeft(trace[10], -1, Gone, Leaving(6));
  }

  lemma NobodyWaits(s: State, l1: Loop, l2: Loop)
    requires Looks(s, 6, At(s, 0), l1, l2) && At(s, 0) != Starting(6) && !l1.Starting? && !l2.Starting?
    ensures !Waiting(s)
  {
    forall id: nat ensures At(s, id) != Starting(6) { assert id == 0 || id == 1 || id == 2 || id > 2; }
  }

  lemma NobodyLeft(s: State, retrying: int, l1: Loop, l2: Loop)
    requires Looks(s, retrying, Leaving(5), l1, l2) && (l1 == Gone || l1.Leaving?) && (l2 == Gone || l2.Leaving?)
    ensures AllOver(s)
  {
    forall id: nat ensures At(s, id) == Gone || At(s, id).Leaving? { assert id == 0 || id == 1 || id == 2 || id > 2; }
  }
}
