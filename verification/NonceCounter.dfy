/** Nonce assignment on one keypair: any number of senders and the key expiry
    interleave at single atomic operations on a 64-bit counter. */
module NonceCounter {
  import opened Common

  const WRAP: nat := 0x1_0000_0000_0000_0000
  const REJECT_AFTER_MESSAGES: nat := WRAP - 0x2000 - 1

  /** ready: senders past the check on the counter; storing: senders that drew a
      nonce past the limit and have yet to write the limit back; used: the
      usable nonces handed out, oldest first. */
  datatype State = State(counter: nat, ready: set<nat>, storing: set<nat>, used: seq<nat>)

  const INITIAL := State(0, {}, {}, [])

  datatype Step = Load(t: nat) | Leave(t: nat) | Add(t: nat) | Store(t: nat) | Expire

  ghost predicate Enabled(s: State, a: Step)
  {
    match a
    case Load(t) => t !in s.ready && t !in s.storing && s.counter < REJECT_AFTER_MESSAGES
    case Leave(t) => t in s.ready
    case Add(t) => t in s.ready
    case Store(t) => t in s.storing
    case Expire => true
  }

  ghost function After(s: State, a: Step): State
  {
    match a
    case Load(t) => s.(ready := s.ready + {t})
    case Leave(t) => s.(ready := s.ready - {t})
    case Add(t) =>
      var bumped := s.(counter := (s.counter + 1) % WRAP);
      if s.counter >= REJECT_AFTER_MESSAGES then bumped.(ready := s.ready - {t}, storing := s.storing + {t})
      else bumped.(used := s.used + [s.counter])
    case Store(t) => s.(counter := REJECT_AFTER_MESSAGES, ready := s.ready + {t}, storing := s.storing - {t})
    case Expire => s.(counter := REJECT_AFTER_MESSAGES)
  }

  /** A run from the fresh keypair, with at most `bound` senders between drawing a
      nonce past the limit and storing the limit. */
  ghost predicate Run(trace: seq<State>, bound: nat)
  {
    && |trace| > 0 && trace[0] == INITIAL
    && (forall i :: 0 <= i < |trace| ==> |trace[i].storing| <= bound)
    && (forall i :: 0 <= i < |trace| - 1 ==> StepBetween(trace[i], trace[i+1]))
  }

  ghost predicate StepBetween(s: State, s': State) { exists a :: Enabled(s, a) && s' == After(s, a) }

  ghost predicate Inv(s: State)
  {
    && s.counter <= REJECT_AFTER_MESSAGES + |s.storing|
    && s.ready !! s.storing
    && NoDup(s.used)
    && (forall n :: n in s.used ==> n < s.counter && n < REJECT_AFTER_MESSAGES)
  }

  /** Each step keeps the invariant, and the counter neither wraps nor falls back
      below the limit once it got there. */
  lemma StepKeeps(s: State, a: Step)
    requires Inv(s) && Enabled(s, a) && |After(s, a).storing| <= 0x2000
    ensures Inv(After(s, a))
    ensures s.counter >= REJECT_AFTER_MESSAGES ==> After(s, a).counter >= REJECT_AFTER_MESSAGES
    ensures s.counter < REJECT_AFTER_MESSAGES ==> s.counter <= After(s, a).counter
    ensures After(s, a).counter < WRAP
    ensures s.used <= After(s, a).used
  {
    if a.Add? && s.counter >= REJECT_AFTER_MESSAGES {
      assert |s.storing + {a.t}| == |s.storing| + 1;
    } else if a.Store? {
      assert |s.storing - {a.t}| == |s.storing| - 1;
    }
    assert forall i :: 0 <= i < |s.used| ==> s.used[i] in s.used;
  }

  lemma {:induction false} RunKeeps(trace: seq<State>, k: nat)
    requires Run(trace, 0x2000) && k < |trace|
    ensures Inv(trace[k])
  {
    if k > 0 {
      RunKeeps(trace, k - 1);
      assert StepBetween(trace[k-1], trace[k-1+1]);
      var a :| Enabled(trace[k-1], a) && trace[k] == After(trace[k-1], a);
      StepKeeps(trace[k-1], a);
    }
  }

  /** Once the limit is reached, every later state is at or past it. */
  lemma {:induction false} LimitIsSticky(trace: seq<State>, i: nat, j: nat)
    requires Run(trace, 0x2000) && i <= j < |trace| && trace[i].counter >= REJECT_AFTER_MESSAGES
    ensures REJECT_AFTER_MESSAGES <= trace[j].counter < WRAP
    decreases j - i
  {
    RunKeeps(trace, i);
    if i < j {
      assert StepBetween(trace[i], trace[i+1]);
      var a :| Enabled(trace[i], a) && trace[i+1] == After(trace[i], a);
      StepKeeps(trace[i], a);
      LimitIsSticky(trace, i + 1, j);
    }
  }

  // ----- the bound is exact

  /** k senders that all passed the check, then an expiry, then k draws. */
  ghost function Burst(k: nat): State
    requires k <= 0x2001
  {
    State((REJECT_AFTER_MESSAGES + k) % WRAP, Senders(0x2002) - Senders(k), Senders(k), [0])
  }

  ghost predicate Sender(t: nat, k: nat) { t < k }

  ghost function Senders(k: nat): set<nat> { set t: nat | t < k && Sender(t, k) }

  ghost function Ramp(k: nat): State { State(0, Senders(k), {}, []) }

  /** The states of the run: all senders pass the check, one nonce is used, the
      key expires, every sender draws past the limit, and the counter is back at 0. */
  ghost function Bad(i: nat): State
    requires i <= 0x4006
  {
    if i <= 0x2002 then Ramp(i)
    else if i == 0x2003 then Ramp(0x2002).(counter := 1, used := [0])
    else if i <= 0x2004 + 0x2001 then Burst(i - 0x2004)
    else Burst(0x2001).(counter := 1, used := [0, 0])
  }

  lemma {:induction false} SendersSize(k: nat)
    ensures |Senders(k)| == k
  {
    if k > 0 {
      SendersSize(k - 1);
      assert Senders(k) == Senders(k - 1) + {k - 1};
    } else {
      assert Senders(0) == {};
    }
  }

  lemma BadSteps(i: nat)
    requires i < 0x4006
    ensures StepBetween(Bad(i), Bad(i + 1))
  {
    var s := Bad(i);
    if i < 0x2002 {
      assert Senders(i + 1) == Senders(i) + {i};
      assert Enabled(s, Load(i)) && Bad(i + 1) == After(s, Load(i));
    } else if i == 0x2002 {
      assert Enabled(s, Add(0)) && Bad(i + 1) == After(s, Add(0));
    } else if i == 0x2003 {
      assert Senders(0x2002) - Senders(0) == Senders(0x2002) && Senders(0) == {};
      assert Enabled(s, Expire) && Bad(i + 1) == After(s, Expire);
    } else if i < 0x4005 {
      var k := i - 0x2004;
      assert Senders(k + 1) == Senders(k) + {k};
      assert Senders(0x2002) - Senders(k + 1) == Senders(0x2002) - Senders(k) - {k};
      assert Enabled(s, Add(k)) && Bad(i + 1) == After(s, Add(k));
    } else {
      var t := 0x2001;
      assert Enabled(s, Add(t)) && Bad(i + 1) == After(s, Add(t));
    }
  }

  /** One sender more, and a nonce is used twice. */
  lemma OneMoreSenderRepeatsANonce(bound: nat)
    requires bound > 0x2000
    ensures exists trace: seq<State> :: Run(trace, bound) && !NoDup(trace[|trace|-1].used)
  {
    var trace := seq(0x4007, i requires 0 <= i < 0x4007 => Bad(i));
    forall i | 0 <= i < |trace| ensures |trace[i].storing| <= bound {
      if 0x2004 <= i <= 0x4005 { SendersSize(i - 0x2004); } else { SendersSize(0x2001); }
    }
    forall i | 0 <= i < |trace| - 1 ensures StepBetween(trace[i], trace[i+1]) { BadSteps(i); }
    assert Senders(0) == {};
    assert Run(trace, bound);
    assert trace[|trace|-1].used[0] == trace[|trace|-1].used[1];
  }

  /** No nonce below the limit is ever used twice, under any interleaving,
      exactly when at most 2^13 senders can be between their draw and their store. */
  lemma NoncesAreUnique(bound: nat)
    ensures (forall trace: seq<State> :: Run(trace, bound) ==> NoDup(trace[|trace|-1].used)) <==> bound <= 0x2000
  {
    if bound <= 0x2000 {
      forall trace: seq<State> | Run(trace, bound) ensures NoDup(trace[|trace|-1].used) {
        assert Run(trace, 0x2000);
        RunKeeps(trace, |trace| - 1);
      }
    } else {
      OneMoreSenderRepeatsANonce(bound);
    }
  }
}
