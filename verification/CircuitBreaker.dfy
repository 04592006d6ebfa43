/** The asynchronous circuit breaker. The wrapped call is awaited between the
    check and the bookkeeping, so other calls and resets may run in between:
    starts, completions and resets are separate steps in any order. */
module CircuitBreaker {

  datatype Signal = OnOpen | OnClose | OnFailure(count: nat)

  datatype State = State(failures: nat, open: bool, running: set<int>, signals: seq<Signal>)

  datatype Event = Call(id: int) | Succeed(id: int) | Fail(id: int) | Cancel(id: int) | Reset

  const INITIAL := State(0, false, {}, [])

  /** One step. A call made while the circuit is open is refused and changes nothing;
      a cancelled call leaves the counters alone. */
  function Step(max: int, s: State, e: Event): State {
    match e
    case Call(c) => if s.open then s else s.(running := s.running + {c})
    case Succeed(c) => s.(failures := 0, running := s.running - {c})
    case Fail(c) =>
      var n := s.failures + 1;
      var opens := n >= max && !s.open;
      State(n, s.open || opens, s.running - {c},
            s.signals + [OnFailure(n)] + if opens then [OnOpen] else [])
    case Cancel(c) => s.(running := s.running - {c})
    case Reset => State(0, false, s.running, s.signals + if s.open then [OnClose] else [])
  }

  /** The state after a history of events. */
  function Run(max: int, h: seq<Event>): State {
    if h == [] then INITIAL else Step(max, Run(max, h[..|h| - 1]), h[|h| - 1])
  }

  /** Only a call that was admitted and is still running completes. */
  ghost predicate Legal(max: int, h: seq<Event>) {
    forall k :: 0 <= k < |h| ==>
      match h[k]
      case Call(c) => c !in Run(max, h[..k]).running
      case Reset => true
      case Succeed(c) => c in Run(max, h[..k]).running
      case Fail(c) => c in Run(max, h[..k]).running
      case Cancel(c) => c in Run(max, h[..k]).running
  }

  // ----- the failure counter -----

  /** Failed completions since the last success or reset. */
  function TrailingFailures(h: seq<Event>): nat {
    if h == [] then 0
    else
      match h[|h| - 1]
      case Fail(_) => 1 + TrailingFailures(h[..|h| - 1])
      case Succeed(_) => 0
      case Reset => 0
      case Call(_) => TrailingFailures(h[..|h| - 1])
      case Cancel(_) => TrailingFailures(h[..|h| - 1])
  }

  lemma {:induction false} CounterIsTrailingFailures(max: int, h: seq<Event>)
    ensures Run(max, h).failures == TrailingFailures(h)
  {
    if h != [] {
      CounterIsTrailingFailures(max, h[..|h| - 1]);
    }
  }

  /** A closed breaker is below its limit in every reachable state exactly when
      the limit is at least one. */
  lemma {:induction false} ClosedBelowLimit(max: int, h: seq<Event>)
    ensures max >= 1 && !Run(max, h).open ==> Run(max, h).failures < max
    ensures max < 1 ==> !(Run(max, []).open) && Run(max, []).failures >= max
  {
    if h != [] {
      ClosedBelowLimit(max, h[..|h| - 1]);
    }
  }

  // ----- when the circuit is open -----

  /** Some time since the last reset the trailing failures reached the limit. */
  ghost predicate Tripped(max: int, h: seq<Event>) {
    exists k :: 0 < k <= |h| && TrippedAt(max, h, k)
  }

  ghost predicate TrippedAt(max: int, h: seq<Event>, k: nat)
    requires 0 < k <= |h|
  {
    h[k - 1].Fail? && TrailingFailures(h[..k]) >= max && Reset !in h[k..]
  }

  lemma {:induction false} OpenIffTripped(max: int, h: seq<Event>)
    ensures Run(max, h).open <==> Tripped(max, h)
  {
    if h != [] {
      var n := |h| - 1;
      var g, e := h[..n], h[n];
      OpenIffTripped(max, g);
      CounterIsTrailingFailures(max, g);
      TrippedSnoc(max, g, e);
      assert h == g + [e];
    }
  }

  lemma {:induction false} TrippedSnoc(max: int, g: seq<Event>, e: Event)
    ensures Tripped(max, g + [e]) <==>
            (e != Reset && Tripped(max, g)) || (e.Fail? && TrailingFailures(g) + 1 >= max)
  {
    var h := g + [e];
    var n := |g|;
    forall k | 0 < k <= n ensures TrippedAt(max, h, k) <==> e != Reset && TrippedAt(max, g, k) {
      TrippedBefore(max, g, e, k);
    }
    TrippedNow(max, g, e);
    hide TrippedAt, TrailingFailures;
    if Tripped(max, h) {
      var k :| 0 < k <= |h| && TrippedAt(max, h, k);
      if k <= n { assert TrippedAt(max, g, k); }
    }
    if e != Reset && Tripped(max, g) {
      var k :| 0 < k <= |g| && TrippedAt(max, g, k);
      assert TrippedAt(max, h, k);
    }
  }

  lemma {:induction false} TrippedBefore(max: int, g: seq<Event>, e: Event, k: nat)
    requires 0 < k <= |g|
    ensures TrippedAt(max, g + [e], k) <==> e != Reset && TrippedAt(max, g, k)
  {
    var h := g + [e];
    assert h[..k] == g[..k] && h[k..] == g[k..] + [e];
  }

  lemma {:induction false} TrippedNow(max: int, g: seq<Event>, e: Event)
    ensures TrippedAt(max, g + [e], |g| + 1) <==> e.Fail? && TrailingFailures(g) + 1 >= max
  {
    var h := g + [e];
    assert h[..|g|] == g && h[..|g| + 1] == h && h[|g| + 1..] == [];
  }

  /** Between an opening and the next reset the circuit stays open, so no call starts. */
  lemma {:induction false} NoCallStartsWhileOpen(max: int, h: seq<Event>, i: nat, j: nat)
    requires i <= j <= |h| && Run(max, h[..i]).open && Reset !in h[i..j]
    ensures Run(max, h[..j]).open
    ensures j < |h| && h[j].Call? ==> Run(max, h[..j + 1]) == Run(max, h[..j])
    decreases j
  {
    hide Step;
    if i < j {
      assert h[i..j] == h[i..j - 1] + [h[j - 1]];
      NoCallStartsWhileOpen(max, h, i, j - 1);
      assert h[..j][..j - 1] == h[..j - 1];
      OpenStep(max, Run(max, h[..j - 1]), h[j - 1]);
    }
    if j < |h| {
      assert h[..j + 1][..j] == h[..j];
      OpenStep(max, Run(max, h[..j]), h[j]);
    }
  }

  lemma {:induction false} OpenStep(max: int, s: State, e: Event)
    requires s.open
    ensures (e != Reset ==> Step(max, s, e).open) && (e.Call? ==> Step(max, s, e) == s)
  {
  }

  // ----- the callbacks -----

  /** The openings and closings among the signals, in order. */
  function Toggles(s: seq<Signal>): seq<Signal> {
    if s == [] then []
    else Toggles(s[..|s| - 1]) + if s[|s| - 1].OnFailure? then [] else [s[|s| - 1]]
  }

  ghost predicate Alternating(t: seq<Signal>) {
    forall i :: 0 <= i < |t| ==> t[i] == if i % 2 == 0 then OnOpen else OnClose
  }

  /** `on_open` and `on_close` alternate, starting with `on_open`, and the circuit is
      open exactly when the last of them was `on_open`. */
  lemma {:induction false} CallbacksAlternate(max: int, h: seq<Event>)
    ensures Alternating(Toggles(Run(max, h).signals))
    ensures Run(max, h).open <==> |Toggles(Run(max, h).signals)| % 2 == 1
  {
    if h == [] {
      assert Toggles([]) == [];
    } else {
      var g, e := h[..|h| - 1], h[|h| - 1];
      CallbacksAlternate(max, g);
      hide Toggles, Alternating, Step, StepSignal;
      var s := Run(max, g);
      StepToggles(max, s, e);
      StepTurns(max, s, e);
      AlternatingNext(Toggles(s.signals), StepSignal(max, s, e), s.open);
    }
  }

  /** A step reports nothing and leaves the circuit as it is, or reports the change. */
  lemma {:induction false} StepTurns(max: int, s: State, e: Event)
    ensures var x := StepSignal(max, s, e);
            if x == [] then Step(max, s, e).open == s.open
            else Step(max, s, e).open == !s.open && x == [if s.open then OnClose else OnOpen]
  {
  }

  lemma {:induction false} AlternatingNext(t: seq<Signal>, x: seq<Signal>, open: bool)
    requires Alternating(t) && (open <==> |t| % 2 == 1) && (x == [] || x == [if open then OnClose else OnOpen])
    ensures Alternating(t + x) && (|t + x| % 2 == 1 <==> if x == [] then open else !open)
  {
    assert forall i :: 0 <= i < |t| ==> (t + x)[i] == t[i];
  }

  /** What a step adds to the openings and closings. */
  function StepSignal(max: int, s: State, e: Event): seq<Signal> {
    if e.Fail? && s.failures + 1 >= max && !s.open then [OnOpen]
    else if e.Reset? && s.open then [OnClose]
    else []
  }

  lemma {:induction false} StepToggles(max: int, s: State, e: Event)
    ensures Toggles(Step(max, s, e).signals) == Toggles(s.signals) + StepSignal(max, s, e)
  {
    hide Toggles;
    var t := s.signals;
    var f := t + [OnFailure(s.failures + 1)];
    TogglesSnoc(t, OnFailure(s.failures + 1));
    TogglesSnoc(f, OnOpen);
    TogglesSnoc(t, OnClose);
    assert f + [] == f && t + [] == t;
  }

  lemma {:induction false} TogglesSnoc(s: seq<Signal>, x: Signal)
    ensures Toggles(s + [x]) == Toggles(s) + if x.OnFailure? then [] else [x]
  {
    assert (s + [x])[..|s|] == s;
  }

  /** Each failed completion reports the failure count it leads to. */
  lemma {:induction false} FailureReported(max: int, h: seq<Event>)
    requires h != [] && h[|h| - 1].Fail?
    ensures var before, after := Run(max, h[..|h| - 1]).signals, Run(max, h).signals;
            |before| < |after| && before <= after && after[|before|] == OnFailure(TrailingFailures(h))
  {
    CounterIsTrailingFailures(max, h[..|h| - 1]);
  }

  /** Calls in flight when the circuit opens may still complete: an open breaker can
      hold any failure count, including zero. */
  lemma {:induction false} OpenWithZeroFailures()
    ensures var h := [Call(1), Call(2), Fail(1), Succeed(2)];
            Legal(1, h) && Run(1, h).open && Run(1, h).failures == 0
  {
    var h := [Call(1), Call(2), Fail(1), Succeed(2)];
    assert h[..0] == [] && h[..1] == [Call(1)] && h[..2] == [Call(1), Call(2)] && h[..3] == [Call(1), Call(2), Fail(1)];
    assert h[..1][..0] == h[..0] && h[..2][..1] == h[..1] && h[..3][..2] == h[..2];
    assert Run(1, h[..1]) == State(0, false, {1}, []);
    assert Run(1, h[..2]) == State(0, false, {1, 2}, []);
    assert Run(1, h[..3]) == State(1, true, {2}, [OnFailure(1), OnOpen]);
  }

  // ----- the object -----

  class AsyncCircuitBreaker {
    const maxFailures: int
    var failures: nat
    var openedAt: int
    var isOpen: bool
    var running: set<int>
    var signals: seq<Signal>

    ghost function St(): State
      reads this
    {
      State(failures, isOpen, running, signals)
    }

    constructor (maxFailures: int)
      ensures this.maxFailures == maxFailures && St() == INITIAL
    {
      this.maxFailures := maxFailures;
      failures, openedAt, isOpen, running, signals := 0, 0, false, {}, [];
    }

    /** The wrapper up to the `await`. */
    method Begin(call: int) returns (admitted: bool)
      modifies this
      ensures St() == Step(maxFailures, old(St()), Call(call)) && admitted == !old(isOpen)
      ensures failures == old(failures) && isOpen == old(isOpen)
    {
      if isOpen { return false; }
      running := running + {call};
      return true;
    }

    /** The `except` branch after the `await`. */
    method Failed(call: int, now: int)
      modifies this
      ensures St() == Step(maxFailures, old(St()), Fail(call))
    {
      running := running - {call};
      failures := failures + 1;
      signals := signals + [OnFailure(failures)];
      if failures >= maxFailures {
        if !isOpen {
          isOpen, openedAt := true, now;
          signals := signals + [OnOpen];
        }
      }
      assert signals + [] == signals;
    }

    /** The `else` branch after the `await`. */
    method Succeeded(call: int)
      modifies this
      ensures St() == Step(maxFailures, old(St()), Succeed(call))
    {
      running := running - {call};
      if failures != 0 {
        failures := 0;
      }
    }

    method ResetCircuit()
      modifies this
      ensures St() == Step(maxFailures, old(St()), Reset)
    {
      var wasOpen := isOpen;
      isOpen := false;
      failures := 0;
      if wasOpen {
        signals := signals + [OnClose];
      }
      assert signals + [] == signals;
    }
  }
}
