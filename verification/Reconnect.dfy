/** The reconnecting session: a bounded retry loop around a call that may be
    guarded by a circuit breaker. `outcome(k)` says whether the k-th underlying
    call of a run succeeds. Closing, reconnecting and opening a session are
    taken not to fail. */
module Reconnect {
  import opened Ordering
  import opened CircuitBreaker

  datatype RunResult = Returned | Raised | Unreachable

  function Max(a: int, b: int): int {
    if b > a then b else a
  }

  /** How many failing calls one run can make. */
  function Budget(attempts: int, breaker: AsyncCircuitBreaker?): nat
    reads breaker
  {
    var tries := Max(attempts, 0);
    if breaker == null then tries
    else if breaker.isOpen then 0
    else Min(tries, Max(1, breaker.maxFailures - breaker.failures))
  }

  /** Calls made when calls `i`, `i + 1`, ... are tried until one succeeds or `budget` is used up. */
  function Tries(outcome: nat -> bool, i: nat, budget: nat): nat
    decreases budget - i
  {
    if i >= budget then 0 else if outcome(i) then 1 else 1 + Tries(outcome, i + 1, budget)
  }

  ghost predicate Succeeds(outcome: nat -> bool, budget: nat) {
    exists k: nat :: k < budget && outcome(k)
  }

  lemma {:induction false} TriesAfterFailures(outcome: nat -> bool, e: nat, budget: nat)
    requires e <= budget && forall k: nat :: k < e ==> !outcome(k)
    ensures Tries(outcome, 0, budget) == e + Tries(outcome, e, budget)
  {
    if e > 0 {
      TriesAfterFailures(outcome, e - 1, budget);
    }
  }

  lemma {:induction false} TriesBounded(outcome: nat -> bool, i: nat, budget: nat)
    ensures Tries(outcome, i, budget) <= Max(budget - i, 0)
    decreases budget - i
  {
    if i < budget && !outcome(i) { TriesBounded(outcome, i + 1, budget); }
  }

  class ReconnectingSession {
    const attempts: int
    const breaker: AsyncCircuitBreaker?
    var created: nat
    var closed: nat
    var calls: nat

    constructor (attempts: int, breaker: AsyncCircuitBreaker?)
      ensures this.attempts == attempts && this.breaker == breaker
      ensures created == 1 && closed == 0 && calls == 0
    {
      this.attempts, this.breaker := attempts, breaker;
      created, closed, calls := 1, 0, 0;
    }

    /** Exactly one session is open. */
    ghost predicate OneOpen()
      reads this
    {
      created == closed + 1
    }

    method RefreshSession()
      modifies this
      ensures created == old(created) + 1 && closed == old(closed) + 1 && calls == old(calls)
    {
      closed := closed + 1;
      created := created + 1;
    }

    /** One guarded or unguarded attempt; an open circuit refuses it. */
    method Attempt(id: int, ok: bool, now: int) returns (done: bool, called: bool)
      modifies this, breaker
      ensures created == old(created) && closed == old(closed)
      ensures called == (breaker == null || !old(breaker.isOpen))
      ensures calls == old(calls) + (if called then 1 else 0)
      ensures done == (called && ok)
      ensures breaker != null && !called ==> breaker.St() == old(breaker.St())
      ensures breaker != null && called ==>
        breaker.St() == Step(breaker.maxFailures, Step(breaker.maxFailures, old(breaker.St()), Call(id)),
                             if ok then Succeed(id) else Fail(id))
    {
      if breaker == null {
        calls := calls + 1;
        return ok, true;
      }
      var admitted := breaker.Begin(id);
      if !admitted { return false, false; }
      calls := calls + 1;
      if ok { breaker.Succeeded(id); } else { breaker.Failed(id, now); }
      return ok, true;
    }

    /** `run`: it returns exactly when one of the calls within the budget succeeds,
        makes no call beyond that, and replaces the session once per failed attempt
        except the last. */
    method Run(id: int, outcome: nat -> bool, now: int) returns (r: RunResult)
      modifies this, breaker
      ensures attempts <= 0 ==> r == Unreachable
      ensures attempts > 0 ==> (r == Returned <==> Succeeds(outcome, old(Budget(attempts, breaker)))) && r != Unreachable
      ensures calls == old(calls) + Tries(outcome, 0, old(Budget(attempts, breaker)))
      ensures created - old(created) == closed - old(closed) ==
              if r == Returned then calls - old(calls) - 1 else Max(attempts - 1, 0)
      ensures old(OneOpen()) ==> OneOpen()
      ensures breaker != null && r == Raised && !old(breaker.isOpen) ==>
              breaker.isOpen == (attempts >= Max(1, breaker.maxFailures - old(breaker.failures)))
    {
      ghost var budget := Budget(attempts, breaker);
      ghost var limit := if breaker == null || breaker.isOpen then 0 else Max(1, breaker.maxFailures - breaker.failures);
      var e := 0;
      TriesBounded(outcome, 0, budget);
      var i := 0;
      while i < attempts
        invariant 0 <= i <= Max(attempts, 0) && (i == attempts ==> i == 0)
        invariant 0 <= e <= budget && calls == old(calls) + e
        invariant forall k: nat :: k < e ==> !outcome(k)
        invariant created == old(created) + i && closed == old(closed) + i
        invariant breaker == null ==> e == i
        invariant breaker != null && old(breaker.isOpen) ==> e == 0 && breaker.isOpen
        invariant breaker != null && !old(breaker.isOpen) ==> e == Min(i, limit) && breaker.failures == old(breaker.failures) + e
        invariant breaker != null && !old(breaker.isOpen) ==> (breaker.isOpen <==> e == limit)
        decreases attempts - i
      {
        TriesAfterFailures(outcome, e, budget);
        var done, called := Attempt(id, outcome(e), now);
        if called {
          e := e + 1;
        }
        if done {
          return Returned;
        }
        if i >= attempts - 1 {
          TriesAfterFailures(outcome, e, budget);
          return Raised;
        }
        RefreshSession();
        i := i + 1;
      }
      return Unreachable;
    }
  }
}
