/** The circuit breaker that the strategies consult before they query a registry. */
module CircuitBreakers {

  datatype CircuitState = Closed | Open | HalfOpen

  /** The fields of a breaker. */
  datatype Breaker = Breaker(maxFailures: int, resetTimeout: int, failures: int, lastFailure: int, state: CircuitState)

  function Initial(maxFailures: int, resetTimeout: int, lastFailure: int): Breaker {
    Breaker(maxFailures, resetTimeout, 0, lastFailure, Closed)
  }

  predicate Admits(b: Breaker, now: int) {
    match b.state
    case Closed => true
    case Open => now - b.lastFailure > b.resetTimeout
    case HalfOpen => true
  }

  function Succeeded(b: Breaker): Breaker {
    b.(failures := 0, state := Closed)
  }

  function Failed(b: Breaker, now: int): Breaker {
    var c := b.(failures := b.failures + 1, lastFailure := now);
    if c.state == HalfOpen then c.(state := Open)
    else if c.failures >= c.maxFailures then c.(state := Open)
    else c
  }

  class CircuitBreaker {
    const maxFailures: int
    const resetTimeout: int
    var failures: int
    var lastFailure: int
    var state: CircuitState

    function Value(): Breaker
      reads this
    {
      Breaker(maxFailures, resetTimeout, failures, lastFailure, state)
    }

    constructor (maxFailures: int, resetTimeout: int)
      ensures Value() == Initial(maxFailures, resetTimeout, 0)
    {
      this.maxFailures, this.resetTimeout := maxFailures, resetTimeout;
      failures, lastFailure, state := 0, 0, Closed;
    }

    method CanAttempt(now: int) returns (admitted: bool)
      ensures admitted == Admits(Value(), now)
    {
      match state {
        case Closed => return true;
        case Open =>
          if now - lastFailure > resetTimeout { return true; }
          return false;
        case HalfOpen => return true;
      }
    }

    method RecordSuccess()
      modifies this
      ensures Value() == Succeeded(old(Value()))
    {
      failures := 0;
      state := Closed;
    }

    method RecordFailure(now: int)
      modifies this
      ensures Value() == Failed(old(Value()), now)
    {
      failures := failures + 1;
      lastFailure := now;
      if state == HalfOpen {
        state := Open;
        return;
      }
      if failures >= maxFailures { state := Open; }
    }

    method Reset()
      modifies this
      ensures Value() == Succeeded(old(Value()))
    {
      failures := 0;
      state := Closed;
    }
  }

  // ---------------------------------------------------------------- over whole histories

  /** What happens to a breaker after it is made; resetting it by hand is the same to it as a success. */
  datatype Event = Success | Failure(time: int) | Reset

  function Apply(b: Breaker, e: Event): Breaker {
    match e
    case Success => Succeeded(b)
    case Failure(now) => Failed(b, now)
    case Reset => Succeeded(b)
  }

  function After(b: Breaker, history: seq<Event>): Breaker {
    if history == [] then b else Apply(After(b, history[..|history| - 1]), history[|history| - 1])
  }

  /** The failures since the last success or reset. */
  function Trailing(history: seq<Event>): nat {
    if history == [] || !history[|history| - 1].Failure? then 0 else 1 + Trailing(history[..|history| - 1])
  }

  function Threshold(maxFailures: int): int {
    if maxFailures < 1 then 1 else maxFailures
  }

  /** A breaker counts the failures since the last success or reset, is open exactly when they reach the threshold (at
      least one, whatever was configured), remembers when the last one was, and is never half-open. */
  lemma {:induction false} StateOfHistory(maxFailures: int, resetTimeout: int, zero: int, history: seq<Event>)
    ensures var b := After(Initial(maxFailures, resetTimeout, zero), history);
            && b.maxFailures == maxFailures && b.resetTimeout == resetTimeout
            && b.failures == Trailing(history)
            && b.state == (if Trailing(history) >= Threshold(maxFailures) then Open else Closed)
            && (Trailing(history) > 0 ==> b.lastFailure == history[|history| - 1].time)
  {
    if history != [] { StateOfHistory(maxFailures, resetTimeout, zero, history[..|history| - 1]); }
  }

  /** So an attempt is refused exactly while the trailing failures reach the threshold and the last of them is no older
      than the timeout; once it is older, every caller is admitted until the next failure. */
  lemma RefusedExactlyWhen(maxFailures: int, resetTimeout: int, zero: int, history: seq<Event>, now: int)
    ensures Admits(After(Initial(maxFailures, resetTimeout, zero), history), now)
       <==> Trailing(history) < Threshold(maxFailures) || now - history[|history| - 1].time > resetTimeout
  {
    StateOfHistory(maxFailures, resetTimeout, zero, history);
  }
}
