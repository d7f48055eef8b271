/** The breaker object, updated in place by its steps. */
module CircuitBreaker {
  import opened Options
  import opened BreakerSpec

  // How the function ends. Only an ordinary exception is caught; a cancellation or interrupt
  // passes through.
  datatype Ran<T> = Returned(value: T) | Raised | Interrupted

  function EndingOf<T>(r: Ran<T>): Ending {
    match r
    case Returned(_) => Succeeds
    case Raised => Fails
    case Interrupted => Ending.Interrupted
  }

  // A call's answer: what the function did, or a refusal with the opening time.
  datatype Outcome<T> = Ended(how: Ran<T>) | BreakerOpen(openedAt: int)

  class CircuitBreaker {
    const cfg: Config
    var state: State
    var consecutiveFailures: nat
    var openedAt: Option<int>
    var halfOpenInFlight: bool

    ghost function Value(): Breaker
      reads this
    {
      Breaker(state, consecutiveFailures, openedAt, halfOpenInFlight)
    }

    ghost predicate Valid()
      reads this
    {
      cfg.threshold >= 1 && Inv(cfg, Value())
    }

    constructor (cfg: Config)
      requires cfg.threshold >= 1
      ensures Valid() && Value() == FRESH && this.cfg == cfg
    {
      this.cfg := cfg;
      state, consecutiveFailures, openedAt, halfOpenInFlight := Closed, 0, None, false;
    }

    // A threshold below one is refused.
    static method Create(threshold: int, timeout: int) returns (r: Option<CircuitBreaker>)
      ensures r.Some? <==> threshold >= 1
      ensures r.Some? ==> fresh(r.value) && r.value.Valid() && r.value.Value() == FRESH
      ensures r.Some? ==> r.value.cfg == Config(threshold, timeout)
    {
      if threshold < 1 {
        return None;
      }
      var b := new CircuitBreaker(Config(threshold, timeout));
      return Some(b);
    }

    method CheckOrAdvance(now: int)
      requires Valid()
      modifies this
      ensures Valid() && Value() == Advance(cfg, old(Value()), now)
    {
      if state != Open {
        return;
      }
      if now - openedAt.value >= cfg.timeout {
        state := HalfOpen;
        halfOpenInFlight := false;
      }
    }

    // The opening time of the refusal, or nothing when the call may proceed.
    method BeforeCall(now: int) returns (refused: Option<int>)
      requires Valid()
      modifies this
      ensures Valid() && Value() == Before(cfg, old(Value()), now)
      ensures refused.None? <==> Admits(cfg, old(Value()), now)
      ensures refused.Some? ==> refused == old(openedAt)
    {
      CheckOrAdvance(now);
      if state == Open {
        return openedAt;
      }
      if state == HalfOpen && halfOpenInFlight {
        return openedAt;
      }
      if state == HalfOpen {
        halfOpenInFlight := true;
      }
      return None;
    }

    method AfterSuccess()
      requires Valid()
      modifies this
      ensures Valid() && Value() == Success(old(Value()))
    {
      consecutiveFailures := 0;
      if state == HalfOpen {
        state := Closed;
        openedAt := None;
        halfOpenInFlight := false;
      }
    }

    method AfterFailure(now: int)
      requires Valid()
      modifies this
      ensures Valid() && Value() == Failure(cfg, old(Value()), now)
    {
      if state == HalfOpen {
        state := Open;
        openedAt := Some(now);
        halfOpenInFlight := false;
        return;
      }
      consecutiveFailures := consecutiveFailures + 1;
      if consecutiveFailures >= cfg.threshold {
        state := Open;
        openedAt := Some(now);
      }
    }

    // The clock is read before `fn` and, when it raises, again; a caller who passes the time itself
    // gives the same one twice.
    method Call<T>(fn: () -> Ran<T>, start: int, end: int) returns (r: Outcome<T>)
      requires Valid()
      modifies this
      ensures Valid() && Value() == BreakerSpec.Call(cfg, old(Value()), Span(start, end), EndingOf(fn()))
      ensures r.BreakerOpen? <==> !Admits(cfg, old(Value()), start)
      ensures r.BreakerOpen? ==> old(openedAt) == Some(r.openedAt)
      ensures !r.BreakerOpen? ==> r == Ended(fn())
    {
      CallKeepsInv(cfg, Value(), Span(start, end), EndingOf(fn()));
      var refused := BeforeCall(start);
      if refused.Some? {
        return BreakerOpen(refused.value);
      }
      var result := fn();
      if result.Interrupted? {
        return Ended(result);
      }
      if result.Raised? {
        AfterFailure(end);
        return Ended(result);
      }
      AfterSuccess();
      return Ended(result);
    }
  }
}
