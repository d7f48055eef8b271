/** The circuit breaker as a state machine over its three atomic steps. */
module BreakerSpec {
  import opened Options

  datatype State = Closed | Open | HalfOpen

  datatype Config = Config(threshold: nat, timeout: int)

  datatype Breaker = Breaker(state: State, failures: nat, openedAt: Option<int>, inFlight: bool)

  const FRESH := Breaker(Closed, 0, None, false)

  // What every reachable breaker satisfies; in particular the opening time is known
  // whenever the code asserts that it is.
  predicate Inv(cfg: Config, b: Breaker) {
    && (b.state.Closed? ==> b.failures < cfg.threshold && b.openedAt.None? && !b.inFlight)
    && (b.state.Open? ==> b.openedAt.Some? && !b.inFlight)
    && (b.state.HalfOpen? ==> b.openedAt.Some?)
  }

  function Advance(cfg: Config, b: Breaker, now: int): Breaker
    requires Inv(cfg, b)
  {
    if b.state.Open? && now - b.openedAt.value >= cfg.timeout then b.(state := HalfOpen, inFlight := false) else b
  }

  predicate Admits(cfg: Config, b: Breaker, now: int)
    requires Inv(cfg, b)
  {
    var a := Advance(cfg, b, now);
    a.state.Closed? || (a.state.HalfOpen? && !a.inFlight)
  }

  function Before(cfg: Config, b: Breaker, now: int): Breaker
    requires Inv(cfg, b)
  {
    var a := Advance(cfg, b, now);
    if a.state.HalfOpen? then a.(inFlight := true) else a
  }

  function Success(b: Breaker): Breaker {
    if b.state.HalfOpen? then FRESH else b.(failures := 0)
  }

  function Failure(cfg: Config, b: Breaker, now: int): Breaker {
    if b.state.HalfOpen? then b.(state := Open, openedAt := Some(now), inFlight := false)
    else if b.failures + 1 >= cfg.threshold then b.(failures := b.failures + 1, state := Open, openedAt := Some(now))
    else b.(failures := b.failures + 1)
  }

  // ------------------------------------------------------------ any interleaving

  // The steps of any number of callers, in the order they happen.
  datatype Step = BeforeCall(now: int) | AfterSuccess | AfterFailure(now: int)

  function Do(cfg: Config, b: Breaker, s: Step): Breaker
    requires Inv(cfg, b)
  {
    match s
    case BeforeCall(now) => Before(cfg, b, now)
    case AfterSuccess => Success(b)
    case AfterFailure(now) => Failure(cfg, b, now)
  }

  lemma StepKeepsInv(cfg: Config, b: Breaker, s: Step)
    requires cfg.threshold >= 1 && Inv(cfg, b)
    ensures Inv(cfg, Do(cfg, b, s))
  {
  }

  // Running a whole interleaving keeps the invariant at every point.
  function RunFrom(cfg: Config, b: Breaker, steps: seq<Step>): (r: Breaker)
    requires cfg.threshold >= 1 && Inv(cfg, b)
    ensures Inv(cfg, r)
    decreases |steps|
  {
    if steps == [] then b
    else
      StepKeepsInv(cfg, b, steps[0]);
      RunFrom(cfg, Do(cfg, b, steps[0]), steps[1..])
  }

  // Whether step k of the interleaving is a call that is let through.
  predicate AdmittedAt(cfg: Config, b: Breaker, steps: seq<Step>, k: nat)
    requires cfg.threshold >= 1 && Inv(cfg, b) && k < |steps|
  {
    steps[k].BeforeCall? && Admits(cfg, RunFrom(cfg, b, steps[..k]), steps[k].now)
  }

  lemma {:induction false} RunSplit(cfg: Config, b: Breaker, steps: seq<Step>, k: nat)
    requires cfg.threshold >= 1 && Inv(cfg, b) && k < |steps|
    ensures RunFrom(cfg, b, steps[..k + 1]) == Do(cfg, RunFrom(cfg, b, steps[..k]), steps[k])
    decreases k
  {
    if k > 0 {
      RunSplit(cfg, Do(cfg, b, steps[0]), steps[1..], k - 1);
      assert steps[1..][..k] == steps[..k + 1][1..] && steps[1..][..k - 1] == steps[..k][1..];
    } else {
      assert steps[..1][1..] == [] && steps[..0] == [];
    }
  }

  // ------------------------------------------------------------ what the count counts

  // The failures reported behind the last success, read off the list of steps.
  function Since(steps: seq<Step>): nat {
    if steps == [] then 0
    else
      var n := |steps| - 1;
      match steps[n]
      case BeforeCall(_) => Since(steps[..n])
      case AfterSuccess => 0
      case AfterFailure(_) => Since(steps[..n]) + 1
  }

  // When the last failure came that was at least the threshold-th in its row.
  function LastStrike(threshold: nat, steps: seq<Step>): Option<int> {
    if steps == [] then None
    else
      var n := |steps| - 1;
      if steps[n].AfterFailure? && Since(steps) >= threshold then Some(steps[n].now)
      else LastStrike(threshold, steps[..n])
  }

  lemma RunLast(cfg: Config, steps: seq<Step>)
    requires cfg.threshold >= 1 && steps != []
    ensures RunFrom(cfg, FRESH, steps) == Do(cfg, RunFrom(cfg, FRESH, steps[..|steps| - 1]), steps[|steps| - 1])
  {
    RunSplit(cfg, FRESH, steps, |steps| - 1);
    assert steps[..|steps|] == steps;
  }

  // A closed breaker holds the number of failures since the last success, whatever happened
  // before and between.
  lemma {:induction false} ClosedCounts(cfg: Config, steps: seq<Step>)
    requires cfg.threshold >= 1
    ensures var b := RunFrom(cfg, FRESH, steps); b.state.Closed? ==> b.failures == Since(steps) < cfg.threshold
  {
    if steps != [] {
      ClosedCounts(cfg, steps[..|steps| - 1]);
      RunLast(cfg, steps);
    }
  }

  // It opens at a failure exactly when that failure is the threshold-th since the last success.
  lemma OpensAtThreshold(cfg: Config, steps: seq<Step>, now: int)
    requires cfg.threshold >= 1 && RunFrom(cfg, FRESH, steps).state.Closed?
    ensures var more := steps + [AfterFailure(now)];
            var b := RunFrom(cfg, FRESH, more);
            if Since(more) == cfg.threshold then b.state.Open? && b.openedAt == Some(now) else b.state.Closed?
  {
    var more := steps + [AfterFailure(now)];
    assert more[..|more| - 1] == steps;
    RunLast(cfg, more);
    ClosedCounts(cfg, steps);
  }

  predicate NoTrial(cfg: Config, steps: seq<Step>)
    requires cfg.threshold >= 1
  {
    forall k :: 0 <= k <= |steps| ==> !RunFrom(cfg, FRESH, steps[..k]).state.HalfOpen?
  }

  // Until the first trial the whole state can be read off the steps, late results included.
  lemma {:induction false} BeforeFirstTrial(cfg: Config, steps: seq<Step>)
    requires cfg.threshold >= 1 && NoTrial(cfg, steps)
    ensures var strike := LastStrike(cfg.threshold, steps);
            RunFrom(cfg, FRESH, steps) == Breaker(if strike.Some? then Open else Closed, Since(steps), strike, false)
  {
    assert steps[..|steps|] == steps;
    if steps != [] {
      var rest := steps[..|steps| - 1];
      assert forall k :: 0 <= k <= |rest| ==> rest[..k] == steps[..k];
      BeforeFirstTrial(cfg, rest);
      RunLast(cfg, steps);
    }
  }

  // ------------------------------------------------------------ trials

  // While one half-open episode lasts, its trial stays in flight.
  lemma {:induction false} TrialStays(cfg: Config, b: Breaker, steps: seq<Step>, k: nat)
    requires cfg.threshold >= 1 && Inv(cfg, b) && b.state.HalfOpen? && b.inFlight && k <= |steps|
    requires forall j :: 0 <= j <= k ==> RunFrom(cfg, b, steps[..j]).state.HalfOpen?
    ensures RunFrom(cfg, b, steps[..k]).inFlight
  {
    if k > 0 {
      TrialStays(cfg, b, steps, k - 1);
      RunSplit(cfg, b, steps, k - 1);
    }
  }

  // At most one trial per half-open episode: once one is admitted, nothing more is until the
  // breaker has left the half-open state, whoever reports in the meantime.
  lemma OneTrialPerEpisode(cfg: Config, b: Breaker, steps: seq<Step>, k: nat)
    requires cfg.threshold >= 1 && Inv(cfg, b) && b.state.HalfOpen? && b.inFlight && k < |steps|
    requires forall j :: 0 <= j <= k ==> RunFrom(cfg, b, steps[..j]).state.HalfOpen?
    ensures !AdmittedAt(cfg, b, steps, k)
  {
    TrialStays(cfg, b, steps, k);
  }

  // An admission in the half-open state is what puts the trial in flight.
  lemma AdmissionStartsTrial(cfg: Config, b: Breaker, now: int)
    requires cfg.threshold >= 1 && Inv(cfg, b) && Admits(cfg, b, now)
    ensures Before(cfg, b, now).state.HalfOpen? ==> Before(cfg, b, now).inFlight
    ensures b.state.Open? ==> now >= b.openedAt.value + cfg.timeout && Before(cfg, b, now).state.HalfOpen?
  {
  }

  // While a trial is in flight and no result arrives, nobody is admitted, however long that lasts.
  lemma {:induction false} SilentTrialBlocks(cfg: Config, b: Breaker, steps: seq<Step>, k: nat)
    requires cfg.threshold >= 1 && Inv(cfg, b) && b.state.HalfOpen? && b.inFlight && k <= |steps|
    requires forall j :: 0 <= j < |steps| ==> steps[j].BeforeCall?
    ensures RunFrom(cfg, b, steps[..k]) == b
    ensures k < |steps| ==> !AdmittedAt(cfg, b, steps, k)
  {
    if k > 0 {
      SilentTrialBlocks(cfg, b, steps, k - 1);
      RunSplit(cfg, b, steps, k - 1);
    }
  }

  // So one interrupted trial blocks the breaker for good, unless an earlier call still reports:
  // from an open breaker past its timeout, every later call is refused.
  lemma InterruptedTrialBlocks(cfg: Config, b: Breaker, t: Span, steps: seq<Step>, k: nat)
    requires cfg.threshold >= 1 && Inv(cfg, b) && b.state.Open? && t.start >= b.openedAt.value + cfg.timeout
    requires k < |steps| && forall j :: 0 <= j < |steps| ==> steps[j].BeforeCall?
    ensures Admits(cfg, b, t.start) && Inv(cfg, Call(cfg, b, t, Interrupted))
    ensures !AdmittedAt(cfg, Call(cfg, b, t, Interrupted), steps, k)
  {
    CallKeepsInv(cfg, b, t, Interrupted);
    SilentTrialBlocks(cfg, Call(cfg, b, t, Interrupted), steps, k);
  }

  predicate Times(steps: seq<Step>, lo: int, hi: int) {
    forall k :: 0 <= k < |steps| ==>
      (steps[k].BeforeCall? ==> lo <= steps[k].now < hi) && (steps[k].AfterFailure? ==> lo <= steps[k].now)
  }

  // Once open, the breaker stays open and admits nobody before the timeout has passed, even
  // while late results of earlier calls keep coming in.
  lemma {:induction false} OpenShields(cfg: Config, b: Breaker, steps: seq<Step>, k: nat)
    requires cfg.threshold >= 1 && Inv(cfg, b) && b.state.Open? && k <= |steps|
    requires Times(steps, b.openedAt.value, b.openedAt.value + cfg.timeout)
    ensures RunFrom(cfg, b, steps[..k]).state.Open? && RunFrom(cfg, b, steps[..k]).openedAt.value >= b.openedAt.value
    ensures k < |steps| ==> !AdmittedAt(cfg, b, steps, k)
  {
    if k > 0 {
      OpenShields(cfg, b, steps, k - 1);
      RunSplit(cfg, b, steps, k - 1);
    }
  }

  // ------------------------------------------------------------ sequential calls

  // One `call`, admitted or refused at `start`, whose function ends at `end`. Refused calls change
  // nothing but what before_call does; interrupted or cancelled ones report nothing.
  datatype Span = Span(start: int, end: int)

  datatype Ending = Succeeds | Fails | Interrupted

  function Call(cfg: Config, b: Breaker, t: Span, ending: Ending): Breaker
    requires cfg.threshold >= 1 && Inv(cfg, b)
  {
    var a := Before(cfg, b, t.start);
    if !Admits(cfg, b, t.start) then a
    else
      match ending
      case Succeeds => Success(a)
      case Fails => Failure(cfg, a, t.end)
      case Interrupted => a
  }

  lemma CallKeepsInv(cfg: Config, b: Breaker, t: Span, ending: Ending)
    requires cfg.threshold >= 1 && Inv(cfg, b)
    ensures Inv(cfg, Call(cfg, b, t, ending))
  {
    StepKeepsInv(cfg, b, BeforeCall(t.start));
  }

  // A call is its steps: the check, and behind it what the function's end reports.
  function StepsOf(cfg: Config, b: Breaker, t: Span, ending: Ending): seq<Step>
    requires Inv(cfg, b)
  {
    [BeforeCall(t.start)] +
    (if !Admits(cfg, b, t.start) then []
     else match ending case Succeeds => [AfterSuccess] case Fails => [AfterFailure(t.end)] case Interrupted => [])
  }

  lemma CallIsSteps(cfg: Config, b: Breaker, t: Span, ending: Ending)
    requires cfg.threshold >= 1 && Inv(cfg, b)
    ensures Call(cfg, b, t, ending) == RunFrom(cfg, b, StepsOf(cfg, b, t, ending))
  {
    var steps := StepsOf(cfg, b, t, ending);
    RunSplit(cfg, b, steps, 0);
    assert steps[..0] == [];
    if |steps| > 1 {
      RunSplit(cfg, b, steps, 1);
      assert steps[..2] == steps;
    } else {
      assert steps[..1] == steps;
    }
  }

  // An outage: every invoked function fails. `invoked` counts them, `firstOpen` is when the
  // breaker first opened.
  datatype Outage = Outage(breaker: Breaker, invoked: nat, firstOpen: Option<int>)

  function Outages(cfg: Config, calls: seq<Span>): (r: Outage)
    requires cfg.threshold >= 1
    ensures Inv(cfg, r.breaker)
  {
    if calls == [] then Outage(FRESH, 0, None)
    else
      var o, t := Outages(cfg, calls[..|calls| - 1]), calls[|calls| - 1];
      CallKeepsInv(cfg, o.breaker, t, Fails);
      var b := Call(cfg, o.breaker, t, Fails);
      Outage(b, if Admits(cfg, o.breaker, t.start) then o.invoked + 1 else o.invoked,
             if o.firstOpen.None? && b.state.Open? then Some(t.end) else o.firstOpen)
  }

  // Calls that take any time, one after the other.
  predicate Successive(calls: seq<Span>) {
    && (forall i :: 0 <= i < |calls| ==> calls[i].start <= calls[i].end)
    && (forall i, j :: 0 <= i < j < |calls| ==> calls[i].end <= calls[j].start)
  }

  // Each invocation beyond the threshold costs one full timeout.
  lemma {:induction false} OutageInvariant(cfg: Config, calls: seq<Span>)
    requires cfg.threshold >= 1 && cfg.timeout > 0 && Successive(calls)
    ensures var o := Outages(cfg, calls);
            && (o.breaker.state.Closed? ==> o.firstOpen.None? && o.invoked == o.breaker.failures)
            && !o.breaker.state.HalfOpen?
            && (o.breaker.state.Open? ==>
                  && o.firstOpen.Some? && o.invoked >= cfg.threshold && calls != []
                  && o.firstOpen.value + (o.invoked - cfg.threshold) * cfg.timeout <= o.breaker.openedAt.value
                  && o.breaker.openedAt.value <= calls[|calls| - 1].end
                  && (o.invoked > cfg.threshold ==>
                        o.firstOpen.value + (o.invoked - cfg.threshold) * cfg.timeout <= calls[|calls| - 1].start))
  {
    if calls != [] {
      var n := |calls| - 1;
      OutageInvariant(cfg, calls[..n]);
      var o := Outages(cfg, calls[..n]);
      if o.breaker.state.Open? {
        assert calls[n - 1].start <= calls[n - 1].end <= calls[n].start;
        Distribute(o.invoked - cfg.threshold, cfg.timeout);
      }
    }
  }

  lemma Distribute(k: int, t: int)
    ensures (k + 1) * t == k * t + t
  {
  }

  lemma MulMono(a: int, b: int, t: nat)
    requires a <= b
    ensures a * t <= b * t
  {
  }

  lemma FloorBound(k: nat, t: nat, d: int)
    requires t > 0 && k * t <= d
    ensures k <= d / t
  {
    var q := d / t;
    assert d < q * t + t;
    if k > q {
      Distribute(q, t);
      MulMono(q + 1, k, t);
    }
  }

  // The load an outage puts on the failing dependency, counted up to the start of the last call,
  // which may still lie before the first opening when that call is the one that opened.
  lemma LoadBound(cfg: Config, calls: seq<Span>)
    requires cfg.threshold >= 1 && cfg.timeout > 0 && Successive(calls)
    ensures var o := Outages(cfg, calls);
            if o.firstOpen.None? then o.invoked < cfg.threshold
            else
              && calls != []
              && var open := calls[|calls| - 1].start - o.firstOpen.value;
                 o.invoked <= cfg.threshold + if open < 0 then 0 else open / cfg.timeout
  {
    OutageInvariant(cfg, calls);
    var o := Outages(cfg, calls);
    if o.breaker.state.Open? && o.invoked > cfg.threshold {
      FloorBound(o.invoked - cfg.threshold, cfg.timeout, calls[|calls| - 1].start - o.firstOpen.value);
    } else if o.breaker.state.Open? && calls[|calls| - 1].start >= o.firstOpen.value {
      FloorBound(0, cfg.timeout, calls[|calls| - 1].start - o.firstOpen.value);
    }
  }

  // ------------------------------------------------------------ the bound is reached

  function Instant(t: int): Span { Span(t, t) }

  // `threshold` calls at once, then one per timeout.
  function WorstTimes(cfg: Config, k: nat): seq<Span> {
    if k == 0 then Zeros(cfg.threshold) else WorstTimes(cfg, k - 1) + [Instant(k * cfg.timeout)]
  }

  function Zeros(n: nat): seq<Span> { if n == 0 then [] else Zeros(n - 1) + [Instant(0)] }

  lemma {:induction false} ZerosRun(cfg: Config, n: nat)
    requires cfg.threshold >= 1 && cfg.timeout > 0 && n <= cfg.threshold
    ensures Outages(cfg, Zeros(n)) ==
            if n < cfg.threshold then Outage(Breaker(Closed, n, None, false), n, None)
            else Outage(Breaker(Open, n, Some(0), false), n, Some(0))
  {
    if n > 0 {
      ZerosRun(cfg, n - 1);
      assert Zeros(n)[..|Zeros(n)| - 1] == Zeros(n - 1);
    }
  }

  // Calls that come as early as the breaker lets them reach the bound exactly.
  lemma {:induction false} BoundIsTight(cfg: Config, k: nat)
    requires cfg.threshold >= 1 && cfg.timeout > 0
    ensures Outages(cfg, WorstTimes(cfg, k)) ==
            Outage(Breaker(Open, cfg.threshold, Some(k * cfg.timeout), false), cfg.threshold + k, Some(0))
  {
    if k == 0 {
      ZerosRun(cfg, cfg.threshold);
    } else {
      BoundIsTight(cfg, k - 1);
      var w := WorstTimes(cfg, k);
      assert w[..|w| - 1] == WorstTimes(cfg, k - 1);
      Distribute(k - 1, cfg.timeout);
    }
  }

  // One success after the timeout brings back a fresh breaker.
  lemma RecoversOnSuccess(cfg: Config, b: Breaker, t: Span)
    requires cfg.threshold >= 1 && Inv(cfg, b) && b.state.Open? && t.start >= b.openedAt.value + cfg.timeout
    ensures Call(cfg, b, t, Succeeds) == FRESH
  {
  }
}
