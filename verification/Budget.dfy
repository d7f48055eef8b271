/** Per-run budget enforcement on top of the client, and where every recorded dollar goes. */
module Budget {
  import opened Options
  import LlmClient
  import opened RealMath

  // The cap is budget times slack, quantized to six decimals.
  function EffectiveCap(budget: real, slack: real): real {
    RoundHalfEven(budget * slack * 1000000.0) as real / 1000000.0
  }

  lemma CapClose(budget: real, slack: real)
    ensures -0.0000005 <= EffectiveCap(budget, slack) - budget * slack <= 0.0000005
  {
    RoundClose(budget * slack * 1000000.0);
  }

  // To the nearest millionth, a tie going to the even one.
  lemma CapExact(budget: real, slack: real, millionths: int)
    ensures EffectiveCap(budget, slack) == millionths as real / 1000000.0 <==>
            NearestEven(budget * slack * 1000000.0, millionths)
  {
    RoundExact(budget * slack * 1000000.0, millionths);
  }

  lemma CapNonNegative(budget: real, slack: real)
    requires budget > 0.0 && slack >= 1.0
    ensures EffectiveCap(budget, slack) >= 0.0
  {
    assert budget * slack >= 0.0;
    RoundMonotone(0.0, budget * slack * 1000000.0);
  }

  // ------------------------------------------------------------ one enforcer, as a ledger

  // `runningTotal`, `made` and `blocked` are the enforcer's statistics. `recorded` is the cost of
  // the usage rows written so far, `rejected` the part of it whose answers failed their schema.
  datatype Ledger = Ledger(runningTotal: real, made: nat, blocked: nat, recorded: real, rejected: real)

  const FRESH := Ledger(0.0, 0, 0, 0.0, 0.0)

  // A request with its optional estimate and what the client would make of it.
  datatype Request = Request(estimate: Option<real>, outcome: LlmClient.Outcome)

  datatype Verdict = Returned | Blocked | Overrun | ClientError

  predicate BlockedBy(cap: real, l: Ledger, r: Request) {
    r.estimate.Some? && l.runningTotal + r.estimate.value > cap
  }

  function Step(cap: real, l: Ledger, r: Request): Ledger {
    if BlockedBy(cap, l, r) then l.(blocked := l.blocked + 1)
    else
      match r.outcome
      case Completed(u) => l.(runningTotal := l.runningTotal + u.cost, made := l.made + 1,
                              recorded := l.recorded + u.cost)
      case SchemaFailure(u) => l.(recorded := l.recorded + u.cost, rejected := l.rejected + u.cost)
      case _ => l
  }

  function VerdictOf(cap: real, l: Ledger, r: Request): Verdict {
    if BlockedBy(cap, l, r) then Blocked
    else if r.outcome.Completed? then
      if l.runningTotal + r.outcome.usage.cost > cap then Overrun else Returned
    else ClientError
  }

  function Run(cap: real, rs: seq<Request>): Ledger {
    if rs == [] then FRESH else Step(cap, Run(cap, rs[..|rs| - 1]), rs[|rs| - 1])
  }

  // Every recorded dollar is either in the running total or belongs to a rejected answer.
  lemma {:induction false} CostConserved(cap: real, rs: seq<Request>)
    ensures var l := Run(cap, rs); l.recorded == l.runningTotal + l.rejected
  {
    if rs != [] { CostConserved(cap, rs[..|rs| - 1]); }
  }

  predicate Raises(v: Verdict) { v.Blocked? || v.Overrun? }

  // The verdict of request k within the run.
  function VerdictAt(cap: real, rs: seq<Request>, k: nat): Verdict
    requires k < |rs|
  {
    VerdictOf(cap, Run(cap, rs[..k]), rs[k])
  }

  // Until a call overruns, the running total is within the cap.
  lemma {:induction false} WithinCap(budget: real, slack: real, rs: seq<Request>)
    requires budget > 0.0 && slack >= 1.0
    requires forall k :: 0 <= k < |rs| ==> !VerdictAt(EffectiveCap(budget, slack), rs, k).Overrun?
    ensures Run(EffectiveCap(budget, slack), rs).runningTotal <= EffectiveCap(budget, slack)
  {
    CapNonNegative(budget, slack);
    var cap := EffectiveCap(budget, slack);
    if rs != [] {
      var n := |rs| - 1;
      forall k | 0 <= k < n ensures !VerdictAt(cap, rs[..n], k).Overrun? {
        assert rs[..n][..k] == rs[..k];
        assert VerdictAt(cap, rs, k) == VerdictAt(cap, rs[..n], k);
      }
      WithinCap(budget, slack, rs[..n]);
      assert !VerdictAt(cap, rs, n).Overrun?;
    }
  }

  // A call that returns leaves the total within the cap, whatever happened before.
  lemma ReturnMeansWithinCap(cap: real, l: Ledger, r: Request)
    requires VerdictOf(cap, l, r).Returned?
    ensures Step(cap, l, r).runningTotal <= cap
  {
  }

  function CostOf(r: Request): real {
    if r.outcome.Completed? then r.outcome.usage.cost else 0.0
  }

  // A workflow that stops at the first budget error has spent at most the cap plus the cost of
  // that one call, and nothing of it when the call was blocked up front.
  lemma StopAtFirstError(budget: real, slack: real, rs: seq<Request>)
    requires budget > 0.0 && slack >= 1.0 && rs != []
    requires forall k :: 0 <= k < |rs| - 1 ==> !Raises(VerdictAt(EffectiveCap(budget, slack), rs, k))
    requires Raises(VerdictAt(EffectiveCap(budget, slack), rs, |rs| - 1))
    ensures var cap, last := EffectiveCap(budget, slack), |rs| - 1;
            Run(cap, rs).runningTotal <= cap + if VerdictAt(cap, rs, last).Blocked? then 0.0 else CostOf(rs[last])
  {
    var cap := EffectiveCap(budget, slack);
    var n := |rs| - 1;
    forall k | 0 <= k < n ensures !VerdictAt(cap, rs[..n], k).Overrun? {
      assert rs[..n][..k] == rs[..k];
      assert VerdictAt(cap, rs, k) == VerdictAt(cap, rs[..n], k);
    }
    WithinCap(budget, slack, rs[..n]);
  }

  predicate Honest(r: Request) {
    r.estimate.Some? && (r.outcome.Completed? ==> r.outcome.usage.cost <= r.estimate.value)
  }

  // With estimates that never fall short, the total never passes the cap at all.
  lemma {:induction false} HonestEstimatesNeverOverrun(budget: real, slack: real, rs: seq<Request>)
    requires budget > 0.0 && slack >= 1.0 && forall k :: 0 <= k < |rs| ==> Honest(rs[k])
    ensures Run(EffectiveCap(budget, slack), rs).runningTotal <= EffectiveCap(budget, slack)
    ensures forall k :: 0 <= k < |rs| ==> !VerdictAt(EffectiveCap(budget, slack), rs, k).Overrun?
  {
    CapNonNegative(budget, slack);
    var cap := EffectiveCap(budget, slack);
    if rs != [] {
      var n := |rs| - 1;
      HonestEstimatesNeverOverrun(budget, slack, rs[..n]);
      forall k | 0 <= k < |rs| ensures !VerdictAt(cap, rs, k).Overrun? {
        if k < n {
          assert rs[..n][..k] == rs[..k];
          assert VerdictAt(cap, rs, k) == VerdictAt(cap, rs[..n], k);
        }
      }
    }
  }

  // ------------------------------------------------------------ every verdict

  // What has been spent: the cost of each answer that was not held back because its estimate
  // would have gone over the cap.
  function Spent(cap: real, rs: seq<Request>): real {
    if rs == [] then 0.0
    else
      var before, last := Spent(cap, rs[..|rs| - 1]), rs[|rs| - 1];
      if last.estimate.Some? && before + last.estimate.value > cap then before
      else if last.outcome.Completed? then before + last.outcome.usage.cost
      else before
  }

  predicate TooMuch(cap: real, rs: seq<Request>, k: nat)
    requires k < |rs|
  {
    rs[k].estimate.Some? && Spent(cap, rs[..k]) + rs[k].estimate.value > cap
  }

  lemma {:induction false} TotalIsSpent(cap: real, rs: seq<Request>)
    ensures Run(cap, rs).runningTotal == Spent(cap, rs)
  {
    if rs != [] { TotalIsSpent(cap, rs[..|rs| - 1]); }
  }

  // Each request of each run: blocked exactly when its estimate would take the total over the
  // cap, overrun exactly when its actual cost does.
  lemma VerdictsExact(cap: real, rs: seq<Request>, k: nat)
    requires k < |rs|
    ensures var v, r := VerdictAt(cap, rs, k), rs[k];
            && (v.Blocked? <==> TooMuch(cap, rs, k))
            && (v.ClientError? <==> !TooMuch(cap, rs, k) && !r.outcome.Completed?)
            && (v.Overrun? <==> !TooMuch(cap, rs, k) && r.outcome.Completed? &&
                                Spent(cap, rs[..k]) + r.outcome.usage.cost > cap)
            && (v.Returned? <==> !TooMuch(cap, rs, k) && r.outcome.Completed? &&
                                 Spent(cap, rs[..k]) + r.outcome.usage.cost <= cap)
  {
    TotalIsSpent(cap, rs[..k]);
  }

  function BlockedAt(cap: real, rs: seq<Request>): set<nat> { set k: nat | k < |rs| && TooMuch(cap, rs, k) }

  function AnsweredAt(cap: real, rs: seq<Request>): set<nat> {
    set k: nat | k < |rs| && !TooMuch(cap, rs, k) && rs[k].outcome.Completed?
  }

  lemma SetsGrow(cap: real, rs: seq<Request>, n: nat)
    requires n + 1 == |rs|
    ensures BlockedAt(cap, rs) == BlockedAt(cap, rs[..n]) + if TooMuch(cap, rs, n) then {n} else {}
    ensures AnsweredAt(cap, rs) ==
            AnsweredAt(cap, rs[..n]) + if !TooMuch(cap, rs, n) && rs[n].outcome.Completed? then {n} else {}
  {
    forall k: nat | k < n ensures TooMuch(cap, rs, k) <==> TooMuch(cap, rs[..n], k) {
      assert rs[..n][..k] == rs[..k];
    }
  }

  // The statistics count the blocked and the answered requests.
  lemma {:induction false} StatisticsExact(cap: real, rs: seq<Request>)
    ensures Run(cap, rs).blocked == |BlockedAt(cap, rs)| && Run(cap, rs).made == |AnsweredAt(cap, rs)|
  {
    if rs != [] {
      var n := |rs| - 1;
      StatisticsExact(cap, rs[..n]);
      SetsGrow(cap, rs, n);
      TotalIsSpent(cap, rs[..n]);
    }
  }

  // ------------------------------------------------------------ the enforcer

  // `BudgetExceededError` carries the total and the amount that was too much.
  datatype Answer =
    | Answer(usage: LlmClient.Usage)
    | BudgetExceeded(runningTotal: real, amount: real)
    | Failure(outcome: LlmClient.Outcome)

  function RowCost(rows: seq<LlmClient.Usage>): real {
    if rows == [] then 0.0 else RowCost(rows[..|rows| - 1]) + rows[|rows| - 1].cost
  }

  class BudgetEnforcer {
    const client: LlmClient.LLMClient
    const budget: real
    const slack: real
    var runningTotal: real
    var callsMade: nat
    var callsBlocked: nat
    ghost var rejected: real
    ghost var baseline: real  // cost of the rows the client had recorded before

    ghost function Value(): Ledger
      reads this, client
    {
      Ledger(runningTotal, callsMade, callsBlocked, RowCost(client.records) - baseline, rejected)
    }

    ghost predicate Valid()
      reads this, client
    {
      budget > 0.0 && slack >= 1.0 && Value().recorded == runningTotal + rejected
    }

    constructor (client: LlmClient.LLMClient, budget: real, slack: real)
      requires budget > 0.0 && slack >= 1.0
      ensures Valid() && Value() == FRESH
      ensures this.client == client && this.budget == budget && this.slack == slack
    {
      this.client, this.budget, this.slack := client, budget, slack;
      runningTotal, callsMade, callsBlocked, rejected := 0.0, 0, 0, 0.0;
      baseline := RowCost(client.records);
    }

    // A budget that is not positive, or a slack below one, is refused.
    static method Create(client: LlmClient.LLMClient, budget: real, slack: real) returns (r: Option<BudgetEnforcer>)
      ensures r.Some? <==> budget > 0.0 && slack >= 1.0
      ensures r.Some? ==> fresh(r.value) && r.value.Valid() && r.value.Value() == FRESH && r.value.client == client
      ensures r.Some? ==> r.value.budget == budget && r.value.slack == slack
    {
      if budget <= 0.0 || slack < 1.0 {
        return None;
      }
      var e := new BudgetEnforcer(client, budget, slack);
      return Some(e);
    }

    // Check the estimate, call, add up, check again.
    method Complete(tier: LlmClient.Tier, estimate: Option<real>)
        returns (answer: Answer, ghost outcome: LlmClient.Outcome)
      requires Valid()
      modifies this, client
      ensures Valid() && baseline == old(baseline)
      ensures Value() == Step(EffectiveCap(budget, slack), old(Value()), Request(estimate, outcome))
      ensures match VerdictOf(EffectiveCap(budget, slack), old(Value()), Request(estimate, outcome))
              case Returned => answer == Answer(outcome.usage)
              case Blocked => answer == BudgetExceeded(old(runningTotal), estimate.value) &&
                  client.records == old(client.records)
              case Overrun => answer == BudgetExceeded(runningTotal, outcome.usage.cost)
              case ClientError => answer == Failure(outcome)
    {
      outcome := LlmClient.NoProvider;
      var running := runningTotal;
      var cap := EffectiveCap(budget, slack);
      if estimate.Some? && running + estimate.value > cap {
        callsBlocked := callsBlocked + 1;
        return BudgetExceeded(running, estimate.value), outcome;
      }
      var response, log := client.Complete(tier);
      outcome := response;
      RowCostAppend(old(client.records), LlmClient.RowsOf(response));
      if !response.Completed? {
        rejected := rejected + RowCost(LlmClient.RowsOf(response));
        return Failure(response), outcome;
      }
      runningTotal := running + response.usage.cost;
      callsMade := callsMade + 1;
      if runningTotal > cap {
        return BudgetExceeded(runningTotal, response.usage.cost), outcome;
      }
      return Answer(response.usage), outcome;
    }
  }

  lemma RowCostAppend(rows: seq<LlmClient.Usage>, more: seq<LlmClient.Usage>)
    requires |more| <= 1
    ensures RowCost(rows + more) == RowCost(rows) + RowCost(more)
    ensures |more| == 1 ==> RowCost(more) == more[0].cost
  {
    if more == [] { assert rows + more == rows; } else {
      assert (rows + more)[..|rows + more| - 1] == rows;
      assert more[..0] == [];
    }
  }
}
