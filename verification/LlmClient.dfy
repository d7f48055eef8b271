/** One completion request: candidates in order, retries within each, one usage row. */
module LlmClient {
  import opened Options
  import Pricing
  import Sequences

  datatype Tier = High | Mid | Low

  datatype ModelSpec = ModelSpec(provider: string, model: string)

  // `conforms` says whether the content passes the request's schema, if there is one.
  datatype Response = Response(prompt: nat, completion: nat, cached: nat, conforms: bool)

  datatype ProviderError = ProviderError(id: int, transient: bool)

  datatype Attempt = Answered(response: Response) | Failed(error: ProviderError)

  // How the providers behave: the outcome of the n-th provider call, for any n.
  type Oracle = (nat, ModelSpec) -> Attempt

  datatype Usage = Usage(spec: ModelSpec, cost: real)

  // What a request ends with: an answer, or the exception that escapes.
  datatype Outcome =
    | Completed(usage: Usage)
    | SchemaFailure(usage: Usage)
    | BadUsage
    | ProviderFailure(error: ProviderError)
    | NoProvider
    | RetryLoopSkipped
    | NoMidTier

  // One provider call, with the place of its candidate in the list.
  datatype Call = Call(candidate: nat, spec: ModelSpec, attempt: Attempt)

  type PricingTable = map<ModelSpec, Pricing.ModelPricing>

  // A model without pricing costs nothing; otherwise the price may refuse the token counts.
  function UsageOf(pricing: PricingTable, spec: ModelSpec, r: Response): Option<Usage> {
    if spec !in pricing then Some(Usage(spec, 0.0))
    else
      match Pricing.CostFor(pricing[spec], r.prompt, r.completion, r.cached)
      case None => None
      case Some(c) => Some(Usage(spec, c))
  }

  // ------------------------------------------------------------ the calls a request makes

  predicate Retryable(a: Attempt) { a.Failed? && a.error.transient }

  // The calls to one candidate, from the n-th provider call on, with `left` attempts allowed.
  function Slot(oracle: Oracle, n: nat, candidate: nat, spec: ModelSpec, left: nat): seq<Call>
    decreases left
  {
    if left == 0 then []
    else
      var a := oracle(n, spec);
      if Retryable(a) && left > 1 then [Call(candidate, spec, a)] + Slot(oracle, n + 1, candidate, spec, left - 1)
      else [Call(candidate, spec, a)]
  }

  function Calls(oracle: Oracle, n: nat, specs: seq<ModelSpec>, from: nat, providers: set<string>,
                 attempts: nat): seq<Call>
    requires from <= |specs|
    decreases |specs| - from
  {
    if from == |specs| then []
    else if specs[from].provider !in providers then Calls(oracle, n, specs, from + 1, providers, attempts)
    else
      var s := Slot(oracle, n, from, specs[from], attempts);
      if s == [] || s[|s| - 1].attempt.Answered? then s
      else s + Calls(oracle, n + |s|, specs, from + 1, providers, attempts)
  }

  // The outcome, read off the calls made.
  function OutcomeOf(pricing: PricingTable, calls: seq<Call>): Outcome {
    if calls == [] then NoProvider
    else
      var last := calls[|calls| - 1];
      match last.attempt
      case Failed(e) => ProviderFailure(e)
      case Answered(r) =>
        match UsageOf(pricing, last.spec, r)
        case None => BadUsage
        case Some(u) => if r.conforms then Completed(u) else SchemaFailure(u)
  }

  function RowsOf(o: Outcome): seq<Usage> {
    if o.Completed? || o.SchemaFailure? then [o.usage] else []
  }

  // ------------------------------------------------------------ what the calls look like

  lemma {:induction false} SlotShape(oracle: Oracle, n: nat, candidate: nat, spec: ModelSpec, left: nat)
    requires left >= 1
    ensures var s := Slot(oracle, n, candidate, spec, left);
            && 1 <= |s| <= left
            && (forall k :: 0 <= k < |s| ==> s[k].candidate == candidate && s[k].spec == spec)
            && (forall k :: 0 <= k < |s| - 1 ==> Retryable(s[k].attempt))
            && (Retryable(s[|s| - 1].attempt) ==> |s| == left)
            && (forall k :: 0 <= k < |s| ==> s[k].attempt == oracle(n + k, spec))
    decreases left
  {
    if Retryable(oracle(n, spec)) && left > 1 {
      SlotShape(oracle, n + 1, candidate, spec, left - 1);
      var s, t := Slot(oracle, n, candidate, spec, left), Slot(oracle, n + 1, candidate, spec, left - 1);
      assert s == [s[0]] + t;
      forall k | 0 <= k < |s| ensures s[k].attempt == oracle(n + k, spec) {
        if k > 0 { assert s[k] == t[k - 1] && t[k - 1].attempt == oracle(n + 1 + (k - 1), spec); }
      }
    }
  }

  function CountFor(calls: seq<Call>, candidate: nat): nat {
    if calls == [] then 0 else (if calls[0].candidate == candidate then 1 else 0) + CountFor(calls[1..], candidate)
  }

  lemma {:induction false} CountConcat(x: seq<Call>, y: seq<Call>, candidate: nat)
    ensures CountFor(x + y, candidate) == CountFor(x, candidate) + CountFor(y, candidate)
  {
    if x == [] {
      assert x + y == y;
    } else {
      CountConcat(x[1..], y, candidate);
      assert (x + y)[1..] == x[1..] + y;
    }
  }

  lemma CountAll(x: seq<Call>, c: nat, candidate: nat)
    requires forall k :: 0 <= k < |x| ==> x[k].candidate == c
    ensures CountFor(x, candidate) == if candidate == c then |x| else 0
  {
  }

  // Only configured candidates are called.
  ghost predicate Placed(calls: seq<Call>, specs: seq<ModelSpec>, from: nat, providers: set<string>) {
    forall k :: 0 <= k < |calls| ==>
      from <= calls[k].candidate < |specs| && calls[k].spec == specs[calls[k].candidate] &&
          calls[k].spec.provider in providers
  }

  // What may follow a call: nothing after an answer, a retry only after a transient failure,
  // and otherwise a later candidate.
  predicate Follows(x: Call, y: Call) {
    x.attempt.Failed? && x.candidate <= y.candidate && (x.candidate == y.candidate ==> x.attempt.error.transient)
  }

  ghost predicate Ordered(calls: seq<Call>) {
    forall k :: 0 <= k < |calls| - 1 ==> Follows(calls[k], calls[k + 1])
  }

  lemma OrderedConcat(s: seq<Call>, t: seq<Call>)
    requires Ordered(s) && Ordered(t) && s != [] && (t != [] ==> Follows(s[|s| - 1], t[0]))
    ensures Ordered(s + t)
  {
    var c := s + t;
    forall k | 0 <= k < |c| - 1 ensures Follows(c[k], c[k + 1]) {
      if k < |s| - 1 { assert c[k] == s[k] && c[k + 1] == s[k + 1]; }
      else if k >= |s| { assert c[k] == t[k - |s|] && c[k + 1] == t[k + 1 - |s|]; }
    }
  }

  lemma {:induction false} CallsOrdered(oracle: Oracle, n: nat, specs: seq<ModelSpec>, from: nat,
                                        providers: set<string>, attempts: nat)
    requires from <= |specs| && attempts >= 1
    ensures var c := Calls(oracle, n, specs, from, providers, attempts); Placed(c, specs, from, providers) && Ordered(c)
    decreases |specs| - from
  {
    if from < |specs| {
      if specs[from].provider !in providers {
        CallsOrdered(oracle, n, specs, from + 1, providers, attempts);
      } else {
        var s := Slot(oracle, n, from, specs[from], attempts);
        SlotShape(oracle, n, from, specs[from], attempts);
        if s[|s| - 1].attempt.Failed? {
          CallsOrdered(oracle, n + |s|, specs, from + 1, providers, attempts);
          OrderedConcat(s, Calls(oracle, n + |s|, specs, from + 1, providers, attempts));
        }
      }
    }
  }

  // The calls of one slot in front of those of later candidates.
  lemma SlotBounded(s: seq<Call>, later: seq<Call>, from: nat, attempts: nat, candidate: nat)
    requires |s| <= attempts && forall k :: 0 <= k < |s| ==> s[k].candidate == from
    requires CountFor(later, candidate) <= attempts && (candidate <= from ==> CountFor(later, candidate) == 0)
    ensures CountFor(s + later, candidate) <= attempts
    ensures candidate < from ==> CountFor(s + later, candidate) == 0
    ensures later == [] ==> s + later == s
  {
    CountAll(s, from, candidate);
    CountConcat(s, later, candidate);
  }

  // At most `attempts` calls go to any candidate.
  lemma {:induction false} CallsBounded(oracle: Oracle, n: nat, specs: seq<ModelSpec>, from: nat,
                                        providers: set<string>, attempts: nat, candidate: nat)
    requires from <= |specs| && attempts >= 1
    ensures var c := Calls(oracle, n, specs, from, providers, attempts);
            CountFor(c, candidate) <= attempts && (candidate < from ==> CountFor(c, candidate) == 0)
    decreases |specs| - from
  {
    if from < |specs| {
      if specs[from].provider !in providers {
        CallsBounded(oracle, n, specs, from + 1, providers, attempts, candidate);
      } else {
        var s := Slot(oracle, n, from, specs[from], attempts);
        SlotShape(oracle, n, from, specs[from], attempts);
        SlotBounded(s, [], from, attempts, candidate);
        if s[|s| - 1].attempt.Failed? {
          CallsBounded(oracle, n + |s|, specs, from + 1, providers, attempts, candidate);
          SlotBounded(s, Calls(oracle, n + |s|, specs, from + 1, providers, attempts), from, attempts, candidate);
        }
      }
    }
  }

  // The k-th call of the request gets the answer the providers give to their (n+k)-th call.
  ghost predicate AnsweredBy(oracle: Oracle, n: nat, calls: seq<Call>) {
    forall k :: 0 <= k < |calls| ==> calls[k].attempt == oracle(n + k, calls[k].spec)
  }

  lemma AnsweredConcat(oracle: Oracle, n: nat, s: seq<Call>, t: seq<Call>)
    requires AnsweredBy(oracle, n, s) && AnsweredBy(oracle, n + |s|, t)
    ensures AnsweredBy(oracle, n, s + t)
  {
    forall k | 0 <= k < |s + t| ensures (s + t)[k].attempt == oracle(n + k, (s + t)[k].spec) {
      if k >= |s| { assert (s + t)[k] == t[k - |s|] && n + |s| + (k - |s|) == n + k; }
    }
  }

  lemma {:induction false} CallsAnswered(oracle: Oracle, n: nat, specs: seq<ModelSpec>, from: nat,
                                         providers: set<string>, attempts: nat)
    requires from <= |specs| && attempts >= 1
    ensures AnsweredBy(oracle, n, Calls(oracle, n, specs, from, providers, attempts))
    decreases |specs| - from
  {
    if from < |specs| {
      if specs[from].provider !in providers {
        CallsAnswered(oracle, n, specs, from + 1, providers, attempts);
      } else {
        var s := Slot(oracle, n, from, specs[from], attempts);
        SlotShape(oracle, n, from, specs[from], attempts);
        if s[|s| - 1].attempt.Failed? {
          CallsAnswered(oracle, n + |s|, specs, from + 1, providers, attempts);
          AnsweredConcat(oracle, n, s, Calls(oracle, n + |s|, specs, from + 1, providers, attempts));
        }
      }
    }
  }

  // A candidate got all its attempts, or failed for good.
  predicate Exhausted(c: seq<Call>, attempts: nat, candidate: nat) {
    CountFor(c, candidate) == attempts ||
    exists k :: 0 <= k < |c| && c[k].candidate == candidate && GaveUp(c[k].attempt)
  }

  predicate GaveUp(a: Attempt) { a.Answered? || !a.error.transient }

  predicate NoAnswerUpTo(c: seq<Call>, candidate: nat) {
    forall k :: 0 <= k < |c| && c[k].candidate <= candidate ==> c[k].attempt.Failed?
  }

  lemma ExhaustedHere(s: seq<Call>, t: seq<Call>, attempts: nat, candidate: nat)
    requires s != [] && forall k :: 0 <= k < |s| ==> s[k].candidate == candidate
    requires (Retryable(s[|s| - 1].attempt) ==> |s| == attempts) && CountFor(t, candidate) == 0
    ensures Exhausted(s + t, attempts, candidate)
  {
    CountConcat(s, t, candidate);
    CountAll(s, candidate, candidate);
    assert (s + t)[|s| - 1] == s[|s| - 1];
  }

  lemma ExhaustedLater(s: seq<Call>, t: seq<Call>, attempts: nat, candidate: nat)
    requires forall k :: 0 <= k < |s| ==> s[k].candidate != candidate
    requires Exhausted(t, attempts, candidate)
    ensures Exhausted(s + t, attempts, candidate)
  {
    CountConcat(s, t, candidate);
    CountNone(s, candidate);
    if k :| 0 <= k < |t| && t[k].candidate == candidate && GaveUp(t[k].attempt) {
      assert (s + t)[|s| + k] == t[k];
    }
  }

  lemma CountNone(s: seq<Call>, candidate: nat)
    requires forall k :: 0 <= k < |s| ==> s[k].candidate != candidate
    ensures CountFor(s, candidate) == 0
  {
  }

  // Every configured candidate without an answer, and before the one that gave it, was used up.
  lemma {:induction false} FailureIsExhaustive(oracle: Oracle, n: nat, specs: seq<ModelSpec>, from: nat,
                                               providers: set<string>, attempts: nat, candidate: nat)
    requires from <= candidate < |specs| && attempts >= 1 && specs[candidate].provider in providers
    requires NoAnswerUpTo(Calls(oracle, n, specs, from, providers, attempts), candidate)
    ensures Exhausted(Calls(oracle, n, specs, from, providers, attempts), attempts, candidate)
    decreases |specs| - from
  {
    var c := Calls(oracle, n, specs, from, providers, attempts);
    if specs[from].provider !in providers {
      FailureIsExhaustive(oracle, n, specs, from + 1, providers, attempts, candidate);
    } else {
      var s := Slot(oracle, n, from, specs[from], attempts);
      SlotShape(oracle, n, from, specs[from], attempts);
      assert c[|s| - 1] == s[|s| - 1];
      var t := Calls(oracle, n + |s|, specs, from + 1, providers, attempts);
      assert c == s + t;
      if candidate == from {
        CallsBounded(oracle, n + |s|, specs, from + 1, providers, attempts, candidate);
        ExhaustedHere(s, t, attempts, candidate);
      } else {
        forall k | 0 <= k < |t| && t[k].candidate <= candidate ensures t[k].attempt.Failed? {
          assert c[|s| + k] == t[k];
        }
        FailureIsExhaustive(oracle, n + |s|, specs, from + 1, providers, attempts, candidate);
        ExhaustedLater(s, t, attempts, candidate);
      }
    }
  }

  // ------------------------------------------------------------ the theorem on one request

  // Counts that claim more cached tokens than were sent cannot be billed.
  predicate Billable(pricing: PricingTable, spec: ModelSpec, r: Response) {
    spec !in pricing || r.cached <= r.prompt
  }

  // What an answer costs; nothing when its model has no price.
  function Bill(pricing: PricingTable, spec: ModelSpec, r: Response): real
    requires Billable(pricing, spec, r)
  {
    if spec !in pricing then 0.0 else Pricing.Bill(pricing[spec], r.prompt - r.cached, r.cached, r.completion)
  }

  lemma UsageInWords(pricing: PricingTable, spec: ModelSpec, r: Response)
    ensures UsageOf(pricing, spec, r) ==
            if Billable(pricing, spec, r) then Some(Usage(spec, Bill(pricing, spec, r))) else None
  {
    if spec in pricing && r.cached <= r.prompt {
      Pricing.CostIs(pricing[spec], r.prompt - r.cached, r.cached, r.completion);
    }
  }

  // One usage row exactly when some call was answered with billable token counts, for the model
  // called and with its bill; an answer is always the last call and is completed exactly when it
  // conforms; without one the error of the last call made is raised.
  lemma OneRowPerAnswer(oracle: Oracle, n: nat, specs: seq<ModelSpec>, providers: set<string>, attempts: nat,
                        pricing: PricingTable)
    requires attempts >= 1
    ensures var c := Calls(oracle, n, specs, 0, providers, attempts);
            var o := OutcomeOf(pricing, c);
            && (forall k :: 0 <= k < |c| && c[k].attempt.Answered? ==>
                  k == |c| - 1 &&
                  var spec, r := c[k].spec, c[k].attempt.response;
                  if !Billable(pricing, spec, r) then RowsOf(o) == [] && o == BadUsage
                  else
                    var u := Usage(spec, Bill(pricing, spec, r));
                    RowsOf(o) == [u] && o == if r.conforms then Completed(u) else SchemaFailure(u))
            && ((forall k :: 0 <= k < |c| ==> c[k].attempt.Failed?) ==>
                  RowsOf(o) == [] && o == if c == [] then NoProvider else ProviderFailure(c[|c| - 1].attempt.error))
  {
    CallsOrdered(oracle, n, specs, 0, providers, attempts);
    var c := Calls(oracle, n, specs, 0, providers, attempts);
    forall k | 0 <= k < |c| - 1 ensures c[k].attempt.Failed? { assert Follows(c[k], c[k + 1]); }
    if c != [] && c[|c| - 1].attempt.Answered? {
      UsageInWords(pricing, c[|c| - 1].spec, c[|c| - 1].attempt.response);
    }
  }

  lemma {:induction false} NobodyToCall(oracle: Oracle, n: nat, specs: seq<ModelSpec>, from: nat,
                                        providers: set<string>, attempts: nat)
    requires from <= |specs| && attempts >= 1
    ensures Calls(oracle, n, specs, from, providers, attempts) == [] <==>
            forall i :: from <= i < |specs| ==> specs[i].provider !in providers
    decreases |specs| - from
  {
    if from < |specs| {
      SlotShape(oracle, n, from, specs[from], attempts);
      if specs[from].provider !in providers { NobodyToCall(oracle, n, specs, from + 1, providers, attempts); }
    }
  }

  // ------------------------------------------------------------ the client

  // How one candidate ends: the request is over, or the next candidate is tried.
  datatype SlotEnd = Over(outcome: Outcome) | NextCandidate(error: ProviderError)

  class LLMClient {
    const oracle: Oracle
    const providers: set<string>
    const pricing: PricingTable
    const tierModels: map<Tier, seq<ModelSpec>>
    const maxAttempts: int
    var made: nat  // provider calls made so far
    var records: seq<Usage>

    constructor (oracle: Oracle, providers: set<string>, pricing: PricingTable, tierModels: map<Tier, seq<ModelSpec>>,
                 maxAttempts: int)
      ensures this.oracle == oracle && this.providers == providers && this.pricing == pricing
      ensures this.tierModels == tierModels && this.maxAttempts == maxAttempts
      ensures made == 0 && records == []
    {
      this.oracle, this.providers, this.pricing := oracle, providers, pricing;
      this.tierModels, this.maxAttempts := tierModels, maxAttempts;
      made, records := 0, [];
    }

    function Attempts(): nat { if maxAttempts < 1 then 0 else maxAttempts }

    // The default is looked up first, so a table without the mid tier always fails.
    function CandidatesFor(tier: Tier): Option<seq<ModelSpec>> {
      if Mid !in tierModels then None else Some(if tier in tierModels then tierModels[tier] else tierModels[Mid])
    }

    // An answer: its row, and whether it conforms.
    method Settle(spec: ModelSpec, response: Response, ghost call: Call) returns (outcome: Outcome)
      requires call.spec == spec && call.attempt == Answered(response)
      modifies this
      ensures made == old(made) && outcome == OutcomeOf(pricing, [call])
      ensures records == old(records) + RowsOf(outcome)
    {
      var usage := UsageOf(pricing, spec, response);
      if usage.None? {
        return BadUsage;
      }
      records := records + [usage.value];
      if !response.conforms {
        return SchemaFailure(usage.value);
      }
      return Completed(usage.value);
    }

    // One candidate; `s` are the calls made to it.
    method Run(candidate: nat, spec: ModelSpec) returns (end: SlotEnd, ghost s: seq<Call>)
      modifies this
      ensures s == Slot(oracle, old(made), candidate, spec, Attempts()) && made == old(made) + |s|
      ensures s == [] ==> maxAttempts < 1 && end == Over(RetryLoopSkipped) && records == old(records)
      ensures s != [] && s[|s| - 1].attempt.Answered? ==>
                end == Over(OutcomeOf(pricing, s)) && records == old(records) + RowsOf(OutcomeOf(pricing, s))
      ensures s != [] && s[|s| - 1].attempt.Failed? ==>
              end == NextCandidate(s[|s| - 1].attempt.error) && records == old(records)
    {
      var attempts := 0;
      s := [];
      ghost var whole := Slot(oracle, made, candidate, spec, Attempts());
      assert InSlot(oracle, whole, s, made, candidate, spec, Attempts());
      while attempts < maxAttempts
        invariant 0 <= attempts <= Attempts() && |s| == attempts && (attempts > 0 ==> attempts < Attempts())
        invariant made == old(made) + attempts && records == old(records)
        invariant InSlot(oracle, whole, s, made, candidate, spec, Attempts() - attempts)
        decreases maxAttempts - attempts
      {
        SlotStep(oracle, whole, s, made, candidate, spec, Attempts() - attempts);
        attempts := attempts + 1;
        var answer := oracle(made, spec);
        ghost var call := Call(candidate, spec, answer);
        OutcomeOfCall(pricing, s, call);
        s := s + [call];
        made := made + 1;
        if Retryable(answer) && attempts < maxAttempts {
          continue;
        }
        if answer.Failed? {
          return NextCandidate(answer.error), s;
        }
        var outcome := Settle(spec, answer.response, call);
        return Over(outcome), s;
      }
      return Over(RetryLoopSkipped), s;
    }

    // The candidates in order, until one ends the request; `log` are all the calls made.
    method TryCandidates(specs: seq<ModelSpec>) returns (outcome: Outcome, ghost log: seq<Call>)
      modifies this
      ensures log == Calls(oracle, old(made), specs, 0, providers, Attempts()) && made == old(made) + |log|
      ensures if outcome.RetryLoopSkipped? then maxAttempts < 1 else outcome == OutcomeOf(pricing, log)
      ensures records == old(records) + RowsOf(outcome)
    {
      var lastError: Option<ProviderError> := None;
      log := [];
      ghost var rest := Calls(oracle, made, specs, 0, providers, Attempts());
      ghost var whole := rest;
      var i := 0;
      while i < |specs|
        invariant 0 <= i <= |specs| && made == old(made) + |log| && records == old(records)
        invariant rest == Calls(oracle, made, specs, i, providers, Attempts()) && whole == log + rest
        invariant EndsWith(log, lastError)
      {
        if specs[i].provider !in providers {
          i := i + 1;
          continue;
        }
        ghost var n := made;
        var end, s := Run(i, specs[i]);
        ghost var next := Calls(oracle, made, specs, i + 1, providers, Attempts());
        CandidateDone(oracle, n, specs, i, providers, Attempts(), s);
        LogGrows(pricing, log, s, next);
        if end.Over? {
          return end.outcome, log + s;
        }
        log, rest := log + s, next;
        lastError := Some(end.error);
        i := i + 1;
      }
      OutcomeOfFailure(pricing, log, lastError);
      if lastError.Some? {
        return ProviderFailure(lastError.value), log;
      }
      return NoProvider, log;
    }

    // With at least one attempt allowed the code after the retry loop is never reached; with
    // none it is reached by the first configured candidate.
    method Complete(tier: Tier) returns (outcome: Outcome, ghost log: seq<Call>)
      modifies this
      ensures made == old(made) + |log| && records == old(records) + RowsOf(outcome)
      ensures outcome.NoMidTier? <==> Mid !in tierModels
      ensures outcome.NoMidTier? ==> log == []
      ensures !outcome.NoMidTier? ==>
                log == Calls(oracle, old(made), if tier in tierModels then tierModels[tier] else tierModels[Mid], 0,
                             providers, if maxAttempts < 1 then 0 else maxAttempts)
      ensures !outcome.NoMidTier? && maxAttempts >= 1 ==> outcome == OutcomeOf(pricing, log)
      ensures outcome.RetryLoopSkipped? ==> maxAttempts < 1
    {
      log := [];
      var candidates := CandidatesFor(tier);
      if candidates.None? {
        return NoMidTier, log;
      }
      outcome, log := TryCandidates(candidates.value);
    }
  }

  // What the error kept by the candidate loop says about the calls so far.
  predicate EndsWith(log: seq<Call>, lastError: Option<ProviderError>) {
    if log == [] then lastError.None? else lastError.Some? && log[|log| - 1].attempt == Failed(lastError.value)
  }

  // The calls to one configured candidate, and what is still to come after them.
  lemma CandidateDone(oracle: Oracle, n: nat, specs: seq<ModelSpec>, i: nat, providers: set<string>, attempts: nat,
                      s: seq<Call>)
    requires i < |specs| && specs[i].provider in providers && s == Slot(oracle, n, i, specs[i], attempts)
    ensures Calls(oracle, n, specs, i, providers, attempts) ==
            if s == [] || s[|s| - 1].attempt.Answered? then s
            else s + Calls(oracle, n + |s|, specs, i + 1, providers, attempts)
  {
  }

  // The calls made to a candidate so far, and those still to come.
  ghost predicate InSlot(oracle: Oracle, whole: seq<Call>, s: seq<Call>, n: nat, candidate: nat, spec: ModelSpec,
                         left: nat)
  {
    whole == s + Slot(oracle, n, candidate, spec, left)
  }

  lemma SlotStep(oracle: Oracle, whole: seq<Call>, s: seq<Call>, n: nat, candidate: nat, spec: ModelSpec, left: nat)
    requires left >= 1 && InSlot(oracle, whole, s, n, candidate, spec, left)
    ensures var call := Call(candidate, spec, oracle(n, spec));
            if Retryable(call.attempt) && left > 1 then
              InSlot(oracle, whole, s + [call], n + 1, candidate, spec, left - 1)
            else whole == s + [call]
  {
    var call := Call(candidate, spec, oracle(n, spec));
    if Retryable(call.attempt) && left > 1 {
      Sequences.Assoc(s, [call], Slot(oracle, n + 1, candidate, spec, left - 1));
    }
  }

  lemma OutcomeOfLast(pricing: PricingTable, log: seq<Call>, s: seq<Call>)
    ensures s != [] ==> (log + s)[|log + s| - 1] == s[|s| - 1] && OutcomeOf(pricing, log + s) == OutcomeOf(pricing, s)
  {
  }

  lemma LogGrows(pricing: PricingTable, log: seq<Call>, s: seq<Call>, next: seq<Call>)
    ensures s != [] ==> (log + s)[|log + s| - 1] == s[|s| - 1] && OutcomeOf(pricing, log + s) == OutcomeOf(pricing, s)
    ensures log + s + next == log + (s + next)
  {
    OutcomeOfLast(pricing, log, s);
    Sequences.Assoc(log, s, next);
  }

  lemma OutcomeOfCall(pricing: PricingTable, log: seq<Call>, call: Call)
    ensures OutcomeOf(pricing, log + [call]) == OutcomeOf(pricing, [call]) && (log + [call])[|log + [call]| - 1] == call
  {
  }

  lemma OutcomeOfFailure(pricing: PricingTable, log: seq<Call>, lastError: Option<ProviderError>)
    requires EndsWith(log, lastError)
    ensures OutcomeOf(pricing, log) == if lastError.Some? then ProviderFailure(lastError.value) else NoProvider
  {
  }
}
