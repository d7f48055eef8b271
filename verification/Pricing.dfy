/** USD cost of one provider answer. */
module Pricing {
  import opened Options

  // Rates in USD per million tokens.
  datatype ModelPricing = ModelPricing(inputRate: real, outputRate: real, cachedRate: Option<real>)

  // An unset cached rate is a tenth of the input rate; so is an explicit zero, because the
  // source falls back on any falsy rate.
  function CachedRate(p: ModelPricing): real {
    if p.cachedRate.Some? && p.cachedRate.value != 0.0 then p.cachedRate.value else p.inputRate / 10.0
  }

  function Price(tokens: nat, rate: real): real { tokens as real * rate / 1000000.0 }

  // Refused when more tokens are reported cached than were sent.
  function CostFor(p: ModelPricing, prompt: nat, completion: nat, cached: nat): Option<real> {
    if cached > prompt then None
    else Some(Price(prompt - cached, p.inputRate) + Price(cached, CachedRate(p)) + Price(completion, p.outputRate))
  }

  lemma PriceAdds(a: nat, b: nat, r: real)
    ensures Price(a + b, r) == Price(a, r) + Price(b, r)
  {
    assert (a + b) as real == a as real + b as real;
  }

  lemma PriceMonotone(a: nat, r: real, s: real)
    requires r <= s
    ensures Price(a, r) <= Price(a, s)
    ensures Price(a, 0.0) == 0.0 && Price(0, r) == 0.0
  {
    assert a as real * (s - r) >= 0.0;
  }

  // Costs add up: two answers cost what one answer with all their tokens would, so the sum of
  // the recorded costs is the price of the summed token counts.
  lemma CostAdds(p: ModelPricing, a: nat, b: nat, c: nat, a': nat, b': nat, c': nat)
    requires c <= a && c' <= a'
    ensures CostFor(p, a + a', b + b', c + c') == Some(CostFor(p, a, b, c).value + CostFor(p, a', b', c').value)
  {
    PriceAdds(a - c, a' - c', p.inputRate);
    PriceAdds(c, c', CachedRate(p));
    PriceAdds(b, b', p.outputRate);
  }

  // A cache hit never costs more than the same tokens sent fresh, provided the cached rate is
  // not above the input rate; and no cost is negative for non-negative rates.
  lemma CachingSaves(p: ModelPricing, prompt: nat, completion: nat, cached: nat)
    requires cached <= prompt && p.outputRate >= 0.0 && 0.0 <= CachedRate(p) <= p.inputRate
    ensures 0.0 <= CostFor(p, prompt, completion, cached).value <= CostFor(p, prompt, completion, 0).value
  {
    PriceAdds(prompt - cached, cached, p.inputRate);
    PriceMonotone(cached, CachedRate(p), p.inputRate);
    PriceMonotone(prompt - cached, 0.0, p.inputRate);
    PriceMonotone(cached, 0.0, CachedRate(p));
    PriceMonotone(completion, 0.0, p.outputRate);
    PriceMonotone(0, CachedRate(p), CachedRate(p));
  }

  // A cached rate of zero cannot be configured: it is billed as if it were unset.
  lemma ZeroCachedRateIgnored(p: ModelPricing, q: ModelPricing, prompt: nat, completion: nat, cached: nat)
    requires q == p.(cachedRate := None) && p.cachedRate == Some(0.0)
    ensures CostFor(p, prompt, completion, cached) == CostFor(q, prompt, completion, cached)
  {
    assert CachedRate(p) == CachedRate(q);
  }

  // The price as configured: an explicit rate is what cached tokens cost.
  function Configured(p: ModelPricing, prompt: nat, completion: nat, cached: nat): real
    requires p.cachedRate.Some? && cached <= prompt
  {
    Price(prompt - cached, p.inputRate) + Price(cached, p.cachedRate.value) + Price(completion, p.outputRate)
  }

  // Exactly when a configured cached rate is billed: not a zero one, unless nothing hangs on it.
  lemma BilledAsConfiguredIff(p: ModelPricing, prompt: nat, completion: nat, cached: nat)
    requires p.cachedRate.Some? && cached <= prompt
    ensures CostFor(p, prompt, completion, cached) == Some(Configured(p, prompt, completion, cached)) <==>
            p.cachedRate.value != 0.0 || p.inputRate == 0.0 || cached == 0
  {
    var rate := p.inputRate / 10.0;
    PriceZeroIff(cached, rate);
    PriceZeroIff(cached, 0.0);
  }

  lemma PriceZeroIff(tokens: nat, rate: real)
    ensures Price(tokens, rate) == 0.0 <==> tokens == 0 || rate == 0.0
  {
    if tokens > 0 && rate > 0.0 { assert tokens as real * rate > 0.0; }
    if tokens > 0 && rate < 0.0 { assert tokens as real * -rate > 0.0; }
  }

  // What cached tokens cost each: their own rate per million, or a tenth of the input rate when
  // there is none or it is zero.
  function CachedEach(p: ModelPricing): real {
    match p.cachedRate
    case None => p.inputRate / 10000000.0
    case Some(rate) => if rate == 0.0 then p.inputRate / 10000000.0 else rate / 1000000.0
  }

  // The bill of one answer in dollars: fresh prompt tokens, cached ones and completion tokens,
  // each at its own rate per million.
  function Bill(p: ModelPricing, sent: nat, cached: nat, completion: nat): real {
    Times(sent, p.inputRate / 1000000.0) + Times(cached, CachedEach(p)) + Times(completion, p.outputRate / 1000000.0)
  }

  function Times(tokens: nat, each: real): real { tokens as real * each }

  lemma CostIs(p: ModelPricing, sent: nat, cached: nat, completion: nat)
    ensures CostFor(p, sent + cached, completion, cached) == Some(Bill(p, sent, cached, completion))
  {
    assert CachedRate(p) == CachedEach(p) * 1000000.0;
    PerMillion(sent, p.inputRate, p.inputRate / 1000000.0);
    PerMillion(cached, CachedRate(p), CachedEach(p));
    PerMillion(completion, p.outputRate, p.outputRate / 1000000.0);
  }

  lemma PerMillion(tokens: nat, rate: real, each: real)
    requires rate == each * 1000000.0
    ensures Price(tokens, rate) == Times(tokens, each)
  {
    assert tokens as real * (each * 1000000.0) == tokens as real * each * 1000000.0;
  }
}
