/** Deterministic assignment of traffic to the arms of a prompt experiment, and how many of
    the 2^64 hash buckets each arm gets. */
module TrafficSplit {
  import opened Options
  import opened RealMath

  const BUCKETS: nat := 0x1_0000_0000_0000_0000

  datatype Variant = Variant(name: string, version: string, weight: real)

  datatype Experiment = Experiment(id: string, agent: string, variants: seq<Variant>, active: bool)

  // The sum of the first n weights.
  function Cumulative(vs: seq<Variant>, n: nat): real
    requires n <= |vs|
  {
    if n == 0 then 0.0 else Cumulative(vs, n - 1) + vs[n - 1].weight
  }

  function Total(vs: seq<Variant>): real { Cumulative(vs, |vs|) }

  // What the constructor accepts.
  predicate Valid(e: Experiment) {
    && e.variants != []
    && (forall i, j :: 0 <= i < j < |e.variants| ==> e.variants[i].name != e.variants[j].name)
    && 0.99 <= Total(e.variants) <= 1.01
    && WeightsOk(e.variants)
  }

  predicate WeightsOk(vs: seq<Variant>) {
    forall i :: 0 <= i < |vs| ==> 0.0 <= vs[i].weight <= 1.0
  }

  function Fraction(bucket: nat): real { bucket as real / BUCKETS as real }

  // The first arm whose cumulative weight is above the bucket's fraction, from place n on; the
  // last arm when there is none.
  function ChooseFrom(vs: seq<Variant>, bucket: nat, n: nat): (i: nat)
    requires n <= |vs| && vs != []
    ensures i < |vs|
    decreases |vs| - n
  {
    if n == |vs| then |vs| - 1
    else if Fraction(bucket) < Cumulative(vs, n + 1) then n
    else ChooseFrom(vs, bucket, n + 1)
  }

  function Choose(vs: seq<Variant>, bucket: nat): (i: nat)
    requires vs != []
    ensures i < |vs|
  {
    ChooseFrom(vs, bucket, 0)
  }

  // ------------------------------------------------------------ the selector

  datatype Registry = Registry(agent: string, versions: seq<string>)

  datatype Assignment = Assignment(variantName: string, version: string) | Fallback(version: string)

  datatype SelectError = WrongAgent | UnknownVersion

  // `digest` gives the first eight bytes of a key's hash.
  datatype Selector = Selector(registry: Registry, fallbackVersion: Option<string>, digest: string -> nat)

  // A fallback the registry does not know is refused.
  function MakeSelector(registry: Registry, fallbackVersion: Option<string>, digest: string -> nat): Option<Selector> {
    if fallbackVersion.Some? && fallbackVersion.value !in registry.versions then None
    else Some(Selector(registry, fallbackVersion, digest))
  }

  // The configured version, or else the latest one; there may be none to resolve.
  function FallbackTo(s: Selector): Result<Assignment, SelectError> {
    var vs := s.registry.versions;
    if s.fallbackVersion.Some? then
      if s.fallbackVersion.value in vs then Ok(Fallback(s.fallbackVersion.value)) else Err(UnknownVersion)
    else if vs == [] then Err(UnknownVersion)
    else Ok(Fallback(vs[|vs| - 1]))
  }

  function Selected(s: Selector, e: Experiment, assignmentKey: string): Result<Assignment, SelectError>
    requires Valid(e)
  {
    if e.agent != s.registry.agent then Err(WrongAgent)
    else if !e.active then FallbackTo(s)
    else
      var arm := e.variants[Choose(e.variants, s.digest(e.id + ":" + assignmentKey))];
      if arm.version in s.registry.versions then Ok(Assignment(arm.name, arm.version)) else FallbackTo(s)
  }

  method Select(s: Selector, e: Experiment, assignmentKey: string) returns (r: Result<Assignment, SelectError>)
    requires Valid(e)
    ensures r == Selected(s, e, assignmentKey)
  {
    if e.agent != s.registry.agent {
      return Err(WrongAgent);
    }
    if !e.active {
      return FallbackTo(s);
    }
    var bucket := s.digest(e.id + ":" + assignmentKey);
    var cumulative := 0.0;
    var chosen: Option<Variant> := None;
    var i := 0;
    while i < |e.variants|
      invariant 0 <= i <= |e.variants| && chosen.None?
      invariant cumulative == Cumulative(e.variants, i)
      invariant Choose(e.variants, bucket) == ChooseFrom(e.variants, bucket, i)
    {
      cumulative := cumulative + e.variants[i].weight;
      if Fraction(bucket) < cumulative {
        chosen := Some(e.variants[i]);
        break;
      }
      i := i + 1;
    }
    var arm := if chosen.Some? then chosen.value else e.variants[|e.variants| - 1];
    if arm.version !in s.registry.versions {
      return FallbackTo(s);
    }
    return Ok(Assignment(arm.name, arm.version));
  }

  // Arm i owns the bucket: the weights up to it pass the bucket's fraction, those before it do
  // not; the last arm also owns what no weight reaches.
  predicate Owns(vs: seq<Variant>, i: nat, bucket: nat) {
    && i < |vs|
    && (i + 1 < |vs| ==> bucket as real / 18446744073709551616.0 < Cumulative(vs, i + 1))
    && forall j :: 0 < j <= i ==> Cumulative(vs, j) <= bucket as real / 18446744073709551616.0
  }

  lemma {:induction false} OwnerFrom(vs: seq<Variant>, i: nat, bucket: nat, n: nat)
    requires Owns(vs, i, bucket) && n <= i
    ensures ChooseFrom(vs, bucket, n) == i
    decreases i - n
  {
    if n < i { OwnerFrom(vs, i, bucket, n + 1); }
  }

  lemma {:induction false} ChoiceOwns(vs: seq<Variant>, bucket: nat, n: nat)
    requires n < |vs| && forall j :: 0 < j <= n ==> Cumulative(vs, j) <= Fraction(bucket)
    ensures Owns(vs, ChooseFrom(vs, bucket, n), bucket)
    decreases |vs| - n
  {
    if n + 1 < |vs| && Fraction(bucket) >= Cumulative(vs, n + 1) { ChoiceOwns(vs, bucket, n + 1); }
  }

  // Every request for an active experiment is hashed together with the experiment's id and goes
  // to the one arm that owns the bucket, if its version is registered. All others get the
  // configured version, or without one the latest.
  lemma SelectedIs(s: Selector, e: Experiment, assignmentKey: string, i: nat)
    requires Valid(e) && Owns(e.variants, i, s.digest(e.id + ":" + assignmentKey))
    ensures var r, arm, vs := Selected(s, e, assignmentKey), e.variants[i], s.registry.versions;
            if e.agent != s.registry.agent then r == Err(WrongAgent)
            else if e.active && arm.version in vs then r == Ok(Assignment(arm.name, arm.version))
            else
              match s.fallbackVersion
              case Some(v) => r == if v in vs then Ok(Fallback(v)) else Err(UnknownVersion)
              case None => r == if |vs| == 0 then Err(UnknownVersion) else Ok(Fallback(vs[|vs| - 1]))
  {
    OwnerFrom(e.variants, i, s.digest(e.id + ":" + assignmentKey), 0);
  }

  lemma OneOwner(vs: seq<Variant>, bucket: nat)
    requires vs != []
    ensures Owns(vs, Choose(vs, bucket), bucket)
    ensures forall i :: Owns(vs, i, bucket) ==> i == Choose(vs, bucket)
  {
    ChoiceOwns(vs, bucket, 0);
    forall i | Owns(vs, i, bucket) ensures i == Choose(vs, bucket) { OwnerFrom(vs, i, bucket, 0); }
  }

  // What the check at construction buys: a selector serves registered versions only, and for the
  // right agent it fails on every request when there is no version at all, and on none otherwise.
  lemma MadeSelectorServes(registry: Registry, fallbackVersion: Option<string>, digest: string -> nat,
                           e: Experiment, assignmentKey: string)
    requires Valid(e) && e.agent == registry.agent && MakeSelector(registry, fallbackVersion, digest).Some?
    ensures var r := Selected(MakeSelector(registry, fallbackVersion, digest).value, e, assignmentKey);
            (r.Ok? <==> registry.versions != []) && (r.Ok? ==> r.value.version in registry.versions)
  {
    var vs := registry.versions;
    if vs != [] { assert vs[|vs| - 1] in vs; }
  }

  // Without it, a selector that is asked to fall back serves exactly if its fallback resolves.
  lemma FallbackServesIff(s: Selector, e: Experiment, assignmentKey: string)
    requires Valid(e) && e.agent == s.registry.agent && !e.active
    ensures Selected(s, e, assignmentKey).Ok? <==>
            s.registry.versions != [] && MakeSelector(s.registry, s.fallbackVersion, s.digest).Some?
  {
  }

  // ------------------------------------------------------------ counting buckets

  // The number of buckets whose fraction is below c.
  function Below(c: real): (t: nat)
    ensures t <= BUCKETS
  {
    var x := Ceiling(c * BUCKETS as real);
    if x < 0 then 0 else if x > BUCKETS then BUCKETS else x
  }

  lemma BelowExact(c: real, bucket: nat)
    requires bucket < BUCKETS
    ensures Fraction(bucket) < c <==> bucket < Below(c)
  {
    var n := BUCKETS as real;
    var q := Fraction(bucket);
    assert q * n == bucket as real;
    Scaled(q, c, n);
    CeilingExact(bucket, c * n);
  }

  lemma Scaled(q: real, c: real, n: real)
    requires n > 0.0
    ensures q < c <==> q * n < c * n
  {
    if q < c { assert (c - q) * n > 0.0; } else { assert (q - c) * n >= 0.0; }
  }

  lemma CeilingExact(b: int, x: real)
    ensures b as real < x <==> b < Ceiling(x)
  {
  }

  lemma BelowMonotone(c: real, d: real)
    requires c <= d
    ensures Below(c) <= Below(d)
  {
    assert (d - c) * BUCKETS as real >= 0.0;
  }

  lemma {:induction false} CumulativeMonotone(vs: seq<Variant>, m: nat, n: nat)
    requires WeightsOk(vs) && m <= n <= |vs|
    ensures 0.0 <= Cumulative(vs, m) <= Cumulative(vs, n)
    decreases n
  {
    if m < n { CumulativeMonotone(vs, m, n - 1); } else if m > 0 { CumulativeMonotone(vs, m - 1, m - 1); }
  }

  // Where the buckets of arm i begin and end.
  function Start(vs: seq<Variant>, i: nat): nat
    requires i <= |vs|
  {
    if i == |vs| then BUCKETS else Below(Cumulative(vs, i))
  }

  lemma {:induction false} ChooseFromInterval(vs: seq<Variant>, bucket: nat, n: nat, i: nat)
    requires vs != [] && WeightsOk(vs) && n <= i < |vs| && bucket < BUCKETS && Start(vs, n) <= bucket
    ensures ChooseFrom(vs, bucket, n) == i <==> Start(vs, i) <= bucket < Start(vs, i + 1)
    decreases |vs| - n
  {
    BelowExact(Cumulative(vs, n + 1), bucket);
    CumulativeMonotone(vs, n + 1, |vs|);
    if n + 1 <= i { CumulativeMonotone(vs, n + 1, i); BelowMonotone(Cumulative(vs, n + 1), Cumulative(vs, i)); }
    if n + 1 < |vs| {
      if Fraction(bucket) >= Cumulative(vs, n + 1) && n + 1 <= i { ChooseFromInterval(vs, bucket, n + 1, i); }
      else if Fraction(bucket) >= Cumulative(vs, n + 1) { ChosenLater(vs, bucket, n + 1); }
    }
  }

  lemma ChosenLater(vs: seq<Variant>, bucket: nat, n: nat)
    requires vs != [] && n < |vs|
    ensures ChooseFrom(vs, bucket, n) >= n
    decreases |vs| - n
  {
    if n + 1 < |vs| { ChosenLater(vs, bucket, n + 1); }
  }

  // Every bucket goes to exactly one arm, and the buckets of each arm form one interval.
  lemma ChooseInterval(vs: seq<Variant>, bucket: nat, i: nat)
    requires vs != [] && WeightsOk(vs) && i < |vs| && bucket < BUCKETS
    ensures Choose(vs, bucket) == i <==> Start(vs, i) <= bucket < Start(vs, i + 1)
  {
    ChooseFromInterval(vs, bucket, 0, i);
  }

  // ------------------------------------------------------------ the counts

  ghost function BucketsOf(vs: seq<Variant>, i: nat): set<nat>
    requires vs != []
  {
    set b: nat | 0 <= b < BUCKETS && Choose(vs, b) == i
  }

  ghost function Interval(lo: nat, hi: nat): (r: set<nat>)
    ensures forall b: nat :: b in r <==> lo <= b < hi
    ensures lo <= hi ==> |r| == hi - lo
    decreases hi
  {
    if hi <= lo then {} else Interval(lo, hi - 1) + {hi - 1}
  }

  lemma StartMonotone(vs: seq<Variant>, i: nat)
    requires WeightsOk(vs) && i < |vs|
    ensures Start(vs, i) <= Start(vs, i + 1) <= BUCKETS
  {
    CumulativeMonotone(vs, i, i + 1);
    BelowMonotone(Cumulative(vs, i), Cumulative(vs, i + 1));
  }

  lemma ArmCount(vs: seq<Variant>, i: nat)
    requires vs != [] && WeightsOk(vs) && i < |vs|
    ensures |BucketsOf(vs, i)| == Start(vs, i + 1) - Start(vs, i) >= 0
  {
    StartMonotone(vs, i);
    forall b: nat ensures b in BucketsOf(vs, i) <==> b in Interval(Start(vs, i), Start(vs, i + 1)) {
      if b < BUCKETS { ChooseInterval(vs, b, i); }
    }
    assert BucketsOf(vs, i) == Interval(Start(vs, i), Start(vs, i + 1));
  }

  ghost function CountUpTo(vs: seq<Variant>, n: nat): nat
    requires vs != [] && n <= |vs|
  {
    if n == 0 then 0 else CountUpTo(vs, n - 1) + |BucketsOf(vs, n - 1)|
  }

  lemma {:induction false} CountUpToStart(vs: seq<Variant>, n: nat)
    requires vs != [] && WeightsOk(vs) && n <= |vs|
    ensures CountUpTo(vs, n) == Start(vs, n)
  {
    if n > 0 {
      CountUpToStart(vs, n - 1);
      ArmCount(vs, n - 1);
    }
  }

  // The arms share all 2^64 buckets between them.
  lemma CountsAddUp(vs: seq<Variant>)
    requires vs != [] && WeightsOk(vs)
    ensures CountUpTo(vs, |vs|) == BUCKETS
  {
    CountUpToStart(vs, |vs|);
  }

  function Gap(vs: seq<Variant>): real {
    if Total(vs) <= 1.0 then 1.0 - Total(vs) else Total(vs) - 1.0
  }

  // Below is within one bucket of its share, or cut off at the end.
  lemma BelowClose(c: real)
    requires c >= 0.0
    ensures c <= 1.0 ==> 0.0 <= Below(c) as real - c * BUCKETS as real < 1.0
    ensures c > 1.0 ==> Below(c) == BUCKETS
  {
    var n := BUCKETS as real;
    if c <= 1.0 { assert (1.0 - c) * n >= 0.0; assert c * n <= n; } else { assert (c - 1.0) * n > 0.0; }
    assert c * n >= 0.0;
  }

  lemma Expand(c: real, w: real, n: real)
    ensures (c + w) * n == c * n + w * n
  {
  }

  // Each arm's count differs from its weight's share by less than one bucket, plus what the
  // weights are short of one or in excess of it.
  lemma CountCloseToWeight(vs: seq<Variant>, i: nat)
    requires vs != [] && WeightsOk(vs) && i < |vs|
    ensures var n := BUCKETS as real;
            -(1.0 + Gap(vs) * n) <= |BucketsOf(vs, i)| as real - vs[i].weight * n <= 1.0 + Gap(vs) * n
  {
    var n, c, w, t := BUCKETS as real, Cumulative(vs, i), vs[i].weight, Total(vs);
    ArmCount(vs, i);
    CumulativeMonotone(vs, i, |vs|);
    CumulativeMonotone(vs, i + 1, |vs|);
    BelowClose(c);
    BelowClose(c + w);
    Expand(c, w, n);
    GapShare(t, c + w, n);
    GapShare(t, c, n);
    GapShare(t, t, n);
    assert w * n >= 0.0;
  }

  // Whatever lies beyond one, or is missing up to one, is at most the gap's share.
  lemma GapShare(t: real, c: real, n: real)
    requires 0.0 <= c <= t && n > 0.0
    ensures var gap := if t <= 1.0 then 1.0 - t else t - 1.0;
            gap * n >= 0.0 && c * n - n <= gap * n && (c == t ==> n - c * n <= gap * n)
  {
    var gap := if t <= 1.0 then 1.0 - t else t - 1.0;
    assert gap * n >= 0.0;
    assert (gap - (c - 1.0)) * n >= 0.0;
    Expand(c, -1.0, n);
    if c == t { assert (gap - (1.0 - c)) * n >= 0.0; Expand(1.0, -c, n); }
  }
}
