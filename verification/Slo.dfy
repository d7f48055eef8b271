/** Error budgets: from a stream of samples to a freeze level, in exact arithmetic. */
module Slo {
  import opened Options
  import opened RealMath

  datatype Kind = Availability | Latency | SuccessRate

  datatype Slo = Slo(name: string, kind: Kind, objective: real, window: int, thresholdMs: Option<int>)

  predicate ValidSlo(s: Slo) {
    0.0 < s.objective < 1.0 && (s.kind.Latency? <==> s.thresholdMs.Some?)
  }

  datatype Sample = Sample(sloName: string, observedAt: int, success: Option<bool>, statusCode: Option<int>,
                           latencyMs: Option<int>)

  // Whether a sample carries what its objective needs; one that does not makes the evaluation raise.
  predicate Measured(s: Sample, slo: Slo) {
    match slo.kind
    case Availability => s.statusCode.Some?
    case Latency => s.latencyMs.Some?
    case SuccessRate => s.success.Some?
  }

  predicate IsGood(s: Sample, slo: Slo)
    requires ValidSlo(slo) && Measured(s, slo)
  {
    match slo.kind
    case Availability => 100 <= s.statusCode.value < 500
    case Latency => s.latencyMs.value <= slo.thresholdMs.value
    case SuccessRate => s.success.value
  }

  predicate InScope(s: Sample, slo: Slo, now: int) { s.sloName == slo.name && s.observedAt >= now - slo.window }

  datatype Counts = Counts(good: nat, bad: nat)

  // What one sample adds to the counts, or nothing when it cannot be judged.
  function Judge(slo: Slo, now: int, s: Sample): Option<Counts>
    requires ValidSlo(slo)
  {
    if !InScope(s, slo, now) then Some(Counts(0, 0))
    else if !Measured(s, slo) then None
    else Some(if IsGood(s, slo) then Counts(1, 0) else Counts(0, 1))
  }

  function Add(a: Option<Counts>, b: Option<Counts>): Option<Counts> {
    if a.None? || b.None? then None else Some(Counts(a.value.good + b.value.good, a.value.bad + b.value.bad))
  }

  // The counts in the window, or nothing when one of the samples there cannot be judged.
  function Count(slo: Slo, now: int, samples: seq<Sample>): Option<Counts>
    requires ValidSlo(slo)
  {
    if samples == [] then Some(Counts(0, 0)) else Add(Judge(slo, now, samples[0]), Count(slo, now, samples[1..]))
  }

  // ------------------------------------------------------------ budget and level

  function Compliance(c: Counts): real {
    if c.good + c.bad == 0 then 1.0 else c.good as real / (c.good + c.bad) as real
  }

  // `remaining_fraction` of the error budget.
  function Remaining(slo: Slo, compliance: real): real
    requires ValidSlo(slo)
  {
    var consumed := Min(Max(0.0, 1.0 - compliance) / (1.0 - slo.objective), 1.0);
    Max(0.0, 1.0 - consumed)
  }

  datatype Level = Normal | Watch | SoftFreeze | HardFreeze

  datatype Policy = Policy(warn: real, freeze: real)

  predicate ValidPolicy(p: Policy) { 0.0 < p.freeze < p.warn < 1.0 }

  function Decide(p: Policy, remaining: real): Level {
    if remaining <= 0.0 then HardFreeze
    else if remaining < p.freeze then SoftFreeze
    else if remaining < p.warn then Watch
    else Normal
  }

  function LevelOf(slo: Slo, p: Policy, c: Counts): Level
    requires ValidSlo(slo)
  {
    Decide(p, Remaining(slo, Compliance(c)))
  }

  function Rank(l: Level): nat { match l case Normal => 0 case Watch => 1 case SoftFreeze => 2 case HardFreeze => 3 }

  // ------------------------------------------------------------ exactness

  function Share(s: real, x: real): real { s * x }

  // How many bad samples the objective allows.
  function Allowed(slo: Slo, c: Counts): real { Share(1.0 - slo.objective, (c.good + c.bad) as real) }

  lemma ShareLaws(s: real, t: real, x: real)
    ensures Share(1.0, x) == x && Share(0.0, x) == 0.0 && Share(s, 0.0) == 0.0
    ensures x > 0.0 ==> (s > t <==> Share(s, x) > Share(t, x))
    ensures Share(s, Share(t, x)) == Share(Share(s, t), x)
  {
    if x > 0.0 {
      if s > t { assert (s - t) * x > 0.0; } else { assert (t - s) * x >= 0.0; }
    }
  }

  lemma ShareGrows(s: real, x: real, y: real)
    requires s >= 0.0 && x <= y
    ensures Share(s, x) <= Share(s, y)
  {
    assert s * (y - x) >= 0.0;
  }

  lemma Divided(g: real, n: real)
    requires n > 0.0
    ensures Share(g / n, n) == g && Share(1.0 - g / n, n) == n - g
  {
    var q := g / n;
    assert q * n == g;
    assert (1.0 - q) * n == n - q * n;
  }

  // The consumed share of the budget: bad samples against allowed ones.
  lemma BadShare(slo: Slo, c: Counts) returns (x: real)
    requires ValidSlo(slo) && c.good + c.bad > 0
    ensures Remaining(slo, Compliance(c)) == Max(0.0, 1.0 - Min(x, 1.0))
    ensures Share(x, Allowed(slo, c)) == c.bad as real && Allowed(slo, c) > 0.0
  {
    var n, a := (c.good + c.bad) as real, 1.0 - slo.objective;
    var q := c.good as real / n;
    Divided(c.good as real, n);
    ShareLaws(q, 1.0, n);
    x := (1.0 - q) / a;
    Divided(1.0 - q, a);
    ShareLaws(x, a, n);
    ShareLaws(a, 0.0, n);
  }

  // With samples present: the budget is exhausted exactly when at least as many samples are bad
  // as the objective allows, and less than a share t of it remains exactly when the bad
  // samples exceed the rest of what is allowed.
  lemma RemainingExact(slo: Slo, c: Counts, t: real)
    requires ValidSlo(slo) && c.good + c.bad > 0 && 0.0 < t <= 1.0
    ensures Remaining(slo, Compliance(c)) <= 0.0 <==> c.bad as real >= Allowed(slo, c)
    ensures Remaining(slo, Compliance(c)) < t <==> c.bad as real > Share(1.0 - t, Allowed(slo, c))
  {
    var x := BadShare(slo, c);
    ShareLaws(1.0, x, Allowed(slo, c));
    ShareLaws(x, 1.0 - t, Allowed(slo, c));
  }

  // The level as inequalities between counts. Without samples it is normal.
  lemma LevelExact(slo: Slo, p: Policy, c: Counts)
    requires ValidSlo(slo) && ValidPolicy(p)
    ensures c.good + c.bad == 0 ==> LevelOf(slo, p, c) == Normal
    ensures c.good + c.bad > 0 ==>
              var rank, allowed := Rank(LevelOf(slo, p, c)), Allowed(slo, c);
              && (rank >= 3 <==> c.bad as real >= allowed)
              && (rank >= 2 <==> c.bad as real > Share(1.0 - p.freeze, allowed))
              && (rank >= 1 <==> c.bad as real > Share(1.0 - p.warn, allowed))
  {
    if c.good + c.bad > 0 {
      RemainingExact(slo, c, p.freeze);
      RemainingExact(slo, c, p.warn);
    } else {
      Divided(0.0, 1.0 - slo.objective);
      ShareLaws(0.0 / (1.0 - slo.objective), 0.0, 1.0 - slo.objective);
      ShareLaws(0.0, 0.0 / (1.0 - slo.objective), 1.0 - slo.objective);
    }
  }

  // More allowed samples and no more bad ones never raise the level.
  lemma MoreAllowed(slo: Slo, p: Policy, c: Counts, d: Counts)
    requires ValidSlo(slo) && ValidPolicy(p) && c.good + c.bad > 0 && d.good + d.bad > 0
    requires d.bad <= c.bad && c.good + c.bad <= d.good + d.bad
    ensures Rank(LevelOf(slo, p, d)) <= Rank(LevelOf(slo, p, c))
  {
    LevelExact(slo, p, c);
    LevelExact(slo, p, d);
    ShareGrows(1.0 - slo.objective, (c.good + c.bad) as real, (d.good + d.bad) as real);
    ShareGrows(1.0 - p.freeze, Allowed(slo, c), Allowed(slo, d));
    ShareGrows(1.0 - p.warn, Allowed(slo, c), Allowed(slo, d));
  }

  // One more good sample counted, even if it is the first one.
  lemma GoodCountHelps(slo: Slo, p: Policy, c: Counts)
    requires ValidSlo(slo) && ValidPolicy(p)
    ensures Rank(LevelOf(slo, p, c.(good := c.good + 1))) <= Rank(LevelOf(slo, p, c))
  {
    if c.good + c.bad > 0 {
      MoreAllowed(slo, p, c, c.(good := c.good + 1));
    } else {
      var d := Counts(1, 0);
      var x := BadShare(slo, d);
      LevelExact(slo, p, c);
      LevelExact(slo, p, d);
      ShareGrows(1.0 - p.warn, 0.0, Allowed(slo, d));
      ShareLaws(1.0 - p.warn, 0.0, 0.0);
    }
  }

  // One good sample counted as bad.
  lemma BadCountHurts(slo: Slo, p: Policy, c: Counts)
    requires ValidSlo(slo) && ValidPolicy(p) && c.good > 0
    ensures Rank(LevelOf(slo, p, c)) <= Rank(LevelOf(slo, p, Counts(c.good - 1, c.bad + 1)))
  {
    MoreAllowed(slo, p, Counts(c.good - 1, c.bad + 1), c);
  }

  // ------------------------------------------------------------ only the counts matter

  function InWindow(slo: Slo, now: int, samples: seq<Sample>): nat {
    if samples == [] then 0 else InWindow(slo, now, samples[1..]) + if InScope(samples[0], slo, now) then 1 else 0
  }

  // Good and bad samples are all the samples in the window.
  lemma {:induction false} CountsCover(slo: Slo, now: int, samples: seq<Sample>)
    requires ValidSlo(slo) && Count(slo, now, samples).Some?
    ensures var c := Count(slo, now, samples).value; c.good + c.bad == InWindow(slo, now, samples)
  {
    if samples != [] { CountsCover(slo, now, samples[1..]); }
  }

  lemma AddLaws(a: Option<Counts>, b: Option<Counts>, c: Option<Counts>)
    ensures Add(a, Add(b, c)) == Add(b, Add(a, c))
  {
  }

  // Any sample can be counted first.
  lemma {:induction false} CountFirst(slo: Slo, now: int, samples: seq<Sample>, i: nat)
    requires ValidSlo(slo) && i < |samples|
    ensures Count(slo, now, samples) ==
            Add(Judge(slo, now, samples[i]), Count(slo, now, samples[..i] + samples[i + 1..]))
  {
    var rest := samples[..i] + samples[i + 1..];
    if i == 0 {
      assert rest == samples[1..];
    } else {
      CountFirst(slo, now, samples[1..], i - 1);
      assert rest[1..] == samples[1..][..i - 1] + samples[1..][i..];
      AddLaws(Judge(slo, now, samples[0]), Judge(slo, now, samples[i]), Count(slo, now, rest[1..]));
    }
  }

  // ------------------------------------------------------------ what is counted

  // Tagged with the objective's name and no older than its window.
  predicate Here(slo: Slo, now: int, s: Sample) { s.sloName == slo.name && now - s.observedAt <= slo.window }

  predicate Blind(slo: Slo, s: Sample) {
    (slo.kind.Availability? && s.statusCode.None?) || (slo.kind.Latency? && s.latencyMs.None?) ||
    (slo.kind.SuccessRate? && s.success.None?)
  }

  // A status that is not one of the classes 1xx to 4xx, a latency above the threshold, or a
  // failure.
  predicate Bad(slo: Slo, s: Sample) {
    match slo.kind
    case Availability => s.statusCode.Some? && s.statusCode.value / 100 !in {1, 2, 3, 4}
    case Latency => s.latencyMs.Some? && slo.thresholdMs.Some? && s.latencyMs.value > slo.thresholdMs.value
    case SuccessRate => s.success == Some(false)
  }

  lemma JudgeIs(slo: Slo, now: int, s: Sample)
    requires ValidSlo(slo)
    ensures Judge(slo, now, s) ==
            if !Here(slo, now, s) then Some(Counts(0, 0))
            else if Blind(slo, s) then None
            else Some(if Bad(slo, s) then Counts(0, 1) else Counts(1, 0))
  {
  }

  function BadAt(slo: Slo, now: int, samples: seq<Sample>): set<nat> {
    set k: nat | k < |samples| && Here(slo, now, samples[k]) && Bad(slo, samples[k])
  }

  function GoodAt(slo: Slo, now: int, samples: seq<Sample>): set<nat> {
    set k: nat | k < |samples| && Here(slo, now, samples[k]) && !Bad(slo, samples[k])
  }

  lemma BadGrows(slo: Slo, now: int, samples: seq<Sample>, n: nat)
    requires n + 1 == |samples|
    ensures |BadAt(slo, now, samples)| ==
            |BadAt(slo, now, samples[..n])| + if Here(slo, now, samples[n]) && Bad(slo, samples[n]) then 1 else 0
  {
    assert BadAt(slo, now, samples) ==
           BadAt(slo, now, samples[..n]) + if Here(slo, now, samples[n]) && Bad(slo, samples[n]) then {n} else {};
  }

  lemma GoodGrows(slo: Slo, now: int, samples: seq<Sample>, n: nat)
    requires n + 1 == |samples|
    ensures |GoodAt(slo, now, samples)| ==
            |GoodAt(slo, now, samples[..n])| + if Here(slo, now, samples[n]) && !Bad(slo, samples[n]) then 1 else 0
  {
    assert GoodAt(slo, now, samples) ==
           GoodAt(slo, now, samples[..n]) + if Here(slo, now, samples[n]) && !Bad(slo, samples[n]) then {n} else {};
  }

  lemma CountLast(slo: Slo, now: int, samples: seq<Sample>, n: nat)
    requires ValidSlo(slo) && n + 1 == |samples|
    ensures Count(slo, now, samples) == Add(Judge(slo, now, samples[n]), Count(slo, now, samples[..n]))
  {
    CountFirst(slo, now, samples, n);
    assert samples[..n] + samples[n + 1..] == samples[..n];
  }

  predicate SomeBlind(slo: Slo, now: int, samples: seq<Sample>) {
    exists k :: 0 <= k < |samples| && Here(slo, now, samples[k]) && Blind(slo, samples[k])
  }

  lemma BlindGrows(slo: Slo, now: int, samples: seq<Sample>, n: nat)
    requires n + 1 == |samples|
    ensures SomeBlind(slo, now, samples) <==>
            SomeBlind(slo, now, samples[..n]) || (Here(slo, now, samples[n]) && Blind(slo, samples[n]))
  {
    if SomeBlind(slo, now, samples[..n]) {
      var k :| 0 <= k < n && Here(slo, now, samples[..n][k]) && Blind(slo, samples[..n][k]);
      assert samples[k] == samples[..n][k];
    }
    if k :| 0 <= k < |samples| && Here(slo, now, samples[k]) && Blind(slo, samples[k]) {
      if k < n { assert samples[..n][k] == samples[k]; }
    }
  }

  // The counts of every stream: the bad samples in the window and the others there, or nothing
  // when one of them lacks what the objective is about.
  lemma {:induction false} CountsAre(slo: Slo, now: int, samples: seq<Sample>)
    requires ValidSlo(slo)
    ensures Count(slo, now, samples) ==
            if SomeBlind(slo, now, samples) then None
            else Some(Counts(|GoodAt(slo, now, samples)|, |BadAt(slo, now, samples)|))
  {
    if samples != [] {
      var n := |samples| - 1;
      CountsAre(slo, now, samples[..n]);
      CountLast(slo, now, samples, n);
      JudgeIs(slo, now, samples[n]);
      BadGrows(slo, now, samples, n);
      GoodGrows(slo, now, samples, n);
      BlindGrows(slo, now, samples, n);
    }
  }

  // ------------------------------------------------------------ one sample more, or worse

  // A sample in the window that can be judged, and its verdict.
  predicate Judged(slo: Slo, now: int, s: Sample, good: bool)
    requires ValidSlo(slo)
  {
    Judge(slo, now, s) == Some(if good then Counts(1, 0) else Counts(0, 1))
  }

  // A good sample arriving anywhere in the stream never raises the level.
  lemma GoodSampleHelps(slo: Slo, p: Policy, now: int, samples: seq<Sample>, i: nat, s: Sample)
    requires ValidSlo(slo) && ValidPolicy(p) && Count(slo, now, samples).Some?
    requires i <= |samples| && Judged(slo, now, s, true)
    ensures var more := samples[..i] + [s] + samples[i..];
            Count(slo, now, more).Some? &&
            Rank(LevelOf(slo, p, Count(slo, now, more).value)) <= Rank(LevelOf(slo, p, Count(slo, now, samples).value))
  {
    var more := samples[..i] + [s] + samples[i..];
    CountFirst(slo, now, more, i);
    assert more[..i] + more[i + 1..] == samples;
    GoodCountHelps(slo, p, Count(slo, now, samples).value);
  }

  // A good sample turned bad never lowers it.
  lemma BadSampleHurts(slo: Slo, p: Policy, now: int, samples: seq<Sample>, i: nat, s: Sample)
    requires ValidSlo(slo) && ValidPolicy(p) && Count(slo, now, samples).Some?
    requires i < |samples| && Judged(slo, now, samples[i], true) && Judged(slo, now, s, false)
    ensures var worse := samples[i := s];
            Count(slo, now, worse).Some? &&
            Rank(LevelOf(slo, p, Count(slo, now, samples).value)) <= Rank(LevelOf(slo, p, Count(slo, now, worse).value))
  {
    var worse := samples[i := s];
    CountFirst(slo, now, samples, i);
    CountFirst(slo, now, worse, i);
    assert worse[..i] + worse[i + 1..] == samples[..i] + samples[i + 1..];
    BadCountHurts(slo, p, Count(slo, now, samples).value);
  }

  lemma Removed(samples: seq<Sample>, i: nat)
    requires i < |samples|
    ensures multiset(samples[..i] + samples[i + 1..]) == multiset(samples) - multiset{samples[i]}
  {
    assert samples == samples[..i] + [samples[i]] + samples[i + 1..];
  }

  lemma HeadFirst(samples: seq<Sample>)
    requires samples != []
    ensures multiset(samples[1..]) == multiset(samples) - multiset{samples[0]}
  {
    assert samples == [samples[0]] + samples[1..];
  }

  // The first sample of one list, found in a permutation of it.
  lemma Matched(x: seq<Sample>, y: seq<Sample>) returns (i: nat)
    requires x != [] && multiset(x) == multiset(y)
    ensures i < |y| && y[i] == x[0] && multiset(x[1..]) == multiset(y[..i] + y[i + 1..])
  {
    HeadFirst(x);
    assert x[0] in multiset(x);
    i :| 0 <= i < |y| && y[i] == x[0];
    Removed(y, i);
  }

  // The evaluation does not depend on the order of the samples.
  lemma {:induction false} OrderIrrelevant(slo: Slo, now: int, x: seq<Sample>, y: seq<Sample>)
    requires ValidSlo(slo) && multiset(x) == multiset(y)
    ensures Count(slo, now, x) == Count(slo, now, y)
    decreases |x|
  {
    if x == [] {
      assert |y| == |multiset(y)| == |multiset(x)| == 0;
    } else {
      var i := Matched(x, y);
      CountFirst(slo, now, y, i);
      OrderIrrelevant(slo, now, x[1..], y[..i] + y[i + 1..]);
    }
  }
}
