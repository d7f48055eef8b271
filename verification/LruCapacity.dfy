/** Where inclusion stops: get_or_compute with a TTL, for every two capacities that differ. */
module LruCapacity {
  import opened Options
  import opened LruSpec
  import opened LruInclusion

  function Timed(t: int): Entry<char> { Entry('v', Some(t)) }

  // Key 0 with a TTL, then the keys 1 to i without one.
  function Stack(i: nat): seq<Slot<int, char>> {
    if i == 0 then [Slot(0, Timed(10))] else Stack(i - 1) + [Slot(i, Entry('w', None))]
  }

  function Fill(i: nat): seq<Call<int, char>> {
    if i == 0 then [Compute(0, 0, Timed(10))] else Fill(i - 1) + [Plain(Put(i, Entry('w', None)))]
  }

  lemma {:induction false} StackShape(i: nat)
    ensures |Stack(i)| == i + 1 && Stack(i)[0] == Slot(0, Timed(10)) && Distinct(Stack(i))
    ensures forall k :: k in Keys(Stack(i)) <==> 0 <= k <= i
  {
    if i > 0 {
      StackShape(i - 1);
      Appended(Stack(i - 1), Slot(i, Entry('w', None)));
    }
  }

  lemma RunMore<K, V>(capacity: nat, calls: seq<Call<K, V>>, call: Call<K, V>)
    ensures RunCalls(capacity, calls + [call]) == Apply(RunCalls(capacity, calls), capacity, call)
  {
    assert (calls + [call])[..|calls|] == calls;
  }

  // With room for them all, or for all but one: then key 0 goes.
  lemma {:induction false} FillRun(capacity: nat, i: nat)
    requires 1 <= capacity && i <= capacity
    ensures RunCalls(capacity, Fill(i)) ==
            if i < capacity then Cache(Stack(i), 0, 1, 0) else Cache(Stack(i)[1..], 0, 1, 1)
  {
    StackShape(i);
    if i == 0 {
      assert Fill(0) == [] + Fill(0);
      RunMore(capacity, [], Fill(0)[0]);
    } else {
      FillRun(capacity, i - 1);
      StackShape(i - 1);
      RunMore(capacity, Fill(i - 1), Plain(Put(i, Entry('w', None))));
      DropAbsent(Stack(i - 1), i);
      EvictShape(Cache(Stack(i), 0, 1, 0), capacity);
    }
  }

  function Trace(k: nat): seq<Call<int, char>> {
    Fill(k) + [Compute(0, 5, Timed(15))] + [Plain(Get(0, 12))] + [Plain(Get(0, 13))]
  }

  lemma TraceRun(capacity: nat, k: nat)
    ensures RunCalls(capacity, Trace(k)) ==
            Step(Step(Apply(RunCalls(capacity, Fill(k)), capacity, Compute(0, 5, Timed(15))), capacity, Get(0, 12)),
                 capacity, Get(0, 13))
  {
    var a := Fill(k) + [Compute(0, 5, Timed(15))];
    var b := a + [Plain(Get(0, 12))];
    RunMore(capacity, Fill(k), Compute(0, 5, Timed(15)));
    RunMore(capacity, a, Plain(Get(0, 12)));
    RunMore(capacity, b, Plain(Get(0, 13)));
  }

  // A live entry answers twice.
  lemma HitsTwice(c: Cache<int, char>, capacity: nat)
    requires Lookup(c.slots, 0) == Some(Timed(15))
    ensures var d := Step(Step(c, capacity, Get(0, 12)), capacity, Get(0, 13));
            d.hits == c.hits + 2 && 0 in Keys(d.slots)
  {
    var x := Slot(0, Timed(15));
    var s := Drop(c.slots, 0) + [x];
    Appended(Drop(c.slots, 0), x);
    Appended(Drop(s, 0), x);
  }

  // With room for k keys the second get_or_compute misses and renews the expiry.
  lemma SmallRun(k: nat)
    requires 1 <= k
    ensures RunCalls(k, Trace(k)).hits == 2 && 0 in Keys(RunCalls(k, Trace(k)).slots)
  {
    var s, x := Stack(k)[1..], Slot(0, Timed(15));
    FillRun(k, k);
    StackShape(k);
    DropAbsent(s, 0);
    Appended(s, x);
    EvictShape(Cache(s + [x], 0, 2, 1), k);
    assert (s + [x])[1..] == s[1..] + [x];
    assert s == [s[0]] + s[1..];
    Appended(s[1..], x);
    TraceRun(k, k);
    HitsTwice(Apply(Cache(s, 0, 1, 1), k, Compute(0, 5, Timed(15))), k);
  }

  // With room for one more it hits and keeps the old expiry.
  lemma LargeRun(k: nat, k': nat)
    requires 1 <= k < k'
    ensures RunCalls(k', Trace(k)).hits == 1 && 0 !in Keys(RunCalls(k', Trace(k)).slots)
  {
    var s, x := Stack(k), Slot(0, Timed(10));
    FillRun(k', k);
    StackShape(k);
    assert Lookup(s, 0) == Some(Timed(10));
    Appended(Drop(s, 0), x);
    TraceRun(k', k);
  }

  // For any two capacities that differ, the smaller cache ends with more hits and a key that the
  // larger one lacks: the miss renewed the expiry in the smaller one only.
  lemma ComputeWithTtlBreaksInclusion(k: nat, k': nat)
    requires 1 <= k < k'
    ensures var small, large := RunCalls(k, Trace(k)), RunCalls(k', Trace(k));
            small.hits > large.hits && 0 in Keys(small.slots) && 0 !in Keys(large.slots)
  {
    SmallRun(k);
    LargeRun(k, k');
  }

  // With every call allowed, a larger cache is sure to hit no less only if it is not larger at all.
  lemma HitsMonotoneIffEqual(k: nat, k': nat)
    requires 1 <= k <= k'
    ensures (forall calls: seq<Call<int, char>> :: RunCalls(k, calls).hits <= RunCalls(k', calls).hits) <==> k == k'
  {
    if k < k' {
      ComputeWithTtlBreaksInclusion(k, k');
      assert RunCalls(k, Trace(k)).hits > RunCalls(k', Trace(k)).hits;
    }
  }
}
