/** What the cache owes its callers, told from the observed history alone: which write a hit
    returns, and how many other keys may be used before a key can be evicted. */
module LruHistory {
  import opened Options
  import opened LruSpec

  datatype Event<K, V> =
    | Hit(key: K)
    | Miss(key: K, now: int)
    | Written(key: K, entry: Entry<V>)
    | Removed(key: K)
    | Cleared

  function Observe<K(==), V>(c: Cache<K, V>, op: Op<K, V>): Event<K, V> {
    match op
    case Get(key, now) => if Answer(c, key, now).Some? then Hit(key) else Miss(key, now)
    case Put(key, e) => Written(key, e)
    case Invalidate(key) => Removed(key)
    case Clear => Cleared
  }

  // The events of a whole run, each observed in the state it met.
  function History<K(==), V>(capacity: nat, ops: seq<Op<K, V>>): seq<Event<K, V>> {
    if ops == [] then []
    else History(capacity, ops[..|ops| - 1]) + [Observe(Run(capacity, ops[..|ops| - 1]), ops[|ops| - 1])]
  }

  // The write still in force for `key`: the last one not invalidated, cleared, or seen expired.
  function LastWrite<K(==), V>(ev: seq<Event<K, V>>, key: K): Option<Entry<V>> {
    if ev == [] then None
    else
      var before := LastWrite(ev[..|ev| - 1], key);
      match ev[|ev| - 1]
      case Written(k, e) => if k == key then Some(e) else before
      case Removed(k) => if k == key then None else before
      case Cleared => None
      case Miss(k, now) => if k == key && before.Some? && Expired(before.value, now) then None else before
      case Hit(_) => before
  }

  predicate Touches<K(==), V>(e: Event<K, V>, key: K) {
    (e.Hit? || e.Written?) && e.key == key
  }

  // The other keys hit or written since `key` last was.
  function Since<K(==), V>(ev: seq<Event<K, V>>, key: K): set<K> {
    if ev == [] || Touches(ev[|ev| - 1], key) then {}
    else
      var before := Since(ev[..|ev| - 1], key);
      var last := ev[|ev| - 1];
      if last.Hit? || last.Written? then before + {last.key} else before
  }

  // Each slot holds the write in force for its key, and everything behind it is newer.
  predicate Explained<K(==), V(==)>(ev: seq<Event<K, V>>, s: seq<Slot<K, V>>) {
    s == [] ||
    (LastWrite(ev, s[0].key) == Some(s[0].entry) && Keys(s[1..]) <= Since(ev, s[0].key) && Explained(ev, s[1..]))
  }

  // Nothing newer than a slot is missing behind it.
  predicate Complete<K(==), V>(ev: seq<Event<K, V>>, s: seq<Slot<K, V>>) {
    s == [] || (Since(ev, s[0].key) <= Keys(s[1..]) && Complete(ev, s[1..]))
  }

  lemma Extend<K, V>(ev: seq<Event<K, V>>, e: Event<K, V>)
    ensures (ev + [e])[..|ev|] == ev
  {
  }

  lemma ExplainedTouch<K, V>(ev: seq<Event<K, V>>, s: seq<Slot<K, V>>, e: Event<K, V>, x: Slot<K, V>)
    requires Explained(ev, s) && Distinct(s)
    requires Touches(e, x.key) && LastWrite(ev + [e], x.key) == Some(x.entry)
    ensures Explained(ev + [e], Drop(s, x.key) + [x])
    ensures Complete(ev, s) ==> Complete(ev + [e], Drop(s, x.key) + [x])
  {
    Extend(ev, e);
    var d := Drop(s, x.key) + [x];
    if s == [] {
      assert d == [x];
    } else {
      ExplainedTouch(ev, s[1..], e, x);
      if s[0].key != x.key {
        assert d[1..] == Drop(s[1..], x.key) + [x];
        Appended(Drop(s[1..], x.key), x);
      } else {
        DropAbsent(s[1..], x.key);
        CompleteTouch(ev, s[1..], e, x);
      }
    }
  }

  lemma CompleteTouch<K, V>(ev: seq<Event<K, V>>, s: seq<Slot<K, V>>, e: Event<K, V>, x: Slot<K, V>)
    requires x.key !in Keys(s) && Touches(e, x.key)
    ensures Complete(ev, s) ==> Complete(ev + [e], s + [x])
  {
    Extend(ev, e);
    if s == [] {
      assert s + [x] == [x];
    } else {
      CompleteTouch(ev, s[1..], e, x);
      assert (s + [x])[1..] == s[1..] + [x];
      Appended(s[1..], x);
    }
  }

  // An event that touches nothing and leaves the writes of `s` in force.
  lemma ExplainedQuiet<K, V>(ev: seq<Event<K, V>>, s: seq<Slot<K, V>>, e: Event<K, V>, key: K)
    requires Explained(ev, s) && Distinct(s) && key !in Keys(s)
    requires (e.Removed? || e.Miss?) && e.key == key
    ensures Explained(ev + [e], s)
    ensures Complete(ev, s) ==> Complete(ev + [e], s)
  {
    Extend(ev, e);
    if s != [] { ExplainedQuiet(ev, s[1..], e, key); }
  }

  lemma ExplainedDrop<K, V>(ev: seq<Event<K, V>>, s: seq<Slot<K, V>>, key: K)
    requires Explained(ev, s)
    ensures Explained(ev, Drop(s, key))
  {
  }

  lemma Subset<T>(a: set<T>, b: set<T>)
    requires a <= b
    ensures |a| <= |b|
  {
    if a != {} {
      var x :| x in a;
      Subset(a - {x}, b - {x});
    }
  }

  lemma KeyCount<K, V>(s: seq<Slot<K, V>>)
    requires Distinct(s)
    ensures |Keys(s)| == |s|
  {
  }

  // A key whose write is in force but which is not stored was pushed out by `capacity` others.
  predicate EvictedFairly<K(==), V>(capacity: nat, ev: seq<Event<K, V>>, s: seq<Slot<K, V>>, key: K) {
    LastWrite(ev, key).Some? && key !in Keys(s) ==> |Since(ev, key)| >= capacity
  }

  lemma FairMore<K, V>(capacity: nat, ev: seq<Event<K, V>>, e: Event<K, V>, s: seq<Slot<K, V>>, t: seq<Slot<K, V>>,
                       key: K)
    requires EvictedFairly(capacity, ev, s, key) && !Touches(e, key)
    requires key in Keys(s) ==> key in Keys(t) || LastWrite(ev + [e], key).None?
    ensures EvictedFairly(capacity, ev + [e], t, key)
  {
    Extend(ev, e);
    Subset(Since(ev, key), Since(ev + [e], key));
  }

  lemma ExplainedLookup<K, V>(ev: seq<Event<K, V>>, s: seq<Slot<K, V>>, key: K)
    requires Explained(ev, s)
    ensures key in Keys(s) ==> LastWrite(ev, key) == Lookup(s, key)
  {
  }

  lemma GetKeeps<K, V>(capacity: nat, ev: seq<Event<K, V>>, c: Cache<K, V>, key: K, now: int, other: K)
    requires Distinct(c.slots) && Explained(ev, c.slots) && EvictedFairly(capacity, ev, c.slots, other)
    ensures var e := Observe(c, Get(key, now));
            var s := Step(c, capacity, Get(key, now)).slots;
            && Explained(ev + [e], s)
            && EvictedFairly(capacity, ev + [e], s, other)
            && (Complete(ev, c.slots) && NothingExpires(c.slots) ==> Complete(ev + [e], s))
  {
    var s, e := c.slots, Observe(c, Get(key, now));
    var t := Step(c, capacity, Get(key, now)).slots;
    Extend(ev, e);
    ExplainedLookup(ev, s, key);
    match Lookup(s, key) {
      case None => ExplainedQuiet(ev, s, e, key);
      case Some(x) =>
        if Expired(x, now) {
          ExplainedDrop(ev, s, key);
          DropShape(s, key);
          ExplainedQuiet(ev, Drop(s, key), e, key);
          if NothingExpires(s) { NothingExpiresKept(s, key, x); }
        } else {
          ExplainedTouch(ev, s, e, Slot(key, x));
          Appended(Drop(s, key), Slot(key, x));
        }
    }
    if !Touches(e, other) { FairMore(capacity, ev, e, s, t, other); }
  }

  // A write in front of any eviction.
  lemma WriteKeeps<K, V>(capacity: nat, ev: seq<Event<K, V>>, s: seq<Slot<K, V>>, key: K, x: Entry<V>, other: K)
    requires Distinct(s) && Explained(ev, s) && EvictedFairly(capacity, ev, s, other)
    ensures var e, t := Written(key, x), Drop(s, key) + [Slot(key, x)];
            && Distinct(t) && Explained(ev + [e], t) && EvictedFairly(capacity, ev + [e], t, other)
            && (Complete(ev, s) ==> Complete(ev + [e], t))
  {
    var e := Written(key, x);
    Extend(ev, e);
    ExplainedTouch(ev, s, e, Slot(key, x));
    Appended(Drop(s, key), Slot(key, x));
    TouchShape(s, key, x);
    if !Touches(e, other) { FairMore(capacity, ev, e, s, Drop(s, key) + [Slot(key, x)], other); }
  }

  // The oldest of `capacity` + 1 slots may go: all the others are newer.
  lemma OldestGoes<K, V>(capacity: nat, ev: seq<Event<K, V>>, t: seq<Slot<K, V>>, other: K)
    requires |t| == capacity + 1 && Distinct(t) && Explained(ev, t) && EvictedFairly(capacity, ev, t, other)
    ensures Explained(ev, t[1..]) && EvictedFairly(capacity, ev, t[1..], other)
    ensures Complete(ev, t) ==> Complete(ev, t[1..])
  {
    KeyCount(t[1..]);
    Subset(Keys(t[1..]), Since(ev, t[0].key));
  }

  lemma PutSlots<K, V>(capacity: nat, c: Cache<K, V>, key: K, x: Entry<V>)
    requires Distinct(c.slots) && |c.slots| <= capacity
    ensures var t := Drop(c.slots, key) + [Slot(key, x)];
            |t| <= capacity + 1 &&
            Step(c, capacity, Put(key, x)).slots == if |t| > capacity then t[1..] else t
  {
    TouchShape(c.slots, key, x);
    EvictShape(c.(slots := Drop(c.slots, key) + [Slot(key, x)]), capacity);
  }

  lemma PutKeeps<K, V>(capacity: nat, ev: seq<Event<K, V>>, c: Cache<K, V>, key: K, x: Entry<V>, other: K)
    requires Distinct(c.slots) && |c.slots| <= capacity
    requires Explained(ev, c.slots) && EvictedFairly(capacity, ev, c.slots, other)
    ensures var e := Written(key, x);
            var s := Step(c, capacity, Put(key, x)).slots;
            && Explained(ev + [e], s)
            && EvictedFairly(capacity, ev + [e], s, other)
            && (Complete(ev, c.slots) ==> Complete(ev + [e], s))
  {
    var t := Drop(c.slots, key) + [Slot(key, x)];
    WriteKeeps(capacity, ev, c.slots, key, x, other);
    PutSlots(capacity, c, key, x);
    if |t| > capacity { OldestGoes(capacity, ev + [Written(key, x)], t, other); }
  }

  lemma InvalidateKeeps<K, V>(capacity: nat, ev: seq<Event<K, V>>, s: seq<Slot<K, V>>, key: K, other: K)
    requires Distinct(s) && Explained(ev, s) && EvictedFairly(capacity, ev, s, other)
    ensures Explained(ev + [Removed(key)], Drop(s, key)) &&
            EvictedFairly(capacity, ev + [Removed(key)], Drop(s, key), other)
  {
    Extend(ev, Removed(key));
    ExplainedDrop(ev, s, key);
    DropShape(s, key);
    ExplainedQuiet(ev, Drop(s, key), Removed(key), key);
    FairMore(capacity, ev, Removed(key), s, Drop(s, key), other);
  }

  lemma StepKeeps<K, V>(capacity: nat, ev: seq<Event<K, V>>, c: Cache<K, V>, op: Op<K, V>, other: K)
    requires Distinct(c.slots) && |c.slots| <= capacity
    requires Explained(ev, c.slots) && EvictedFairly(capacity, ev, c.slots, other)
    ensures Explained(ev + [Observe(c, op)], Step(c, capacity, op).slots)
    ensures EvictedFairly(capacity, ev + [Observe(c, op)], Step(c, capacity, op).slots, other)
  {
    match op {
      case Get(key, now) => GetKeeps(capacity, ev, c, key, now, other);
      case Put(key, x) => PutKeeps(capacity, ev, c, key, x, other);
      case Invalidate(key) => InvalidateKeeps(capacity, ev, c.slots, key, other);
      case Clear => Extend(ev, Cleared);
    }
  }

  lemma {:induction false} RunKeeps<K, V>(capacity: nat, ops: seq<Op<K, V>>, other: K)
    ensures Explained(History(capacity, ops), Run(capacity, ops).slots)
    ensures EvictedFairly(capacity, History(capacity, ops), Run(capacity, ops).slots, other)
  {
    if ops != [] {
      var n := |ops| - 1;
      RunKeeps(capacity, ops[..n], other);
      RunShape(capacity, ops[..n]);
      StepKeeps(capacity, History(capacity, ops[..n]), Run(capacity, ops[..n]), ops[n], other);
    }
  }

  // -------------------------------------------------------------- the theorems

  // A hit returns the value of the write in force, and only while it has not expired.
  lemma HitIsLastWrite<K, V>(capacity: nat, ops: seq<Op<K, V>>, key: K, now: int)
    ensures var answer, last := Answer(Run(capacity, ops), key, now), LastWrite(History(capacity, ops), key);
            answer.Some? ==> last.Some? && !Expired(last.value, now) && answer.value == last.value.value
  {
    RunKeeps(capacity, ops, key);
    ExplainedLookup(History(capacity, ops), Run(capacity, ops).slots, key);
  }

  // A live write can be missed only after `capacity` other keys have been used since.
  lemma RecentKeysHit<K, V>(capacity: nat, ops: seq<Op<K, V>>, key: K, now: int)
    requires LastWrite(History(capacity, ops), key).Some?
    requires !Expired(LastWrite(History(capacity, ops), key).value, now)
    requires |Since(History(capacity, ops), key)| < capacity
    ensures Answer(Run(capacity, ops), key, now) == Some(LastWrite(History(capacity, ops), key).value.value)
  {
    RunKeeps(capacity, ops, key);
    ExplainedLookup(History(capacity, ops), Run(capacity, ops).slots, key);
  }

  // A trace in which nothing is removed: no TTL, no invalidation, no clear.
  predicate Steady<K, V>(ops: seq<Op<K, V>>) {
    forall i :: 0 <= i < |ops| ==> ops[i].Get? || (ops[i].Put? && ops[i].entry.expiresAt.None?)
  }

  lemma {:induction false} SteadyKeeps<K, V>(capacity: nat, ops: seq<Op<K, V>>, key: K)
    requires Steady(ops)
    ensures Complete(History(capacity, ops), Run(capacity, ops).slots)
    ensures NothingExpires(Run(capacity, ops).slots)
  {
    if ops != [] {
      var n := |ops| - 1;
      var c := Run(capacity, ops[..n]);
      SteadyKeeps(capacity, ops[..n], key);
      RunKeeps(capacity, ops[..n], key);
      RunShape(capacity, ops[..n]);
      match ops[n] {
        case Get(k, now) =>
          GetKeeps(capacity, History(capacity, ops[..n]), c, k, now, key);
          if k in Keys(c.slots) { NothingExpiresKept(c.slots, k, Lookup(c.slots, k).value); }
        case Put(k, x) =>
          PutKeeps(capacity, History(capacity, ops[..n]), c, k, x, key);
          NothingExpiresKept(c.slots, k, x);
          TouchShape(c.slots, k, x);
          EvictShape(c.(slots := Drop(c.slots, k) + [Slot(k, x)]), capacity);
      }
    }
  }

  lemma CompleteCount<K, V>(ev: seq<Event<K, V>>, s: seq<Slot<K, V>>, key: K)
    requires Complete(ev, s) && Distinct(s) && key in Keys(s)
    ensures |Since(ev, key)| < |s|
  {
    if s[0].key == key {
      Subset(Since(ev, key), Keys(s[1..]));
      KeyCount(s[1..]);
    } else {
      CompleteCount(ev, s[1..], key);
    }
  }

  // Without removals eviction is exactly least-recently-used: a written key is still cached
  // if and only if fewer than `capacity` other keys have been used since its last use.
  lemma CachedIffRecent<K, V>(capacity: nat, ops: seq<Op<K, V>>, key: K)
    requires Steady(ops) && LastWrite(History(capacity, ops), key).Some?
    ensures key in Keys(Run(capacity, ops).slots) <==> |Since(History(capacity, ops), key)| < capacity
  {
    RunKeeps(capacity, ops, key);
    RunShape(capacity, ops);
    SteadyKeeps(capacity, ops, key);
    if key in Keys(Run(capacity, ops).slots) {
      CompleteCount(History(capacity, ops), Run(capacity, ops).slots, key);
    }
  }

  function Gets<K, V>(ops: seq<Op<K, V>>): nat {
    if ops == [] then 0 else Gets(ops[..|ops| - 1]) + if ops[|ops| - 1].Get? then 1 else 0
  }

  function HitCount<K, V>(ev: seq<Event<K, V>>): nat {
    if ev == [] then 0 else HitCount(ev[..|ev| - 1]) + if ev[|ev| - 1].Hit? then 1 else 0
  }

  // The counters tell the truth: every get is one hit or one miss.
  lemma {:induction false} CountersAddUp<K, V>(capacity: nat, ops: seq<Op<K, V>>)
    ensures var c := Run(capacity, ops); c.hits + c.misses == Gets(ops) && c.hits == HitCount(History(capacity, ops))
  {
    if ops != [] {
      var n := |ops| - 1;
      var c := Run(capacity, ops[..n]);
      CountersAddUp(capacity, ops[..n]);
      RunShape(capacity, ops[..n]);
      Extend(History(capacity, ops[..n]), Observe(c, ops[n]));
      if ops[n].Put? {
        TouchShape(c.slots, ops[n].key, ops[n].entry);
        EvictShape(c.(slots := Drop(c.slots, ops[n].key) + [Slot(ops[n].key, ops[n].entry)]), capacity);
      }
    }
  }

  // A key that is not there is written to a full cache.
  predicate Overflows<K(==), V>(c: Cache<K, V>, capacity: nat, op: Op<K, V>) {
    op.Put? && op.key !in Keys(c.slots) && |c.slots| == capacity
  }

  lemma StepEvicts<K, V>(c: Cache<K, V>, capacity: nat, op: Op<K, V>)
    requires Distinct(c.slots) && |c.slots| <= capacity
    ensures Step(c, capacity, op).evictions == c.evictions + if Overflows(c, capacity, op) then 1 else 0
  {
    if op.Put? {
      TouchShape(c.slots, op.key, op.entry);
      EvictShape(c.(slots := Drop(c.slots, op.key) + [Slot(op.key, op.entry)]), capacity);
    }
  }

  predicate OverflowAt<K(==), V>(capacity: nat, ops: seq<Op<K, V>>, k: nat)
    requires k < |ops|
  {
    Overflows(Run(capacity, ops[..k]), capacity, ops[k])
  }

  function OverflowsAt<K(==), V>(capacity: nat, ops: seq<Op<K, V>>): set<nat> {
    set k: nat | k < |ops| && OverflowAt(capacity, ops, k)
  }

  lemma OverflowEarlier<K, V>(capacity: nat, ops: seq<Op<K, V>>, n: nat, k: nat)
    requires k < n <= |ops|
    ensures OverflowAt(capacity, ops[..n], k) <==> OverflowAt(capacity, ops, k)
  {
    assert ops[..n][..k] == ops[..k];
  }

  lemma OverflowsGrow<K, V>(capacity: nat, ops: seq<Op<K, V>>, n: nat)
    requires n + 1 == |ops|
    ensures |OverflowsAt(capacity, ops)| ==
            |OverflowsAt(capacity, ops[..n])| + if OverflowAt(capacity, ops, n) then 1 else 0
  {
    forall k: nat | k < n ensures OverflowAt(capacity, ops[..n], k) <==> OverflowAt(capacity, ops, k) {
      OverflowEarlier(capacity, ops, n, k);
    }
    assert OverflowsAt(capacity, ops) ==
           OverflowsAt(capacity, ops[..n]) + if OverflowAt(capacity, ops, n) then {n} else {};
  }

  // One eviction for every such write, and for nothing else: neither expiry nor removal counts.
  lemma {:induction false} EvictionsAddUp<K, V>(capacity: nat, ops: seq<Op<K, V>>)
    ensures Run(capacity, ops).evictions == |OverflowsAt(capacity, ops)|
  {
    if ops != [] {
      var n := |ops| - 1;
      EvictionsAddUp(capacity, ops[..n]);
      RunShape(capacity, ops[..n]);
      StepEvicts(Run(capacity, ops[..n]), capacity, ops[n]);
      OverflowsGrow(capacity, ops, n);
    }
  }
}
