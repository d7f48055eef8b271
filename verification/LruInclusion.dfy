/** Stack inclusion: the same calls sent to a small and to a large LRU cache leave the
    small one inside the large one, with expiry, invalidation and clearing in the trace. */
module LruInclusion {
  import opened Options
  import opened LruSpec

  // A public call. `Compute` is get_or_compute: a get at `t0` and, after a miss, a put of
  // the factory's value.
  datatype Call<K, V> =
    | Plain(op: Op<K, V>)
    | Compute(key: K, t0: int, computed: Entry<V>)

  function Apply<K(==), V>(c: Cache<K, V>, capacity: nat, call: Call<K, V>): Cache<K, V> {
    match call
    case Plain(op) => Step(c, capacity, op)
    case Compute(key, t0, e) =>
      var c1 := Step(c, capacity, Get(key, t0));
      if Answer(c, key, t0).Some? then c1 else Step(c1, capacity, Put(key, e))
  }

  function RunCalls<K(==), V>(capacity: nat, calls: seq<Call<K, V>>): Cache<K, V> {
    if calls == [] then Empty()
    else Apply(RunCalls(capacity, calls[..|calls| - 1]), capacity, calls[|calls| - 1])
  }

  // The two kinds of trace for which inclusion is claimed: `WithExpiry` allows any TTLs but
  // no get_or_compute; `NoExpiry` allows every call but nothing ever expires.
  datatype Mode = WithExpiry | NoExpiry

  predicate Allowed<K, V>(mode: Mode, call: Call<K, V>) {
    match mode
    case WithExpiry => call.Plain?
    case NoExpiry =>
      (match call
       case Plain(op) => op.Put? ==> op.entry.expiresAt.None?
       case Compute(_, _, e) => e.expiresAt.None?)
  }

  predicate Related<V(==)>(mode: Mode, small: Entry<V>, large: Entry<V>) {
    match mode
    case WithExpiry => small == large
    case NoExpiry => small.expiresAt.None? && large.expiresAt.None?
  }

  // `small` is a subsequence of `large`: same relative order, related entries.
  predicate Within<K(==), V(==)>(mode: Mode, small: seq<Slot<K, V>>, large: seq<Slot<K, V>>) {
    if small == [] then true
    else if large == [] then false
    else if small[0].key == large[0].key then
      Related(mode, small[0].entry, large[0].entry) && Within(mode, small[1..], large[1..])
    else Within(mode, small, large[1..])
  }

  lemma WithinLookup<K, V>(mode: Mode, a: seq<Slot<K, V>>, b: seq<Slot<K, V>>)
    requires Within(mode, a, b) && Distinct(b)
    ensures |a| <= |b| && Keys(a) <= Keys(b)
    ensures forall k :: k in Keys(a) ==> Related(mode, Lookup(a, k).value, Lookup(b, k).value)
  {
    if a != [] {
      if a[0].key == b[0].key { WithinLookup(mode, a[1..], b[1..]); } else { WithinLookup(mode, a, b[1..]); }
    }
  }

  lemma WithinDrop<K, V>(mode: Mode, a: seq<Slot<K, V>>, b: seq<Slot<K, V>>, key: K)
    requires Within(mode, a, b) && Distinct(a) && Distinct(b)
    ensures Within(mode, Drop(a, key), Drop(b, key))
  {
    if a != [] {
      if a[0].key == b[0].key {
        WithinDrop(mode, a[1..], b[1..], key);
      } else {
        WithinDrop(mode, a, b[1..], key);
        WithinLookup(mode, a, b[1..]);
        WithinCons(mode, Drop(a, key), b[0], Drop(b[1..], key));
      }
    }
  }

  // A head that the small list does not contain can be put in front of the large list.
  lemma WithinCons<K, V>(mode: Mode, a: seq<Slot<K, V>>, h: Slot<K, V>, b: seq<Slot<K, V>>)
    requires Within(mode, a, b) && h.key !in Keys(a)
    ensures Within(mode, a, [h] + b)
  {
    assert ([h] + b)[1..] == b;
  }

  lemma WithinAppend<K, V>(mode: Mode, a: seq<Slot<K, V>>, b: seq<Slot<K, V>>, x: Slot<K, V>, y: Slot<K, V>)
    requires Within(mode, a, b) && x.key == y.key && x.key !in Keys(a) && x.key !in Keys(b)
    requires Related(mode, x.entry, y.entry)
    ensures Within(mode, a + [x], b + [y])
  {
    if b == [] {
      assert a + [x] == [x] && b + [y] == [y];
    } else if a != [] && a[0].key == b[0].key {
      WithinAppend(mode, a[1..], b[1..], x, y);
      assert (a + [x])[1..] == a[1..] + [x] && (b + [y])[1..] == b[1..] + [y];
    } else {
      WithinAppend(mode, a, b[1..], x, y);
      assert (b + [y])[1..] == b[1..] + [y];
      assert (a + [x])[0].key != b[0].key;
    }
  }

  // A slot appended to the large list only.
  lemma WithinWider<K, V>(mode: Mode, a: seq<Slot<K, V>>, b: seq<Slot<K, V>>, y: Slot<K, V>)
    requires Within(mode, a, b)
    ensures Within(mode, a, b + [y])
  {
    if a != [] {
      assert (b + [y])[1..] == b[1..] + [y];
      if a[0].key == b[0].key { WithinWider(mode, a[1..], b[1..], y); } else { WithinWider(mode, a, b[1..], y); }
    }
  }

  lemma WithinTail<K, V>(mode: Mode, a: seq<Slot<K, V>>, b: seq<Slot<K, V>>)
    requires Within(mode, a, b) && a != [] && Distinct(a) && Distinct(b)
    ensures Within(mode, a[1..], b) && Within(mode, a[1..], b[1..])
  {
    if a[0].key == b[0].key {
      if |a| > 1 { assert a[1].key in Keys(a[1..]); }
    } else {
      WithinTail(mode, a, b[1..]);
      WithinLookup(mode, a, b[1..]);
      if |a| > 1 { assert a[1].key in Keys(a[1..]); }
    }
  }

  // -------------------------------------------------------------- the theorem

  // What the two caches keep between calls.
  ghost predicate Included<K, V>(mode: Mode, k: nat, k': nat, small: Cache<K, V>, large: Cache<K, V>) {
    && Distinct(small.slots) && Distinct(large.slots)
    && |small.slots| <= k && |large.slots| <= k'
    && Within(mode, small.slots, large.slots)
    && |large.slots| - |small.slots| <= k' - k
    && small.hits <= large.hits
    && small.hits + small.misses == large.hits + large.misses
    && large.evictions <= small.evictions
    && (mode.NoExpiry? ==> NothingExpires(large.slots))
  }

  // Writing related entries under one key, before any eviction.
  lemma WithinTouch<K, V>(mode: Mode, a: seq<Slot<K, V>>, b: seq<Slot<K, V>>, key: K, x: Entry<V>, y: Entry<V>)
    requires Within(mode, a, b) && Distinct(a) && Distinct(b) && Related(mode, x, y)
    ensures Within(mode, Drop(a, key) + [Slot(key, x)], Drop(b, key) + [Slot(key, y)])
  {
    WithinDrop(mode, a, b, key);
    WithinAppend(mode, Drop(a, key), Drop(b, key), Slot(key, x), Slot(key, y));
  }

  lemma PutStep<K, V>(mode: Mode, k: nat, k': nat, small: Cache<K, V>, large: Cache<K, V>, key: K, x: Entry<V>,
                      y: Entry<V>)
    requires k <= k' && Included(mode, k, k', small, large) && Related(mode, x, y)
    ensures Included(mode, k, k', Step(small, k, Put(key, x)), Step(large, k', Put(key, y)))
  {
    var a, b := Drop(small.slots, key) + [Slot(key, x)], Drop(large.slots, key) + [Slot(key, y)];
    WithinTouch(mode, small.slots, large.slots, key, x, y);
    WithinLookup(mode, small.slots, large.slots);
    TouchShape(small.slots, key, x);
    TouchShape(large.slots, key, y);
    EvictShape(small.(slots := a), k);
    EvictShape(large.(slots := b), k');
    WithinTail(mode, a, b);
    if mode.NoExpiry? { NothingExpiresKept(large.slots, key, y); }
  }

  // A get on the large cache only: the small one misses because it does not hold the key.
  lemma GetStep<K, V>(mode: Mode, k: nat, k': nat, small: Cache<K, V>, large: Cache<K, V>, key: K, now: int)
    requires k <= k' && Included(mode, k, k', small, large)
    ensures Included(mode, k, k', Step(small, k, Get(key, now)), Step(large, k', Get(key, now)))
  {
    WithinLookup(mode, small.slots, large.slots);
    WithinDrop(mode, small.slots, large.slots, key);
    DropShape(small.slots, key);
    DropShape(large.slots, key);
    if mode.NoExpiry? && key in Keys(large.slots) {
      NothingExpiresKept(large.slots, key, Lookup(large.slots, key).value);
    }
    match Lookup(large.slots, key) {
      case None =>
      case Some(y) =>
        TouchShape(large.slots, key, y);
        match Lookup(small.slots, key) {
          case Some(x) =>
            TouchShape(small.slots, key, x);
            WithinTouch(mode, small.slots, large.slots, key, x, y);
          case None =>
            DropAbsent(small.slots, key);
            WithinWider(mode, small.slots, Drop(large.slots, key), Slot(key, y));
        }
    }
  }

  lemma CallStep<K, V>(mode: Mode, k: nat, k': nat, small: Cache<K, V>, large: Cache<K, V>, call: Call<K, V>)
    requires k <= k' && Included(mode, k, k', small, large) && Allowed(mode, call)
    ensures Included(mode, k, k', Apply(small, k, call), Apply(large, k', call))
  {
    match call {
      case Plain(Get(key, now)) => GetStep(mode, k, k', small, large, key, now);
      case Plain(Put(key, e)) => PutStep(mode, k, k', small, large, key, e, e);
      case Plain(Invalidate(key)) =>
        WithinLookup(mode, small.slots, large.slots);
        WithinDrop(mode, small.slots, large.slots, key);
        DropShape(small.slots, key);
        DropShape(large.slots, key);
        if mode.NoExpiry? { NothingExpiresDrop(large.slots, key); }
      case Plain(Clear) =>
      case Compute(key, t0, e) =>
        GetStep(mode, k, k', small, large, key, t0);
        ComputeStep(k, k', small, large, key, t0, e);
    }
  }

  // After a get both sides have settled, the side that missed stores the computed entry.
  lemma ComputeStep<K, V>(k: nat, k': nat, small: Cache<K, V>, large: Cache<K, V>, key: K, t0: int, e: Entry<V>)
    requires k <= k' && Included(NoExpiry, k, k', small, large) && e.expiresAt.None?
    requires Included(NoExpiry, k, k', Step(small, k, Get(key, t0)), Step(large, k', Get(key, t0)))
    ensures Included(NoExpiry, k, k', Apply(small, k, Compute(key, t0, e)), Apply(large, k', Compute(key, t0, e)))
  {
    var small1, large1 := Step(small, k, Get(key, t0)), Step(large, k', Get(key, t0));
    WithinLookup(NoExpiry, small.slots, large.slots);
    if key in Keys(large.slots) {
      var y := Lookup(large.slots, key).value;
      NothingExpiresKept(large.slots, key, y);
      PutStep(NoExpiry, k, k', small1, large1, key, e, y);
      Retouched(large.slots, key, y);
    } else {
      PutStep(NoExpiry, k, k', small1, large1, key, e, e);
    }
  }

  // Touching a key twice in a row is touching it once.
  lemma Retouched<K, V>(s: seq<Slot<K, V>>, key: K, e: Entry<V>)
    ensures var t := Drop(s, key) + [Slot(key, e)]; Drop(t, key) + [Slot(key, e)] == t
  {
    var d, x := Drop(s, key), Slot(key, e);
    DropLast(d, x);
  }

  lemma DropLast<K, V>(d: seq<Slot<K, V>>, x: Slot<K, V>)
    requires x.key !in Keys(d)
    ensures Drop(d + [x], x.key) == d
  {
    if d == [] {
      assert d + [x] == [x];
    } else {
      DropLast(d[1..], x);
      assert (d + [x])[1..] == d[1..] + [x];
    }
  }

  // Inclusion over every allowed trace, and what follows for hits and evictions.
  lemma {:induction false} Inclusion<K, V>(mode: Mode, k: nat, k': nat, calls: seq<Call<K, V>>)
    requires k <= k' && forall i :: 0 <= i < |calls| ==> Allowed(mode, calls[i])
    ensures Included(mode, k, k', RunCalls(k, calls), RunCalls(k', calls))
  {
    if calls != [] {
      var n := |calls| - 1;
      Inclusion(mode, k, k', calls[..n]);
      CallStep(mode, k, k', RunCalls(k, calls[..n]), RunCalls(k', calls[..n]), calls[n]);
    }
  }

  // With TTLs and without get_or_compute, whatever the small cache would answer at any
  // moment the large one answers too, with the same value.
  lemma SameAnswers<K, V>(k: nat, k': nat, calls: seq<Call<K, V>>, key: K, now: int)
    requires k <= k' && forall i :: 0 <= i < |calls| ==> Allowed(WithExpiry, calls[i])
    ensures var small, large := RunCalls(k, calls), RunCalls(k', calls);
            Answer(small, key, now).Some? ==> Answer(large, key, now) == Answer(small, key, now)
  {
    Inclusion(WithExpiry, k, k', calls);
    WithinLookup(WithExpiry, RunCalls(k, calls).slots, RunCalls(k', calls).slots);
  }

  // ------------------------------------------------------------ values that depend on the key

  // A call that stores nothing but what a pure factory gives for its key, without a TTL.
  ghost predicate StoresPure<K, V>(f: K -> V, call: Call<K, V>) {
    match call
    case Plain(op) => op.Put? ==> op.entry == Entry(f(op.key), None)
    case Compute(key, _, e) => e == Entry(f(key), None)
  }

  ghost predicate AllPure<K, V>(f: K -> V, s: seq<Slot<K, V>>) {
    s == [] || (s[0].entry == Entry(f(s[0].key), None) && AllPure(f, s[1..]))
  }

  lemma PureTouched<K, V>(f: K -> V, s: seq<Slot<K, V>>, key: K)
    requires AllPure(f, s)
    ensures AllPure(f, Drop(s, key)) && AllPure(f, Drop(s, key) + [Slot(key, Entry(f(key), None))])
    ensures key in Keys(s) ==> Lookup(s, key).value == Entry(f(key), None)
  {
    var x := Slot(key, Entry(f(key), None));
    if s == [] {
      assert Drop(s, key) + [x] == [x];
    } else {
      PureTouched(f, s[1..], key);
      assert s[0].key != key ==> (Drop(s, key) + [x])[1..] == Drop(s[1..], key) + [x];
    }
  }

  lemma PureEvicted<K, V>(f: K -> V, c: Cache<K, V>, capacity: nat)
    requires AllPure(f, c.slots)
    ensures AllPure(f, Evict(c, capacity).slots)
    decreases |c.slots|
  {
    if |c.slots| > capacity { PureEvicted(f, c.(slots := c.slots[1..], evictions := c.evictions + 1), capacity); }
  }

  lemma PutPure<K, V>(f: K -> V, c: Cache<K, V>, capacity: nat, key: K)
    requires AllPure(f, c.slots)
    ensures AllPure(f, Step(c, capacity, Put(key, Entry(f(key), None))).slots)
  {
    PureTouched(f, c.slots, key);
    PureEvicted(f, c.(slots := Drop(c.slots, key) + [Slot(key, Entry(f(key), None))]), capacity);
  }

  lemma {:induction false} RunPure<K, V>(f: K -> V, capacity: nat, calls: seq<Call<K, V>>)
    requires forall i :: 0 <= i < |calls| ==> StoresPure(f, calls[i])
    ensures AllPure(f, RunCalls(capacity, calls).slots)
  {
    if calls != [] {
      var n := |calls| - 1;
      RunPure(f, capacity, calls[..n]);
      var c := RunCalls(capacity, calls[..n]);
      match calls[n] {
        case Plain(Get(key, now)) => PureTouched(f, c.slots, key);
        case Plain(Put(key, e)) => PutPure(f, c, capacity, key);
        case Plain(Invalidate(key)) => PureTouched(f, c.slots, key);
        case Plain(Clear) =>
        case Compute(key, t0, e) =>
          PureTouched(f, c.slots, key);
          PutPure(f, Step(c, capacity, Get(key, t0)), capacity, key);
      }
    }
  }

  // With values given by the key and no TTL, get_or_compute included: what the small cache holds
  // the large one holds with the same entry, so it answers whatever the small one answers.
  lemma SameAnswersPure<K, V>(f: K -> V, k: nat, k': nat, calls: seq<Call<K, V>>, key: K, now: int)
    requires k <= k' && forall i :: 0 <= i < |calls| ==> StoresPure(f, calls[i])
    ensures var small, large := RunCalls(k, calls), RunCalls(k', calls);
            && (key in Keys(small.slots) ==> Lookup(large.slots, key) == Lookup(small.slots, key))
            && (Answer(small, key, now).Some? ==> Answer(large, key, now) == Answer(small, key, now))
  {
    Inclusion(NoExpiry, k, k', calls);
    WithinLookup(NoExpiry, RunCalls(k, calls).slots, RunCalls(k', calls).slots);
    RunPure(f, k, calls);
    RunPure(f, k', calls);
    PureTouched(f, RunCalls(k, calls).slots, key);
    PureTouched(f, RunCalls(k', calls).slots, key);
  }
}
