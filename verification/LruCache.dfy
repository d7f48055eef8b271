/** The cache object: an ordered dictionary and counters updated in place. Each method is
    one lock-held section, proved against the operations of LruSpec. */
module LruCache {
  import opened Options
  import opened LruSpec

  class LruCache<K(==), V> {
    const capacity: nat
    const defaultTtl: Option<int>
    var entries: seq<Slot<K, V>>
    var hits: nat
    var misses: nat
    var evictions: nat

    ghost predicate Valid()
      reads this
    {
      capacity >= 1 && Distinct(entries) && |entries| <= capacity
    }

    ghost function State(): Cache<K, V>
      reads this
    {
      Cache(entries, hits, misses, evictions)
    }

    constructor (capacity: nat, defaultTtl: Option<int>)
      requires capacity >= 1
      ensures Valid() && State() == Empty()
      ensures this.capacity == capacity && this.defaultTtl == defaultTtl
    {
      this.capacity := capacity;
      this.defaultTtl := defaultTtl;
      entries, hits, misses, evictions := [], 0, 0, 0;
    }

    // The public constructor: a capacity below one is refused.
    static method Create(capacity: int, defaultTtl: Option<int>) returns (r: Option<LruCache<K, V>>)
      ensures r.Some? <==> capacity >= 1
      ensures r.Some? ==> fresh(r.value) && r.value.Valid() && r.value.State() == Empty()
      ensures r.Some? ==> r.value.capacity == capacity && r.value.defaultTtl == defaultTtl
    {
      if capacity < 1 {
        return None;
      }
      var c := new LruCache<K, V>(capacity, defaultTtl);
      return Some(c);
    }

    method Get(key: K, now: int) returns (answer: Option<V>)
      requires Valid()
      modifies this
      ensures Valid()
      ensures State() == Step(old(State()), capacity, Op.Get(key, now))
      ensures answer == Answer(old(State()), key, now)
    {
      StepShape(State(), capacity, Op.Get(key, now));
      var entry := Lookup(entries, key);
      if entry.None? {
        misses := misses + 1;
        return None;
      }
      if Expired(entry.value, now) {
        entries := Drop(entries, key);
        misses := misses + 1;
        return None;
      }
      entries := MoveToEnd(entries, key);
      hits := hits + 1;
      return Some(entry.value.value);
    }

    // A value written at `now` lives for its own TTL, without one for the default, without any for good.
    predicate StillAlive(ttl: Option<int>, now: int, later: int) {
      (ttl.Some? ==> later < now + ttl.value) && (ttl.None? && defaultTtl.Some? ==> later < now + defaultTtl.value)
    }

    method Set(key: K, value: V, ttl: Option<int>, now: int)
      requires Valid()
      modifies this
      ensures Valid()
      ensures State() == Step(old(State()), capacity, Put(key, Entry(value, ExpiryOf(ttl, defaultTtl, now))))
      ensures forall later :: Answer(State(), key, later) == if StillAlive(ttl, now, later) then Some(value) else None
    {
      var e := Entry(value, ExpiryOf(ttl, defaultTtl, now));
      PutHolds(State(), capacity, key, e);
      StepShape(State(), capacity, Put(key, e));
      AssignAfterMove(entries, key, e);
      entries := Assign(MoveToEnd(entries, key), key, e);
      while |entries| > capacity
        invariant Evict(State(), capacity) == Step(old(State()), capacity, Put(key, e))
        decreases |entries|
      {
        entries := entries[1..];
        evictions := evictions + 1;
      }
    }

    // `t0` and `t1` are the clock readings of the get and of the set. A stored `None` counts as a
    // hit of the get but is computed again.
    method GetOrCompute(key: K, factory: () -> V, isNone: V -> bool, ttl: Option<int>, t0: int, t1: int)
      returns (v: V)
      requires Valid()
      modifies this
      ensures Valid()
      ensures match Answer(old(State()), key, t0)
              case None => v == factory()
              case Some(x) => v == if isNone(x) then factory() else x
      ensures Usable(old(State()), key, isNone, t0) ==>
                v == Answer(old(State()), key, t0).value && State() == Step(old(State()), capacity, Op.Get(key, t0))
      ensures !Usable(old(State()), key, isNone, t0) ==>
                v == factory() &&
                State() == Step(Step(old(State()), capacity, Op.Get(key, t0)), capacity,
                                Put(key, Entry(v, ExpiryOf(ttl, defaultTtl, t1))))
      ensures !Usable(old(State()), key, isNone, t0) ==>
                forall later :: Answer(State(), key, later) == if StillAlive(ttl, t1, later) then Some(v) else None
    {
      var existing := Get(key, t0);
      if existing.Some? && !isNone(existing.value) {
        return existing.value;
      }
      v := factory();
      Set(key, v, ttl, t1);
    }

    method Invalidate(key: K)
      requires Valid()
      modifies this
      ensures Valid() && State() == Step(old(State()), capacity, Op.Invalidate(key))
    {
      StepShape(State(), capacity, Op.Invalidate(key));
      entries := Drop(entries, key);
    }

    method Clear()
      requires Valid()
      modifies this
      ensures Valid() && State() == Step(old(State()), capacity, Op.Clear)
    {
      entries := [];
    }
  }

  // The get answers something other than `None`.
  predicate Usable<K(==), V>(c: Cache<K, V>, key: K, isNone: V -> bool, now: int) {
    Answer(c, key, now).Some? && !isNone(Answer(c, key, now).value)
  }

  // An explicit TTL wins over the default; neither means the entry never expires.
  function ExpiryOf(ttl: Option<int>, defaultTtl: Option<int>, now: int): Option<int> {
    match (ttl, defaultTtl)
    case (Some(t), _) => Some(now + t)
    case (None, Some(t)) => Some(now + t)
    case (None, None) => None
  }
}
