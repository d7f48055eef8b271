/** The ordered dictionary behind the LRU cache, as a value: slots from the least
    to the most recently used, and what one operation does to them. */
module LruSpec {
  import opened Options

  datatype Entry<V> = Entry(value: V, expiresAt: Option<int>)

  datatype Slot<K, V> = Slot(key: K, entry: Entry<V>)

  // An entry is dead from its expiry instant on (the bound is inclusive).
  predicate Expired<V>(e: Entry<V>, now: int) {
    e.expiresAt.Some? && e.expiresAt.value <= now
  }

  function Keys<K, V>(s: seq<Slot<K, V>>): set<K> {
    if s == [] then {} else {s[0].key} + Keys(s[1..])
  }

  predicate Distinct<K(==), V>(s: seq<Slot<K, V>>) {
    s == [] || (s[0].key !in Keys(s[1..]) && Distinct(s[1..]))
  }

  function Lookup<K(==), V>(s: seq<Slot<K, V>>, key: K): (r: Option<Entry<V>>)
    ensures r.Some? <==> key in Keys(s)
  {
    if s == [] then None
    else if s[0].key == key then Some(s[0].entry)
    else Lookup(s[1..], key)
  }

  // Delete `key`; the other slots keep their order.
  function Drop<K(==), V>(s: seq<Slot<K, V>>, key: K): (r: seq<Slot<K, V>>)
    ensures Keys(r) == Keys(s) - {key}
  {
    if s == [] then []
    else if s[0].key == key then Drop(s[1..], key)
    else [s[0]] + Drop(s[1..], key)
  }

  // `OrderedDict.move_to_end`.
  function MoveToEnd<K(==), V>(s: seq<Slot<K, V>>, key: K): seq<Slot<K, V>> {
    match Lookup(s, key)
    case None => s
    case Some(e) => Drop(s, key) + [Slot(key, e)]
  }

  // `OrderedDict[key] = entry`: a present key keeps its place, a new one goes last.
  function Assign<K(==), V>(s: seq<Slot<K, V>>, key: K, e: Entry<V>): seq<Slot<K, V>> {
    if s == [] then [Slot(key, e)]
    else if s[0].key == key then [Slot(key, e)] + s[1..]
    else [s[0]] + Assign(s[1..], key, e)
  }

  // The cache as a value: what is stored and the three counters.
  datatype Cache<K, V> = Cache(slots: seq<Slot<K, V>>, hits: nat, misses: nat, evictions: nat)

  function Empty<K, V>(): Cache<K, V> { Cache([], 0, 0, 0) }

  // Evict from the least recently used end until the capacity is met.
  function Evict<K, V>(c: Cache<K, V>, capacity: nat): Cache<K, V>
    decreases |c.slots|
  {
    if |c.slots| <= capacity then c
    else Evict(c.(slots := c.slots[1..], evictions := c.evictions + 1), capacity)
  }

  datatype Op<K, V> =
    | Get(key: K, now: int)
    | Put(key: K, entry: Entry<V>)
    | Invalidate(key: K)
    | Clear

  // The value a get answers, `None` for a miss.
  function Answer<K(==), V>(c: Cache<K, V>, key: K, now: int): Option<V> {
    match Lookup(c.slots, key)
    case None => None
    case Some(e) => if Expired(e, now) then None else Some(e.value)
  }

  function Step<K(==), V>(c: Cache<K, V>, capacity: nat, op: Op<K, V>): Cache<K, V> {
    match op
    case Get(key, now) =>
      (match Lookup(c.slots, key)
       case None => c.(misses := c.misses + 1)
       case Some(e) =>
         if Expired(e, now) then c.(slots := Drop(c.slots, key), misses := c.misses + 1)
         else c.(slots := Drop(c.slots, key) + [Slot(key, e)], hits := c.hits + 1))
    case Put(key, e) => Evict(c.(slots := Drop(c.slots, key) + [Slot(key, e)]), capacity)
    case Invalidate(key) => c.(slots := Drop(c.slots, key))
    case Clear => c.(slots := [])
  }

  // The state after a whole run that starts empty.
  function Run<K(==), V>(capacity: nat, ops: seq<Op<K, V>>): Cache<K, V> {
    if ops == [] then Empty()
    else Step(Run(capacity, ops[..|ops| - 1]), capacity, ops[|ops| - 1])
  }

  // ------------------------------------------------------------- slot lemmas

  lemma DropAbsent<K, V>(s: seq<Slot<K, V>>, key: K)
    requires key !in Keys(s)
    ensures Drop(s, key) == s
  {
  }

  lemma DropShape<K, V>(s: seq<Slot<K, V>>, key: K)
    requires Distinct(s)
    ensures Distinct(Drop(s, key))
    ensures |Drop(s, key)| == if key in Keys(s) then |s| - 1 else |s|
  {
    if s != [] {
      DropShape(s[1..], key);
      if s[0].key == key { DropAbsent(s[1..], key); }
    }
  }

  lemma Appended<K, V>(s: seq<Slot<K, V>>, x: Slot<K, V>)
    ensures Keys(s + [x]) == Keys(s) + {x.key}
    ensures Distinct(s) && x.key !in Keys(s) ==> Distinct(s + [x])
    ensures Lookup(s + [x], x.key) == if x.key in Keys(s) then Lookup(s, x.key) else Some(x.entry)
  {
    if s != [] {
      Appended(s[1..], x);
      assert (s + [x])[1..] == s[1..] + [x];
    } else {
      assert s + [x] == [x];
    }
  }

  lemma AssignAppends<K, V>(d: seq<Slot<K, V>>, e0: Entry<V>, key: K, e: Entry<V>)
    requires key !in Keys(d)
    ensures Assign(d, key, e) == d + [Slot(key, e)]
    ensures Assign(d + [Slot(key, e0)], key, e) == d + [Slot(key, e)]
  {
    if d != [] {
      AssignAppends(d[1..], e0, key, e);
      assert (d + [Slot(key, e0)])[1..] == d[1..] + [Slot(key, e0)];
    } else {
      assert d + [Slot(key, e0)] == [Slot(key, e0)];
    }
  }

  // Moving to the end and then assigning is dropping and then appending.
  lemma AssignAfterMove<K, V>(s: seq<Slot<K, V>>, key: K, e: Entry<V>)
    ensures Assign(MoveToEnd(s, key), key, e) == Drop(s, key) + [Slot(key, e)]
  {
    match Lookup(s, key) {
      case None => DropAbsent(s, key); AssignAppends(s, e, key, e);
      case Some(e0) => AssignAppends(Drop(s, key), e0, key, e);
    }
  }

  // Eviction removes from the front only, and no more than it must.
  lemma EvictShape<K, V>(c: Cache<K, V>, capacity: nat)
    requires Distinct(c.slots)
    ensures var n := if |c.slots| <= capacity then 0 else |c.slots| - capacity;
            Evict(c, capacity) == c.(slots := c.slots[n..], evictions := c.evictions + n)
    ensures Distinct(Evict(c, capacity).slots)
    decreases |c.slots|
  {
    if |c.slots| > capacity {
      EvictShape(c.(slots := c.slots[1..], evictions := c.evictions + 1), capacity);
    }
  }

  lemma TouchShape<K, V>(s: seq<Slot<K, V>>, key: K, e: Entry<V>)
    requires Distinct(s)
    ensures Distinct(Drop(s, key) + [Slot(key, e)])
    ensures |Drop(s, key) + [Slot(key, e)]| == if key in Keys(s) then |s| else |s| + 1
  {
    DropShape(s, key);
    Appended(Drop(s, key), Slot(key, e));
  }

  lemma LookupLast<K, V>(s: seq<Slot<K, V>>)
    requires s != [] && Distinct(s)
    ensures Lookup(s, s[|s| - 1].key) == Some(s[|s| - 1].entry)
  {
    var n := |s| - 1;
    assert s == s[..n] + [s[n]];
    DistinctFront(s);
    Appended(s[..n], s[n]);
  }

  lemma DistinctFront<K, V>(s: seq<Slot<K, V>>)
    requires s != [] && Distinct(s)
    ensures s[|s| - 1].key !in Keys(s[..|s| - 1])
  {
    if |s| > 1 {
      DistinctFront(s[1..]);
      assert s[..|s| - 1][1..] == s[1..][..|s| - 2];
      LastIn(s[1..]);
    }
  }

  lemma LastIn<K, V>(s: seq<Slot<K, V>>)
    requires s != []
    ensures s[|s| - 1].key in Keys(s)
  {
    if |s| > 1 { LastIn(s[1..]); }
  }

  // What was just written is there, whatever had to go.
  lemma PutHolds<K, V>(c: Cache<K, V>, capacity: nat, key: K, e: Entry<V>)
    requires Distinct(c.slots) && capacity >= 1
    ensures Lookup(Step(c, capacity, Put(key, e)).slots, key) == Some(e)
  {
    var t := Drop(c.slots, key) + [Slot(key, e)];
    TouchShape(c.slots, key, e);
    EvictShape(c.(slots := t), capacity);
    LookupLast(Step(c, capacity, Put(key, e)).slots);
  }

  // Every operation keeps keys distinct and the size within the capacity.
  lemma StepShape<K, V>(c: Cache<K, V>, capacity: nat, op: Op<K, V>)
    requires Distinct(c.slots) && |c.slots| <= capacity
    ensures Distinct(Step(c, capacity, op).slots) && |Step(c, capacity, op).slots| <= capacity
  {
    match op
    case Get(key, now) =>
      DropShape(c.slots, key);
      match Lookup(c.slots, key) {
        case None =>
        case Some(e) => TouchShape(c.slots, key, e);
      }
    case Put(key, e) =>
      TouchShape(c.slots, key, e);
      EvictShape(c.(slots := Drop(c.slots, key) + [Slot(key, e)]), capacity);
    case Invalidate(key) => DropShape(c.slots, key);
    case Clear =>
  }

  lemma RunShape<K, V>(capacity: nat, ops: seq<Op<K, V>>)
    ensures Distinct(Run(capacity, ops).slots) && |Run(capacity, ops).slots| <= capacity
  {
    if ops != [] {
      RunShape(capacity, ops[..|ops| - 1]);
      StepShape(Run(capacity, ops[..|ops| - 1]), capacity, ops[|ops| - 1]);
    }
  }

  predicate NothingExpires<K, V>(s: seq<Slot<K, V>>) {
    s == [] || (s[0].entry.expiresAt.None? && NothingExpires(s[1..]))
  }

  lemma NothingExpiresDrop<K, V>(s: seq<Slot<K, V>>, key: K)
    requires NothingExpires(s)
    ensures NothingExpires(Drop(s, key))
  {
  }

  lemma NothingExpiresKept<K, V>(s: seq<Slot<K, V>>, key: K, e: Entry<V>)
    requires NothingExpires(s)
    ensures key in Keys(s) ==> Lookup(s, key).value.expiresAt.None?
    ensures NothingExpires(Drop(s, key))
    ensures e.expiresAt.None? ==> NothingExpires(Drop(s, key) + [Slot(key, e)])
  {
    if s == [] {
      assert Drop(s, key) + [Slot(key, e)] == [Slot(key, e)];
    } else {
      NothingExpiresKept(s[1..], key, e);
      assert s[0].key != key ==> (Drop(s, key) + [Slot(key, e)])[1..] == Drop(s[1..], key) + [Slot(key, e)];
    }
  }
}
