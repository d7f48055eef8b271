/** The content-addressed embedding cache: transparent for a pure factory, under any
    interleaving of its callers at the granularity of the cache lock. */
module EmbeddingCache {
  import opened Options
  import opened LruSpec
  import LruCache

  function KeyBlob(model: string, text: string): string {
    model + "::" + text
  }

  // A model name that the separator of a shorter one runs into.
  predicate RunsInto(m1: string, m2: string) {
    m2 == m1 + ":" || m1 + "::" <= m2
  }

  predicate Clash(m1: string, m2: string) { RunsInto(m1, m2) || RunsInto(m2, m1) }

  // Blobs determine the text once the model is known, and the shorter of two models.
  lemma SplitBlob(m1: string, t1: string, m2: string, t2: string)
    requires KeyBlob(m1, t1) == KeyBlob(m2, t2) && |m1| <= |m2|
    ensures m1 <= m2 && (m1 == m2 ==> t1 == t2) && (m1 != m2 ==> RunsInto(m1, m2))
  {
    var b := KeyBlob(m1, t1);
    assert b == KeyBlob(m2, t2);
    assert m1 == b[..|m1|] && m2 == b[..|m2|];
    assert t1 == b[|m1| + 2..] && t2 == b[|m2| + 2..];
    if |m2| == |m1| + 1 {
      assert b[|m1|] == ':' && m2 == m1 + ":";
    } else if |m2| >= |m1| + 2 {
      assert b[..|m1| + 2] == m1 + "::";
      assert m2[..|m1| + 2] == b[..|m1| + 2];
    }
  }

  // Texts whose blobs are the same, for two names of which one runs into the other.
  lemma ClashWitness(m1: string, m2: string) returns (t1: string, t2: string)
    requires RunsInto(m1, m2)
    ensures KeyBlob(m1, t1) == KeyBlob(m2, t2)
  {
    t2 := "";
    t1 := if m2 == m1 + ":" then ":" else m2[|m1| + 2..] + "::";
    if m2 != m1 + ":" { assert m2 == m1 + "::" + m2[|m1| + 2..]; }
  }

  // Exactly when two models can share a blob.
  lemma BlobsCollideIffClash(m1: string, m2: string)
    requires m1 != m2
    ensures (exists t1, t2 :: KeyBlob(m1, t1) == KeyBlob(m2, t2)) <==> Clash(m1, m2)
  {
    if t1, t2 :| KeyBlob(m1, t1) == KeyBlob(m2, t2) {
      if |m1| <= |m2| { SplitBlob(m1, t1, m2, t2); } else { SplitBlob(m2, t2, m1, t1); }
    }
    if RunsInto(m1, m2) {
      var t1, t2 := ClashWitness(m1, m2);
    } else if RunsInto(m2, m1) {
      var t2, t1 := ClashWitness(m2, m1);
    }
  }

  // The model names in use tell each other apart.
  ghost predicate NoClash(models: iset<string>) {
    forall m1, m2 :: m1 in models && m2 in models ==> !Clash(m1, m2)
  }

  lemma NeverWithItself(m: string)
    ensures !Clash(m, m)
  {
  }

  // Blobs tell all requests apart exactly when no two model names in use clash.
  lemma BlobsSeparateIff(models: iset<string>)
    ensures NoClash(models) <==>
            forall m1, t1, m2, t2 :: m1 in models && m2 in models && KeyBlob(m1, t1) == KeyBlob(m2, t2) ==>
                m1 == m2 && t1 == t2
  {
    forall m1, t1, m2, t2 | NoClash(models) && m1 in models && m2 in models && KeyBlob(m1, t1) == KeyBlob(m2, t2)
      ensures m1 == m2 && t1 == t2
    {
      if |m1| <= |m2| { SplitBlob(m1, t1, m2, t2); } else { SplitBlob(m2, t2, m1, t1); }
    }
    forall m1, m2 | m1 in models && m2 in models && Clash(m1, m2)
      ensures m1 != m2 && exists t1, t2 :: KeyBlob(m1, t1) == KeyBlob(m2, t2)
    {
      NeverWithItself(m1);
      BlobsCollideIffClash(m1, m2);
    }
  }

  // Names without ':' never clash; most with one do not either.
  lemma ColonsNeeded(m1: string, m2: string)
    requires Clash(m1, m2)
    ensures ':' in m1 || ':' in m2
  {
    if RunsInto(m1, m2) { assert m2[|m1|] == ':'; } else { assert m1[|m2|] == ':'; }
  }

  ghost predicate Injective(hash: string -> string) {
    forall x, y :: hash(x) == hash(y) ==> x == y
  }

  // The factory, the hash and the model names in use.
  datatype Setup<V> = Setup(models: iset<string>, hash: string -> string, factory: (string, string) -> V)

  ghost predicate Sound<V>(e: Setup<V>) { NoClash(e.models) && Injective(e.hash) }

  function Key<V>(e: Setup<V>, model: string, text: string): string { e.hash(KeyBlob(model, text)) }

  // Every stored vector is what the factory answers for each request with that key.
  ghost predicate Faithful<V>(e: Setup<V>, s: seq<Slot<string, V>>) {
    s == [] ||
    (Faithful(e, s[1..]) &&
     forall model, text :: model in e.models && Key(e, model, text) == s[0].key ==>
       s[0].entry.value == e.factory(model, text))
  }

  lemma FaithfulLookup<V>(e: Setup<V>, s: seq<Slot<string, V>>, model: string, text: string)
    requires Faithful(e, s) && model in e.models
    ensures var r := Lookup(s, Key(e, model, text)); r.Some? ==> r.value.value == e.factory(model, text)
  {
    if s != [] { FaithfulLookup(e, s[1..], model, text); }
  }

  lemma FaithfulDrop<V>(e: Setup<V>, s: seq<Slot<string, V>>, key: string)
    requires Faithful(e, s)
    ensures Faithful(e, Drop(s, key))
  {
    if s != [] {
      FaithfulDrop(e, s[1..], key);
      if s[0].key != key { assert Drop(s, key)[1..] == Drop(s[1..], key); }
    }
  }

  lemma FaithfulAppend<V>(e: Setup<V>, s: seq<Slot<string, V>>, model: string, text: string, v: Entry<V>)
    requires Sound(e) && Faithful(e, s) && model in e.models && v.value == e.factory(model, text)
    ensures Faithful(e, s + [Slot(Key(e, model, text), v)])
  {
    var x := Slot(Key(e, model, text), v);
    if s == [] {
      assert s + [x] == [x];
      forall m, t | m in e.models && Key(e, m, t) == x.key ensures v.value == e.factory(m, t) {
        assert KeyBlob(m, t) == KeyBlob(model, text);
        if |m| <= |model| { SplitBlob(m, t, model, text); } else { SplitBlob(model, text, m, t); }
      }
    } else {
      FaithfulAppend(e, s[1..], model, text, v);
      assert (s + [x])[1..] == s[1..] + [x];
    }
  }

  lemma FaithfulEvict<V>(e: Setup<V>, c: Cache<string, V>, capacity: nat)
    requires Faithful(e, c.slots)
    ensures Faithful(e, Evict(c, capacity).slots)
    decreases |c.slots|
  {
    if |c.slots| > capacity { FaithfulEvict(e, c.(slots := c.slots[1..], evictions := c.evictions + 1), capacity); }
  }

  // One lock-held section of some caller. A `Store` is either the second half of a
  // get_or_compute or an explicit set that agrees with the factory.
  datatype Section =
    | Read(model: string, text: string, now: int)
    | Store(model: string, text: string, expiresAt: Option<int>)

  function OpOf<V>(e: Setup<V>, s: Section): Op<string, V> {
    match s
    case Read(m, t, now) => Get(Key(e, m, t), now)
    case Store(m, t, x) => Put(Key(e, m, t), Entry(e.factory(m, t), x))
  }

  function OpsOf<V>(e: Setup<V>, ss: seq<Section>): (r: seq<Op<string, V>>)
    ensures |r| == |ss|
  {
    if ss == [] then [] else OpsOf(e, ss[..|ss| - 1]) + [OpOf(e, ss[|ss| - 1])]
  }

  ghost predicate Uses<V>(e: Setup<V>, ss: seq<Section>) {
    forall i :: 0 <= i < |ss| ==> ss[i].model in e.models
  }

  lemma StepFaithful<V>(e: Setup<V>, c: Cache<string, V>, capacity: nat, s: Section)
    requires Sound(e) && s.model in e.models && Faithful(e, c.slots)
    ensures Faithful(e, Step(c, capacity, OpOf(e, s)).slots)
  {
    var key := Key(e, s.model, s.text);
    FaithfulDrop(e, c.slots, key);
    match s {
      case Read(m, t, now) =>
        FaithfulLookup(e, c.slots, m, t);
        if Lookup(c.slots, key).Some? { FaithfulAppend(e, Drop(c.slots, key), m, t, Lookup(c.slots, key).value); }
      case Store(m, t, x) =>
        var v := Entry(e.factory(m, t), x);
        FaithfulAppend(e, Drop(c.slots, key), m, t, v);
        FaithfulEvict(e, c.(slots := Drop(c.slots, key) + [Slot(key, v)]), capacity);
    }
  }

  lemma {:induction false} RunFaithful<V>(e: Setup<V>, capacity: nat, ss: seq<Section>)
    requires Sound(e) && Uses(e, ss)
    ensures Faithful(e, Run(capacity, OpsOf(e, ss)).slots)
  {
    if ss != [] {
      var n := |ss| - 1;
      RunFaithful(e, capacity, ss[..n]);
      assert OpsOf(e, ss)[..n] == OpsOf(e, ss[..n]);
      StepFaithful(e, Run(capacity, OpsOf(e, ss[..n])), capacity, ss[n]);
    }
  }

  // What get_or_compute hands back when its read runs after the sections `ss`.
  function HandsBack<V>(e: Setup<V>, capacity: nat, ss: seq<Section>, model: string, text: string, now: int): V {
    var answer := Answer(Run(capacity, OpsOf(e, ss)), Key(e, model, text), now);
    if answer.Some? then answer.value else e.factory(model, text)
  }

  // After any interleaving of other callers' sections it is the factory's answer, cached or not.
  lemma Transparent<V>(e: Setup<V>, capacity: nat, ss: seq<Section>, model: string, text: string, now: int)
    requires Sound(e) && model in e.models && Uses(e, ss)
    ensures HandsBack(e, capacity, ss, model, text, now) == e.factory(model, text)
  {
    RunFaithful(e, capacity, ss);
    FaithfulLookup(e, Run(capacity, OpsOf(e, ss)).slots, model, text);
  }

  // With a factory that tells requests apart, two clashing names are enough to go wrong: a
  // stored vector of the one comes back for the other.
  lemma ClashMisleads<V>(e: Setup<V>, capacity: nat, m1: string, m2: string)
    returns (ss: seq<Section>, model: string, text: string)
    requires capacity >= 1 && m1 in e.models && m2 in e.models && Clash(m1, m2)
    requires forall m, t, m', t' :: e.factory(m, t) == e.factory(m', t') ==> m == m' && t == t'
    ensures model in e.models && Uses(e, ss) && HandsBack(e, capacity, ss, model, text, 0) != e.factory(model, text)
  {
    var short, long := if RunsInto(m1, m2) then m1 else m2, if RunsInto(m1, m2) then m2 else m1;
    var t1, t2 := ClashWitness(short, long);
    NeverWithItself(short);
    ss, model, text := [Store(short, t1, None)], long, t2;
    var slot := Slot(Key(e, short, t1), Entry(e.factory(short, t1), None));
    assert ss[..0] == [];
    assert OpsOf(e, ss) == [OpOf(e, ss[0])];
    assert OpsOf(e, ss)[..0] == [];
    assert Run(capacity, OpsOf(e, ss)).slots == [slot];
  }

  // Exactly when the cache is transparent for such a factory, whatever the callers do.
  lemma TransparentIff<V>(e: Setup<V>, capacity: nat)
    requires capacity >= 1 && Injective(e.hash)
    requires forall m, t, m', t' :: e.factory(m, t) == e.factory(m', t') ==> m == m' && t == t'
    ensures NoClash(e.models) <==>
            forall ss, model, text, now :: model in e.models && Uses(e, ss) ==>
              HandsBack(e, capacity, ss, model, text, now) == e.factory(model, text)
  {
    if NoClash(e.models) {
      forall ss, model, text, now | model in e.models && Uses(e, ss)
        ensures HandsBack(e, capacity, ss, model, text, now) == e.factory(model, text)
      {
        Transparent(e, capacity, ss, model, text, now);
      }
    } else {
      var m1, m2 :| m1 in e.models && m2 in e.models && Clash(m1, m2);
      var ss, model, text := ClashMisleads(e, capacity, m1, m2);
    }
  }

  class EmbeddingCache<V> {
    const inner: LruCache.LruCache<string, V>
    const hash: string -> string

    constructor (capacity: nat, ttl: Option<int>, hash: string -> string)
      requires capacity >= 1
      ensures fresh(inner) && inner.Valid() && inner.State() == Empty() && this.hash == hash
    {
      inner := new LruCache.LruCache<string, V>(capacity, ttl);
      this.hash := hash;
    }

    // A sequential caller gets the stored vector or the factory's answer. While the model names in
    // use do not clash that is the factory's answer, and the contents stay faithful.
    method GetOrCompute(model: string, text: string, factory: (string, string) -> V, t0: int, t1: int,
                        ghost models: iset<string>) returns (v: V)
      requires inner.Valid()
      modifies inner
      ensures inner.Valid()
      ensures var stored := Answer(old(inner.State()), hash(KeyBlob(model, text)), t0);
              v == if stored.Some? then stored.value else factory(model, text)
      ensures Answer(old(inner.State()), hash(KeyBlob(model, text)), t0).None? ==>
                forall later :: Answer(inner.State(), hash(KeyBlob(model, text)), later) ==
                  if inner.StillAlive(None, t1, later) then Some(v) else None
      ensures model in models && Sound(Setup(models, hash, factory)) &&
              old(Faithful(Setup(models, hash, factory), inner.entries)) ==>
                v == factory(model, text) && Faithful(Setup(models, hash, factory), inner.entries)
    {
      var key := hash(KeyBlob(model, text));
      ghost var e := Setup(models, hash, factory);
      ghost var c0 := inner.State();
      ghost var c1 := Step(c0, inner.capacity, Get(key, t0));
      if model in models && Sound(e) && Faithful(e, inner.entries) {
        FaithfulLookup(e, c0.slots, model, text);
        StepFaithful(e, c0, inner.capacity, Read(model, text, t0));
        StepFaithful(e, c1, inner.capacity, Store(model, text, LruCache.ExpiryOf(None, inner.defaultTtl, t1)));
      }
      v := inner.GetOrCompute(key, () => factory(model, text), _ => false, None, t0, t1);
    }
  }
}
