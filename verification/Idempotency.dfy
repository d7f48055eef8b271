/** The idempotency-key store: first write wins for as long as it lives. */
module Idempotency {
  import opened Options

  // Keys are (tenant, idempotency key) pairs.
  type Key = (string, string)

  datatype Record = Record(bodyHash: string, response: string, createdAt: int, expiresAt: int)

  datatype Answer =
    | Fresh(response: string)
    | Replayed(response: string)
    | Conflict(expected: string, observed: string)
    | Fetched(found: Option<string>)

  datatype Op =
    | Remember(key: Key, bodyHash: string, response: string, ttl: int, now: int)
    | Fetch(key: Key, now: int)

  type Records = map<Key, Record>

  predicate LiveAt(r: Record, now: int) { r.expiresAt > now }

  function RecordOf(op: Op): Record
    requires op.Remember?
  {
    Record(op.bodyHash, op.response, op.now, op.now + op.ttl)
  }

  function AnswerTo(records: Records, op: Op): Answer {
    var existing := if op.key in records && LiveAt(records[op.key], op.now) then Some(records[op.key]) else None;
    match op
    case Fetch(_, _) => Fetched(if existing.Some? then Some(existing.value.response) else None)
    case Remember(_, hash, response, _, _) =>
      if existing.None? then Fresh(response)
      else if existing.value.bodyHash != hash then Conflict(existing.value.bodyHash, hash)
      else Replayed(existing.value.response)
  }

  function After(records: Records, op: Op): Records {
    if AnswerTo(records, op).Fresh? then records[op.key := RecordOf(op)] else records
  }

  class InMemoryIdempotencyStore {
    var records: Records

    constructor ()
      ensures records == map[]
    {
      records := map[];
    }

    method Remember(key: Key, bodyHash: string, response: string, ttl: int, now: int) returns (a: Answer)
      modifies this
      ensures a == AnswerTo(old(records), Op.Remember(key, bodyHash, response, ttl, now))
      ensures records == After(old(records), Op.Remember(key, bodyHash, response, ttl, now))
      ensures if key in old(records) && now < old(records)[key].expiresAt then
                && records == old(records)
                && a == if old(records)[key].bodyHash == bodyHash then Replayed(old(records)[key].response)
                        else Conflict(old(records)[key].bodyHash, bodyHash)
              else
                a == Fresh(response) && records == old(records)[key := Record(bodyHash, response, now, now + ttl)]
    {
      if key in records && records[key].expiresAt > now {
        if records[key].bodyHash != bodyHash {
          return Conflict(records[key].bodyHash, bodyHash);
        }
        return Replayed(records[key].response);
      }
      records := records[key := Record(bodyHash, response, now, now + ttl)];
      return Fresh(response);
    }

    method Fetch(key: Key, now: int) returns (a: Answer)
      ensures a == AnswerTo(records, Op.Fetch(key, now))
      ensures a == Fetched(if key in records && now < records[key].expiresAt then Some(records[key].response) else None)
    {
      if key !in records || records[key].expiresAt <= now {
        return Fetched(None);
      }
      return Fetched(Some(records[key].response));
    }
  }

  // ------------------------------------------------------------ whole runs

  function Run(ops: seq<Op>): Records {
    if ops == [] then map[] else After(Run(ops[..|ops| - 1]), ops[|ops| - 1])
  }

  function AnswerAt(ops: seq<Op>, i: nat): Answer
    requires i < |ops|
  {
    AnswerTo(Run(ops[..i]), ops[i])
  }

  // Operation j stored its response for this key.
  predicate Wrote(ops: seq<Op>, j: nat, key: Key)
    requires j < |ops|
  {
    ops[j].key == key && AnswerAt(ops, j).Fresh?
  }

  // The write of operation j, still alive at `now`.
  predicate LiveWrite(ops: seq<Op>, j: nat, key: Key, now: int)
    requires j < |ops|
  {
    Wrote(ops, j, key) && LiveAt(RecordOf(ops[j]), now)
  }

  // A record that has expired at one operation is not alive again at a later one.
  predicate StaysExpired(ops: seq<Op>) {
    forall a, b, c :: 0 <= a < b < c < |ops| && ops[a].Remember? && !LiveAt(RecordOf(ops[a]), ops[b].now) ==>
      !LiveAt(RecordOf(ops[a]), ops[c].now)
  }

  // The operation whose record is stored for `key` after the first n operations.
  function Owner(ops: seq<Op>, n: nat, key: Key): (o: Option<nat>)
    requires n <= |ops|
    ensures o.Some? ==> o.value < n && Wrote(ops, o.value, key)
  {
    if n == 0 then None else if Wrote(ops, n - 1, key) then Some(n - 1) else Owner(ops, n - 1, key)
  }

  lemma {:induction false} OwnerHolds(ops: seq<Op>, n: nat, key: Key)
    requires n <= |ops|
    ensures var r, o := Run(ops[..n]), Owner(ops, n, key);
            (key in r <==> o.Some?) && (o.Some? ==> r[key] == RecordOf(ops[o.value]))
  {
    if n > 0 {
      OwnerHolds(ops, n - 1, key);
      assert ops[..n][..n - 1] == ops[..n - 1];
    }
  }

  // Any other write for the key came earlier and had expired when the owner wrote.
  lemma {:induction false} OthersExpired(ops: seq<Op>, n: nat, key: Key, j: nat)
    requires j < n <= |ops| && Wrote(ops, j, key)
    ensures Owner(ops, n, key).Some? && j <= Owner(ops, n, key).value
    ensures StaysExpired(ops) && j != Owner(ops, n, key).value ==>
            !LiveAt(RecordOf(ops[j]), ops[Owner(ops, n, key).value].now)
    decreases n
  {
    if j < n - 1 {
      OthersExpired(ops, n - 1, key, j);
      if Wrote(ops, n - 1, key) {
        OwnerHolds(ops, n - 1, key);
        var o := Owner(ops, n - 1, key).value;
        assert !LiveAt(RecordOf(ops[o]), ops[n - 1].now);
      }
    }
  }

  // Then at most one write per key is alive at any operation.
  lemma OneLiveWrite(ops: seq<Op>, i: nat, key: Key, j: nat, k: nat)
    requires StaysExpired(ops) && j < i < |ops| && k < i
    requires LiveWrite(ops, j, key, ops[i].now) && LiveWrite(ops, k, key, ops[i].now)
    ensures j == k
  {
    OthersExpired(ops, i, key, j);
    OthersExpired(ops, i, key, k);
  }

  // What each operation answers, told by the earlier writes alone: a remember is new exactly
  // when no earlier write for its key is alive; otherwise it and every fetch get the response of
  // that first write, or a conflict when the body differs.
  lemma AnswersFollowFirstWrite(ops: seq<Op>, i: nat)
    requires StaysExpired(ops) && i < |ops|
    ensures ops[i].Remember? ==>
              (AnswerAt(ops, i).Fresh? <==> forall j :: 0 <= j < i ==> !LiveWrite(ops, j, ops[i].key, ops[i].now))
    ensures forall j :: 0 <= j < i && LiveWrite(ops, j, ops[i].key, ops[i].now) ==>
              AnswerAt(ops, i) ==
              if ops[i].Fetch? then Fetched(Some(ops[j].response))
              else if ops[i].bodyHash != ops[j].bodyHash then Conflict(ops[j].bodyHash, ops[i].bodyHash)
              else Replayed(ops[j].response)
    ensures ops[i].Fetch? && (forall j :: 0 <= j < i ==> !LiveWrite(ops, j, ops[i].key, ops[i].now)) ==>
            AnswerAt(ops, i) == Fetched(None)
  {
    var key, now := ops[i].key, ops[i].now;
    var o := Owner(ops, i, key);
    OwnerHolds(ops, i, key);
    forall j | 0 <= j < i && LiveWrite(ops, j, key, now) ensures o == Some(j) {
      OthersExpired(ops, i, key, j);
    }
    if o.Some? && LiveAt(RecordOf(ops[o.value]), now) { assert LiveWrite(ops, o.value, key, now); }
  }

  // ------------------------------------------------------------ which clocks are good enough

  predicate TimedBy(ops: seq<Op>, t: seq<int>) {
    |ops| == |t| && forall i :: 0 <= i < |t| ==> ops[i].now == t[i]
  }

  predicate PositiveTtls(ops: seq<Op>) {
    forall i :: 0 <= i < |ops| && ops[i].Remember? ==> ops[i].ttl > 0
  }

  // Some reading is above one before it and one after it.
  predicate Bump(t: seq<int>, a: nat, b: nat, c: nat) { a < b < c < |t| && t[a] < t[b] && t[c] < t[b] }

  ghost predicate NoBump(t: seq<int>) { forall a, b, c :: !Bump(t, a, b, c) }

  lemma NoBumpStays(ops: seq<Op>, t: seq<int>)
    requires TimedBy(ops, t) && PositiveTtls(ops) && NoBump(t)
    ensures StaysExpired(ops)
  {
    forall a, b, c | 0 <= a < b < c < |ops| && ops[a].Remember? && !LiveAt(RecordOf(ops[a]), ops[b].now)
      ensures !LiveAt(RecordOf(ops[a]), ops[c].now)
    {
      assert !Bump(t, a, b, c);
    }
  }

  // A clock that never goes back has no bump.
  lemma NondecreasingNoBump(t: seq<int>)
    requires forall i, j :: 0 <= i < j < |t| ==> t[i] <= t[j]
    ensures NoBump(t)
  {
  }

  // Operations j and k, both before i, are writes for one key that i finds alive.
  predicate BothLive(ops: seq<Op>, i: nat, j: nat, k: nat, key: Key) {
    j < i < |ops| && k < i && LiveWrite(ops, j, key, ops[i].now) && LiveWrite(ops, k, key, ops[i].now)
  }

  ghost predicate OneLive(ops: seq<Op>) {
    forall i, j, k, key :: BothLive(ops, i, j, k, key) ==> j == k
  }

  // Two writes, the first of which expires when the second is made; fetches otherwise.
  function TwoWrites(t: seq<int>, key: Key, a: nat, b: nat): seq<Op>
    requires a < b < |t|
  {
    seq(|t|, i requires 0 <= i < |t| =>
      if i == a then Remember(key, "a", "first", t[b] - t[a], t[a])
      else if i == b then Remember(key, "b", "second", 1, t[b])
      else Fetch(key, t[i]))
  }

  // Fetches write nothing.
  lemma {:induction false} OwnerThrough(ops: seq<Op>, key: Key, lo: nat, n: nat)
    requires lo <= n <= |ops| && forall i :: lo <= i < n ==> ops[i].Fetch?
    ensures Owner(ops, n, key) == Owner(ops, lo, key)
    decreases n
  {
    if lo < n { OwnerThrough(ops, key, lo, n - 1); }
  }

  lemma BumpBreaks(t: seq<int>, key: Key, a: nat, b: nat, c: nat)
    requires Bump(t, a, b, c)
    ensures var ops := TwoWrites(t, key, a, b); TimedBy(ops, t) && PositiveTtls(ops) && !OneLive(ops)
  {
    var ops := TwoWrites(t, key, a, b);
    OwnerThrough(ops, key, 0, a);
    OwnerHolds(ops, a, key);
    assert Wrote(ops, a, key);
    OwnerThrough(ops, key, a + 1, b);
    OwnerHolds(ops, b, key);
    assert Wrote(ops, b, key);
    assert BothLive(ops, c, a, b, key);
  }

  // Exactly which clocks keep one write alive in every run with positive lifetimes.
  lemma OneLiveIffNoBump(t: seq<int>)
    ensures NoBump(t) <==> forall ops :: TimedBy(ops, t) && PositiveTtls(ops) ==> OneLive(ops)
  {
    if NoBump(t) {
      forall ops: seq<Op> | TimedBy(ops, t) && PositiveTtls(ops) ensures OneLive(ops) {
        NoBumpStays(ops, t);
        forall i: nat, j: nat, k: nat, key: Key | BothLive(ops, i, j, k, key) ensures j == k {
          OneLiveWrite(ops, i, key, j, k);
        }
      }
    } else {
      var a, b, c :| Bump(t, a, b, c);
      BumpBreaks(t, ("", ""), a, b, c);
    }
  }
}
