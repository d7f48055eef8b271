/** Retention buckets under SQL's three-valued logic, and the per-row rule they add up to. */
module RetentionRules {
  import opened Options

  // Workspace ids are UUIDs; their text order is the order of their numbers.
  type Workspace = nat

  datatype Row = Row(id: nat, observedAt: Option<int>, workspace: Option<Workspace>)

  const DAY: int := 86_400_000_000  // microseconds

  // ------------------------------------------------------------ SQL logic

  datatype Tri = True3 | False3 | Unknown3

  function Known(b: bool): Tri { if b then True3 else False3 }

  function And3(a: Tri, b: Tri): Tri {
    if a.False3? || b.False3? then False3 else if a.Unknown3? || b.Unknown3? then Unknown3 else True3
  }

  function Or3(a: Tri, b: Tri): Tri {
    if a.True3? || b.True3? then True3 else if a.Unknown3? || b.Unknown3? then Unknown3 else False3
  }

  function Less3(x: Option<int>, y: int): Tri { if x.None? then Unknown3 else Known(x.value < y) }

  function Equal3(x: Option<Workspace>, y: Workspace): Tri { if x.None? then Unknown3 else Known(x.value == y) }

  function NotIn3(x: Option<Workspace>, ys: seq<Workspace>): Tri { if x.None? then Unknown3 else Known(x.value !in ys) }

  // ------------------------------------------------------------ buckets

  datatype Bucket = Bucket(cutoff: int, workspace: Option<Workspace>, exclude: seq<Workspace>)

  function BucketPredicate(b: Bucket, r: Row): Tri {
    var agedOut := Less3(r.observedAt, b.cutoff);
    if b.workspace.Some? then And3(agedOut, Equal3(r.workspace, b.workspace.value))
    else if b.exclude != [] then And3(agedOut, Or3(Known(r.workspace.None?), NotIn3(r.workspace, b.exclude)))
    else agedOut
  }

  // A WHERE clause selects the rows for which it is true, not those for which it is unknown.
  predicate Selected(b: Bucket, r: Row) { BucketPredicate(b, r).True3? }

  function OverrideBuckets(now: int, overrides: map<Workspace, int>, ids: seq<Workspace>): (r: seq<Bucket>)
    requires forall i :: 0 <= i < |ids| ==> ids[i] in overrides
    ensures |r| == |ids|
    ensures forall i :: 0 <= i < |ids| ==> r[i] == Bucket(now - overrides[ids[i]] * DAY, Some(ids[i]), [])
  {
    seq(|ids|, i requires 0 <= i < |ids| => Bucket(now - overrides[ids[i]] * DAY, Some(ids[i]), []))
  }

  // `ids` are the overriding workspaces, each once.
  ghost predicate Enumerates(ids: seq<Workspace>, overrides: map<Workspace, int>) {
    (forall w :: w in ids <==> w in overrides) && forall i, j :: 0 <= i < j < |ids| ==> ids[i] != ids[j]
  }

  // One default bucket for everybody without an override, one bucket per override.
  function PlanBuckets(now: int, defaultDays: int, overrides: map<Workspace, int>, ids: seq<Workspace>): seq<Bucket>
    requires Enumerates(ids, overrides)
  {
    [Bucket(now - defaultDays * DAY, None, ids)] + OverrideBuckets(now, overrides, ids)
  }

  // ------------------------------------------------------------ the per-row rule

  function EffectiveDays(defaultDays: int, overrides: map<Workspace, int>, w: Option<Workspace>): int {
    if w.Some? && w.value in overrides then overrides[w.value] else defaultDays
  }

  // A row is due when it has a timestamp older than its own workspace's window.
  predicate Due(now: int, defaultDays: int, overrides: map<Workspace, int>, r: Row) {
    r.observedAt.Some? && r.observedAt.value < now - EffectiveDays(defaultDays, overrides, r.workspace) * DAY
  }

  predicate SelectedByAny(bs: seq<Bucket>, r: Row) {
    exists i :: 0 <= i < |bs| && Selected(bs[i], r)
  }

  // No row falls into two buckets.
  lemma BucketsDisjoint(now: int, defaultDays: int, overrides: map<Workspace, int>, ids: seq<Workspace>, i: nat,
                        j: nat, r: Row)
    requires Enumerates(ids, overrides) && i < j < |PlanBuckets(now, defaultDays, overrides, ids)|
    ensures var bs := PlanBuckets(now, defaultDays, overrides, ids); !(Selected(bs[i], r) && Selected(bs[j], r))
  {
    var bs := PlanBuckets(now, defaultDays, overrides, ids);
    assert bs[j] == Bucket(now - overrides[ids[j - 1]] * DAY, Some(ids[j - 1]), []);
    if i > 0 { assert bs[i] == Bucket(now - overrides[ids[i - 1]] * DAY, Some(ids[i - 1]), []); }
  }

  // An override bucket selects due rows of its own workspace, the default bucket due rows of
  // all others.
  lemma BucketMeaning(now: int, defaultDays: int, overrides: map<Workspace, int>, ids: seq<Workspace>, i: nat, r: Row)
    requires Enumerates(ids, overrides) && i <= |ids|
    ensures Selected(PlanBuckets(now, defaultDays, overrides, ids)[i], r) <==>
            Due(now, defaultDays, overrides, r) &&
            if i > 0 then r.workspace == Some(ids[i - 1]) else r.workspace.None? || r.workspace.value !in overrides
  {
    var bs := PlanBuckets(now, defaultDays, overrides, ids);
    if i > 0 {
      assert bs[i] == Bucket(now - overrides[ids[i - 1]] * DAY, Some(ids[i - 1]), []);
    } else {
      assert bs[0] == Bucket(now - defaultDays * DAY, None, ids);
    }
  }

  // The buckets together select exactly the rows that are due.
  lemma BucketsAreTheRule(now: int, defaultDays: int, overrides: map<Workspace, int>, ids: seq<Workspace>, r: Row)
    requires Enumerates(ids, overrides)
    ensures SelectedByAny(PlanBuckets(now, defaultDays, overrides, ids), r) <==> Due(now, defaultDays, overrides, r)
  {
    var bs := PlanBuckets(now, defaultDays, overrides, ids);
    if SelectedByAny(bs, r) {
      var k :| 0 <= k < |bs| && Selected(bs[k], r);
      BucketMeaning(now, defaultDays, overrides, ids, k, r);
    }
    var j := 0;
    if r.workspace.Some? && r.workspace.value in overrides {
      var i :| 0 <= i < |ids| && ids[i] == r.workspace.value;
      j := i + 1;
    }
    BucketMeaning(now, defaultDays, overrides, ids, j, r);
  }

  // ------------------------------------------------------------ tables

  // Rows left after deleting what the buckets select.
  function Without(rows: seq<Row>, bs: seq<Bucket>): seq<Row> {
    if rows == [] then []
    else if SelectedByAny(bs, rows[0]) then Without(rows[1..], bs)
    else [rows[0]] + Without(rows[1..], bs)
  }

  function CountAny(rows: seq<Row>, bs: seq<Bucket>): nat {
    if rows == [] then 0 else (if SelectedByAny(bs, rows[0]) then 1 else 0) + CountAny(rows[1..], bs)
  }

  lemma OneMore(bs: seq<Bucket>, b: Bucket, r: Row)
    ensures SelectedByAny(bs + [b], r) <==> SelectedByAny(bs, r) || Selected(b, r)
    ensures SelectedByAny([b], r) <==> Selected(b, r)
  {
    var t := bs + [b];
    assert t[|bs|] == b && [b][0] == b;
    if SelectedByAny(bs, r) {
      var i :| 0 <= i < |bs| && Selected(bs[i], r);
      assert t[i] == bs[i];
    }
  }

  // Deleting bucket after bucket deletes, and counts, every selected row once.
  lemma {:induction false} DeleteNext(rows: seq<Row>, bs: seq<Bucket>, b: Bucket)
    ensures Without(Without(rows, bs), [b]) == Without(rows, bs + [b])
    ensures CountAny(rows, bs) + CountAny(Without(rows, bs), [b]) == CountAny(rows, bs + [b])
  {
    if rows != [] {
      DeleteNext(rows[1..], bs, b);
      OneMore(bs, b, rows[0]);
      if !SelectedByAny(bs, rows[0]) { assert Without(rows, bs)[1..] == Without(rows[1..], bs); }
    }
  }

  // Counting bucket after bucket without deleting agrees when no row is in two of them.
  lemma {:induction false} CountNext(rows: seq<Row>, bs: seq<Bucket>, b: Bucket)
    requires forall r :: !(SelectedByAny(bs, r) && Selected(b, r))
    ensures CountAny(rows, bs) + CountAny(rows, [b]) == CountAny(rows, bs + [b])
  {
    if rows != [] {
      CountNext(rows[1..], bs, b);
      OneMore(bs, b, rows[0]);
    }
  }

  // What a sweep of one class must leave and report, row by row.
  function Survivors(now: int, defaultDays: int, overrides: map<Workspace, int>, rows: seq<Row>): seq<Row> {
    if rows == [] then []
    else if Due(now, defaultDays, overrides, rows[0]) then Survivors(now, defaultDays, overrides, rows[1..])
    else [rows[0]] + Survivors(now, defaultDays, overrides, rows[1..])
  }

  function DueCount(now: int, defaultDays: int, overrides: map<Workspace, int>, rows: seq<Row>): nat {
    if rows == [] then 0
    else (if Due(now, defaultDays, overrides, rows[0]) then 1 else 0) + DueCount(now, defaultDays, overrides, rows[1..])
  }

  lemma {:induction false} BucketsSweepTheRule(now: int, defaultDays: int, overrides: map<Workspace, int>,
                                               ids: seq<Workspace>, rows: seq<Row>)
    requires Enumerates(ids, overrides)
    ensures var bs := PlanBuckets(now, defaultDays, overrides, ids);
            Without(rows, bs) == Survivors(now, defaultDays, overrides, rows) &&
            CountAny(rows, bs) == DueCount(now, defaultDays, overrides, rows)
  {
    if rows != [] {
      BucketsSweepTheRule(now, defaultDays, overrides, ids, rows[1..]);
      BucketsAreTheRule(now, defaultDays, overrides, ids, rows[0]);
    }
  }

  lemma NoBuckets(rows: seq<Row>)
    ensures Without(rows, []) == rows && CountAny(rows, []) == 0
  {
  }

  // The rule keeps exactly the rows that are not due, in order, and the count is the difference.
  lemma {:induction false} SurvivorsExact(now: int, defaultDays: int, overrides: map<Workspace, int>, rows: seq<Row>)
    ensures var s := Survivors(now, defaultDays, overrides, rows);
            && |s| + DueCount(now, defaultDays, overrides, rows) == |rows|
            && forall r :: r in s <==> r in rows && !Due(now, defaultDays, overrides, r)
  {
    if rows != [] { SurvivorsExact(now, defaultDays, overrides, rows[1..]); }
  }

  // A second sweep at the same time finds nothing.
  lemma {:induction false} SecondSweepIdle(now: int, defaultDays: int, overrides: map<Workspace, int>, rows: seq<Row>)
    ensures var s := Survivors(now, defaultDays, overrides, rows);
            Survivors(now, defaultDays, overrides, s) == s && DueCount(now, defaultDays, overrides, s) == 0
  {
    if rows != [] {
      SecondSweepIdle(now, defaultDays, overrides, rows[1..]);
      var s := Survivors(now, defaultDays, overrides, rows);
      if !Due(now, defaultDays, overrides, rows[0]) {
        assert s[1..] == Survivors(now, defaultDays, overrides, rows[1..]);
      }
    }
  }
}
