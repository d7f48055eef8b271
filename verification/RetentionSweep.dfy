/** The sweep service: plans buckets for each data class and deletes from the tables in place. */
module RetentionSweep {
  import opened Options
  import opened RetentionRules

  // A registered class and what its table offers.
  datatype RetentionClass = RetentionClass(name: string, defaultDays: int, complianceLocked: bool, hasColumn: bool,
                                           hasWorkspace: bool)

  const OVERRIDABLE: set<string> :=
    {"test_runs", "flakiness_observations", "agent_feedback", "external_issues", "usage_records"}

  type Overrides = map<Workspace, map<string, int>>

  datatype ClassResult = ClassResult(name: string, cutoff: int, complianceLocked: bool, deleted: nat, wouldDelete: nat,
                                     overrideWorkspaces: nat)

  // The tenant's overrides projected to one class; locked classes cannot be overridden.
  function ClassOverrides(cls: RetentionClass, overrides: Overrides): map<Workspace, int> {
    if cls.complianceLocked || cls.name !in OVERRIDABLE then map[]
    else map w | w in overrides && cls.name in overrides[w] :: overrides[w][cls.name]
  }

  predicate Misconfigured(cls: RetentionClass, overrides: Overrides) {
    !cls.complianceLocked && (!cls.hasColumn || (ClassOverrides(cls, overrides) != map[] && !cls.hasWorkspace))
  }

  // The table after a real sweep of one class, by the per-row rule.
  function SweptRows(cls: RetentionClass, now: int, overrides: Overrides, rows: seq<Row>): seq<Row> {
    if cls.complianceLocked then rows else Survivors(now, cls.defaultDays, ClassOverrides(cls, overrides), rows)
  }

  function DueRows(cls: RetentionClass, now: int, overrides: Overrides, rows: seq<Row>): nat {
    if cls.complianceLocked then 0 else DueCount(now, cls.defaultDays, ClassOverrides(cls, overrides), rows)
  }

  function ReportFor(cls: RetentionClass, now: int, overrides: Overrides, dryRun: bool, rows: seq<Row>): ClassResult {
    ClassResult(cls.name, now - cls.defaultDays * DAY, cls.complianceLocked,
                if dryRun then 0 else DueRows(cls, now, overrides, rows),
                DueRows(cls, now, overrides, rows), |ClassOverrides(cls, overrides)|)
  }

  // The overriding workspaces, each once. Nothing below depends on their order.
  method ListIds(overrides: map<Workspace, int>) returns (ids: seq<Workspace>)
    ensures Enumerates(ids, overrides)
  {
    ids := [];
    var remaining := overrides.Keys;
    while remaining != {}
      invariant remaining <= overrides.Keys
      invariant forall w :: w in ids <==> w in overrides && w !in remaining
      invariant forall i, j :: 0 <= i < j < |ids| ==> ids[i] != ids[j]
      decreases remaining
    {
      var w :| w in remaining;
      ids := ids + [w];
      remaining := remaining - {w};
    }
  }

  class Sweeper {
    var tables: map<string, seq<Row>>

    constructor (tables: map<string, seq<Row>>)
      ensures this.tables == tables
    {
      this.tables := tables;
    }

    // One bucket: count what the predicate selects, then delete it unless this is a dry run.
    method CountAndDelete(name: string, b: Bucket, dryRun: bool) returns (would: nat, deleted: nat)
      requires name in tables
      modifies this
      ensures would == CountAny(old(tables)[name], [b])
      ensures deleted == if dryRun then 0 else would
      ensures tables == if dryRun then old(tables) else old(tables)[name := Without(old(tables)[name], [b])]
    {
      would := CountAny(tables[name], [b]);
      deleted := 0;
      if !dryRun && would > 0 {
        var before := |tables[name]|;
        LeftOver(tables[name], [b]);
        tables := tables[name := Without(tables[name], [b])];
        deleted := before - |tables[name]|;
      } else if !dryRun {
        LeftOver(tables[name], [b]);
        NothingSelected(tables[name], [b]);
        assert tables == tables[name := Without(tables[name], [b])];
      }
    }

    // Bucket after bucket; real deletes shrink the table that later buckets count.
    method SweepBuckets(name: string, buckets: seq<Bucket>, dryRun: bool) returns (would: nat, deleted: nat)
      requires name in tables
      requires forall i, r :: 0 <= i < |buckets| ==> !(SelectedByAny(buckets[..i], r) && Selected(buckets[i], r))
      modifies this
      ensures would == CountAny(old(tables)[name], buckets)
      ensures deleted == if dryRun then 0 else would
      ensures tables == if dryRun then old(tables) else old(tables)[name := Without(old(tables)[name], buckets)]
    {
      ghost var rows := tables[name];
      would, deleted := 0, 0;
      NoBuckets(rows);
      assert buckets[..0] == [] && tables == tables[name := rows];
      for i := 0 to |buckets|
        invariant name in tables
        invariant tables == if dryRun then old(tables) else old(tables)[name := Without(rows, buckets[..i])]
        invariant would == CountAny(rows, buckets[..i]) && deleted == if dryRun then 0 else would
      {
        assert buckets[..i + 1] == buckets[..i] + [buckets[i]];
        DeleteNext(rows, buckets[..i], buckets[i]);
        CountNext(rows, buckets[..i], buckets[i]);
        var w, d := CountAndDelete(name, buckets[i], dryRun);
        would := would + w;
        deleted := deleted + d;
      }
      assert buckets[..|buckets|] == buckets;
    }

    method SweepClass(cls: RetentionClass, now: int, dryRun: bool, overrides: Overrides)
        returns (r: Option<ClassResult>)
      requires cls.name in tables
      modifies this
      ensures r.None? <==> Misconfigured(cls, overrides)
      ensures r.None? ==> tables == old(tables)
      ensures r.Some? ==> r.value == ReportFor(cls, now, overrides, dryRun, old(tables)[cls.name])
      ensures r.Some? ==> tables == TablesAfterOne(cls, now, dryRun, overrides, old(tables))
    {
      var classOverrides := ClassOverrides(cls, overrides);
      var cutoff := now - cls.defaultDays * DAY;
      if cls.complianceLocked {
        assert tables == tables[cls.name := tables[cls.name]];
        return Some(ClassResult(cls.name, cutoff, true, 0, 0, 0));
      }
      if !cls.hasColumn {
        return None;
      }
      if classOverrides != map[] && !cls.hasWorkspace {
        return None;
      }
      var ids := ListIds(classOverrides);
      var buckets := PlanBuckets(now, cls.defaultDays, classOverrides, ids);
      forall i, r | 0 <= i < |buckets| ensures !(SelectedByAny(buckets[..i], r) && Selected(buckets[i], r)) {
        NotYetSelected(now, cls.defaultDays, classOverrides, ids, i, r);
      }
      BucketsSweepTheRule(now, cls.defaultDays, classOverrides, ids, tables[cls.name]);
      var would, deleted := SweepBuckets(cls.name, buckets, dryRun);
      return Some(ClassResult(cls.name, cutoff, false, deleted, would, |classOverrides|));
    }

    // Every class in registry order. The first misconfigured class stops the sweep with an
    // error; the classes before it have been swept.
    method Sweep(classes: seq<RetentionClass>, now: int, dryRun: bool, overrides: Overrides)
      returns (results: seq<ClassResult>, failed: bool)
      requires InTables(classes, tables)
      modifies this
      ensures failed <==> !AllSound(classes, overrides)
      ensures var done := SoundPrefix(classes, overrides);
              tables == TablesAfter(done, now, dryRun, overrides, old(tables)) &&
              results == Reports(done, now, dryRun, overrides, old(tables))
    {
      results := [];
      ghost var start := tables;
      var i := 0;
      while i < |classes|
        invariant 0 <= i <= |classes| && AllSound(classes[..i], overrides)
        invariant tables == TablesAfter(classes[..i], now, dryRun, overrides, start)
        invariant results == Reports(classes[..i], now, dryRun, overrides, start)
      {
        SweepNext(classes, i, now, dryRun, overrides, start);
        SoundNext(classes, i, overrides);
        var r := SweepClass(classes[i], now, dryRun, overrides);
        if r.None? {
          return results, true;
        }
        results := results + [r.value];
        i := i + 1;
      }
      assert classes[..i] == classes;
      SoundAll(classes, overrides);
      return results, false;
    }
  }

  predicate InTables(classes: seq<RetentionClass>, tables: Tables) {
    forall i :: 0 <= i < |classes| ==> classes[i].name in tables
  }

  predicate AllSound(classes: seq<RetentionClass>, overrides: Overrides) {
    forall k :: 0 <= k < |classes| ==> !Misconfigured(classes[k], overrides)
  }

  // The classes before the first misconfigured one.
  function SoundPrefix(classes: seq<RetentionClass>, overrides: Overrides): (r: seq<RetentionClass>)
    ensures r <= classes
  {
    if classes == [] || Misconfigured(classes[0], overrides) then []
    else [classes[0]] + SoundPrefix(classes[1..], overrides)
  }

  lemma SoundAll(classes: seq<RetentionClass>, overrides: Overrides)
    requires AllSound(classes, overrides)
    ensures SoundPrefix(classes, overrides) == classes
  {
  }

  lemma {:induction false} SoundNext(classes: seq<RetentionClass>, i: nat, overrides: Overrides)
    requires i < |classes| && AllSound(classes[..i], overrides)
    ensures if Misconfigured(classes[i], overrides) then
              SoundPrefix(classes, overrides) == classes[..i] && !AllSound(classes, overrides)
            else AllSound(classes[..i + 1], overrides)
  {
    if i == 0 {
    } else {
      assert classes[..i][0] == classes[0];
      assert classes[1..][..i - 1] == classes[..i][1..] && classes[1..][i - 1] == classes[i];
      SoundNext(classes[1..], i - 1, overrides);
      assert classes[..i] == [classes[0]] + classes[1..][..i - 1];
    }
  }

  type Tables = map<string, seq<Row>>

  function TablesAfterOne(cls: RetentionClass, now: int, dryRun: bool, overrides: Overrides,
                          tables: Tables): (r: Tables)
    ensures r.Keys == tables.Keys
  {
    if dryRun || cls.name !in tables then tables
    else tables[cls.name := SweptRows(cls, now, overrides, tables[cls.name])]
  }

  function TablesAfter(classes: seq<RetentionClass>, now: int, dryRun: bool, overrides: Overrides,
                       tables: Tables): (r: Tables)
    ensures r.Keys == tables.Keys
  {
    if classes == [] then tables
    else
      TablesAfterOne(classes[|classes| - 1], now, dryRun, overrides,
                     TablesAfter(classes[..|classes| - 1], now, dryRun, overrides, tables))
  }

  // The report of each class, taken from the tables its predecessors left.
  function Reports(classes: seq<RetentionClass>, now: int, dryRun: bool, overrides: Overrides,
                   tables: Tables): (r: seq<ClassResult>)
    requires InTables(classes, tables)
    ensures |r| == |classes|
  {
    if classes == [] then []
    else
      var n := |classes| - 1;
      Reports(classes[..n], now, dryRun, overrides, tables) +
      [ReportFor(classes[n], now, overrides, dryRun,
                 TablesAfter(classes[..n], now, dryRun, overrides, tables)[classes[n].name])]
  }

  lemma SweepNext(classes: seq<RetentionClass>, i: nat, now: int, dryRun: bool, overrides: Overrides, tables: Tables)
    requires i < |classes| && InTables(classes, tables)
    ensures classes[i].name in TablesAfter(classes[..i], now, dryRun, overrides, tables)
    ensures var t := TablesAfter(classes[..i], now, dryRun, overrides, tables);
            && TablesAfter(classes[..i + 1], now, dryRun, overrides, tables) ==
                TablesAfterOne(classes[i], now, dryRun, overrides, t)
            && Reports(classes[..i + 1], now, dryRun, overrides, tables) ==
               Reports(classes[..i], now, dryRun, overrides, tables) +
                   [ReportFor(classes[i], now, overrides, dryRun, t[classes[i].name])]
  {
    assert classes[..i + 1][..i] == classes[..i];
  }

  lemma LeftOver(rows: seq<Row>, bs: seq<Bucket>)
    ensures |Without(rows, bs)| + CountAny(rows, bs) == |rows|
  {
  }

  lemma NothingSelected(rows: seq<Row>, bs: seq<Bucket>)
    requires CountAny(rows, bs) == 0
    ensures Without(rows, bs) == rows
  {
  }

  lemma NotYetSelected(now: int, defaultDays: int, overrides: map<Workspace, int>, ids: seq<Workspace>, i: nat, r: Row)
    requires Enumerates(ids, overrides) && i < |PlanBuckets(now, defaultDays, overrides, ids)|
    ensures var bs := PlanBuckets(now, defaultDays, overrides, ids); !(SelectedByAny(bs[..i], r) && Selected(bs[i], r))
  {
    var bs := PlanBuckets(now, defaultDays, overrides, ids);
    if SelectedByAny(bs[..i], r) {
      var k :| 0 <= k < |bs[..i]| && Selected(bs[..i][k], r);
      BucketsDisjoint(now, defaultDays, overrides, ids, k, i, r);
    }
  }

  // ------------------------------------------------------------ whole sweeps

  predicate DistinctNames(classes: seq<RetentionClass>) {
    forall i, j :: 0 <= i < j < |classes| ==> classes[i].name != classes[j].name
  }

  // Tables that belong to no class of the sweep are untouched.
  lemma {:induction false} OtherTablesKept(classes: seq<RetentionClass>, now: int, overrides: Overrides,
                                           tables: Tables, name: string)
    requires name in tables && forall i :: 0 <= i < |classes| ==> classes[i].name != name
    ensures TablesAfter(classes, now, false, overrides, tables)[name] == tables[name]
  {
    if classes != [] { OtherTablesKept(classes[..|classes| - 1], now, overrides, tables, name); }
  }

  // With one class per table, every table ends up as its own class's rule says; for a locked
  // class that is the table as it was.
  lemma {:induction false} SweepIsPerTable(classes: seq<RetentionClass>, now: int, overrides: Overrides,
                                           tables: Tables, i: nat)
    requires DistinctNames(classes) && i < |classes| && classes[i].name in tables
    ensures TablesAfter(classes, now, false, overrides, tables)[classes[i].name] ==
            SweptRows(classes[i], now, overrides, tables[classes[i].name])
  {
    var n := |classes| - 1;
    if i == n {
      OtherTablesKept(classes[..n], now, overrides, tables, classes[n].name);
    } else {
      SweepIsPerTable(classes[..n], now, overrides, tables, i);
    }
  }

  lemma {:induction false} DryRunKeepsTables(classes: seq<RetentionClass>, now: int, overrides: Overrides,
                                             tables: Tables)
    ensures TablesAfter(classes, now, true, overrides, tables) == tables
  {
    if classes != [] { DryRunKeepsTables(classes[..|classes| - 1], now, overrides, tables); }
  }

  predicate SamePrediction(dry: ClassResult, live: ClassResult) {
    dry.deleted == 0 && dry.wouldDelete == live.deleted == live.wouldDelete
  }

  predicate AllPredicted(dry: seq<ClassResult>, live: seq<ClassResult>) {
    |dry| == |live| && forall i :: 0 <= i < |dry| ==> SamePrediction(dry[i], live[i])
  }

  // A dry run changes no table, and the counts it predicts are those of the real sweep.
  lemma {:induction false} DryRunPredicts(classes: seq<RetentionClass>, now: int, overrides: Overrides, tables: Tables)
    requires DistinctNames(classes) && InTables(classes, tables)
    ensures TablesAfter(classes, now, true, overrides, tables) == tables
    ensures var dry := Reports(classes, now, true, overrides, tables);
            var live := Reports(classes, now, false, overrides, tables);
            AllPredicted(dry, live)
  {
    DryRunKeepsTables(classes, now, overrides, tables);
    if classes != [] {
      var n := |classes| - 1;
      DryRunPredicts(classes[..n], now, overrides, tables);
      DryRunKeepsTables(classes[..n], now, overrides, tables);
      OtherTablesKept(classes[..n], now, overrides, tables, classes[n].name);
      assert TablesAfter(classes[..n], now, false, overrides, tables)[classes[n].name] == tables[classes[n].name];
      var dry, live := Reports(classes, now, true, overrides, tables), Reports(classes, now, false, overrides, tables);
      var dry0 := Reports(classes[..n], now, true, overrides, tables);
      var live0 := Reports(classes[..n], now, false, overrides, tables);
      var rows := tables[classes[n].name];
      assert dry == dry0 + [ReportFor(classes[n], now, overrides, true, rows)];
      assert live == live0 + [ReportFor(classes[n], now, overrides, false, rows)];
      assert AllPredicted(dry0, live0);
    }
  }

  // Sweeping again at the same time deletes nothing.
  lemma SecondSweepDeletesNothing(cls: RetentionClass, now: int, overrides: Overrides, rows: seq<Row>)
    ensures var swept := SweptRows(cls, now, overrides, rows);
            SweptRows(cls, now, overrides, swept) == swept && DueRows(cls, now, overrides, swept) == 0
  {
    SecondSweepIdle(now, cls.defaultDays, ClassOverrides(cls, overrides), rows);
  }

  // A registry that gives every unlocked class its column, and every overridable one a
  // workspace column, never stops a sweep, whatever the policies say.
  lemma SoundRegistryNeverStops(cls: RetentionClass, overrides: Overrides)
    requires cls.hasColumn && (cls.name in OVERRIDABLE ==> cls.hasWorkspace)
    ensures !Misconfigured(cls, overrides)
  {
  }
}
