/** The sweep told from the tenant's raw overrides, without its plan. */
module RetentionWindows {
  import opened Options
  import opened RetentionRules
  import opened RetentionSweep

  // Whether the tenant has set a window of its own for this class in this workspace.
  predicate HasOwn(cls: RetentionClass, overrides: Overrides, w: Workspace) {
    && cls.name in {"agent_feedback", "external_issues", "flakiness_observations", "test_runs", "usage_records"}
    && w in overrides && cls.name in overrides[w]
  }

  // How many days a row of this class is kept.
  function Window(cls: RetentionClass, overrides: Overrides, r: Row): int {
    if r.workspace.Some? && HasOwn(cls, overrides, r.workspace.value) then overrides[r.workspace.value][cls.name]
    else cls.defaultDays
  }

  // A row without a timestamp never ages; one exactly as old as its window stays.
  predicate Stays(cls: RetentionClass, now: int, overrides: Overrides, r: Row) {
    match r.observedAt
    case None => true
    case Some(t) => cls.complianceLocked || now - t <= Window(cls, overrides, r) * 24 * 60 * 60 * 1_000_000
  }

  // The rows that stay, in order.
  function Left(cls: RetentionClass, now: int, overrides: Overrides, rows: seq<Row>): (r: seq<Row>)
    ensures |r| <= |rows| && forall x :: x in r <==> x in rows && Stays(cls, now, overrides, x)
  {
    if rows == [] then []
    else (if Stays(cls, now, overrides, rows[0]) then [rows[0]] else []) + Left(cls, now, overrides, rows[1..])
  }

  lemma ProjectedOverrides(cls: RetentionClass, overrides: Overrides, w: Workspace)
    requires !cls.complianceLocked
    ensures var own := ClassOverrides(cls, overrides);
            (w in own <==> HasOwn(cls, overrides, w)) && (w in own ==> own[w] == overrides[w][cls.name])
  {
  }

  lemma DueInWords(cls: RetentionClass, now: int, overrides: Overrides, r: Row)
    requires !cls.complianceLocked
    ensures Due(now, cls.defaultDays, ClassOverrides(cls, overrides), r) <==> !Stays(cls, now, overrides, r)
  {
    if r.workspace.Some? { ProjectedOverrides(cls, overrides, r.workspace.value); }
  }

  lemma {:induction false} LockedStays(cls: RetentionClass, now: int, overrides: Overrides, rows: seq<Row>)
    requires cls.complianceLocked
    ensures Left(cls, now, overrides, rows) == rows
  {
    if rows != [] { LockedStays(cls, now, overrides, rows[1..]); }
  }

  // A sweep of a class leaves the rows that stay, in order, and counts the others.
  lemma {:induction false} SweptInWords(cls: RetentionClass, now: int, overrides: Overrides, rows: seq<Row>)
    ensures var left := Left(cls, now, overrides, rows);
            SweptRows(cls, now, overrides, rows) == left && DueRows(cls, now, overrides, rows) == |rows| - |left|
  {
    if cls.complianceLocked {
      LockedStays(cls, now, overrides, rows);
    } else if rows != [] {
      SweptInWords(cls, now, overrides, rows[1..]);
      DueInWords(cls, now, overrides, rows[0]);
    }
  }

  // The workspaces with a window of their own; a locked class has none.
  function Overriders(cls: RetentionClass, overrides: Overrides): (r: set<Workspace>)
    ensures forall w :: w in r <==> HasOwn(cls, overrides, w) && !cls.complianceLocked
  {
    if cls.complianceLocked then {} else set w | w in overrides && HasOwn(cls, overrides, w)
  }

  lemma OverridersCounted(cls: RetentionClass, overrides: Overrides)
    ensures |ClassOverrides(cls, overrides)| == |Overriders(cls, overrides)|
    ensures ClassOverrides(cls, overrides).Keys == Overriders(cls, overrides)
  {
    var own := ClassOverrides(cls, overrides);
    assert own.Keys == Overriders(cls, overrides);
    assert |own| == |own.Keys|;
  }

  // The result reported for a class.
  lemma ReportInWords(cls: RetentionClass, now: int, overrides: Overrides, dryRun: bool, rows: seq<Row>)
    ensures var gone := |rows| - |Left(cls, now, overrides, rows)|;
            ReportFor(cls, now, overrides, dryRun, rows) ==
            ClassResult(cls.name, now - cls.defaultDays * 24 * 60 * 60 * 1_000_000, cls.complianceLocked,
                        if dryRun then 0 else gone, gone, |Overriders(cls, overrides)|)
  {
    SweptInWords(cls, now, overrides, rows);
    OverridersCounted(cls, overrides);
  }

  // What stops a sweep: no timestamp column, or an override for a table without workspaces.
  lemma StopsIff(cls: RetentionClass, overrides: Overrides)
    ensures Misconfigured(cls, overrides) <==>
            !cls.complianceLocked &&
            (!cls.hasColumn || (!cls.hasWorkspace && exists w :: HasOwn(cls, overrides, w)))
  {
    OverridersCounted(cls, overrides);
    if w :| HasOwn(cls, overrides, w) { ProjectedOrLocked(cls, overrides, w); }
    if ClassOverrides(cls, overrides) != map[] {
      var w :| w in ClassOverrides(cls, overrides);
      assert HasOwn(cls, overrides, w);
    }
  }

  lemma ProjectedOrLocked(cls: RetentionClass, overrides: Overrides, w: Workspace)
    requires HasOwn(cls, overrides, w)
    ensures cls.complianceLocked || w in ClassOverrides(cls, overrides)
  {
  }

  // The whole sweep: every table keeps, in order, the rows that its class lets stay.
  lemma SweepInWords(classes: seq<RetentionClass>, now: int, overrides: Overrides, tables: Tables, i: nat)
    requires DistinctNames(classes) && i < |classes| && classes[i].name in tables
    ensures TablesAfter(classes, now, false, overrides, tables)[classes[i].name] ==
            Left(classes[i], now, overrides, tables[classes[i].name])
  {
    SweepIsPerTable(classes, now, overrides, tables, i);
    SweptInWords(classes[i], now, overrides, tables[classes[i].name]);
  }

  lemma Shorter(classes: seq<RetentionClass>, tables: Tables)
    requires classes != [] && DistinctNames(classes) && InTables(classes, tables)
    ensures DistinctNames(classes[..|classes| - 1]) && InTables(classes[..|classes| - 1], tables)
  {
  }

  lemma ReportsLast(classes: seq<RetentionClass>, now: int, dryRun: bool, overrides: Overrides, tables: Tables, n: nat)
    requires n + 1 == |classes| && InTables(classes, tables) && InTables(classes[..n], tables)
    requires classes[n].name in tables
    ensures Reports(classes, now, dryRun, overrides, tables) ==
            Reports(classes[..n], now, dryRun, overrides, tables) +
            [ReportFor(classes[n], now, overrides, dryRun,
                       TablesAfter(classes[..n], now, dryRun, overrides, tables)[classes[n].name])]
  {
  }

  lemma OwnTableUntouched(classes: seq<RetentionClass>, now: int, dryRun: bool, overrides: Overrides, tables: Tables,
                          n: nat)
    requires n + 1 == |classes| && DistinctNames(classes) && classes[n].name in tables
    ensures TablesAfter(classes[..n], now, dryRun, overrides, tables)[classes[n].name] == tables[classes[n].name]
  {
    if dryRun {
      DryRunKeepsTables(classes[..n], now, overrides, tables);
    } else {
      OtherTablesKept(classes[..n], now, overrides, tables, classes[n].name);
    }
  }

  lemma {:induction false} ReportsAt(classes: seq<RetentionClass>, now: int, dryRun: bool, overrides: Overrides,
                                     tables: Tables, i: nat)
    requires DistinctNames(classes) && InTables(classes, tables) && i < |classes|
    ensures Reports(classes, now, dryRun, overrides, tables)[i] ==
            ReportFor(classes[i], now, overrides, dryRun, tables[classes[i].name])
  {
    var n := |classes| - 1;
    Shorter(classes, tables);
    ReportsLast(classes, now, dryRun, overrides, tables, n);
    if i < n {
      ReportsAt(classes[..n], now, dryRun, overrides, tables, i);
    } else {
      OwnTableUntouched(classes, now, dryRun, overrides, tables, n);
    }
  }

  // And every class is reported, dry run or not, with the counts of its own table.
  lemma ReportsInWords(classes: seq<RetentionClass>, now: int, dryRun: bool, overrides: Overrides, tables: Tables,
                       i: nat)
    requires DistinctNames(classes) && InTables(classes, tables) && i < |classes|
    ensures var c := classes[i];
            var gone := |tables[c.name]| - |Left(c, now, overrides, tables[c.name])|;
            Reports(classes, now, dryRun, overrides, tables)[i] ==
            ClassResult(c.name, now - c.defaultDays * 24 * 60 * 60 * 1_000_000, c.complianceLocked,
                        if dryRun then 0 else gone, gone, |Overriders(c, overrides)|)
  {
    ReportsAt(classes, now, dryRun, overrides, tables, i);
    ReportInWords(classes[i], now, overrides, dryRun, tables[classes[i].name]);
  }
}
