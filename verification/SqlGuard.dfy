/** The guard in front of the database tool: review the script, or refuse it. */
module SqlGuard {
  import opened Options
  import opened SqlClassify
  import SqlText

  datatype GateRequest = GateRequest(subject: string, destructiveVerbs: seq<string>, statementCount: nat)

  function Blocked(ss: seq<Statement>): seq<Statement> {
    if ss == [] then []
    else if IsDestructive(ss[0]) then [ss[0]] + Blocked(ss[1..])
    else Blocked(ss[1..])
  }

  function Verbs(ss: seq<Statement>): (r: seq<string>)
    ensures |r| == |ss| && forall i :: 0 <= i < |r| ==> r[i] == ss[i].leadingVerb
  {
    seq(|ss|, i requires 0 <= i < |ss| => ss[i].leadingVerb)
  }

  function BlockedIn(extra: seq<string>, sql: string): seq<Statement> { Blocked(ClassifySpec(extra, sql)) }

  lemma BlockedIffDestructive(ss: seq<Statement>)
    ensures Blocked(ss) != [] <==> AnyDestructive(ss)
    ensures forall i :: 0 <= i < |Blocked(ss)| ==> IsDestructive(Blocked(ss)[i])
  {
    if ss != [] {
      BlockedIffDestructive(ss[1..]);
      if AnyDestructive(ss[1..]) {
        var i :| 0 <= i < |ss[1..]| && IsDestructive(ss[1..][i]);
        assert ss[i + 1] == ss[1..][i];
      }
      if AnyDestructive(ss) && !IsDestructive(ss[0]) {
        var i :| 0 <= i < |ss| && IsDestructive(ss[i]);
        assert ss[1..][i - 1] == ss[i];
      }
    }
  }

  lemma {:induction false} BlockedAppend(x: seq<Statement>, y: seq<Statement>)
    ensures Blocked(x + y) == Blocked(x) + Blocked(y)
  {
    if x == [] {
      assert x + y == y;
    } else {
      BlockedAppend(x[1..], y);
      assert (x + y)[1..] == x[1..] + y;
    }
  }

  // Reviewing a plain script followed by any other reviews exactly what each part would.
  lemma BlockedAfterPlain(extra: seq<string>, a: string, b: string)
    requires SqlText.Plain(a)
    ensures BlockedIn(extra, a + ";" + b) == BlockedIn(extra, a) + BlockedIn(extra, b)
  {
    ClassifyAfterPlain(extra, a, b);
    BlockedAppend(ClassifySpec(extra, a), ClassifySpec(extra, b));
  }

  // A review step exactly when the script is destructive, naming every offending verb.
  function MaybeBuildStep(extra: seq<string>, sql: string, subject: string): (step: Option<GateRequest>)
    ensures step.Some? <==> ScriptDestructive(extra, sql)
    ensures step.Some? ==> step.value.subject == subject
    ensures step.Some? ==> step.value.statementCount == |step.value.destructiveVerbs| > 0
    ensures step.Some? ==> step.value.destructiveVerbs == Verbs(BlockedIn(extra, sql))
  {
    BlockedIffDestructive(ClassifySpec(extra, sql));
    var destructive := BlockedIn(extra, sql);
    if destructive == [] then None else Some(GateRequest(subject, Verbs(destructive), |destructive|))
  }

  // Raises with the offending statements, or passes.
  function AssertReadOnly(extra: seq<string>, sql: string): (r: Result<(), seq<Statement>>)
    ensures r.Err? <==> ScriptDestructive(extra, sql)
    ensures r.Err? ==> r.error != [] && forall i :: 0 <= i < |r.error| ==> IsDestructive(r.error[i])
  {
    BlockedIffDestructive(ClassifySpec(extra, sql));
    var destructive := BlockedIn(extra, sql);
    if destructive != [] then Err(destructive) else Ok(())
  }

  // The two uses of the guard agree: a step is built exactly when the check raises, and it
  // names the verbs of the statements that raised.
  lemma GuardAgrees(extra: seq<string>, sql: string, subject: string)
    ensures MaybeBuildStep(extra, sql, subject).Some? <==> AssertReadOnly(extra, sql).Err?
    ensures AssertReadOnly(extra, sql).Err? ==>
              MaybeBuildStep(extra, sql, subject).value.destructiveVerbs == Verbs(AssertReadOnly(extra, sql).error)
  {
    BlockedIffDestructive(ClassifySpec(extra, sql));
  }
}
