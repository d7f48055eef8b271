/** Feedback cases appended to a file, and promoted into the scored dataset. */
module Promotion {
  import opened Options

  // A line of a JSONL file: a case, one that readers skip (blank or comment), one that is not
  // JSON at all, a JSON object that is no valid case but may carry an id, or another JSON value.
  datatype Line = Case(id: string, body: string) | Skipped | Broken | Invalid(claimed: Option<string>) | NotObject

  function IdsOf(l: Line): set<string> {
    match l
    case Case(id, _) => {id}
    case Invalid(Some(id)) => {id}
    case _ => {}
  }

  function Ids(lines: seq<Line>): set<string> {
    if lines == [] then {} else Ids(lines[..|lines| - 1]) + IdsOf(lines[|lines| - 1])
  }

  predicate Loadable(lines: seq<Line>) { forall l :: l in lines ==> l.Case? || l.Skipped? }

  // Appending reads the ids of all objects and passes over what is not JSON; any other JSON
  // value makes it raise.
  predicate Scannable(lines: seq<Line>) { NotObject !in lines }

  // `load_jsonl`: the cases in order.
  function Load(lines: seq<Line>): seq<Line> {
    if lines == [] then []
    else Load(lines[..|lines| - 1]) + if lines[|lines| - 1].Case? then [lines[|lines| - 1]] else []
  }

  // No id twice among the cases.
  predicate DistinctIds(lines: seq<Line>) {
    lines == [] || (DistinctIds(lines[..|lines| - 1]) && Ids(lines[..|lines| - 1]) !! IdsOf(lines[|lines| - 1]))
  }

  // The cases a promotion adds: each first occurrence of an id the dataset does not have.
  function NewCases(known: set<string>, feedback: seq<Line>): seq<Line> {
    if feedback == [] then []
    else
      var before, last := NewCases(known, feedback[..|feedback| - 1]), feedback[|feedback| - 1];
      if last.Case? && last.id !in known && last.id !in Ids(before) then before + [last] else before
  }

  // ------------------------------------------------------------ file lemmas

  lemma Appended(lines: seq<Line>, l: Line)
    ensures (lines + [l])[..|lines + [l]| - 1] == lines && (lines + [l])[|lines + [l]| - 1] == l
    ensures Ids(lines + [l]) == Ids(lines) + IdsOf(l)
    ensures DistinctIds(lines + [l]) <==> DistinctIds(lines) && Ids(lines) !! IdsOf(l)
  {
    assert (lines + [l])[..|lines|] == lines;
  }

  lemma {:induction false} LoadKeepsIds(lines: seq<Line>)
    requires Loadable(lines)
    ensures Ids(Load(lines)) == Ids(lines) && forall l :: l in Load(lines) ==> l.Case?
  {
    if lines != [] {
      var n := |lines| - 1;
      LoadKeepsIds(lines[..n]);
      Appended(Load(lines[..n]), lines[n]);
      assert Load(lines[..n]) + [] == Load(lines[..n]);
    }
  }

  // Skipped lines make no difference to what is promoted.
  lemma {:induction false} NewCasesOfLoad(known: set<string>, feedback: seq<Line>)
    ensures NewCases(known, Load(feedback)) == NewCases(known, feedback)
  {
    if feedback != [] {
      var n := |feedback| - 1;
      NewCasesOfLoad(known, feedback[..n]);
      Appended(Load(feedback[..n]), feedback[n]);
      assert Load(feedback[..n]) + [] == Load(feedback[..n]);
    }
  }

  // ------------------------------------------------------------ what a promotion adds

  // After a promotion every feedback id is known, and only feedback ids were added.
  lemma {:induction false} NewCasesCover(known: set<string>, feedback: seq<Line>)
    requires Loadable(feedback)
    ensures known + Ids(NewCases(known, feedback)) == known + Ids(feedback)
    ensures known !! Ids(NewCases(known, feedback)) && DistinctIds(NewCases(known, feedback))
    ensures forall l :: l in NewCases(known, feedback) ==> l.Case? && l in feedback
  {
    if feedback != [] {
      var n := |feedback| - 1;
      NewCasesCover(known, feedback[..n]);
      Appended(NewCases(known, feedback[..n]), feedback[n]);
    }
  }

  predicate Claims(l: Line, id: string) {
    (l.Case? && l.id == id) || (l.Invalid? && l.claimed == Some(id))
  }

  // The ids of a file are those that some object in it carries, valid case or not.
  lemma {:induction false} IdsAre(lines: seq<Line>, id: string)
    ensures id in Ids(lines) <==> exists i :: 0 <= i < |lines| && Claims(lines[i], id)
  {
    if lines != [] {
      var n := |lines| - 1;
      IdsAre(lines[..n], id);
      if i :| 0 <= i < n && Claims(lines[..n][i], id) { assert Claims(lines[i], id); }
      if i :| 0 <= i < |lines| && Claims(lines[i], id) {
        if i < n { assert Claims(lines[..n][i], id); } else { assert id in IdsOf(lines[n]); }
      }
    }
  }

  // Loading finds every case, and nothing else.
  lemma {:induction false} LoadCounts(lines: seq<Line>)
    ensures |Load(lines)| == |CaseAt(lines)|
    ensures forall l :: l in Load(lines) <==> l in lines && l.Case?
  {
    if lines != [] {
      var n := |lines| - 1;
      LoadCounts(lines[..n]);
      assert CaseAt(lines) == CaseAt(lines[..n]) + if lines[n].Case? then {n} else {};
      assert lines == lines[..n] + [lines[n]];
    }
  }

  function CaseAt(lines: seq<Line>): set<nat> { set i: nat | i < |lines| && lines[i].Case? }

  predicate CaseOf(l: Line, id: string) { l.Case? && l.id == id }

  // Line i is the first case with its id, and the id is not known.
  predicate IsNew(known: set<string>, feedback: seq<Line>, i: nat)
    requires i < |feedback|
  {
    && feedback[i].Case? && feedback[i].id !in known
    && forall j :: 0 <= j < i ==> !CaseOf(feedback[j], feedback[i].id)
  }

  lemma {:induction false} SeenAmongNew(known: set<string>, feedback: seq<Line>, id: string)
    requires id !in known
    ensures id in Ids(NewCases(known, feedback)) <==> exists j :: 0 <= j < |feedback| && CaseOf(feedback[j], id)
  {
    if feedback != [] {
      var n := |feedback| - 1;
      SeenAmongNew(known, feedback[..n], id);
      Appended(NewCases(known, feedback[..n]), feedback[n]);
      if j :| 0 <= j < n && CaseOf(feedback[..n][j], id) { assert CaseOf(feedback[j], id); }
      if j :| 0 <= j < |feedback| && CaseOf(feedback[j], id) {
        if j < n { assert CaseOf(feedback[..n][j], id); }
      }
    }
  }

  // Line by line, in order: a promotion adds a line exactly when it is new.
  lemma NewCasesAre(known: set<string>, feedback: seq<Line>, i: nat)
    requires i < |feedback|
    ensures NewCases(known, feedback[..i + 1]) ==
            NewCases(known, feedback[..i]) + if IsNew(known, feedback, i) then [feedback[i]] else []
  {
    var l, before := feedback[i], NewCases(known, feedback[..i]);
    assert feedback[..i + 1][..i] == feedback[..i] && before + [] == before;
    if l.Case? && l.id !in known {
      SeenAmongNew(known, feedback[..i], l.id);
      if j :| 0 <= j < i && CaseOf(feedback[..i][j], l.id) { assert CaseOf(feedback[j], l.id); }
      if j :| 0 <= j < i && CaseOf(feedback[j], l.id) { assert CaseOf(feedback[..i][j], l.id); }
    }
  }

  // When every feedback id is known there is nothing to promote.
  lemma {:induction false} NothingNew(known: set<string>, feedback: seq<Line>)
    requires Ids(feedback) <= known
    ensures NewCases(known, feedback) == []
  {
    if feedback != [] { NothingNew(known, feedback[..|feedback| - 1]); }
  }

  lemma {:induction false} NewCasesBounded(known: set<string>, cases: seq<Line>)
    ensures |NewCases(known, cases)| <= |cases|
  {
    if cases != [] { NewCasesBounded(known, cases[..|cases| - 1]); }
  }

  lemma {:induction false} Concat(a: seq<Line>, b: seq<Line>)
    ensures Ids(a + b) == Ids(a) + Ids(b)
    ensures DistinctIds(a) && DistinctIds(b) && Ids(a) !! Ids(b) ==> DistinctIds(a + b)
  {
    if b == [] {
      assert a + b == a;
    } else {
      var n := |b| - 1;
      Concat(a, b[..n]);
      Appended(a + b[..n], b[n]);
      assert a + b == a + b[..n] + [b[n]];
    }
  }

  // ------------------------------------------------------------ the two files of one agent

  datatype Files = Files(dataset: seq<Line>, feedback: seq<Line>)

  datatype Op = Append(id: string, body: string) | Promote

  function Do(f: Files, op: Op): Files {
    match op
    case Append(id, body) =>
      if !Scannable(f.feedback) || id in Ids(f.feedback) then f else f.(feedback := f.feedback + [Case(id, body)])
    case Promote =>
      if !Loadable(f.feedback) || !Loadable(f.dataset) then f
      else f.(dataset := f.dataset + NewCases(Ids(f.dataset), f.feedback))
  }

  function Run(f: Files, ops: seq<Op>): Files {
    if ops == [] then f else Do(Run(f, ops[..|ops| - 1]), ops[|ops| - 1])
  }

  lemma DoGrows(f: Files, op: Op)
    ensures f.dataset <= Do(f, op).dataset && f.feedback <= Do(f, op).feedback
    ensures DistinctIds(f.dataset) ==> DistinctIds(Do(f, op).dataset)
    ensures DistinctIds(f.feedback) ==> DistinctIds(Do(f, op).feedback)
  {
    match op
    case Append(id, body) => Appended(f.feedback, Case(id, body));
    case Promote =>
      if Loadable(f.feedback) {
        NewCasesCover(Ids(f.dataset), f.feedback);
        Concat(f.dataset, NewCases(Ids(f.dataset), f.feedback));
      }
  }

  // Over every interleaving of appends and promotions existing lines stay where they are and
  // ids that were distinct stay distinct, in both files.
  lemma {:induction false} RunGrows(f: Files, ops: seq<Op>)
    ensures f.dataset <= Run(f, ops).dataset && f.feedback <= Run(f, ops).feedback
    ensures DistinctIds(f.dataset) ==> DistinctIds(Run(f, ops).dataset)
    ensures DistinctIds(f.feedback) ==> DistinctIds(Run(f, ops).feedback)
  {
    if ops != [] {
      RunGrows(f, ops[..|ops| - 1]);
      DoGrows(Run(f, ops[..|ops| - 1]), ops[|ops| - 1]);
    }
  }

  lemma PromoteCovers(f: Files)
    requires Loadable(f.feedback) && Loadable(f.dataset)
    ensures Ids(Do(f, Promote).dataset) == Ids(f.dataset) + Ids(f.feedback)
    ensures Loadable(Do(f, Promote).dataset)
  {
    NewCasesCover(Ids(f.dataset), f.feedback);
    Concat(f.dataset, NewCases(Ids(f.dataset), f.feedback));
  }

  // Promoting again changes nothing, even after appending a case that is already there.
  lemma PromoteIdempotent(f: Files, id: string, body: string)
    requires Loadable(f.feedback) && Loadable(f.dataset)
    ensures Do(Do(f, Promote), Promote) == Do(f, Promote)
    ensures id in Ids(f.feedback) ==> Do(Do(Do(f, Promote), Append(id, body)), Promote) == Do(f, Promote)
  {
    PromoteCovers(f);
    var g := Do(f, Promote);
    NothingNew(Ids(g.dataset), g.feedback);
    assert g.dataset + [] == g.dataset;
  }

  datatype PromotionResult = PromotionResult(promotedIds: seq<string>, skippedExisting: nat, feedbackTotal: nat)

  function CaseIds(cases: seq<Line>): (r: seq<string>)
    ensures |r| == |cases| && forall i :: 0 <= i < |r| && cases[i].Case? ==> r[i] == cases[i].id
  {
    seq(|cases|, i requires 0 <= i < |cases| => if cases[i].Case? then cases[i].id else "")
  }

  class AgentDatasets {
    var dataset: seq<Line>
    var feedback: seq<Line>

    ghost function Value(): Files
      reads this
    {
      Files(dataset, feedback)
    }

    constructor (dataset: seq<Line>, feedback: seq<Line>)
      ensures Value() == Files(dataset, feedback)
    {
      this.dataset, this.feedback := dataset, feedback;
    }

    // Lines that are not JSON are passed over here; a JSON value that is no object raises.
    method ExistingCaseIds() returns (r: Option<set<string>>)
      ensures r == if NotObject in feedback then None else Some(Ids(feedback))
    {
      var ids: set<string> := {};
      for i := 0 to |feedback|
        invariant ids == Ids(feedback[..i]) && NotObject !in feedback[..i]
      {
        assert feedback[..i + 1][..i] == feedback[..i] && feedback[..i + 1] == feedback[..i] + [feedback[i]];
        if feedback[i].NotObject? {
          return None;
        }
        if feedback[i].Case? {
          ids := ids + {feedback[i].id};
        } else if feedback[i].Invalid? && feedback[i].claimed.Some? {
          ids := ids + {feedback[i].claimed.value};
        }
      }
      assert feedback[..|feedback|] == feedback;
      return Some(ids);
    }

    // Whether a line was written, or nothing when the scan raised.
    method AppendFeedbackCase(id: string, body: string) returns (created: Option<bool>)
      modifies this
      ensures Value() == Do(old(Value()), Append(id, body))
      ensures created == if NotObject in old(feedback) then None else Some(id !in Ids(old(feedback)))
      ensures dataset == old(dataset)
      ensures feedback == if created == Some(true) then old(feedback) + [Case(id, body)] else old(feedback)
    {
      var existing := ExistingCaseIds();
      if existing.None? {
        return None;
      }
      if id in existing.value {
        return Some(false);
      }
      feedback := feedback + [Case(id, body)];
      return Some(true);
    }

    // The loop over the feedback cases with its `seen` set.
    method SelectNew(cases: seq<Line>, existing: set<string>) returns (toPromote: seq<Line>)
      requires forall l :: l in cases ==> l.Case?
      ensures toPromote == NewCases(existing, cases)
    {
      toPromote := [];
      var seen: set<string> := {};
      for i := 0 to |cases|
        invariant toPromote == NewCases(existing, cases[..i]) && seen == Ids(toPromote)
      {
        assert cases[..i + 1][..i] == cases[..i] && cases[i] in cases;
        Appended(toPromote, cases[i]);
        if cases[i].id in existing || cases[i].id in seen {
          continue;
        }
        seen := seen + {cases[i].id};
        toPromote := toPromote + [cases[i]];
      }
      assert cases[..|cases|] == cases;
    }

    // A line in either file that is neither skipped nor a valid case raises before anything is
    // written.
    method PromoteFeedbackCases() returns (r: Option<PromotionResult>)
      modifies this
      ensures Value() == Do(old(Value()), Promote)
      ensures r.None? <==>
              exists l :: (l in feedback || l in old(dataset)) && (l.Broken? || l.Invalid? || l.NotObject?)
      ensures r.Some? ==> r.value.promotedIds == CaseIds(NewCases(Ids(old(dataset)), feedback))
      ensures feedback == old(feedback)
      ensures dataset == if r.Some? then old(dataset) + NewCases(Ids(old(dataset)), feedback) else old(dataset)
      ensures r.Some? ==> |r.value.promotedIds| + r.value.skippedExisting == r.value.feedbackTotal == |Load(feedback)|
    {
      if !Loadable(feedback) || !Loadable(dataset) {
        return None;
      }
      var cases := Load(feedback);
      LoadKeepsIds(dataset);
      LoadKeepsIds(feedback);
      NewCasesOfLoad(Ids(dataset), feedback);
      NewCasesBounded(Ids(dataset), cases);
      var toPromote := SelectNew(cases, Ids(Load(dataset)));
      dataset := dataset + toPromote;
      return Some(PromotionResult(CaseIds(toPromote), |cases| - |toPromote|, |cases|));
    }
  }
}
