/** Tagging every statement of a script, and the approval gate in front of it. */
module SqlClassify {
  import opened Options
  import opened SqlText
  import Sequences
  import SqlSplit
  import SqlWith

  const READ_ONLY_VERBS: set<string> := {"SELECT", "EXPLAIN", "SHOW", "WITH", "VALUES"}
  const DESTRUCTIVE_VERBS: set<string> :=
    {"INSERT", "UPDATE", "DELETE", "DROP", "TRUNCATE", "ALTER", "CREATE", "REPLACE", "MERGE", "GRANT", "REVOKE",
     "REINDEX", "VACUUM", "CALL", "EXEC", "EXECUTE"}

  datatype Kind = ReadOnly | Destructive | Unknown

  datatype Statement = Statement(raw: string, leadingVerb: string, kind: Kind)

  function UpperAll(extra: seq<string>): set<string> {
    set i | 0 <= i < |extra| :: Upper(extra[i])
  }

  // The verdict on one statement. A WITH clause is judged by the verb behind it, and whatever
  // is on neither list is unknown.
  function ClassifyOne(extra: seq<string>, raw: string, cleaned: string): Statement {
    var verb, destructive := LeadingVerb(cleaned), DESTRUCTIVE_VERBS + UpperAll(extra);
    if verb in destructive then Statement(raw, verb, Destructive)
    else if verb == "WITH" then
      var inner := SqlWith.VerbAfterWithSpec(cleaned);
      if inner in destructive then Statement(raw, "WITH", Destructive)
      else if inner in READ_ONLY_VERBS then Statement(raw, "WITH", ReadOnly)
      else Statement(raw, "WITH", Unknown)
    else if verb in READ_ONLY_VERBS then Statement(raw, verb, ReadOnly)
    else Statement(raw, verb, Unknown)
  }

  // The tag of one raw piece, or none when nothing but blanks is left after cleaning.
  function ClassifyPiece(extra: seq<string>, piece: string): seq<Statement> {
    var cleaned := Strip(Clean(piece));
    if cleaned == "" then [] else [ClassifyOne(extra, Strip(piece), cleaned)]
  }

  function ClassifyPieces(extra: seq<string>, pieces: seq<string>): seq<Statement> {
    if pieces == [] then []
    else ClassifyPieces(extra, pieces[..|pieces| - 1]) + ClassifyPiece(extra, pieces[|pieces| - 1])
  }

  function ClassifySpec(extra: seq<string>, sql: string): seq<Statement> {
    ClassifyPieces(extra, SqlSplit.Split(sql))
  }

  predicate IsDestructive(s: Statement) { !s.kind.ReadOnly? }

  predicate AnyDestructive(ss: seq<Statement>) {
    exists i :: 0 <= i < |ss| && IsDestructive(ss[i])
  }

  predicate ScriptDestructive(extra: seq<string>, sql: string) {
    AnyDestructive(ClassifySpec(extra, sql))
  }

  method Classify(extra: seq<string>, sql: string) returns (statements: seq<Statement>)
    ensures statements == ClassifySpec(extra, sql)
  {
    statements := [];
    var pieces := SqlSplit.SplitStatements(sql);
    for i := 0 to |pieces|
      invariant statements == ClassifyPieces(extra, pieces[..i])
    {
      assert pieces[..i + 1][..i] == pieces[..i];
      var cleaned := Strip(Clean(pieces[i]));
      if cleaned == "" {
        continue;
      }
      statements := statements + [ClassifyOne(extra, Strip(pieces[i]), cleaned)];
    }
    assert pieces[..|pieces|] == pieces;
  }

  // ------------------------------------------------------------ one statement after another

  lemma {:induction false} ClassifyConcat(extra: seq<string>, p: seq<string>, q: seq<string>)
    ensures ClassifyPieces(extra, p + q) == ClassifyPieces(extra, p) + ClassifyPieces(extra, q)
  {
    var f := (piece: string) => ClassifyPiece(extra, piece);
    Collected(extra, p, f);
    Collected(extra, q, f);
    Collected(extra, p + q, f);
    FlatMapConcat(f, p, q);
  }

  function FlatMap<A, B>(f: A -> seq<B>, s: seq<A>): seq<B> {
    if s == [] then [] else FlatMap(f, s[..|s| - 1]) + f(s[|s| - 1])
  }

  lemma {:induction false} FlatMapConcat<A, B>(f: A -> seq<B>, p: seq<A>, q: seq<A>)
    ensures FlatMap(f, p + q) == FlatMap(f, p) + FlatMap(f, q)
  {
    if q == [] {
      assert p + q == p;
    } else {
      var n := |q| - 1;
      FlatMapConcat(f, p, q[..n]);
      assert (p + q)[..|p + q| - 1] == p + q[..n];
    }
  }

  lemma {:induction false} Collected(extra: seq<string>, p: seq<string>, f: string -> seq<Statement>)
    requires forall piece :: f(piece) == ClassifyPiece(extra, piece)
    ensures ClassifyPieces(extra, p) == FlatMap(f, p)
  {
    if p != [] { Collected(extra, p[..|p| - 1], f); }
  }

  // A blank piece is no statement.
  lemma BlankPiece(extra: seq<string>, piece: string)
    requires Blank(piece)
    ensures ClassifyPiece(extra, piece) == []
  {
    BlankStrip(piece);
    CleanPlain(piece);
  }

  // Dropping the blank tail does not change the classification.
  lemma SplitClassifiesPieces(extra: seq<string>, sql: string)
    ensures ClassifySpec(extra, sql) == ClassifyPieces(extra, SqlSplit.Pieces(sql))
  {
    var p := SqlSplit.Pieces(sql);
    SqlSplit.SplitTail(sql);
    if SqlSplit.Split(sql) != p {
      BlankPiece(extra, p[|p| - 1]);
      ClassifyConcat(extra, SqlSplit.Split(sql), [p[|p| - 1]]);
      assert ClassifyPieces(extra, []) == [] && [p[|p| - 1]][..0] == [];
    }
  }

  // ------------------------------------------------------------ the homomorphism law

  // Shifting both the text and every place by the same amount leaves the pieces alone.
  lemma {:induction false} CutShift(x: string, y: string, from: nat, semis: seq<nat>, semis': seq<nat>)
    requires |semis| == |semis'| && forall i :: 0 <= i < |semis| ==> semis'[i] == semis[i] + |x|
    ensures SqlSplit.Cut(x + y, from + |x|, semis') == SqlSplit.Cut(y, from, semis)
    decreases |semis|
  {
    SliceShift(x, y, from, if semis == [] then |y| else semis[0]);
    if semis != [] { CutShift(x, y, semis[0] + 1, semis[1..], semis'[1..]); }
  }

  lemma SliceShift(x: string, y: string, lo: nat, hi: nat)
    ensures SqlSplit.Slice(x + y, lo + |x|, hi + |x|) == SqlSplit.Slice(y, lo, hi)
  {
  }

  lemma {:induction false} SemisShift(cleaned: string, from: nat, d: nat)
    ensures var p, p' := SqlSplit.Semis(cleaned, from), SqlSplit.Semis(cleaned, from + d);
            |p| == |p'| && forall i :: 0 <= i < |p| ==> p'[i] == p[i] + d
  {
    if cleaned != "" { SemisShift(cleaned[1..], from + 1, d); }
  }

  lemma {:induction false} SemisAppend(a: string, c: string, from: nat)
    ensures SqlSplit.Semis(a + (";" + c), from) ==
            SqlSplit.Semis(a, from) + [from + |a|] + SqlSplit.Semis(c, from + |a| + 1)
  {
    var t := a + (";" + c);
    if a == "" {
      assert t == ";" + c && t[0] == ';' && t[1..] == c;
    } else {
      SemisAppend(a[1..], c, from + 1);
      assert t[0] == a[0] && t[1..] == a[1..] + (";" + c);
    }
  }

  // The pieces of the first part, then those of the second.
  lemma {:induction false} CutAppend(a: string, b: string, from: nat, p: seq<nat>, q: seq<nat>, q': seq<nat>)
    requires forall i :: 0 <= i < |p| ==> p[i] < |a|
    requires from <= |a| && |q| == |q'| && forall i :: 0 <= i < |q| ==> q'[i] == q[i] + |a| + 1
    ensures SqlSplit.Cut(a + (";" + b), from, p + [|a|] + q') == SqlSplit.Cut(a, from, p) + SqlSplit.Cut(b, 0, q)
    decreases |p|
  {
    var t, m := a + (";" + b), p + [|a|] + q';
    if p == [] {
      assert m[0] == |a| && m[1..] == q';
      assert SqlSplit.Slice(t, from, |a|) == SqlSplit.Slice(a, from, |a|);
      assert t == (a + ";") + b;
      CutShift(a + ";", b, 0, q, q');
    } else {
      assert m[0] == p[0] && m[1..] == p[1..] + [|a|] + q';
      assert SqlSplit.Slice(t, from, p[0]) == SqlSplit.Slice(a, from, p[0]);
      CutAppend(a, b, p[0] + 1, p[1..], q, q');
      Sequences.Assoc([SqlSplit.Slice(a, from, p[0])], SqlSplit.Cut(a, p[0] + 1, p[1..]), SqlSplit.Cut(b, 0, q));
    }
  }

  // Whenever cleaning works on both sides of a semicolon separately and keeps the length of
  // the left side, splitting is splitting each side.
  lemma PlacesAppend(a: string, b: string)
    requires |Clean(a)| == |a| && Clean(a + ";" + b) == Clean(a) + ";" + Clean(b)
    ensures SqlSplit.Semis(Clean(a + ";" + b), 0) ==
            SqlSplit.Semis(Clean(a), 0) + [|a|] + SqlSplit.Semis(Clean(b), |a| + 1)
  {
    Sequences.Assoc(Clean(a), ";", Clean(b));
    SemisAppend(Clean(a), Clean(b), 0);
  }

  lemma PiecesAppend(a: string, b: string)
    requires |Clean(a)| == |a| && Clean(a + ";" + b) == Clean(a) + ";" + Clean(b)
    ensures SqlSplit.Pieces(a + ";" + b) == SqlSplit.Pieces(a) + SqlSplit.Pieces(b)
  {
    PlacesAppend(a, b);
    CutsAppend(a, b, Clean(a), Clean(b));
  }

  lemma CutsAppend(a: string, b: string, ca: string, cb: string)
    requires |ca| == |a|
    ensures SqlSplit.Cut(a + ";" + b, 0, SqlSplit.Semis(ca, 0) + [|a|] + SqlSplit.Semis(cb, |a| + 1)) ==
            SqlSplit.Cut(a, 0, SqlSplit.Semis(ca, 0)) + SqlSplit.Cut(b, 0, SqlSplit.Semis(cb, 0))
  {
    var p, q, q' := SqlSplit.Semis(ca, 0), SqlSplit.Semis(cb, 0), SqlSplit.Semis(cb, |a| + 1);
    forall i | 0 <= i < |p| ensures p[i] < |a| { SqlSplit.SemiInside(ca, i); }
    SemisShift(cb, 0, |a| + 1);
    Sequences.Assoc(a, ";", b);
    CutAppend(a, b, 0, p, q, q');
  }

  // Where the raw text behind the last semicolon of the cleaned text begins.
  function TailStart(s: string): nat {
    var p := SqlSplit.Semis(Clean(s), 0);
    if p == [] then 0 else p[|p| - 1] + 1
  }

  lemma LastPiece(s: string)
    ensures SqlSplit.Pieces(s)[|SqlSplit.Pieces(s)| - 1] == SqlSplit.Slice(s, TailStart(s), |s|)
  {
    var p := SqlSplit.Semis(Clean(s), 0);
    SqlSplit.CutAt(s, 0, p, |p|);
  }

  lemma TailShift(a: string, b: string)
    requires Clean(a + ";" + b) == Clean(a) + ";" + Clean(b)
    ensures TailStart(a + ";" + b) == |Clean(a)| + 1 + TailStart(b)
  {
    Sequences.Assoc(Clean(a), ";", Clean(b));
    SemisAppend(Clean(a), Clean(b), 0);
    SemisShift(Clean(b), 0, |Clean(a)| + 1);
  }

  // It takes the length: with text behind the last semicolon, the pieces of `a; b` are those of
  // the two sides exactly when cleaning keeps the length of the left one.
  lemma PiecesAppendIff(a: string, b: string)
    requires Clean(a + ";" + b) == Clean(a) + ";" + Clean(b) && TailStart(b) < |b|
    ensures SqlSplit.Pieces(a + ";" + b) == SqlSplit.Pieces(a) + SqlSplit.Pieces(b) <==> |Clean(a)| == |a|
  {
    var t, x, y := SqlSplit.Pieces(a + ";" + b), SqlSplit.Pieces(a), SqlSplit.Pieces(b);
    if t == x + y {
      TailShift(a, b);
      LastPiece(a + ";" + b);
      LastPiece(b);
      assert (x + y)[|x + y| - 1] == y[|y| - 1];
    }
    if |Clean(a)| == |a| { PiecesAppend(a, b); }
  }

  // The statements of `a; b` are those of `a` followed by those of `b`.
  lemma ClassifyAppend(extra: seq<string>, a: string, b: string)
    requires |Clean(a)| == |a| && Clean(a + ";" + b) == Clean(a) + ";" + Clean(b)
    ensures ClassifySpec(extra, a + ";" + b) == ClassifySpec(extra, a) + ClassifySpec(extra, b)
  {
    PiecesAppend(a, b);
    SplitClassifiesPieces(extra, a);
    SplitClassifiesPieces(extra, b);
    SplitClassifiesPieces(extra, a + ";" + b);
    ClassifyConcat(extra, SqlSplit.Pieces(a), SqlSplit.Pieces(b));
  }

  // A plain script can be put in front of any script whatever, literals and comments included.
  lemma ClassifyAfterPlain(extra: seq<string>, a: string, b: string)
    requires Plain(a)
    ensures ClassifySpec(extra, a + ";" + b) == ClassifySpec(extra, a) + ClassifySpec(extra, b)
    ensures ScriptDestructive(extra, a + ";" + b) <==> ScriptDestructive(extra, a) || ScriptDestructive(extra, b)
  {
    CleanPlain(a);
    CleanAfterPlain(a, b);
    ClassifyAppend(extra, a, b);
    AnyAppend(ClassifySpec(extra, a), ClassifySpec(extra, b));
  }

  lemma AnyAppend(x: seq<Statement>, y: seq<Statement>)
    ensures AnyDestructive(x + y) <==> AnyDestructive(x) || AnyDestructive(y)
  {
    if AnyDestructive(x) {
      var i :| 0 <= i < |x| && IsDestructive(x[i]);
      assert (x + y)[i] == x[i];
    }
    if AnyDestructive(y) {
      var i :| 0 <= i < |y| && IsDestructive(y[i]);
      assert (x + y)[|x| + i] == y[i];
    }
  }

  lemma SinglePiece(extra: seq<string>, a: string)
    requires Plain(a) && ';' !in a
    ensures ClassifySpec(extra, a) == ClassifyPieces(extra, [a])
  {
    CleanPlain(a);
    SqlSplit.NoSemis(a, 0);
    assert SqlSplit.Slice(a, 0, |a|) == a;
    assert SqlSplit.Semis(Clean(a), 0) == [];
    assert SqlSplit.Cut(a, 0, []) == [a];
    SplitClassifiesPieces(extra, a);
  }

  // A plain script is classified statement by statement, blank ones left out.
  lemma {:induction false} ClassifySegments(extra: seq<string>, segments: seq<string>)
    requires segments != [] && forall i :: 0 <= i < |segments| ==> Plain(segments[i]) && ';' !in segments[i]
    ensures ClassifySpec(extra, SqlSplit.Join(segments)) == ClassifyPieces(extra, segments)
  {
    var first, rest := segments[0], segments[1..];
    SinglePiece(extra, first);
    if |segments| > 1 {
      ClassifySegments(extra, rest);
      ClassifyAfterPlain(extra, first, SqlSplit.Join(rest));
      ClassifyConcat(extra, [first], rest);
      SqlSplit.JoinCons(first, rest);
      assert segments == [first] + rest;
    } else {
      assert segments == [segments[0]];
    }
  }

  // Registering more destructive verbs never lets a script through that was stopped before.
  lemma MoreVerbsStopMore(extra: seq<string>, extra': seq<string>, sql: string)
    requires UpperAll(extra) <= UpperAll(extra') && ScriptDestructive(extra, sql)
    ensures ScriptDestructive(extra', sql)
  {
    SameShape(extra, extra', SqlSplit.Split(sql));
  }

  // Statement by statement, what stops on the left stops on the right.
  predicate NoLaxer(x: seq<Statement>, y: seq<Statement>) {
    |x| == |y| && forall i :: 0 <= i < |x| && IsDestructive(x[i]) ==> IsDestructive(y[i])
  }

  lemma {:induction false} SameShape(extra: seq<string>, extra': seq<string>, pieces: seq<string>)
    requires UpperAll(extra) <= UpperAll(extra')
    ensures NoLaxer(ClassifyPieces(extra, pieces), ClassifyPieces(extra', pieces))
  {
    if pieces != [] {
      var n := |pieces| - 1;
      SameShape(extra, extra', pieces[..n]);
      PieceShape(extra, extra', pieces[n]);
      ShapeConcat(ClassifyPieces(extra, pieces[..n]), ClassifyPieces(extra', pieces[..n]),
                  ClassifyPiece(extra, pieces[n]), ClassifyPiece(extra', pieces[n]));
    }
  }

  lemma PieceShape(extra: seq<string>, extra': seq<string>, piece: string)
    requires UpperAll(extra) <= UpperAll(extra')
    ensures NoLaxer(ClassifyPiece(extra, piece), ClassifyPiece(extra', piece))
  {
  }

  lemma ShapeConcat(x: seq<Statement>, y: seq<Statement>, u: seq<Statement>, v: seq<Statement>)
    requires NoLaxer(x, y) && NoLaxer(u, v)
    ensures NoLaxer(x + u, y + v)
  {
  }

  // One semicolon, moved past the end of the raw text by cleaning: no split at all.
  lemma CutPastEnd(sql: string, k: nat, semis: seq<nat>)
    requires semis == [k] && k >= |sql|
    ensures SqlSplit.DropBlankTail(SqlSplit.Cut(sql, 0, semis)) == [sql] && !SqlSplit.Aligned(sql, semis)
  {
    SqlSplit.CutAt(sql, 0, semis, 0);
    SqlSplit.CutAt(sql, 0, semis, 1);
    assert SqlSplit.Slice(sql, 0, k) == sql;
  }

  // ------------------------------------------------------------ what a WITH clause hides

  // The verdict on a WITH statement, given the verb behind the clause.
  function KindBehind(extra: seq<string>, verb: string): Kind {
    if verb in DESTRUCTIVE_VERBS + UpperAll(extra) then Destructive
    else if verb in READ_ONLY_VERBS then ReadOnly
    else Unknown
  }

  lemma {:induction false} LettersBefore(word: string, rest: string)
    requires forall i :: 0 <= i < |word| ==> IsLetter(word[i])
    requires rest != "" ==> !IsLetter(rest[0])
    ensures Letters(word + rest) == word
  {
    if word == "" {
      assert word + rest == rest;
    } else {
      LettersBefore(word[1..], rest);
      assert (word + rest)[1..] == word[1..] + rest;
    }
  }

  lemma {:induction false} UpperLetters(word: string, i: nat)
    requires i < |word| && forall k :: 0 <= k < |Upper(word)| ==> 'A' <= Upper(word)[k] <= 'Z'
    ensures IsLetter(word[i])
  {
    assert Upper(word)[0] == UpperChar(word[0]);
    if i > 0 {
      assert forall k :: 0 <= k < |Upper(word[1..])| ==> Upper(word[1..])[k] == Upper(word)[k + 1];
      UpperLetters(word[1..], i - 1);
    }
  }

  lemma StartsWithWith(word: string, rest: string, with: string)
    requires |word| == 4 && Upper(word) == with == "WITH" && rest != "" && !IsLetter(rest[0])
    ensures LeadingVerb(word + rest) == with && with !in DESTRUCTIVE_VERBS
  {
    forall i | 0 <= i < |word| ensures IsLetter(word[i]) { UpperLetters(word, i); }
    LettersBefore(word, rest);
    LeadsWith(word + rest, word);
    WithIsNoVerb(with);
  }

  lemma LeadsWith(s: string, word: string)
    requires word != "" && Letters(s) == word
    ensures LeadingVerb(s) == Upper(word)
  {
    assert Lstrip(s) == s;
  }

  lemma WithIsNoVerb(with: string)
    requires with == "WITH"
    ensures with !in DESTRUCTIVE_VERBS
  {
    assert with[0] == 'W';
  }

  lemma TextStarts(ctes: seq<SqlWith.Cte>, query: string)
    requires ctes != [] && ctes[0].head != ""
    ensures SqlWith.Text(ctes, query) != "" && SqlWith.Text(ctes, query)[0] == ctes[0].head[0]
  {
  }

  // The verdict on a statement with common table expressions depends on the main query's verb and
  // on whether there are column lists. What the expressions do is never looked at.
  lemma BodiesUnseen(extra: seq<string>, raw: string, word: string, ctes: seq<SqlWith.Cte>, query: string)
    requires |word| == 4 && Upper(word) == "WITH" && "WITH" !in UpperAll(extra)
    requires ctes != [] && forall i :: 0 <= i < |ctes| ==> SqlWith.WellFormed(ctes[i])
    requires ctes[0].head != "" && !IsLetter(ctes[0].head[0]) && !Leads(Lstrip(query), ',')
    ensures ClassifyOne(extra, raw, word + SqlWith.Text(ctes, query)).kind ==
            KindBehind(extra, if SqlWith.AnyColumns(ctes) then "AS" else LeadingVerb(query))
  {
    TextStarts(ctes, query);
    StartsWithWith(word, SqlWith.Text(ctes, query), "WITH");
    SqlWith.WithAnswers(word, ctes, query);
  }

  // So a statement that writes in an expression and then reads counts as read-only.
  lemma WritingBodyReads(extra: seq<string>, raw: string, word: string, head: string, body: string, query: string)
    requires |word| == 4 && Upper(word) == "WITH" && "WITH" !in UpperAll(extra)
    requires SqlWith.NoParens(head) && head != "" && !IsLetter(head[0]) && SqlWith.Balanced(body, 0)
    requires !Leads(Lstrip(query), ',') && KindBehind(extra, LeadingVerb(query)) == ReadOnly
    ensures ClassifyOne(extra, raw, word + (head + "(" + body + ")" + query)).kind == ReadOnly
  {
    var c := SqlWith.Cte(head, None, "", body, "");
    BodiesUnseen(extra, raw, word, [c], query);
    assert head + "(" + body + ")" + "" == head + "(" + body + ")";
    assert !SqlWith.AnyColumns([c]);
  }
}
