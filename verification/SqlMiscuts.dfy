/** Scripts that the splitter cuts in the wrong place, or not at all, and what that costs. */
module SqlMiscuts {
  import opened Options
  import opened SqlText
  import opened SqlSplit
  import opened SqlClassify
  import opened SqlOrigins
  import opened SqlLex
  import Sequences

  lemma {:induction false} LettersOf(word: string, rest: string)
    requires forall i :: 0 <= i < |word| ==> 'A' <= word[i] <= 'Z'
    requires rest != "" && !IsLetter(rest[0])
    ensures Letters(word + rest) == word && Upper(word) == word
  {
    if word == "" {
      assert word + rest == rest;
    } else {
      LettersOf(word[1..], rest);
      assert (word + rest)[1..] == word[1..] + rest;
    }
  }

  // A statement without blanks around it keeps its text and starts with its verb.
  lemma StartsWithVerb(word: string, rest: string)
    requires word != "" && forall i :: 0 <= i < |word| ==> 'A' <= word[i] <= 'Z'
    requires rest != "" && !IsLetter(rest[0]) && !IsSpace(rest[|rest| - 1])
    ensures Strip(word + rest) == word + rest && LeadingVerb(word + rest) == word
  {
    var s := word + rest;
    LettersOf(word, rest);
    assert s[0] == word[0] && s[|s| - 1] == rest[|rest| - 1];
    assert Lstrip(s) == s && Rstrip(s) == s;
  }

  lemma EmptyLiteral(rest: string)
    requires !Leads(rest, '\'')
    ensures StripLiterals("''" + rest) == " '_' " + StripLiterals(rest)
  {
    var s := "''" + rest;
    assert s[1..] == "'" + rest && s[1..][0] == '\'';
    assert LiteralLength(s[1..]) == Some(1);
    assert s[2..] == rest;
  }

  // `n` empty string literals with commas between them, and what cleaning makes of them.
  function Empties(n: nat): (r: string)
    requires n >= 1
    ensures |r| == 3 * n - 1 && ';' !in r && '/' !in r && '-' !in r
  {
    if n == 1 then "''" else "''" + ("," + Empties(n - 1))
  }

  function Blanked(n: nat): (r: string)
    requires n >= 1
    ensures |r| == 6 * n - 1 && ';' !in r && r[|r| - 1] == ' '
  {
    if n == 1 then " '_' " else " '_' " + ("," + Blanked(n - 1))
  }

  lemma ListStep(q: string, k: string, e: string, b: string, x: string, y: string)
    requires StripLiterals(q + ("," + (e + x))) == k + StripLiterals("," + (e + x)) && StripLiterals(e + x) == b + y
    ensures StripLiterals(q + ("," + e) + x) == k + ("," + b) + y
  {
    CommaStays(e + x);
    Regroup(q, ",", e, x);
    Regroup(k, ",", b, y);
  }

  lemma CommaStays(x: string)
    ensures StripLiterals("," + x) == "," + StripLiterals(x)
  {
    var t := "," + x;
    assert t[0] == ',' && t[1..] == x;
  }

  lemma Regroup(a: string, b: string, c: string, d: string)
    ensures a + (b + c) + d == a + (b + (c + d))
  {
  }

  lemma EmptiesStep(e: string, b: string, x: string, y: string)
    requires StripLiterals(e + x) == b + y
    ensures StripLiterals("''" + ("," + e) + x) == " '_' " + ("," + b) + y
  {
    EmptyLiteral("," + (e + x));
    ListStep("''", " '_' ", e, b, x, y);
  }

  lemma EmptiesOne(x: string)
    requires Leads(x, ';')
    ensures StripLiterals(Empties(1) + x) == Blanked(1) + StripLiterals(x)
  {
    EmptyLiteral(x);
  }

  lemma {:induction false} EmptiesClean(n: nat, x: string)
    requires n >= 1 && Leads(x, ';')
    ensures StripLiterals(Empties(n) + x) == Blanked(n) + StripLiterals(x)
  {
    if n == 1 {
      EmptiesOne(x);
    } else {
      var e, b := Empties(n - 1), Blanked(n - 1);
      EmptiesClean(n - 1, x);
      EmptiesStep(e, b, x, StripLiterals(x));
    }
  }

  predicate Ordinary(s: string) { '/' !in s && '-' !in s && ';' !in s }

  lemma NoComments(s: string)
    requires '/' !in s && '-' !in s
    ensures StripBlocks(s) == s && StripLines(s) == s
  {
    assert s + "" == s;
    forall i | 0 <= i < |s| ensures BLOCKS.m((s + "")[i..]) == LINES.m((s + "")[i..]) == 0 {
      assert s[i..][0] == s[i];
    }
    AfterKept(s, "");
  }

  lemma NoQuotes(a: string, x: string)
    requires '\'' !in a
    ensures StripLiterals(a + x) == a + StripLiterals(x)
  {
    forall i | 0 <= i < |a| ensures LITERALS.m((a + x)[i..]) == 0 {
      assert (a + x)[i..][0] == a[i];
    }
    AfterKept(a, x);
  }

  // A script that reads with a list of `n` empty literals, and then has another statement.
  function First(verb: string, n: nat): string
    requires n >= 1
  {
    (verb + " ") + Empties(n)
  }

  lemma HidingClean(verb: string, n: nat, d: string)
    requires n >= 1 && Ordinary(verb) && Ordinary(d) && '\'' !in verb && '\'' !in d
    ensures Clean(First(verb, n) + ";" + d) == (verb + " " + Blanked(n)) + (";" + d)
  {
    var x, y, sql := ";" + d, verb + " ", First(verb, n) + ";" + d;
    NoComments(sql);
    assert sql == y + (Empties(n) + x);
    NoQuotes(y, Empties(n) + x);
    EmptiesClean(n, x);
    NoQuotes(x, "");
    assert x + "" == x;
    Sequences.Assoc(y, Blanked(n), x);
  }

  // ------------------------------------------------------------ where their semicolons are

  // The scan meets no semicolon in `a` when `x` follows it.
  ghost predicate Skips(a: string, x: string) {
    forall from: nat :: LexTop(a + x, from) == LexTop(x, from + |a|)
  }

  lemma SkipsBoth(a: string, b: string, x: string)
    requires Skips(a, b + x) && Skips(b, x)
    ensures Skips(a + b, x)
  {
    Sequences.Assoc(a, b, x);
    forall from: nat ensures LexTop(a + b + x, from) == LexTop(x, from + |a + b|) {
      assert LexTop(a + (b + x), from) == LexTop(b + x, from + |a|);
    }
  }

  lemma {:induction false} LexKept(a: string, x: string, from: nat)
    requires '/' !in a && '-' !in a && '\'' !in a && ';' !in a
    ensures LexTop(a + x, from) == LexTop(x, from + |a|)
  {
    if a == "" {
      assert a + x == x;
    } else {
      var s := a + x;
      assert s[0] == a[0] && s[1..] == a[1..] + x;
      assert Token(s) == 1;
      LexKept(a[1..], x, from + 1);
    }
  }

  lemma SkipsKept(a: string, x: string)
    requires '/' !in a && '-' !in a && '\'' !in a && ';' !in a
    ensures Skips(a, x)
  {
    forall from: nat ensures LexTop(a + x, from) == LexTop(x, from + |a|) { LexKept(a, x, from); }
  }

  lemma {:induction false} NoSemiNoTop(d: string, from: nat)
    requires ';' !in d
    ensures LexTop(d, from) == []
    decreases |d|
  {
    if d != "" { NoSemiNoTop(d[Token(d)..], from + Token(d)); }
  }

  lemma LexSemi(d: string, from: nat)
    requires ';' !in d
    ensures LexTop(";" + d, from) == [from]
  {
    var s := ";" + d;
    assert s[0] == ';' && Token(s) == 1 && s[1..] == d;
    NoSemiNoTop(d, from + 1);
  }

  lemma LexEmptyLiteral(rest: string, from: nat)
    requires !Leads(rest, '\'')
    ensures LexTop("''" + rest, from) == LexTop(rest, from + 2)
  {
    var s := "''" + rest;
    assert s[1..] == "'" + rest && s[1..][0] == '\'';
    assert LiteralLength(s[1..]) == Some(1);
    assert Token(s) == 2 && s[2..] == rest;
  }

  lemma SkipsEmptyLiteral(rest: string)
    requires !Leads(rest, '\'')
    ensures Skips("''", rest)
  {
    forall from: nat ensures LexTop("''" + rest, from) == LexTop(rest, from + 2) { LexEmptyLiteral(rest, from); }
  }

  lemma SkipsListStep(e: string, x: string)
    requires Skips(e, x)
    ensures Skips("''" + ("," + e), x)
  {
    SkipsKept(",", e + x);
    SkipsBoth(",", e, x);
    SkipsEmptyLiteral(("," + e) + x);
    SkipsBoth("''", "," + e, x);
  }

  lemma {:induction false} SkipsEmpties(n: nat, x: string)
    requires n >= 1 && Leads(x, ';')
    ensures Skips(Empties(n), x)
  {
    if n == 1 {
      SkipsEmptyLiteral(x);
    } else {
      SkipsEmpties(n - 1, x);
      SkipsListStep(Empties(n - 1), x);
    }
  }

  lemma OneTop(a: string, d: string)
    requires Skips(a, ";" + d) && ';' !in d
    ensures LexTop(a + ";" + d, 0) == [|a|]
  {
    Sequences.Assoc(a, ";", d);
    assert LexTop(a + (";" + d), 0) == LexTop(";" + d, 0 + |a|);
    LexSemi(d, |a|);
  }

  lemma HidingLex(verb: string, n: nat, d: string)
    requires n >= 1 && Ordinary(verb) && '\'' !in verb && ';' !in d
    ensures LexTop(First(verb, n) + ";" + d, 0) == [|First(verb, n)|]
  {
    var x := ";" + d;
    SkipsEmpties(n, x);
    SkipsKept(verb + " ", Empties(n) + x);
    SkipsBoth(verb + " ", Empties(n), x);
    OneTop(First(verb, n), d);
  }

  lemma OneSemi(c: string, d: string)
    requires ';' !in c && ';' !in d
    ensures Semis(c + (";" + d), 0) == [|c|]
  {
    NoSemis(c, 0);
    NoSemis(d, |c| + 1);
    SemisAppend(c, d, 0);
  }

  lemma CutOnce(a: string, d: string)
    ensures Cut(a + ";" + d, 0, [|a|]) == [a, d]
  {
    var sql := a + ";" + d;
    CutAt(sql, 0, [|a|], 0);
    CutAt(sql, 0, [|a|], 1);
    assert Slice(sql, 0, |a|) == a && Slice(sql, |a| + 1, |sql|) == d;
  }

  lemma CutMissed(sql: string, a: string, c: string, d: string)
    requires sql == a + ";" + d && Clean(sql) == c + (";" + d) && |c| >= |sql|
    requires ';' !in c && ';' !in d
    ensures Split(sql) == [sql] && !Aligned(sql, Semis(Clean(sql), 0))
  {
    OneSemi(c, d);
    CutPastEnd(sql, |c|, Semis(Clean(sql), 0));
  }

  // A verb that lets a statement pass unseen.
  predicate ReadVerb(extra: seq<string>, verb: string) {
    && verb in READ_ONLY_VERBS && verb !in DESTRUCTIVE_VERBS + UpperAll(extra) && verb != "WITH"
    && verb != "" && forall i :: 0 <= i < |verb| ==> 'A' <= verb[i] <= 'Z'
  }

  // One semicolon that cleaning moves past the end: `a` and `d` are the statements around it.
  predicate Swallows(sql: string, verb: string, a: string, c: string, d: string, rest: string) {
    && sql == a + ";" + d && c + (";" + d) == verb + rest == Clean(sql) && |c| >= |sql|
    && ';' !in c && ';' !in d && Plain(d) && LexTop(sql, 0) == [|a|]
    && rest != "" && !IsLetter(rest[0]) && !IsSpace(rest[|rest| - 1])
  }

  // What is lost then: the script is judged by its first word.
  lemma Missed(extra: seq<string>, verb: string, sql: string, a: string, c: string, d: string, rest: string)
    requires ReadVerb(extra, verb) && Swallows(sql, verb, a, c, d, rest)
    ensures Split(sql) == [sql] && !Aligned(sql, Semis(Clean(sql), 0)) && !ScriptDestructive(extra, sql)
    ensures ScriptDestructive(extra, d) ==> AnyDestructive(ClassifyPieces(extra, Cut(sql, 0, LexTop(sql, 0))))
  {
    CutMissed(sql, a, c, d);
    StartsWithVerb(verb, rest);
    JudgedByFirst(extra, verb, sql, rest);
    CutAtTop(extra, sql, a, d);
  }

  lemma OrdinaryPlain(d: string)
    requires Ordinary(d) && '\'' !in d
    ensures Plain(d)
  {
    forall i | 0 <= i < |d| ensures d[i..][0] == d[i] {
    }
  }

  lemma WordOrdinary(verb: string)
    requires forall i :: 0 <= i < |verb| ==> 'A' <= verb[i] <= 'Z'
    ensures Ordinary(verb) && '\'' !in verb
  {
  }

  lemma LastOf(x: string, d: string)
    requires d != "" && x != ""
    ensures var r := x + (";" + d); r[0] == x[0] && r[|r| - 1] == d[|d| - 1]
  {
  }

  predicate Hideable(n: nat, d: string) {
    d != "" && Ordinary(d) && '\'' !in d && !IsSpace(d[|d| - 1]) && |d| < 3 * n
  }

  lemma ListSwallows(verb: string, n: nat, d: string) returns (c: string, rest: string)
    requires Hideable(n, d) && forall i :: 0 <= i < |verb| ==> 'A' <= verb[i] <= 'Z'
    ensures Swallows(First(verb, n) + ";" + d, verb, First(verb, n), c, d, rest)
  {
    c := verb + " " + Blanked(n);
    var x := " " + Blanked(n);
    rest := x + (";" + d);
    WordOrdinary(verb);
    HidingClean(verb, n, d);
    HidingLex(verb, n, d);
    OrdinaryPlain(d);
    Sequences.Assoc(verb, " ", Blanked(n));
    Sequences.Assoc(verb, x, ";" + d);
    LastOf(x, d);
  }

  // The empty literals push the semicolon past the end of the script, and the statement behind
  // it is never looked at, although cut off where it starts it would stop the script.
  lemma LiteralsHideStatement(extra: seq<string>, verb: string, n: nat, d: string, sql: string)
    requires ReadVerb(extra, verb) && Hideable(n, d) && sql == First(verb, n) + ";" + d
    ensures Split(sql) == [sql] && !Aligned(sql, Semis(Clean(sql), 0)) && !ScriptDestructive(extra, sql)
    ensures ScriptDestructive(extra, d) ==> AnyDestructive(ClassifyPieces(extra, Cut(sql, 0, LexTop(sql, 0))))
  {
    var c, rest := ListSwallows(verb, n, d);
    Missed(extra, verb, sql, First(verb, n), c, d, rest);
  }

  lemma JudgedByFirst(extra: seq<string>, verb: string, sql: string, rest: string)
    requires ReadVerb(extra, verb) && Split(sql) == [sql] && Strip(Clean(sql)) == verb + rest
    requires rest != "" && !IsLetter(rest[0]) && !IsSpace(rest[|rest| - 1])
    ensures !ScriptDestructive(extra, sql)
  {
    StartsWithVerb(verb, rest);
    assert ClassifyOne(extra, Strip(sql), verb + rest) == Statement(Strip(sql), verb, ReadOnly);
    assert ClassifyPiece(extra, sql) == [Statement(Strip(sql), verb, ReadOnly)];
    assert [sql][..0] == [];
    assert ClassifyPieces(extra, [sql]) == [] + ClassifyPiece(extra, sql);
  }

  lemma DroppedPiece(extra: seq<string>, a: string, d: string)
    requires Plain(d) && ';' !in d
    ensures ScriptDestructive(extra, d) ==> AnyDestructive(ClassifyPieces(extra, [a, d]))
  {
    SinglePiece(extra, d);
    ClassifyConcat(extra, [a], [d]);
    AnyAppend(ClassifyPieces(extra, [a]), ClassifyPieces(extra, [d]));
    assert [a] + [d] == [a, d];
  }

  // A statement with a destructive verb is stopped when it stands alone.
  lemma StoppedAlone(extra: seq<string>, verb: string, rest: string, d: string)
    requires verb in DESTRUCTIVE_VERBS && verb != "" && forall i :: 0 <= i < |verb| ==> 'A' <= verb[i] <= 'Z'
    requires rest != "" && !IsLetter(rest[0]) && !IsSpace(rest[|rest| - 1])
    requires d == verb + rest && Plain(d) && ';' !in d
    ensures ScriptDestructive(extra, d)
  {
    StartsWithVerb(verb, rest);
    CleanPlain(d);
    SinglePiece(extra, d);
    assert [d][..0] == [];
    assert ClassifyPieces(extra, [d]) == [] + ClassifyPiece(extra, d);
    assert ClassifyPiece(extra, d) == [Statement(d, verb, Destructive)];
    assert IsDestructive(ClassifyPieces(extra, [d])[0]);
  }

  lemma ThreeEmpties()
    ensures Empties(3) == "'','',''"
  {
    assert Empties(1) == "''" && Empties(2) == "'',''";
  }

  lemma SelectReads(extra: seq<string>, verb: string)
    requires verb == "SELECT" && verb !in UpperAll(extra)
    ensures ReadVerb(extra, verb)
  {
    assert verb[0] == 'S' && verb !in DESTRUCTIVE_VERBS;
  }

  lemma DropParts(verb: string, rest: string, d: string)
    requires verb == "DROP" && rest == " t" && d == "DROP t"
    ensures verb in DESTRUCTIVE_VERBS && d == verb + rest && Hideable(3, d)
  {
  }

  lemma ScriptParts(sql: string, select: string, d: string)
    requires sql == "SELECT '','','';DROP t" && select == "SELECT" && d == "DROP t"
    ensures sql == First(select, 3) + ";" + d
  {
    ThreeEmpties();
  }

  // With DROP behind three empty literals: stopped alone, not stopped in this script.
  lemma DropPasses(extra: seq<string>, sql: string, select: string, d: string)
    requires sql == "SELECT '','','';DROP t" && select == "SELECT" && d == "DROP t" && select !in UpperAll(extra)
    ensures !ScriptDestructive(extra, sql) && ScriptDestructive(extra, d)
    ensures AnyDestructive(ClassifyPieces(extra, Cut(sql, 0, LexTop(sql, 0))))
  {
    ScriptParts(sql, select, d);
    SelectReads(extra, select);
    DropStopped(extra, d);
    DropHidden(extra, sql, select, d);
  }

  lemma DropStopped(extra: seq<string>, d: string)
    requires d == "DROP t"
    ensures ScriptDestructive(extra, d) && Hideable(3, d)
  {
    var verb, rest := "DROP", " t";
    DropParts(verb, rest, d);
    OrdinaryPlain(d);
    StoppedAlone(extra, verb, rest, d);
  }

  lemma DropHidden(extra: seq<string>, sql: string, select: string, d: string)
    requires ReadVerb(extra, select) && Hideable(3, d) && sql == First(select, 3) + ";" + d &&
             ScriptDestructive(extra, d)
    ensures !ScriptDestructive(extra, sql) && AnyDestructive(ClassifyPieces(extra, Cut(sql, 0, LexTop(sql, 0))))
  {
    LiteralsHideStatement(extra, select, 3, d, sql);
  }

  lemma LineStrips(z: string)
    requires '\n' !in z
    ensures StripLines("--" + z) == " "
  {
    WholeLine(z);
    var t := "--" + z;
    assert t[2..] == z && LineMatch(t) == |t|;
    assert StripLines(t) == " " + StripLines(t[|t|..]);
  }

  lemma WholeLine(z: string)
    requires '\n' !in z
    ensures LineLength(z) == |z|
  {
    if z != "" { WholeLine(z[1..]); }
  }

  lemma NoBlocks(s: string)
    requires '/' !in s
    ensures StripBlocks(s) == s
  {
    assert s + "" == s;
    forall i | 0 <= i < |s| ensures BLOCKS.m((s + "")[i..]) == 0 { assert s[i..][0] == s[i]; }
    AfterKept(s, "");
  }

  lemma CommentAway(front: string, z: string)
    requires '-' !in front && '\n' !in z
    ensures StripLines(front + ("--" + z)) == front + " "
  {
    var x := "--" + z;
    forall i | 0 <= i < |front| ensures LINES.m((front + x)[i..]) == 0 {
      assert (front + x)[i..][0] == front[i];
    }
    AfterKept(front, x);
    LineStrips(z);
  }

  lemma LiteralAway(rest: string)
    requires rest != "" && '\'' !in rest
    ensures StripLiterals("''" + rest) == " '_' " + rest
  {
    EmptyLiteral(rest);
    NoQuotes(rest, "");
    assert rest + "" == rest;
  }

  // An empty literal, more text, and a line comment that runs to the end.
  lemma CommentTail(front: string, rest: string, z: string)
    requires front == "''" + rest && '-' !in rest && '/' !in rest && '\'' !in rest && '\n' !in z && '/' !in z
    ensures Clean(front + ("--" + z)) == " '_' " + (rest + " ")
  {
    var x := "--" + z;
    NoBlocks(front + x);
    CommentAway(front, z);
    assert front + " " == "''" + (rest + " ");
    LiteralAway(rest + " ");
  }

  lemma MovedLengths(sql: string, p: nat)
    requires Semis(Clean(sql), 0) == [p] && p < |sql| && |Clean(sql[..p])| != p
    ensures !LengthsKept(sql)
  {
    SurvivorsExact(sql);
    PlacesKeptIff(sql);
  }

  lemma OneAligned(sql: string, p: nat)
    requires Semis(Clean(sql), 0) == [p] && p < |sql| && sql[p] == ';'
    ensures Join(Pieces(sql)) == sql
  {
    AlignedAt(sql, [p]);
    RejoinsIffAligned(sql);
  }

  lemma OneCleanedSemi(c: string, rest: string, s: string)
    requires ';' !in c && s == c + (";" + rest) && ';' !in rest
    ensures Semis(s, 0) == [|c|]
  {
    OneSemi(c, rest);
  }

  lemma MiscutSemi(front: string, sql: string, rest: string)
    requires rest == ";" && front == "''" + rest && sql == front + ("--" + rest)
    ensures Semis(Clean(sql), 0) == [5] && sql[5] == ';'
  {
    var c := " '_' ";
    CommentTail(front, rest, rest);
    OneCleanedSemi(c, " ", c + (rest + " "));
  }

  lemma MiscutPrefix(front: string, sql: string, rest: string)
    requires rest == ";" && front == "''" + rest && sql == front + ("--" + rest)
    ensures |Clean(sql[..5])| == 7
  {
    CommentTail(front, rest, "");
    assert sql[..5] == front + ("--" + "");
  }

  // The cleaned semicolon stands on a raw one, but on the one inside the comment: the pieces
  // rejoin although the script is cut in the wrong place.
  lemma RejoinsButMiscut(front: string, sql: string)
    requires front == "'';" && sql == front + ("--" + ";")
    ensures Join(Pieces(sql)) == sql && !LengthsKept(sql)
  {
    MiscutSemi(front, sql, ";");
    MiscutPrefix(front, sql, ";");
    OneAligned(sql, 5);
    MovedLengths(sql, 5);
  }

  // ------------------------------------------------------------ a comment opener inside a literal

  // Two dashes in a literal, a semicolon, and any statement on the same line.
  function Dashed(verb: string, d: string): string { (verb + " '") + ("--" + ("';" + d)) }

  lemma OpenQuoteStays(y: string)
    requires '\'' !in y
    ensures StripLiterals(y + ("'" + " ")) == y + ("'" + " ")
  {
    var t := "'" + " ";
    assert t[1..] == " " && t[1..][1..] == "";
    assert LiteralLength(" ").None?;
    assert StripLiterals(" ") == " ";
    assert StripLiterals(t) == ['\''] + StripLiterals(t[1..]);
    NoQuotes(y, t);
  }

  // The line pass takes the rest of the line for a comment and leaves an open quote.
  lemma DashedClean(verb: string, d: string, sql: string, c: string)
    requires Ordinary(verb) && '\'' !in verb && '/' !in d && '\n' !in d
    requires sql == Dashed(verb, d) && c == verb + " '" + " "
    ensures Clean(sql) == c && ';' !in c
  {
    var front, z := verb + " '", "';" + d;
    NoBlocks(Dashed(verb, d));
    CommentAway(front, z);
    assert front + " " == (verb + " ") + ("'" + " ");
    OpenQuoteStays(verb + " ");
  }

  lemma DashedLiteral(x: string)
    requires !Leads(x, '\'')
    ensures LiteralMatch("'--'" + x) == 4
  {
    var s := "'--'" + x;
    var t := s[1..];
    assert t == "--'" + x && t[1..] == "-'" + x && t[1..][1..] == "'" + x;
    assert LiteralLength(t[1..][1..]) == Some(1);
    assert LiteralLength(t[1..]) == Some(2);
    assert LiteralLength(t) == Some(3);
  }

  lemma SkipsDashed(x: string)
    requires !Leads(x, '\'')
    ensures Skips("'--'", x)
  {
    var s := "'--'" + x;
    DashedLiteral(x);
    assert s[0] == '\'' && s[4..] == x && Token(s) == 4;
  }

  lemma DashedLex(verb: string, d: string)
    requires Ordinary(verb) && '\'' !in verb && ';' !in d
    ensures LexTop((verb + " ") + "'--'" + ";" + d, 0) == [|verb| + 5]
  {
    var x := ";" + d;
    SkipsDashed(x);
    SkipsKept(verb + " ", "'--'" + x);
    SkipsBoth(verb + " ", "'--'", x);
    OneTop((verb + " ") + "'--'", d);
  }

  lemma NoCleanSemi(sql: string, c: string)
    requires Clean(sql) == c && ';' !in c
    ensures LengthsKept(sql) && Split(sql) == [sql] && Survivors(sql) == []
  {
    NoSemis(c, 0);
    assert Slice(sql, 0, |sql|) == sql;
    assert Pieces(sql) == [sql];
  }

  lemma OpenQuoteStrips(verb: string)
    requires verb != "" && forall i :: 0 <= i < |verb| ==> 'A' <= verb[i] <= 'Z'
    ensures Strip(verb + " '" + " ") == verb + " '"
  {
    var s := verb + " '" + " ";
    StartsWithVerb(verb, " '");
    assert s[0] == verb[0] && s[|s| - 1] == ' ' && s[..|s| - 1] == verb + " '";
    assert Lstrip(s) == s;
  }

  lemma DashedSplit(verb: string, d: string, sql: string)
    requires Ordinary(verb) && '\'' !in verb && '/' !in d && '\n' !in d && sql == Dashed(verb, d)
    ensures LengthsKept(sql) && Split(sql) == [sql] && Survivors(sql) == []
  {
    var c := verb + " '" + " ";
    DashedClean(verb, d, sql, c);
    NoCleanSemi(sql, c);
  }

  lemma DashedJudged(extra: seq<string>, verb: string, d: string, sql: string)
    requires ReadVerb(extra, verb) && sql == Dashed(verb, d) && '/' !in d && '\n' !in d && Split(sql) == [sql]
    ensures !ScriptDestructive(extra, sql)
  {
    WordOrdinary(verb);
    DashedClean(verb, d, sql, verb + " '" + " ");
    OpenQuoteStrips(verb);
    JudgedByFirst(extra, verb, sql, " '");
  }

  lemma CutAtTop(extra: seq<string>, sql: string, a: string, d: string)
    requires sql == a + ";" + d && LexTop(sql, 0) == [|a|] && Plain(d) && ';' !in d
    ensures ScriptDestructive(extra, d) ==> AnyDestructive(ClassifyPieces(extra, Cut(sql, 0, LexTop(sql, 0))))
  {
    CutOnce(a, d);
    DroppedPiece(extra, a, d);
  }

  lemma DashedParts(verb: string, d: string)
    ensures Dashed(verb, d) == (verb + " ") + "'--'" + ";" + d
  {
  }

  // No semicolon survives, so every length is kept, and yet the statement behind the literal is
  // never seen: that lengths are kept says nothing about scripts that are not tidy.
  lemma DashesHideStatement(extra: seq<string>, verb: string, d: string, sql: string)
    requires ReadVerb(extra, verb) && sql == Dashed(verb, d)
    requires Plain(d) && '/' !in d && '\n' !in d && ';' !in d
    ensures Split(sql) == [sql] && LengthsKept(sql) && LexTop(sql, 0) == [|verb| + 5] && !Tidy(sql)
    ensures !ScriptDestructive(extra, sql)
    ensures ScriptDestructive(extra, d) ==> AnyDestructive(ClassifyPieces(extra, Cut(sql, 0, LexTop(sql, 0))))
  {
    WordOrdinary(verb);
    DashedSplit(verb, d, sql);
    DashedLex(verb, d);
    DashedJudged(extra, verb, d, sql);
    DashedParts(verb, d);
    CutAtTop(extra, sql, (verb + " ") + "'--'", d);
    if Tidy(sql) { TidySurvivors(sql); }
  }
}
