/** Which semicolons end a statement: those that one scan from left to right meets outside
    comments and literals. And exactly when the splitter cuts there. */
module SqlLex {
  import opened Options
  import opened SqlText
  import opened SqlSplit
  import opened SqlClassify
  import opened SqlOrigins
  import opened Substitution
  import opened SqlChunks
  import Sequences

  // The length of what stands at the start: a comment, a literal, or one character.
  function Token(s: string): (n: nat)
    requires s != ""
    ensures 1 <= n <= |s|
  {
    if BlockMatch(s) > 0 then BlockMatch(s)
    else if LineMatch(s) > 0 then LineMatch(s)
    else if LiteralMatch(s) > 0 then LiteralMatch(s)
    else 1
  }

  // The places of the semicolons outside comments and literals, counted from `from`.
  function LexTop(s: string, from: nat): (r: seq<nat>)
    ensures Increasing(from, r)
    decreases |s|
  {
    if s == "" then []
    else
      var later := LexTop(s[Token(s)..], from + Token(s));
      if s[0] == ';' then [from] + later else Later(from, from + Token(s), later); later
  }

  lemma Later(from: nat, next: nat, semis: seq<nat>)
    requires from <= next && Increasing(next, semis)
    ensures Increasing(from, semis)
  {
  }

  // ------------------------------------------------------------ tidy scripts

  // What the passes cannot mistake: no comment starts inside a literal, no block comment inside
  // a line comment, and no quote is left open.
  predicate TidyToken(s: string)
    requires s != ""
  {
    if BlockMatch(s) > 0 then true
    else if LineMatch(s) > 0 then forall i :: 0 <= i < LineMatch(s) ==> BlockMatch(s[i..]) == 0
    else if LiteralMatch(s) > 0 then
      forall i :: 0 <= i < LiteralMatch(s) ==> BlockMatch(s[i..]) == 0 && LineMatch(s[i..]) == 0
    else s[0] != '\''
  }

  predicate Tidy(s: string)
    decreases |s|
  {
    s == "" || (TidyToken(s) && Tidy(s[Token(s)..]))
  }

  // What the token becomes.
  function Image(s: string): string
    requires s != ""
  {
    if BlockMatch(s) > 0 || LineMatch(s) > 0 then " "
    else if LiteralMatch(s) > 0 then " '_' "
    else [s[0]]
  }

  // Stripping comments does not change what a text starts with, except to a blank.
  lemma Heads(x: string)
    ensures var y := Pass(BLOCKS, x);
            && (y == "" <==> x == "") && (y != "" ==> y[0] == x[0] || y[0] == ' ')
            && (LineMatch(x) == 0 && x != "" && x[0] == '\n' ==> y[0] == '\n')
    ensures var y := Pass(LINES, x); (y == "" <==> x == "") && (y != "" ==> y[0] == x[0] || y[0] == ' ')
  {
  }

  // A literal ends with a quote that no other follows at once, unless that one stays open; and
  // then it does not matter what follows.
  lemma {:induction false} LiteralEnds(u: string, v: string, w: string)
    requires u != "" && LiteralLength(u + v) == Some(|u|)
    ensures u[|u| - 1] == '\''
    ensures Leads(v, '\'') ==> LiteralLength(v[1..]).None?
    ensures !Leads(v, '\'') && !Leads(w, '\'') ==> LiteralLength(u + w) == Some(|u|)
    decreases |u|
  {
    var s := u + v;
    if |u| == 1 {
      assert s[1..] == v && (u + w)[1..] == w;
      if v != "" { assert s[2..] == v[1..]; }
    } else {
      assert s[1..] == u[1..] + v && s[2..] == u[2..] + v;
      assert (u + w)[1..] == u[1..] + w && (u + w)[2..] == u[2..] + w;
      if u[0] == '\\' || u[0] == '\'' { LiteralEnds(u[2..], v, w); } else { LiteralEnds(u[1..], v, w); }
    }
  }

  lemma LiteralStays(t: string, x: string, y: string)
    requires LiteralMatch(t + x) == |t| > 0
    ensures t[|t| - 1] == '\''
    ensures Leads(x, '\'') ==> LiteralMatch(x) == 0
    ensures !Leads(x, '\'') && !Leads(y, '\'') ==> LiteralMatch(t + y) == |t|
  {
    assert (t + x)[1..] == t[1..] + x && (t + y)[1..] == t[1..] + y;
    LiteralEnds(t[1..], x, y);
  }

  lemma LineStays(t: string, x: string)
    requires LineMatch(t + x) == |t| > 0
    ensures |t| >= 2 && (x == "" || x[0] == '\n')
    ensures forall y :: y == "" || y[0] == '\n' ==> LineMatch(t + y) == |t|
  {
    assert (t + x)[2..] == t[2..] + x;
    LineEnds(t[2..], x);
    forall y | y == "" || y[0] == '\n' ensures LineMatch(t + y) == |t| {
      assert (t + y)[2..] == t[2..] + y;
      LineAgain(t[2..], x, y);
    }
  }

  lemma LineEnds(u: string, x: string)
    requires LineLength(u + x) == |u|
    ensures x == "" || x[0] == '\n'
  {
    if u == "" { assert u + x == x; } else { assert (u + x)[1..] == u[1..] + x; LineEnds(u[1..], x); }
  }

  lemma LineAgain(u: string, x: string, y: string)
    requires LineLength(u + x) == |u| && (y == "" || y[0] == '\n')
    ensures LineLength(u + y) == |u|
  {
    if u == "" {
      assert u + y == y;
    } else {
      assert (u + x)[1..] == u[1..] + x && (u + y)[1..] == u[1..] + y;
      LineAgain(u[1..], x, y);
    }
  }

  // ------------------------------------------------------------ what the passes make of a tidy token

  // The three passes on a token `t` in front of `x`: what each of them makes of it.
  ghost predicate Made(t: string, x: string, t1: string, t2: string, t3: string) {
    AllTake(BLOCKS, LINES, LITERALS, t, x, t1, t2, t3)
  }

  lemma BlankKept(x: string)
    ensures Kept(LINES, " ", x) && Kept(LITERALS, " ", x)
  {
    assert (" " + x)[0..][0] == ' ';
  }

  lemma BlockMade(t: string, x: string)
    requires BlockMatch(t + x) == |t| > 0
    ensures Made(t, x, " ", " ", " ")
  {
    BlankKept(Pass(BLOCKS, x));
    BlankKept(Pass(LINES, Pass(BLOCKS, x)));
  }

  lemma LineMade(t: string, x: string)
    requires LineMatch(t + x) == |t| > 0 && Kept(BLOCKS, t, x)
    ensures Made(t, x, t, " ", " ")
  {
    LineStays(t, x);
    StartsAlike(x);
    BlankKept(Pass(LINES, Pass(BLOCKS, x)));
  }

  // After both comment passes a text starts as it did, or with a blank.
  lemma StartsAlike(x: string)
    ensures var y := Pass(BLOCKS, x); y == "" <==> x == ""
    ensures var y := Pass(BLOCKS, x); y != "" ==> y[0] == x[0] || y[0] == ' '
    ensures var y := Pass(BLOCKS, x); x != "" && x[0] == '\n' ==> y[0] == '\n'
    ensures var z := Pass(LINES, Pass(BLOCKS, x)); (z == "" <==> x == "") && (z != "" ==> z[0] == x[0] || z[0] == ' ')
  {
    Heads(x);
    Heads(Pass(BLOCKS, x));
  }

  lemma LiteralMade(t: string, x: string)
    requires LiteralMatch(t + x) == |t| > 0 && Kept(BLOCKS, t, x) && Kept(LINES, t, x) && !Leads(x, '\'')
    ensures Made(t, x, t, t, " '_' ")
  {
    var y := Pass(BLOCKS, x);
    var z := Pass(LINES, y);
    StartsAlike(x);
    LiteralStays(t, x, z);
    NoLineInside(t, x, y);
  }

  // A literal ends with a quote, so whether a line comment starts in it is its own matter.
  lemma NoLineInside(t: string, x: string, y: string)
    requires t != "" && t[|t| - 1] == '\'' && Kept(LINES, t, x)
    ensures Kept(LINES, t, y)
  {
    forall i | 0 <= i < |t| ensures LINES.m((t + y)[i..]) == 0 {
      assert LINES.m((t + x)[i..]) == 0;
      assert (t + y)[i..][0] == t[i] == (t + x)[i..][0];
      if i + 1 < |t| { assert (t + y)[i..][1] == t[i + 1] == (t + x)[i..][1]; }
    }
  }

  lemma CharKept(p: Sub, t: string, x: string)
    requires |t| == 1 && p.m(t + x) == 0
    ensures Takes(p, t, x, t)
  {
    assert (t + x)[0..] == t + x;
  }

  // A dash in front of a text that starts as another one does, or with a blank.
  lemma NoLineStarts(t: string, x: string, y: string)
    requires |t| == 1 && LineMatch(t + x) == 0
    requires (y == "" <==> x == "") && (y != "" ==> y[0] == x[0] || y[0] == ' ')
    ensures LineMatch(t + y) == 0
  {
    if x != "" { assert (t + x)[1] == x[0] && (t + y)[1] == y[0]; }
  }

  lemma CharMade(t: string, x: string)
    requires |t| == 1 && t[0] != '\'' && BlockMatch(t + x) == 0 && LineMatch(t + x) == 0
    ensures Made(t, x, t, t, t)
  {
    var y := Pass(BLOCKS, x);
    StartsAlike(x);
    NoLineStarts(t, x, y);
    CharKept(BLOCKS, t, x);
    CharKept(LINES, t, y);
    CharKept(LITERALS, t, Pass(LINES, y));
  }

  // What is left of the token after one pass and after two.
  function Once(s: string): string
    requires s != ""
  {
    if BlockMatch(s) > 0 then " " else s[..Token(s)]
  }

  function Twice(s: string): string
    requires s != ""
  {
    if BlockMatch(s) > 0 || LineMatch(s) > 0 then " " else s[..Token(s)]
  }

  lemma NoQuoteNext(t: string, x: string)
    requires LiteralMatch(t + x) == |t| > 0 && Tidy(x)
    ensures !Leads(x, '\'')
  {
    LiteralStays(t, x, x);
  }

  lemma LiteralTokenMade(s: string, t: string, x: string)
    requires s != "" && TidyToken(s) && Tidy(x) && t == s[..Token(s)] && x == s[Token(s)..] && t + x == s
    requires BlockMatch(s) == LineMatch(s) == 0 < LiteralMatch(s)
    ensures Made(t, x, Once(s), Twice(s), Image(s))
  {
    NoQuoteNext(t, x);
    LiteralMade(t, x);
  }

  lemma CharTokenMade(s: string, t: string, x: string)
    requires s != "" && TidyToken(s) && t == s[..Token(s)] && x == s[Token(s)..] && t + x == s
    requires BlockMatch(s) == LineMatch(s) == LiteralMatch(s) == 0
    ensures Made(t, x, Once(s), Twice(s), Image(s))
  {
    CharMade(t, x);
  }

  lemma LineTokenMade(s: string, t: string, x: string)
    requires s != "" && TidyToken(s) && t == s[..Token(s)] && x == s[Token(s)..] && t + x == s
    requires BlockMatch(s) == 0 < LineMatch(s)
    ensures Made(t, x, Once(s), Twice(s), Image(s))
  {
    LineMade(t, x);
  }

  lemma TokenMade(s: string, t: string, x: string)
    requires s != "" && TidyToken(s) && Tidy(x) && t == s[..Token(s)] && x == s[Token(s)..]
    ensures Made(t, x, Once(s), Twice(s), Image(s))
  {
    Halves(s, Token(s));
    if BlockMatch(s) > 0 {
      BlockMade(t, x);
    } else if LineMatch(s) > 0 {
      LineTokenMade(s, t, x);
    } else if LiteralMatch(s) > 0 {
      LiteralTokenMade(s, t, x);
    } else {
      CharTokenMade(s, t, x);
    }
  }

  function ChunkOf(s: string): (c: Chunk)
    requires s != ""
    ensures Whole(c) && (c.made == ";" <==> s[0] == ';') && c.text == s[..Token(s)] && c.text != ""
  {
    Chunk(s[..Token(s)], Once(s), Twice(s), Image(s))
  }

  // The tokens of a script with what the passes make of each.
  function Chunks(s: string): (cs: seq<Chunk>)
    ensures NonEmpty(cs)
    decreases |s|
  {
    if s == "" then [] else [ChunkOf(s)] + Chunks(s[Token(s)..])
  }

  lemma ChunksStep(k: Chunk, cs: seq<Chunk>, from: nat)
    ensures Starts([k] + cs, from) == (if k.made == ";" then [from] else []) + Starts(cs, from + |k.text|)
    ensures forall a, b, c :: AllMade(a, b, c, [k] + cs) <==>
              Whole(k) && AllTake(a, b, c, k.text, Flat(cs), k.once, k.twice, k.made) && AllMade(a, b, c, cs)
  {
    assert ([k] + cs)[1..] == cs;
  }

  lemma TidyRest(s: string, x: string)
    requires s != "" && Tidy(s) && x == s[Token(s)..]
    ensures TidyToken(s) && Tidy(x)
  {
  }

  lemma {:induction false} ChunksFlat(s: string)
    ensures Flat(Chunks(s)) == s
    decreases |s|
  {
    if s != "" {
      var x := s[Token(s)..];
      ChunksFlat(x);
      FlatStep(ChunkOf(s), Chunks(x));
      Halves(s, Token(s));
    }
  }

  lemma Halves(s: string, n: nat)
    requires n <= |s|
    ensures s[..n] + s[n..] == s
  {
  }

  lemma FlatStep(k: Chunk, cs: seq<Chunk>)
    ensures Flat([k] + cs) == k.text + Flat(cs)
  {
    assert ([k] + cs)[1..] == cs;
  }

  lemma {:induction false} ChunksMade(s: string)
    requires Tidy(s)
    ensures AllMade(BLOCKS, LINES, LITERALS, Chunks(s))
    decreases |s|
  {
    if s != "" {
      var x := s[Token(s)..];
      TidyRest(s, x);
      TokenMade(s, s[..Token(s)], x);
      ChunksFlat(x);
      ChunksMade(x);
      ChunksStep(ChunkOf(s), Chunks(x), 0);
    }
  }

  lemma LexTopStep(s: string, from: nat, k: Chunk, x: string)
    requires s != "" && k == ChunkOf(s) && x == s[Token(s)..]
    ensures LexTop(s, from) == (if k.made == ";" then [from] else []) + LexTop(x, from + |k.text|)
  {
  }

  lemma {:induction false} LexTopStarts(s: string, from: nat)
    ensures LexTop(s, from) == Starts(Chunks(s), from)
    decreases |s|
  {
    if s != "" {
      var k, x := ChunkOf(s), s[Token(s)..];
      LexTopStarts(x, from + |k.text|);
      LexTopStep(s, from, k, x);
      ChunksStep(k, Chunks(x), from);
    }
  }

  // ------------------------------------------------------------ when the splitter cuts there

  // Exactly when the pieces are the script cut at its own semicolons: the cleaned text has its
  // semicolons at the same places.
  lemma CutsAtLexTopIff(sql: string)
    ensures Pieces(sql) == Cut(sql, 0, LexTop(sql, 0)) <==> Semis(Clean(sql), 0) == LexTop(sql, 0)
  {
    var o, p := LexTop(sql, 0), Semis(Clean(sql), 0);
    LexTopStarts(sql, 0);
    ChunksFlat(sql);
    forall i | 0 <= i < |o| ensures o[i] < |sql| { StartsInside(Chunks(sql), 0, i); }
    if |p| == |o| { CutsAgreeIff(sql, p, o); }
  }

  // Then every statement is classified as it stands in the script.
  lemma ClassifiesLexTop(extra: seq<string>, sql: string)
    requires Semis(Clean(sql), 0) == LexTop(sql, 0)
    ensures ClassifySpec(extra, sql) == ClassifyPieces(extra, Cut(sql, 0, LexTop(sql, 0)))
  {
    SplitClassifiesPieces(extra, sql);
  }

  // ------------------------------------------------------------ what the passes find in a tidy script

  // The surviving semicolons are those of the three passes in a row.
  lemma SurvivorsAre(s: string, i: nat)
    ensures |Survivors(s)| == SemiCount(BLOCKS, LINES, LITERALS, s)
    ensures i < |Survivors(s)| ==> Survivors(s)[i] == SemiSource(BLOCKS, LINES, LITERALS, s, i)
  {
    CleanIs(s);
    ThreePasses(BLOCKS, LINES, LITERALS, s);
    if i < |Survivors(s)| {
      SemiInside(Clean(s), i);
      ThreeOrigins(BLOCKS, LINES, LITERALS, s, Semis(Clean(s), 0)[i]);
    }
  }

  lemma TidySurvivor(s: string, cs: seq<Chunk>, i: nat)
    requires Tidy(s) && cs == Chunks(s)
    ensures |Survivors(s)| == |Starts(cs, 0)|
    ensures i < |Survivors(s)| ==> Survivors(s)[i] == Starts(cs, 0)[i]
  {
    ChunksFlat(s);
    ChunksMade(s);
    ChunkSources(BLOCKS, LINES, LITERALS, cs, i);
    SurvivorsAre(s, i);
  }

  // On a tidy script the three passes find the right semicolons.
  lemma TidySurvivors(s: string)
    requires Tidy(s)
    ensures Survivors(s) == LexTop(s, 0)
  {
    var cs := Chunks(s);
    LexTopStarts(s, 0);
    TidySurvivor(s, cs, 0);
    forall i | 0 <= i < |Survivors(s)| ensures Survivors(s)[i] == Starts(cs, 0)[i] { TidySurvivor(s, cs, i); }
  }

  // So a tidy script is cut at its own semicolons exactly when the literals and comments in front
  // of each of them clean to as many characters as they have.
  lemma TidyCutsIff(sql: string)
    requires Tidy(sql)
    ensures Pieces(sql) == Cut(sql, 0, LexTop(sql, 0)) <==> LengthsKept(sql)
  {
    TidySurvivors(sql);
    CutsAtSurvivorsIff(sql);
  }

  // Plain scripts are tidy.
  lemma {:induction false} PlainIsTidy(s: string)
    requires Plain(s)
    ensures Tidy(s)
  {
    if s != "" {
      NoMatch(s, "", 0);
      assert s + "" == s && s[0..] == s;
      assert Token(s) == 1;
      forall i | 0 <= i < |s[1..]|
        ensures s[1..][i] != '\'' && !Opens(s[1..][i..], '/', '*') && !Opens(s[1..][i..], '-', '-')
      {
        assert s[1..][i..] == s[i + 1..];
      }
      PlainIsTidy(s[1..]);
    }
  }
}
