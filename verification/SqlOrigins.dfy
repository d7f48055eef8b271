/** Where the semicolons of the cleaned text come from in the raw text, and exactly when the
    splitter, which slices the raw text at their cleaned places, cuts there. Which semicolons
    should end a statement in the first place is the matter of `SqlLex`. */
module SqlOrigins {
  import opened Options
  import opened SqlText
  import opened SqlSplit
  import opened SqlClassify
  import opened Substitution
  import Sequences

  // ------------------------------------------------------------ the three passes are local

  lemma {:induction false} BlockLengthPrefix(s: string, m: nat)
    requires m <= |s|
    ensures BlockLength(s).None? ==> BlockLength(s[..m]).None?
    ensures BlockLength(s).Some? && BlockLength(s).value <= m ==> BlockLength(s[..m]) == BlockLength(s)
  {
    if m >= 2 && !Opens(s, '*', '/') {
      BlockLengthPrefix(s[1..], m - 1);
      TailOfPrefix(s, 1, m);
    }
  }

  lemma {:induction false} LineLengthPrefix(s: string, m: nat)
    requires LineLength(s) <= m <= |s|
    ensures LineLength(s[..m]) == LineLength(s)
  {
    if m > 0 && s[0] != '\n' {
      LineLengthPrefix(s[1..], m - 1);
      TailOfPrefix(s, 1, m);
    }
  }

  lemma {:induction false} LiteralLengthPrefix(s: string, m: nat)
    requires m <= |s|
    ensures LiteralLength(s).None? ==> LiteralLength(s[..m]).None?
    ensures LiteralLength(s).Some? && LiteralLength(s).value <= m ==> LiteralLength(s[..m]) == LiteralLength(s)
  {
    if m >= 2 && (s[0] == '\\' || (s[0] == '\'' && s[1] == '\'')) {
      LiteralLengthPrefix(s[2..], m - 2);
      TailOfPrefix(s, 2, m);
    } else if m >= 1 && s[0] != '\\' && s[0] != '\'' {
      LiteralLengthPrefix(s[1..], m - 1);
      TailOfPrefix(s, 1, m);
    }
  }

  lemma BlockMatchPrefix(s: string, o: nat)
    requires BlockMatch(s) <= o <= |s|
    ensures BlockMatch(s[..o]) == BlockMatch(s)
  {
    if o >= 2 {
      BlockLengthPrefix(s[2..], o - 2);
      TailOfPrefix(s, 2, o);
    }
  }

  lemma LineMatchPrefix(s: string, o: nat)
    requires LineMatch(s) <= o <= |s|
    ensures LineMatch(s[..o]) == LineMatch(s)
  {
    if LineMatch(s) >= 2 {
      LineLengthPrefix(s[2..], o - 2);
      TailOfPrefix(s, 2, o);
    }
  }

  lemma LiteralMatchPrefix(s: string, o: nat)
    requires LiteralMatch(s) <= o <= |s|
    ensures LiteralMatch(s[..o]) == LiteralMatch(s)
  {
    if o >= 1 {
      LiteralLengthPrefix(s[1..], o - 1);
      TailOfPrefix(s, 1, o);
    }
  }

  lemma BlocksLocal()
    ensures Local(BLOCKS)
  {
    forall s: string, o | BlockMatch(s) <= o <= |s| ensures BlockMatch(s[..o]) == BlockMatch(s) {
      BlockMatchPrefix(s, o);
    }
  }

  lemma LinesLocal()
    ensures Local(LINES)
  {
    forall s: string, o | LineMatch(s) <= o <= |s| ensures LineMatch(s[..o]) == LineMatch(s) {
      LineMatchPrefix(s, o);
    }
  }

  lemma LiteralsLocal()
    ensures Local(LITERALS)
  {
    forall s: string, o | LiteralMatch(s) <= o <= |s| ensures LiteralMatch(s[..o]) == LiteralMatch(s) {
      LiteralMatchPrefix(s, o);
    }
  }

  lemma PassesAreLocal()
    ensures AllLocal(CLEANER)
  {
    BlocksLocal();
    LinesLocal();
    LiteralsLocal();
  }

  // ------------------------------------------------------------ all three

  // The raw place a character of the cleaned text was made from; the end when there is none.
  function OriginOf(sql: string, p: nat): nat {
    if p < |Passes(CLEANER, sql)| then Origin(CLEANER, sql, p) else |sql|
  }

  lemma OriginOfExact(sql: string, p: nat)
    requires p < |Clean(sql)| && Clean(sql)[p] == ';'
    ensures var o := OriginOf(sql, p); o < |sql| && sql[o] == ';' && Clean(sql[..o]) == Clean(sql)[..p]
  {
    CleanIs(sql);
    PassesAreLocal();
    OriginExact(CLEANER, sql, p);
    CleanIs(sql[..OriginOf(sql, p)]);
  }

  lemma OriginOfOrder(sql: string, p: nat, q: nat)
    requires p < q < |Clean(sql)| && Clean(sql)[q] == ';'
    ensures OriginOf(sql, p) < OriginOf(sql, q)
  {
    PassesAreLocal();
    CleanIs(sql);
    OriginOrder(CLEANER, sql, p, q);
  }

  function OriginsAt(sql: string, p: seq<nat>): seq<nat> {
    seq(|p|, i requires 0 <= i < |p| => OriginOf(sql, p[i]))
  }

  // The raw places of the semicolons that survive the three passes.
  function Survivors(sql: string): (r: seq<nat>)
    ensures |r| == |Semis(Clean(sql), 0)|
  {
    OriginsAt(sql, Semis(Clean(sql), 0))
  }

  // Each of them is a semicolon of the raw text, and the cleaned place of the i-th one is the
  // length of what cleaning makes of the text in front of it.
  lemma SurvivorsExact(sql: string)
    ensures var o, p := Survivors(sql), Semis(Clean(sql), 0);
            && (forall i, j :: 0 <= i < j < |o| ==> o[i] < o[j])
            && (forall i :: 0 <= i < |o| ==> o[i] < |sql| && sql[o[i]] == ';' && p[i] == |Clean(sql[..o[i]])|)
  {
    var o, p := Survivors(sql), Semis(Clean(sql), 0);
    forall i | 0 <= i < |o| ensures o[i] < |sql| && sql[o[i]] == ';' && p[i] == |Clean(sql[..o[i]])| {
      SemiInside(Clean(sql), i);
      OriginOfExact(sql, p[i]);
    }
    forall i, j | 0 <= i < j < |o| ensures o[i] < o[j] {
      SemisRange(Clean(sql), 0);
      SemiInside(Clean(sql), j);
      OriginOfOrder(sql, p[i], p[j]);
    }
  }

  // ------------------------------------------------------------ when the splitter cuts there

  lemma SliceEnd(s: string, from: nat, p: nat, o: nat)
    requires from <= p && from <= o < |s| && Slice(s, from, p) == Slice(s, from, o)
    ensures p == o
  {
    assert |Slice(s, from, o)| == o - from;
  }

  // Cuts at two lists of places agree only if the places do.
  lemma {:induction false} CutsDiffer(sql: string, from: nat, p: seq<nat>, o: seq<nat>)
    requires |p| == |o| && Increasing(from, p) && Increasing(from, o)
    requires forall i :: 0 <= i < |o| ==> o[i] < |sql|
    requires Cut(sql, from, p) == Cut(sql, from, o)
    ensures p == o
    decreases |p|
  {
    if p != [] {
      assert Cut(sql, from, p)[0] == Cut(sql, from, o)[0];
      SliceEnd(sql, from, p[0], o[0]);
      assert Cut(sql, from, p)[1..] == Cut(sql, from, o)[1..];
      CutsDiffer(sql, p[0] + 1, p[1..], o[1..]);
    }
  }

  lemma {:induction false} SortedIncreases(from: nat, o: seq<nat>)
    requires forall i, j :: 0 <= i < j < |o| ==> o[i] < o[j]
    requires o != [] ==> from <= o[0]
    ensures Increasing(from, o)
    decreases |o|
  {
    if o != [] { SortedIncreases(o[0] + 1, o[1..]); }
  }

  lemma CutsAgreeIff(sql: string, p: seq<nat>, o: seq<nat>)
    requires |p| == |o| && Increasing(0, p) && Increasing(0, o)
    requires forall i :: 0 <= i < |o| ==> o[i] < |sql|
    ensures Cut(sql, 0, p) == Cut(sql, 0, o) <==> p == o
  {
    if Cut(sql, 0, p) == Cut(sql, 0, o) { CutsDiffer(sql, 0, p, o); }
  }

  predicate LengthKept(s: string) { |Clean(s)| == |s| }

  // Cleaning keeps the length of everything in front of each surviving semicolon.
  predicate LengthsKept(sql: string) {
    SurvivorsExact(sql);
    forall i :: 0 <= i < |Survivors(sql)| ==> LengthKept(sql[..Survivors(sql)[i]])
  }

  lemma PlacesKeptIff(sql: string)
    ensures LengthsKept(sql) <==> Semis(Clean(sql), 0) == Survivors(sql)
  {
    SurvivorsExact(sql);
  }

  // The pieces are the raw text cut at its surviving semicolons exactly when what stands in front
  // of each of them cleans to as many characters as it has.
  lemma CutsAtSurvivorsIff(sql: string)
    ensures Pieces(sql) == Cut(sql, 0, Survivors(sql)) <==> LengthsKept(sql)
  {
    var o, p := Survivors(sql), Semis(Clean(sql), 0);
    SurvivorsExact(sql);
    SortedIncreases(0, o);
    CutsAgreeIff(sql, p, o);
    PlacesKeptIff(sql);
  }

  lemma {:induction false} AlignedAt(sql: string, semis: seq<nat>)
    requires forall i :: 0 <= i < |semis| ==> semis[i] < |sql| && sql[semis[i]] == ';'
    ensures Aligned(sql, semis)
  {
    if semis != [] { AlignedAt(sql, semis[1..]); }
  }

  // Then the pieces rejoin. The converse fails: see `SqlMiscuts.RejoinsButMiscut`.
  lemma LengthsKeptRejoins(sql: string)
    requires LengthsKept(sql)
    ensures Join(Pieces(sql)) == sql
  {
    SurvivorsExact(sql);
    PlacesKeptIff(sql);
    AlignedAt(sql, Survivors(sql));
    RejoinsIffAligned(sql);
  }
}
