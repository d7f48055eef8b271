/** Splitting a script on the semicolons of its cleaned text, while slicing the raw text. */
module SqlSplit {
  import opened Options
  import opened SqlText
  import Sequences

  // Python's clamped slice `s[lo:hi]` for non-negative bounds.
  function Slice(s: string, lo: nat, hi: nat): string {
    if lo >= |s| || hi <= lo then "" else s[lo..if hi < |s| then hi else |s|]
  }

  predicate Increasing(from: nat, semis: seq<nat>)
    decreases |semis|
  {
    semis == [] || (from <= semis[0] && Increasing(semis[0] + 1, semis[1..]))
  }

  // The places of the semicolons in `cleaned`, counted from `from`.
  function Semis(cleaned: string, from: nat): (r: seq<nat>)
    ensures Increasing(from, r)
  {
    if cleaned == "" then []
    else if cleaned[0] == ';' then [from] + Semis(cleaned[1..], from + 1)
    else Semis(cleaned[1..], from + 1)
  }

  // The raw slices between consecutive places, the tail after the last one included.
  function Cut(sql: string, from: nat, semis: seq<nat>): (r: seq<string>)
    ensures |r| == |semis| + 1
    decreases |semis|
  {
    if semis == [] then [Slice(sql, from, |sql|)]
    else [Slice(sql, from, semis[0])] + Cut(sql, semis[0] + 1, semis[1..])
  }

  function Pieces(sql: string): (r: seq<string>)
    ensures r != []
  {
    Cut(sql, 0, Semis(Clean(sql), 0))
  }

  // A blank piece after the last semicolon is not a statement.
  function DropBlankTail(p: seq<string>): seq<string> {
    if |p| > 1 && Blank(p[|p| - 1]) then p[..|p| - 1] else p
  }

  function Split(sql: string): seq<string> { DropBlankTail(Pieces(sql)) }

  lemma SemisRange(cleaned: string, from: nat)
    ensures var p := Semis(cleaned, from);
            && (forall i :: 0 <= i < |p| ==> from <= p[i] < from + |cleaned| && cleaned[p[i] - from] == ';')
            && (forall i, j :: 0 <= i < j < |p| ==> p[i] < p[j])
  {
    if cleaned != "" {
      SemisRange(cleaned[1..], from + 1);
      var p1 := Semis(cleaned[1..], from + 1);
      forall i | 0 <= i < |p1| ensures cleaned[p1[i] - from] == ';' {
        assert cleaned[1..][p1[i] - (from + 1)] == cleaned[p1[i] - from];
      }
    }
  }

  lemma SemiInside(cleaned: string, i: nat)
    requires i < |Semis(cleaned, 0)|
    ensures Semis(cleaned, 0)[i] < |cleaned| && cleaned[Semis(cleaned, 0)[i]] == ';'
  {
    SemisRange(cleaned, 0);
  }

  lemma NoSemis(cleaned: string, from: nat)
    ensures Semis(cleaned, from) == [] <==> ';' !in cleaned
  {
    if cleaned != "" { NoSemis(cleaned[1..], from + 1); assert cleaned == [cleaned[0]] + cleaned[1..]; }
  }

  // The scanner of `_split_statements`: one pass over the cleaned text with a running raw offset.
  method SplitStatements(sql: string) returns (statements: seq<string>)
    ensures statements == Split(sql)
  {
    var cleaned := Clean(sql);
    NoSemis(cleaned, 0);
    if ';' !in cleaned {
      assert Slice(sql, 0, |sql|) == sql;
      return [sql];
    }
    statements := [];
    var buf: nat := 0;
    var rawIdx: nat := 0;
    ghost var whole := Pieces(sql);
    ghost var rest := whole;
    var i := 0;
    assert cleaned[0..] == cleaned;
    while i < |cleaned|
      invariant 0 <= i <= |cleaned| && rawIdx + buf == i
      invariant rest == Cut(sql, rawIdx, Semis(cleaned[i..], i)) && whole == statements + rest
    {
      ghost var next := Cut(sql, if cleaned[i] == ';' then i + 1 else rawIdx, Semis(cleaned[i + 1..], i + 1));
      CutNext(sql, cleaned, rawIdx, i);
      if cleaned[i] == ';' {
        var piece := Slice(sql, rawIdx, rawIdx + buf);
        Sequences.Assoc(statements, [piece], next);
        statements := statements + [piece];
        rawIdx := rawIdx + buf + 1;
        buf := 0;
      } else {
        buf := buf + 1;
      }
      rest := next;
      i := i + 1;
    }
    assert cleaned[i..] == "";
    var tail := Slice(sql, rawIdx, |sql|);
    assert rest == [tail];
    TailDropped(whole, statements, tail);
    if !Blank(tail) {
      statements := statements + [tail];
    }
  }

  // One character of the cleaned text further.
  lemma CutNext(sql: string, cleaned: string, rawIdx: nat, i: nat)
    requires i < |cleaned|
    ensures var semis, next := Semis(cleaned[i..], i), Semis(cleaned[i + 1..], i + 1);
            Cut(sql, rawIdx, semis) ==
            if cleaned[i] == ';' then [Slice(sql, rawIdx, i)] + Cut(sql, i + 1, next) else Cut(sql, rawIdx, next)
  {
    assert cleaned[i..][0] == cleaned[i] && cleaned[i..][1..] == cleaned[i + 1..];
  }

  lemma TailDropped(whole: seq<string>, statements: seq<string>, tail: string)
    requires whole == statements + [tail] && |whole| > 1
    ensures DropBlankTail(whole) == if Blank(tail) then statements else statements + [tail]
  {
    assert whole[..|whole| - 1] == statements;
  }

  // ------------------------------------------------------------ tiling

  // Piece j is the raw slice from just after semicolon j-1 up to semicolon j: consecutive,
  // disjoint, and skipping exactly the one place of each semicolon.
  lemma {:induction false} CutAt(sql: string, from: nat, semis: seq<nat>, j: nat)
    requires j <= |semis|
    ensures Cut(sql, from, semis)[j] ==
            Slice(sql, if j == 0 then from else semis[j - 1] + 1, if j == |semis| then |sql| else semis[j])
    decreases j
  {
    if j > 0 { CutAt(sql, semis[0] + 1, semis[1..], j - 1); }
  }

  lemma Tiling(sql: string, j: nat)
    requires j < |Pieces(sql)|
    ensures var p := Semis(Clean(sql), 0);
            && |Pieces(sql)| == |p| + 1
            && (forall a, b :: 0 <= a < b < |p| ==> p[a] < p[b])
            && (forall a :: 0 <= a < |p| ==> p[a] < |Clean(sql)| && Clean(sql)[p[a]] == ';')
            && Pieces(sql)[j] == Slice(sql, if j == 0 then 0 else p[j - 1] + 1, if j == |p| then |sql| else p[j])
  {
    SemisRange(Clean(sql), 0);
    CutAt(sql, 0, Semis(Clean(sql), 0), j);
  }

  // ------------------------------------------------------------ rejoining

  function Join(pieces: seq<string>): string
    requires pieces != []
  {
    if |pieces| == 1 then pieces[0] else pieces[0] + ";" + Join(pieces[1..])
  }

  // Every semicolon of the cleaned text stands on a semicolon of the raw text.
  predicate Aligned(sql: string, semis: seq<nat>) {
    semis == [] || (semis[0] < |sql| && sql[semis[0]] == ';' && Aligned(sql, semis[1..]))
  }

  lemma Around(sql: string, from: nat, p: nat)
    requires from <= p < |sql| && sql[p] == ';'
    ensures sql[from..] == Slice(sql, from, p) + ";" + sql[p + 1..]
  {
  }

  lemma JoinCons(x: string, rest: seq<string>)
    requires rest != []
    ensures Join([x] + rest) == x + ";" + Join(rest)
  {
    assert ([x] + rest)[1..] == rest;
  }

  lemma {:induction false} JoinAligned(sql: string, from: nat, semis: seq<nat>)
    requires Increasing(from, semis) && Aligned(sql, semis) && from <= |sql|
    ensures Join(Cut(sql, from, semis)) == sql[from..]
    decreases |semis|
  {
    if semis != [] {
      JoinAligned(sql, semis[0] + 1, semis[1..]);
      Around(sql, from, semis[0]);
      JoinCons(Slice(sql, from, semis[0]), Cut(sql, semis[0] + 1, semis[1..]));
    }
  }

  lemma Parts(x: string, y: string, z: string, from: nat, p: nat)
    requires from <= p < |x| && x[from..] == y + ";" + z && |y| == p - from
    ensures x[p] == ';' && x[p + 1..] == z
  {
    var u := x[from..];
    assert u[|y|] == ';' && u[|y|] == x[p];
    assert u[|y| + 1..] == z && u[|y| + 1..] == x[p + 1..];
  }

  lemma {:induction false} JoinMisaligned(sql: string, from: nat, semis: seq<nat>)
    requires Increasing(from, semis) && from <= |sql| && Join(Cut(sql, from, semis)) == sql[from..]
    ensures Aligned(sql, semis)
    decreases |semis|
  {
    if semis != [] {
      var p, head := semis[0], Slice(sql, from, semis[0]);
      var rest := Join(Cut(sql, p + 1, semis[1..]));
      JoinCons(head, Cut(sql, p + 1, semis[1..]));
      assert sql[from..] == head + ";" + rest;
      assert p < |sql|;
      Parts(sql, head, rest, from, p);
      JoinMisaligned(sql, p + 1, semis[1..]);
    }
  }

  // Exactly when the pieces joined with ';' give the script back: every place must be one of a
  // raw semicolon, though not always of the one that was meant.
  lemma RejoinsIffAligned(sql: string)
    ensures Join(Pieces(sql)) == sql <==> Aligned(sql, Semis(Clean(sql), 0))
  {
    assert sql[0..] == sql;
    if Join(Pieces(sql)) == sql { JoinMisaligned(sql, 0, Semis(Clean(sql), 0)); }
    if Aligned(sql, Semis(Clean(sql), 0)) { JoinAligned(sql, 0, Semis(Clean(sql), 0)); }
  }

  lemma AlignedItself(sql: string, k: nat)
    requires k <= |sql|
    ensures Aligned(sql, Semis(sql[k..], k))
    decreases |sql| - k
  {
    if k < |sql| {
      assert sql[k..][1..] == sql[k + 1..];
      AlignedItself(sql, k + 1);
    }
  }

  // What Split leaves out of the pieces: a blank tail after the last semicolon, and nothing else.
  lemma SplitTail(sql: string)
    ensures Split(sql) == Pieces(sql) ||
            (Blank(Pieces(sql)[|Pieces(sql)| - 1]) && Split(sql) + [Pieces(sql)[|Pieces(sql)| - 1]] == Pieces(sql))
    ensures Split(sql) == Pieces(sql) <==> ';' !in Clean(sql) || !Blank(Pieces(sql)[|Pieces(sql)| - 1])
  {
    var p := Pieces(sql);
    NoSemis(Clean(sql), 0);
    assert p == p[..|p| - 1] + [p[|p| - 1]];
  }

  lemma PlainRejoins(sql: string)
    requires Plain(sql)
    ensures Join(Pieces(sql)) == sql
  {
    CleanPlain(sql);
    assert sql[0..] == sql;
    AlignedItself(sql, 0);
    RejoinsIffAligned(sql);
  }
}
