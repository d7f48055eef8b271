/** Regular-expression substitution as the classifier uses it: passes that replace matches by a
    fixed text, and where each character of the result was made from. */
module Substitution {
  lemma TailOfPrefix(s: string, n: nat, m: nat)
    requires n <= m <= |s|
    ensures s[..m][n..] == s[n..][..m - n]
  {
  }

  // How much of a text a pass replaces at its start; zero when it keeps the first character.
  type Match = m: string -> nat | forall s :: m(s) <= |s| witness s => 0

  // A pass with what it puts in the place of a match.
  datatype Sub = Sub(m: Match, rep: string)

  // `re.sub`: every match becomes `p.rep`, every other character stays.
  function Pass(p: Sub, s: string): string
    decreases |s|
  {
    if s == "" then ""
    else if p.m(s) > 0 then p.rep + Pass(p, s[p.m(s)..])
    else [s[0]] + Pass(p, s[1..])
  }

  // The place of the input that place j of the output was made from; a replacement comes from
  // where the replaced text begins.
  function Source(p: Sub, s: string, j: nat): (o: nat)
    requires j < |Pass(p, s)|
    ensures o < |s|
    decreases |s|
  {
    if p.m(s) > 0 then if j < |p.rep| then 0 else p.m(s) + Source(p, s[p.m(s)..], j - |p.rep|)
    else if j == 0 then 0
    else 1 + Source(p, s[1..], j - 1)
  }

  // No match starts in `a` when `x` follows it.
  ghost predicate Kept(p: Sub, a: string, x: string) {
    forall i :: 0 <= i < |a| ==> p.m((a + x)[i..]) == 0
  }

  lemma KeptTail(p: Sub, a: string, x: string)
    requires Kept(p, a, x) && a != ""
    ensures Kept(p, a[1..], x) && (a + x)[1..] == a[1..] + x && p.m(a + x) == 0
  {
    var t := a + x;
    assert t[0..] == t && t[1..] == a[1..] + x;
    forall i | 0 <= i < |a[1..]| ensures p.m((a[1..] + x)[i..]) == 0 {
      assert (a[1..] + x)[i..] == t[i + 1..];
    }
  }

  lemma PassOne(p: Sub, s: string, rest: string, c: char)
    requires s != "" && p.m(s) == 0 && s[0] == c && s[1..] == rest
    ensures Pass(p, s) == [c] + Pass(p, rest)
  {
  }

  lemma FirstBack(a: string, y: string)
    requires a != ""
    ensures [a[0]] + (a[1..] + y) == a + y
  {
  }

  // A part without a match anywhere stays, whatever follows it.
  lemma {:induction false} PassAfter(p: Sub, a: string, x: string)
    requires Kept(p, a, x)
    ensures Pass(p, a + x) == a + Pass(p, x)
  {
    if a == "" {
      assert a + x == x;
    } else {
      KeptTail(p, a, x);
      PassAfter(p, a[1..], x);
      PassOne(p, a + x, a[1..] + x, a[0]);
      FirstBack(a, Pass(p, x));
    }
  }

  lemma OneMatch(p: Sub, s: string, j: nat)
    requires s != "" && p.m(s) > 0 && j < |Pass(p, s)|
    ensures j < |p.rep| ==> Source(p, s, j) == 0 && Pass(p, s)[j] == p.rep[j]
    ensures |p.rep| <= j ==>
              var x := s[p.m(s)..];
              && j - |p.rep| < |Pass(p, x)| && Pass(p, s)[j] == Pass(p, x)[j - |p.rep|]
              && Source(p, s, j) == p.m(s) + Source(p, x, j - |p.rep|)
  {
  }

  lemma OneKept(p: Sub, s: string, j: nat)
    requires s != "" && p.m(s) == 0 && 0 < j < |Pass(p, s)|
    ensures j - 1 < |Pass(p, s[1..])| && Source(p, s, j) == 1 + Source(p, s[1..], j - 1)
    ensures Pass(p, s)[j] == Pass(p, s[1..])[j - 1]
  {
  }

  // Character j of what the pass makes of `s` was made at place o.
  predicate Comes(p: Sub, s: string, made: string, j: nat, o: nat) {
    Pass(p, s) == made && j < |made| && Source(p, s, j) == o
  }

  lemma ComesOne(p: Sub, s: string, rest: string, c: char, made: string, j: nat, o: nat)
    requires s != "" && p.m(s) == 0 && s[0] == c && s[1..] == rest && Comes(p, rest, made, j, o)
    ensures Comes(p, s, [c] + made, 1 + j, 1 + o)
  {
  }

  // What follows a kept part was made where it was made, only that much later.
  lemma {:induction false} ComesAfter(p: Sub, a: string, x: string, made: string, j: nat, o: nat)
    requires Kept(p, a, x) && Comes(p, x, made, j, o)
    ensures Comes(p, a + x, a + made, |a| + j, |a| + o)
  {
    if a == "" {
      assert a + x == x && a + made == made;
    } else {
      var rest := a[1..];
      KeptTail(p, a, x);
      ComesAfter(p, rest, x, made, j, o);
      ComesOne(p, a + x, rest + x, a[0], rest + made, |rest| + j, |rest| + o);
      FirstBack(a, made);
    }
  }

  // What lies behind a match does not matter to it, and cutting a text off makes no match;
  // and no semicolon is put in.
  ghost predicate Local(p: Sub) {
    ';' !in p.rep && forall s, o :: p.m(s) <= o <= |s| ==> p.m(s[..o]) == p.m(s)
  }

  // Every place in front of a semicolon comes from in front of the semicolon's own source.
  lemma {:induction false} SourceOrder(p: Sub, s: string, i: nat, j: nat)
    requires i < j < |Pass(p, s)| && Pass(p, s)[j] == ';' && Local(p)
    ensures Source(p, s, i) < Source(p, s, j)
    decreases |s|
  {
    if p.m(s) > 0 {
      OneMatch(p, s, j);
      if i >= |p.rep| {
        OneMatch(p, s, i);
        SourceOrder(p, s[p.m(s)..], i - |p.rep|, j - |p.rep|);
      }
    } else if i > 0 {
      OneKept(p, s, i);
      OneKept(p, s, j);
      SourceOrder(p, s[1..], i - 1, j - 1);
    }
  }

  // A replacement or a kept character first, the same on both sides.
  lemma SameHead(head: string, x: string, y: string, j: nat)
    requires |head| <= j <= |head + y| && x == y[..j - |head|]
    ensures head + x == (head + y)[..j]
  {
  }

  // A semicolon of the output is one of the input, and what stands before it is the pass
  // applied to what stood before it.
  lemma {:induction false} SourceExact(p: Sub, s: string, j: nat)
    requires j < |Pass(p, s)| && Pass(p, s)[j] == ';' && Local(p)
    ensures var o := Source(p, s, j); s[o] == ';' && Pass(p, s[..o]) == Pass(p, s)[..j]
    decreases |s|
  {
    var o := Source(p, s, j);
    if p.m(s) > 0 || j > 0 {
      var n, head := if p.m(s) > 0 then p.m(s) else 1, if p.m(s) > 0 then p.rep else [s[0]];
      SourceExact(p, s[n..], j - |head|);
      TailOfPrefix(s, n, o);
      SameHead(head, Pass(p, s[n..][..o - n]), Pass(p, s[n..]), j);
    }
  }

  // ------------------------------------------------------------ pass after pass

  function Passes(ps: seq<Sub>, s: string): string {
    if ps == [] then s else Passes(ps[1..], Pass(ps[0], s))
  }

  lemma ThreePasses(a: Sub, b: Sub, c: Sub, s: string)
    ensures Passes([a, b, c], s) == Pass(c, Pass(b, Pass(a, s)))
  {
    assert [a, b, c][1..] == [b, c] && [b, c][1..] == [c];
    assert Passes([c], Pass(b, Pass(a, s))) == Pass(c, Pass(b, Pass(a, s)));
  }

  // The place of the input that a character of the last result was made from.
  function Origin(ps: seq<Sub>, s: string, j: nat): (o: nat)
    requires j < |Passes(ps, s)|
    ensures o < |s|
  {
    if ps == [] then j else Source(ps[0], s, Origin(ps[1..], Pass(ps[0], s), j))
  }

  ghost predicate AllLocal(ps: seq<Sub>) { forall i :: 0 <= i < |ps| ==> Local(ps[i]) }

  lemma {:induction false} OriginExact(ps: seq<Sub>, s: string, j: nat)
    requires j < |Passes(ps, s)| && Passes(ps, s)[j] == ';' && AllLocal(ps)
    ensures var o := Origin(ps, s, j); s[o] == ';' && Passes(ps, s[..o]) == Passes(ps, s)[..j]
    decreases |ps|
  {
    if ps != [] {
      OriginExact(ps[1..], Pass(ps[0], s), j);
      SourceExact(ps[0], s, Origin(ps[1..], Pass(ps[0], s), j));
    }
  }

  lemma {:induction false} OriginOrder(ps: seq<Sub>, s: string, i: nat, j: nat)
    requires i < j < |Passes(ps, s)| && Passes(ps, s)[j] == ';' && AllLocal(ps)
    ensures Origin(ps, s, i) < Origin(ps, s, j)
    decreases |ps|
  {
    if ps != [] {
      var t := Pass(ps[0], s);
      OriginOrder(ps[1..], t, i, j);
      OriginExact(ps[1..], t, j);
      SourceOrder(ps[0], s, Origin(ps[1..], t, i), Origin(ps[1..], t, j));
    }
  }

  // ------------------------------------------------------------ part after part

  // What the pass makes of `a` in front of `x`: a match is replaced, or all of it is kept.
  ghost predicate Takes(p: Sub, a: string, x: string, b: string) {
    (a != "" && p.m(a + x) == |a| && b == p.rep) || (Kept(p, a, x) && b == a)
  }

  lemma TakesText(p: Sub, a: string, x: string, b: string)
    requires Takes(p, a, x, b)
    ensures Pass(p, a + x) == b + Pass(p, x)
  {
    if Kept(p, a, x) && b == a { PassAfter(p, a, x); } else { MatchText(p, a, x, a + x); }
  }

  lemma MatchText(p: Sub, a: string, x: string, s: string)
    requires a != "" && s == a + x && p.m(s) == |a|
    ensures s[|a|..] == x && Pass(p, s) == p.rep + Pass(p, x)
  {
  }

  // Three passes in a row, without the list.
  function Pass3(a: Sub, b: Sub, c: Sub, s: string): string { Pass(c, Pass(b, Pass(a, s))) }

  function Source3(a: Sub, b: Sub, c: Sub, s: string, j: nat): nat
    requires j < |Pass3(a, b, c, s)|
  {
    Source(a, s, Source(b, Pass(a, s), Source(c, Pass(b, Pass(a, s)), j)))
  }

  lemma ThreeOrigins(a: Sub, b: Sub, c: Sub, s: string, j: nat)
    requires j < |Pass3(a, b, c, s)|
    ensures Passes([a, b, c], s) == Pass3(a, b, c, s) && Origin([a, b, c], s, j) == Source3(a, b, c, s, j)
  {
    ThreePasses(a, b, c, s);
    var t, u := Pass(a, s), Pass(b, Pass(a, s));
    assert [a, b, c][1..] == [b, c] && [b, c][1..] == [c] && [c][1..] == [];
    assert Origin([c], u, j) == Source(c, u, j);
    assert Origin([b, c], t, j) == Source(b, t, Origin([c], u, j));
  }

  // What three passes make of `t` in front of `x`, one after the other.
  ghost predicate AllTake(a: Sub, b: Sub, c: Sub, t: string, x: string, t1: string, t2: string, t3: string) {
    Takes(a, t, x, t1) && Takes(b, t1, Pass(a, x), t2) && Takes(c, t2, Pass(b, Pass(a, x)), t3)
  }

  lemma TakesThree(a: Sub, b: Sub, c: Sub, t: string, x: string, t1: string, t2: string, t3: string)
    requires AllTake(a, b, c, t, x, t1, t2, t3)
    ensures Pass3(a, b, c, t + x) == t3 + Pass3(a, b, c, x)
  {
    TakesText(a, t, x, t1);
    TakesText(b, t1, Pass(a, x), t2);
    TakesText(c, t2, Pass(b, Pass(a, x)), t3);
  }

  predicate Comes3(a: Sub, b: Sub, c: Sub, s: string, j: nat, o: nat) {
    j < |Pass3(a, b, c, s)| && Source3(a, b, c, s, j) == o
  }

  lemma TakesAt(p: Sub, a: string, x: string, b: string, made: string, j: nat, o: nat)
    requires Takes(p, a, x, b) && Comes(p, x, made, j, o)
    ensures Comes(p, a + x, b + made, |b| + j, |a| + o)
  {
    TakesText(p, a, x, b);
    if Kept(p, a, x) && b == a { ComesAfter(p, a, x, made, j, o); } else { MatchSource(p, a, x, a + x, j); }
  }

  lemma MatchSource(p: Sub, a: string, x: string, s: string, j: nat)
    requires a != "" && s == a + x && p.m(s) == |a| && j < |Pass(p, x)|
    ensures |p.rep| + j < |Pass(p, s)| && Source(p, s, |p.rep| + j) == |a| + Source(p, x, j)
  {
    MatchText(p, a, x, s);
  }

  lemma Chained(a: Sub, b: Sub, c: Sub, s: string, s1: string, s2: string, s3: string,
                j: nat, j2: nat, j1: nat, j0: nat)
    requires Comes(a, s, s1, j1, j0) && Comes(b, s1, s2, j2, j1) && Comes(c, s2, s3, j, j2)
    ensures Comes3(a, b, c, s, j, j0)
  {
  }

  lemma Unchained(a: Sub, b: Sub, c: Sub, s: string, j: nat, j0: nat)
    returns (s1: string, s2: string, s3: string, j2: nat, j1: nat)
    requires Comes3(a, b, c, s, j, j0)
    ensures s1 == Pass(a, s) && s2 == Pass(b, s1)
    ensures Comes(a, s, s1, j1, j0) && Comes(b, s1, s2, j2, j1) && Comes(c, s2, s3, j, j2)
  {
    s1 := Pass(a, s);
    s2 := Pass(b, s1);
    s3 := Pass(c, s2);
    j2 := Source(c, s2, j);
    j1 := Source(b, s1, j2);
  }

  lemma TakesThreeAt(a: Sub, b: Sub, c: Sub, t: string, x: string, t1: string, t2: string, t3: string, j: nat, o: nat)
    requires AllTake(a, b, c, t, x, t1, t2, t3) && Comes3(a, b, c, x, j, o)
    ensures Comes3(a, b, c, t + x, |t3| + j, |t| + o)
  {
    var y, z, made, j2, j1 := Unchained(a, b, c, x, j, o);
    TakesAt(c, t2, z, t3, made, j, j2);
    TakesAt(b, t1, y, t2, z, j2, j1);
    TakesAt(a, t, x, t1, y, j1, o);
    Chained(a, b, c, t + x, t1 + y, t2 + z, t3 + made, |t3| + j, |t2| + j2, |t1| + j1, |t| + o);
  }

  // What comes first was made from the beginning.
  lemma {:induction false} OriginFirst(ps: seq<Sub>, s: string)
    requires Passes(ps, s) != "" && forall i :: 0 <= i < |ps| ==> ps[i].rep != ""
    ensures Origin(ps, s, 0) == 0
    decreases |ps|
  {
    if ps != [] { OriginFirst(ps[1..], Pass(ps[0], s)); }
  }
}
