/** What the three cleaning patterns match, stated without the matcher. */
module SqlTokens {
  import opened Options
  import opened SqlText

  predicate ClosesAt(s: string, i: nat) { i + 1 < |s| && s[i] == '*' && s[i + 1] == '/' }

  lemma {:induction false} BlockLengthExact(s: string)
    ensures match BlockLength(s)
            case None => forall i: nat :: !ClosesAt(s, i)
            case Some(n) => ClosesAt(s, n - 2) && forall i: nat :: i < n - 2 ==> !ClosesAt(s, i)
  {
    if |s| >= 2 && !Opens(s, '*', '/') {
      BlockLengthExact(s[1..]);
      assert !ClosesAt(s, 0);
      assert forall i: nat :: i > 0 ==> (ClosesAt(s, i) <==> ClosesAt(s[1..], i - 1));
    }
  }

  // A block comment runs from its opener to the first closer behind it; an unclosed one is none.
  lemma BlockExact(s: string, n: nat)
    requires n > 0
    ensures BlockMatch(s) == n <==>
            |s| >= 4 && s[0] == '/' && s[1] == '*' && 4 <= n && ClosesAt(s, n - 2) &&
            forall i: nat :: 2 <= i < n - 2 ==> !ClosesAt(s, i)
  {
    if |s| >= 2 {
      BlockLengthExact(s[2..]);
      assert forall i: nat :: i >= 2 ==> (ClosesAt(s, i) <==> ClosesAt(s[2..], i - 2));
      assert forall i: nat :: ClosesAt(s[2..], i) <==> ClosesAt(s, i + 2);
    }
  }

  lemma {:induction false} LineLengthExact(s: string)
    ensures LineLength(s) < |s| ==> s[LineLength(s)] == '\n'
    ensures forall i :: 0 <= i < LineLength(s) ==> s[i] != '\n'
  {
    if s != "" && s[0] != '\n' { LineLengthExact(s[1..]); }
  }

  // A line comment runs up to the end of its line.
  lemma LineExact(s: string, n: nat)
    requires n > 0
    ensures LineMatch(s) == n <==>
            |s| >= 2 && s[0] == '-' && s[1] == '-' && 2 <= n <= |s| &&
            '\n' !in s[2..n] && (n < |s| ==> s[n] == '\n')
  {
    if |s| >= 2 { LineLengthExact(s[2..]); }
  }

  // What may stand between the quotes: any characters but quotes and backslashes, a backslash
  // with the character behind it unless that ends the line, and doubled quotes.
  predicate Inside(u: string) {
    if u == "" then true
    else if u[0] == '\\' then |u| >= 2 && u[1] != '\n' && Inside(u[2..])
    else if u[0] == '\'' then |u| >= 2 && u[1] == '\'' && Inside(u[2..])
    else Inside(u[1..])
  }

  predicate LiteralOf(s: string, n: nat) { 1 <= n <= |s| && s[n - 1] == '\'' && Inside(s[..n - 1]) }

  lemma Behind(s: string, k: nat, n: nat)
    requires 1 <= k < n <= |s| && (k == 2 <==> s[0] == '\\' || s[0] == '\'') && k <= 2
    requires k == 2 ==> if s[0] == '\\' then s[1] != '\n' else s[1] == '\''
    ensures LiteralOf(s, n) <==> LiteralOf(s[k..], n - k)
  {
    assert s[..n - 1][k..] == s[k..][..n - k - 1];
  }

  // No end of a literal lies inside an item.
  lemma NotInItem(s: string, n: nat)
    requires LiteralOf(s, n) && |s| >= 1
    ensures s[0] == '\\' ==> n > 2 && s[1] != '\n'
    ensures s[0] == '\'' ==> n == 1 || (n > 2 && s[1] == '\'')
    ensures s[0] != '\\' && s[0] != '\'' ==> n > 1
  {
    if n > 1 { assert s[..n - 1][0] == s[0]; }
    if n > 2 { assert s[..n - 1][1] == s[1]; }
  }

  ghost predicate Longest(s: string, n: nat) { LiteralOf(s, n) && forall m: nat :: m > n ==> !LiteralOf(s, m) }

  lemma LongestBehind(s: string, k: nat, n: nat)
    requires 1 <= k <= 2 && k <= |s| && (k == 2 <==> s[0] == '\\' || s[0] == '\'')
    requires k == 2 ==> if s[0] == '\\' then s[1] != '\n' else s[1] == '\''
    requires Longest(s[k..], n)
    ensures Longest(s, n + k)
  {
    Behind(s, k, n + k);
    forall m: nat | m > n + k ensures !LiteralOf(s, m) {
      if m <= |s| { Behind(s, k, m); }
    }
  }

  lemma {:induction false} LiteralLengthExact(s: string)
    ensures match LiteralLength(s)
            case None => forall n: nat :: !LiteralOf(s, n)
            case Some(n) => Longest(s, n)
    decreases |s|
  {
    if s == "" {
    } else if s[0] == '\\' || s[0] == '\'' {
      if |s| >= 2 { LiteralLengthExact(s[2..]); }
      EscapeFirst(s);
    } else {
      LiteralLengthExact(s[1..]);
      if LiteralLength(s[1..]).Some? { LongestBehind(s, 1, LiteralLength(s[1..]).value); }
      forall n: nat | LiteralOf(s, n) ensures LiteralOf(s[1..], n - 1) {
        NotInItem(s, n);
        Behind(s, 1, n);
      }
    }
  }

  lemma EscapeFirst(s: string)
    requires s != "" && (s[0] == '\\' || s[0] == '\'')
    requires |s| >= 2 ==>
      match LiteralLength(s[2..])
      case None => forall n: nat :: !LiteralOf(s[2..], n)
      case Some(n) => Longest(s[2..], n)
    ensures match LiteralLength(s)
            case None => forall n: nat :: !LiteralOf(s, n)
            case Some(n) => Longest(s, n)
  {
    var item := |s| >= 2 && if s[0] == '\\' then s[1] != '\n' else s[1] == '\'';
    if item && LiteralLength(s[2..]).Some? {
      LongestBehind(s, 2, LiteralLength(s[2..]).value);
    } else {
      if s[0] == '\'' { assert LiteralOf(s, 1); }
      forall n: nat | LiteralOf(s, n) ensures n == 1 && s[0] == '\'' {
        NotInItem(s, n);
        if n > 1 { Behind(s, 2, n); }
      }
    }
  }

  // A string literal is the longest text that the grammar allows between quotes; a quote that
  // no such text follows is none.
  lemma LiteralExact(s: string, n: nat)
    requires n > 0
    ensures LiteralMatch(s) == n <==> s != "" && s[0] == '\'' && n > 1 && Longest(s[1..], n - 1)
  {
    if s != "" && s[0] == '\'' {
      LiteralLengthExact(s[1..]);
    }
  }

  // What is matched goes, and a blank, or a stand-in for the literal, takes its place.
  lemma MatchGoes(t: string, x: string)
    requires t != ""
    ensures BlockMatch(t + x) == |t| ==> StripBlocks(t + x) == " " + StripBlocks(x)
    ensures LineMatch(t + x) == |t| ==> StripLines(t + x) == " " + StripLines(x)
    ensures LiteralMatch(t + x) == |t| ==> StripLiterals(t + x) == " '_' " + StripLiterals(x)
  {
    assert (t + x)[|t|..] == x;
  }
}
