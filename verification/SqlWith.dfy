/** Finding the verb behind a WITH clause: a scan that balances parentheses. */
module SqlWith {
  import opened Options
  import opened SqlText

  // What follows the next comma; the end of the text when there is none.
  function AfterComma(s: string): string {
    if s == "" then "" else if s[0] == ',' then s[1..] else AfterComma(s[1..])
  }

  lemma AfterCommaShorter(s: string)
    ensures |AfterComma(s)| <= |s|
  {
  }

  // The scanner's answer on the rest of the text, given its depth and whether a
  // parenthesis has been opened since the last comma.
  function Scan(s: string, depth: int, sawOpen: bool): string
    decreases |s|
  {
    if s == "" then ""
    else if s[0] == '(' then Scan(s[1..], depth + 1, true)
    else if s[0] == ')' then
      if depth == 1 && sawOpen then
        if Leads(Lstrip(s[1..]), ',') then
          AfterCommaShorter(s[1..]);
          Scan(AfterComma(s[1..]), 0, false)
        else LeadingVerb(Lstrip(s[1..]))
      else Scan(s[1..], depth - 1, sawOpen)
    else Scan(s[1..], depth, sawOpen)
  }

  // Where the first non-blank character stands.
  ghost function LstripHead(s: string): (j: nat)
    requires Lstrip(s) != ""
    ensures j < |s| && s[j] == Lstrip(s)[0]
  {
    if IsSpace(s[0]) then 1 + LstripHead(s[1..]) else 0
  }

  // Where the comma stands that the text from `from` on leads with, behind blanks.
  ghost function CommaPlace(sql: string, from: nat): (k: nat)
    requires from <= |sql| && Leads(Lstrip(sql[from..]), ',')
    ensures from <= k < |sql| && sql[k] == ','
  {
    from + LstripHead(sql[from..])
  }

  function VerbAfterWithSpec(sql: string): string {
    if |sql| >= 4 && Upper(sql[..4]) == "WITH" then Scan(sql[4..], 0, false) else ""
  }

  lemma ScanAt(sql: string, i: nat, depth: int, sawOpen: bool)
    requires i < |sql|
    ensures Scan(sql[i..], depth, sawOpen) ==
            if sql[i] == '(' then Scan(sql[i + 1..], depth + 1, true)
            else if sql[i] == ')' && depth == 1 && sawOpen then
              if Leads(Lstrip(sql[i + 1..]), ',') then Scan(AfterComma(sql[i + 1..]), 0, false)
              else LeadingVerb(Lstrip(sql[i + 1..]))
            else Scan(sql[i + 1..], if sql[i] == ')' then depth - 1 else depth, sawOpen)
  {
    assert sql[i..][0] == sql[i] && sql[i..][1..] == sql[i + 1..];
  }

  lemma AfterCommaAt(sql: string, i: nat)
    requires i < |sql|
    ensures AfterComma(sql[i..]) == if sql[i] == ',' then sql[i + 1..] else AfterComma(sql[i + 1..])
  {
    assert sql[i..][0] == sql[i] && sql[i..][1..] == sql[i + 1..];
  }

  method VerbAfterWith(sql: string) returns (verb: string)
    ensures verb == VerbAfterWithSpec(sql)
  {
    if |sql| < 4 || Upper(sql[..4]) != "WITH" {
      return "";
    }
    ghost var whole := Scan(sql[4..], 0, false);
    var i, n := 4, |sql|;
    var depth := 0;
    var sawOpen := false;
    while i < n
      invariant 4 <= i <= n
      invariant whole == Scan(sql[i..], depth, sawOpen)
      decreases n - i
    {
      var ch := sql[i];
      ScanAt(sql, i, depth, sawOpen);
      if ch == '(' {
        depth := depth + 1;
        sawOpen := true;
      } else if ch == ')' {
        depth := depth - 1;
        if depth == 0 && sawOpen {
          var tail := Lstrip(sql[i + 1..]);
          if Leads(tail, ',') {
            ghost var here := i + 1;
            ghost var comma := CommaPlace(sql, here);
            ghost var rest := AfterComma(sql[here..]);
            sawOpen := false;
            i := i + 1;
            while i < n && sql[i] != ','
              invariant here <= i <= comma < n && sql[comma] == ','
              invariant rest == AfterComma(sql[i..])
            {
              AfterCommaAt(sql, i);
              i := i + 1;
            }
            AfterCommaAt(sql, i);
            i := i + 1;
            continue;
          }
          return LeadingVerb(tail);
        }
      }
      i := i + 1;
    }
    assert sql[i..] == "";
    return "";
  }

  // ------------------------------------------------------------ the WITH grammar

  predicate NoParens(s: string) { forall i :: 0 <= i < |s| ==> s[i] != '(' && s[i] != ')' }

  // Parentheses match, starting `depth` levels deep.
  predicate Balanced(s: string, depth: nat) {
    if s == "" then depth == 0
    else if s[0] == '(' then Balanced(s[1..], depth + 1)
    else if s[0] == ')' then depth > 0 && Balanced(s[1..], depth - 1)
    else Balanced(s[1..], depth)
  }

  // One common table expression: `head ( body )` or, with a column list,
  // `head ( columns ) mid ( body )` where `mid` starts with AS; then blanks before the next comma.
  datatype Cte = Cte(head: string, columns: Option<string>, mid: string, body: string, gap: string)

  predicate WellFormed(c: Cte) {
    && NoParens(c.head) && Balanced(c.body, 0) && Blank(c.gap)
    && (c.columns.Some? ==> Balanced(c.columns.value, 0) && LeadingVerb(c.mid) == "AS")
  }

  // What stands in the first pair of parentheses, and what follows it.
  function FirstPair(c: Cte): string { if c.columns.Some? then c.columns.value else c.body }

  function AfterPair(c: Cte): string { if c.columns.Some? then c.mid + ("(" + c.body + ")") else "" }

  function Open(c: Cte): string { c.head + "(" + FirstPair(c) + ")" + AfterPair(c) }

  // The text after the word WITH: the expressions separated by commas, then the main query.
  function Text(ctes: seq<Cte>, query: string): string
    requires ctes != []
  {
    if |ctes| == 1 then Open(ctes[0]) + query
    else Open(ctes[0]) + (ctes[0].gap + "," + Text(ctes[1..], query))
  }

  lemma {:induction false} ScanHead(head: string, rest: string)
    requires NoParens(head)
    ensures Scan(head + rest, 0, false) == Scan(rest, 0, false)
  {
    if head == "" {
      assert head + rest == rest;
    } else {
      ScanHead(head[1..], rest);
      assert (head + rest)[1..] == head[1..] + rest;
    }
  }

  lemma {:induction false} ScanBody(body: string, depth: nat, rest: string)
    requires Balanced(body, depth)
    ensures Scan(body + (")" + rest), depth + 1, true) == Scan(")" + rest, 1, true)
  {
    var x := ")" + rest;
    if body == "" {
      assert body + x == x;
    } else {
      assert (body + x)[1..] == body[1..] + x && (body + x)[0] == body[0];
      if body[0] == '(' { ScanBody(body[1..], depth + 1, rest); }
      else if body[0] == ')' { ScanBody(body[1..], depth - 1, rest); }
      else { ScanBody(body[1..], depth, rest); }
    }
  }

  lemma Opened(head: string, pair: string, after: string, rest: string)
    ensures head + "(" + pair + ")" + after + rest == head + ("(" + (pair + (")" + (after + rest))))
  {
  }

  lemma ScanOpen(c: Cte, rest: string)
    requires WellFormed(c)
    ensures Scan(Open(c) + rest, 0, false) == Scan(")" + (AfterPair(c) + rest), 1, true)
  {
    var y := AfterPair(c) + rest;
    var x := FirstPair(c) + (")" + y);
    Opened(c.head, FirstPair(c), AfterPair(c), rest);
    ScanHead(c.head, "(" + x);
    assert ("(" + x)[1..] == x;
    ScanBody(FirstPair(c), 0, y);
  }

  // A word is not changed by a parenthesis behind it.
  lemma {:induction false} LettersStop(s: string, x: string)
    requires x != "" && !IsLetter(x[0])
    ensures Letters(s + x) == Letters(s)
  {
    if s == "" {
      assert s + x == x;
    } else {
      LettersStop(s[1..], x);
      assert (s + x)[1..] == s[1..] + x;
    }
  }

  lemma {:induction false} LstripStop(s: string, x: string)
    requires Lstrip(s) != ""
    ensures Lstrip(s + x) == Lstrip(s) + x
  {
    if IsSpace(s[0]) {
      LstripStop(s[1..], x);
      assert (s + x)[1..] == s[1..] + x;
    }
  }

  lemma NonEmptyVerb(s: string)
    requires LeadingVerb(s) != ""
    ensures Lstrip(s) != "" && IsLetter(Lstrip(s)[0])
  {
  }

  // The scan stops behind a column list: the next word is AS.
  lemma StopsAtColumns(c: Cte, rest: string)
    requires WellFormed(c) && c.columns.Some?
    ensures Scan(Open(c) + rest, 0, false) == "AS"
  {
    var x := "(" + c.body + ")" + rest;
    var y := AfterPair(c) + rest;
    ScanOpen(c, rest);
    assert y == c.mid + x;
    assert (")" + y)[1..] == y;
    NonEmptyVerb(c.mid);
    LstripStop(c.mid, x);
    LstripTwice(y);
    LettersStop(Lstrip(c.mid), x);
  }

  lemma {:induction false} GapComma(gap: string, rest: string)
    requires Blank(gap)
    ensures Leads(Lstrip(gap + ("," + rest)), ',') && AfterComma(gap + ("," + rest)) == rest
  {
    var x := "," + rest;
    if gap == "" {
      assert gap + x == x && x[1..] == rest;
    } else {
      GapComma(gap[1..], rest);
      assert (gap + x)[1..] == gap[1..] + x && (gap + x)[0] == gap[0];
    }
  }

  predicate AnyColumns(ctes: seq<Cte>) { exists i :: 0 <= i < |ctes| && ctes[i].columns.Some? }

  // On every well-formed list of common table expressions, however deep the parentheses inside
  // the bodies go: the verb of the main query, or AS once there is a column list anywhere.
  lemma {:induction false} ScansList(ctes: seq<Cte>, query: string)
    requires ctes != [] && forall i :: 0 <= i < |ctes| ==> WellFormed(ctes[i])
    requires !Leads(Lstrip(query), ',')
    ensures Scan(Text(ctes, query), 0, false) == if AnyColumns(ctes) then "AS" else LeadingVerb(query)
  {
    var c := ctes[0];
    var more := if |ctes| == 1 then query else c.gap + "," + Text(ctes[1..], query);
    if |ctes| > 1 { assert more == c.gap + ("," + Text(ctes[1..], query)); }
    assert Text(ctes, query) == Open(c) + more;
    if c.columns.Some? {
      StopsAtColumns(c, more);
    } else {
      ScanOpen(c, more);
      assert AfterPair(c) + more == more && (")" + more)[1..] == more;
      if |ctes| == 1 {
        LstripTwice(query);
      } else {
        GapComma(c.gap, Text(ctes[1..], query));
        ScansList(ctes[1..], query);
        ColumnsLater(ctes);
      }
    }
  }

  lemma ColumnsLater(ctes: seq<Cte>)
    requires |ctes| > 1 && ctes[0].columns.None?
    ensures AnyColumns(ctes) <==> AnyColumns(ctes[1..])
  {
    if AnyColumns(ctes[1..]) {
      var i :| 0 <= i < |ctes[1..]| && ctes[1..][i].columns.Some?;
      assert ctes[i + 1].columns.Some?;
    }
    if AnyColumns(ctes) {
      var i :| 0 <= i < |ctes| && ctes[i].columns.Some?;
      assert ctes[1..][i - 1].columns.Some?;
    }
  }

  // From `depth` levels deep, the parentheses never all close again.
  predicate StaysOpen(s: string, depth: nat) {
    if s == "" then true
    else if s[0] == '(' then StaysOpen(s[1..], depth + 1)
    else if s[0] == ')' then depth > 1 && StaysOpen(s[1..], depth - 1)
    else StaysOpen(s[1..], depth)
  }

  // Then the verb is undetermined, which the classifier treats as unknown.
  lemma {:induction false} NeverCloses(s: string, depth: nat)
    requires depth >= 1 && StaysOpen(s, depth)
    ensures Scan(s, depth, true) == ""
  {
    if s != "" { NeverCloses(s[1..], if s[0] == '(' then depth + 1 else if s[0] == ')' then depth - 1 else depth); }
  }

  // From `depth`, which is not above zero, the text never opens a pair that it could close.
  predicate StaysShut(s: string, depth: int) {
    if s == "" then true
    else
      var d := if s[0] == '(' then depth + 1 else if s[0] == ')' then depth - 1 else depth;
      d <= 0 && StaysShut(s[1..], d)
  }

  lemma {:induction false} NeverOpens(s: string, depth: int, sawOpen: bool)
    requires depth <= 0 && StaysShut(s, depth)
    ensures Scan(s, depth, sawOpen) == ""
  {
    if s != "" {
      NeverOpens(s[1..], if s[0] == '(' then depth + 1 else if s[0] == ')' then depth - 1 else depth,
                 sawOpen || s[0] == '(');
    }
  }

  // A closing parenthesis too many is never made up for: the bodies behind it do not count.
  lemma StrayCloser(word: string, head: string, rest: string)
    requires |word| == 4 && Upper(word) == "WITH" && NoParens(head) && StaysShut(rest, -1)
    ensures VerbAfterWithSpec(word + (head + (")" + rest))) == ""
  {
    var sql, t := word + (head + (")" + rest)), ")" + rest;
    assert sql[..4] == word && sql[4..] == head + t;
    ScanHead(head, t);
    assert t[1..] == rest;
    NeverOpens(rest, -1, false);
  }

  lemma LstripTwice(s: string)
    ensures Lstrip(Lstrip(s)) == Lstrip(s)
  {
    LstripBlank(s);
  }

  lemma WithAnswers(word: string, ctes: seq<Cte>, query: string)
    requires |word| == 4 && Upper(word) == "WITH"
    requires ctes != [] && forall i :: 0 <= i < |ctes| ==> WellFormed(ctes[i])
    requires !Leads(Lstrip(query), ',')
    ensures VerbAfterWithSpec(word + Text(ctes, query)) == if AnyColumns(ctes) then "AS" else LeadingVerb(query)
  {
    var sql := word + Text(ctes, query);
    assert sql[..4] == word && sql[4..] == Text(ctes, query);
    ScansList(ctes, query);
  }

  // The answer is the main query's verb exactly when no expression has a column list.
  lemma RightIffNoColumns(word: string, ctes: seq<Cte>, query: string)
    requires |word| == 4 && Upper(word) == "WITH"
    requires ctes != [] && forall i :: 0 <= i < |ctes| ==> WellFormed(ctes[i])
    requires !Leads(Lstrip(query), ',') && LeadingVerb(query) != "AS"
    ensures VerbAfterWithSpec(word + Text(ctes, query)) == LeadingVerb(query) <==> !AnyColumns(ctes)
  {
    WithAnswers(word, ctes, query);
  }
}
