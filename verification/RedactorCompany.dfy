/** Which secrets stay hidden whatever else is registered beside them. */
module RedactorCompany {
  import opened Redactor

  lemma {:induction false} ReplaceAbsent(s: string, w: string, ph: string)
    requires w != "" && !Occurs(w, s)
    ensures Replace(s, w, ph) == s
  {
    if s != "" {
      ReplaceAbsent(s[1..], w, ph);
      assert s == [s[0]] + s[1..];
    }
  }

  // ------------------------------------------------------------ one character and no placeholder

  lemma SingleOccurs(w: string, s: string)
    requires |w| == 1
    ensures Occurs(w, s) <==> w[0] in s
  {
    if s != "" {
      SingleOccurs(w, s[1..]);
      assert s == [s[0]] + s[1..];
    }
  }

  lemma {:induction false} SpreadNothing(s: string)
    ensures Spread(s, "") == s
  {
    if s != "" {
      SpreadNothing(s[1..]);
      assert s == [s[0]] + s[1..];
    }
  }

  lemma {:induction false} ReplaceRemoves(s: string, v: string, c: char)
    requires v != "" && c in Replace(s, v, "")
    ensures c in s
    decreases |s|
  {
    if v <= s {
      ReplaceRemoves(s[|v|..], v, c);
    } else if c != s[0] {
      ReplaceRemoves(s[1..], v, c);
    }
  }

  // With an empty placeholder nothing new ever appears.
  lemma RedactOneRemoves(s: string, v: string, c: char)
    requires c in RedactOne(s, v, "")
    ensures c in s
  {
    if v == "" { SpreadNothing(s); } else if Occurs(v, s) { ReplaceRemoves(s, v, c); }
  }

  lemma {:induction false} SingleGone(order: seq<string>, s: string, w: string)
    requires w in order && |w| == 1
    ensures !Occurs(w, RedactAll(order, s, ""))
  {
    var n := |order| - 1;
    var before := RedactAll(order[..n], s, "");
    if order[n] == w {
      SealedGone(before, w, "");
    } else {
      SingleGone(order[..n], s, w);
      SingleOccurs(w, before);
      SingleOccurs(w, RedactAll(order, s, ""));
      if w[0] in RedactAll(order, s, "") { RedactOneRemoves(before, order[n], w[0]); }
    }
  }

  // ------------------------------------------------------------ company that gives a secret away

  function Repeat(c: char, n: nat): (s: string)
    ensures |s| == n && forall i :: 0 <= i < n ==> s[i] == c
  {
    if n == 0 then "" else [c] + Repeat(c, n - 1)
  }

  // Two characters of which neither ends `w`, and the second does not start it.
  predicate Separates(w: string, e: char, c: char) {
    w != "" && e != c && e != w[|w| - 1] && c != w[|w| - 1] && c != w[0]
  }

  lemma Separators(w: string) returns (e: char, c: char)
    requires w != ""
    ensures Separates(w, e, c)
  {
    var last, first := w[|w| - 1], w[0];
    c := if 'a' != last && 'a' != first then 'a' else if 'b' != last && 'b' != first then 'b' else 'c';
    e := if 'd' != last then 'd' else 'e';
  }

  function Separator(w: string, e: char, c: char): string { [e] + Repeat(c, |w|) }

  // Between parts shorter than `w` the separator leaves no room for a copy of it.
  lemma NoCopyAt(w: string, e: char, c: char, u: string, y: string, p: nat)
    requires Separates(w, e, c) && |u| < |w| && |y| < |w| && p <= |u + (Separator(w, e, c) + y)|
    ensures !(w <= (u + (Separator(w, e, c) + y))[p..])
  {
  }

  lemma NoCopy(w: string, e: char, c: char, u: string, y: string)
    requires Separates(w, e, c) && |u| < |w| && |y| < |w|
    ensures !Occurs(w, u + (Separator(w, e, c) + y))
  {
    var t := u + (Separator(w, e, c) + y);
    if Occurs(w, t) { NoCopyAt(w, e, c, u, y, Place(w, t)); }
  }

  lemma SeparatorFirst(w: string, e: char, c: char, u: string, y: string, j: nat)
    requires Separates(w, e, c) && j < |u| < |w|
    ensures !(Separator(w, e, c) <= (u + (Separator(w, e, c) + y))[j..])
  {
    var v := Separator(w, e, c);
    var t := u + (v + y);
    assert t[j..][|u| - j] == t[|u|] == e && v[|u| - j] == c;
  }

  lemma SeparatorReplaced(w: string, e: char, c: char, u: string, y: string, ph: string)
    requires Separates(w, e, c) && |u| < |w| && |y| < |w|
    ensures var v := Separator(w, e, c);
            Occurs(v, u + (v + y)) && Replace(u + (v + y), v, ph) == u + (ph + y)
  {
    var v := Separator(w, e, c);
    var t := u + (v + y);
    assert t[|u|..] == v + y;
    OccursAt(v, t, |u|);
    forall j | 0 <= j < |u| ensures !(v <= t[j..]) { SeparatorFirst(w, e, c, u, y, j); }
    KeptThen(u, v + y, v, ph);
    ReplaceFirst(v, y, ph);
  }

  lemma RedactTwo(w: string, v: string, s: string, ph: string)
    ensures RedactAll([w, v], s, ph) == RedactOne(RedactOne(s, w, ph), v, ph)
    ensures RedactAll([w], s, ph) == RedactOne(s, w, ph)
  {
    assert [w, v][..1] == [w] && [w][..0] == [];
    assert RedactAll([w], s, ph) == RedactOne(RedactAll([], s, ph), w, ph);
  }

  // Where a placeholder between two parts of `w` makes a copy of it.
  predicate Bridges(w: string, ph: string, k: nat, y: string) {
    0 < k < |w| && ((w[k..] <= ph && y == "") || (ph <= w[k..] && y == w[k + |ph|..]))
  }

  lemma FindBridge(w: string, ph: string) returns (k: nat, y: string)
    requires w != "" && Sealed(w, ph) && !Clear(w, ph) && !(ph == "" && |w| == 1)
    ensures Bridges(w, ph, k, y)
  {
    assert w[0..] == w && ph[0..] == ph;
    if ph == "" {
      k := 1;
    } else {
      k :| 0 <= k < |w| && (w[k..] <= ph || ph <= w[k..]);
      assert k != 0;
    }
    y := if w[k..] <= ph then "" else w[k + |ph|..];
  }

  // The secret itself is not in the text; another one is, and its placeholder makes a copy.
  lemma GivenAway(w: string, ph: string) returns (order: seq<string>, s: string)
    requires w != "" && Sealed(w, ph) && !Clear(w, ph) && !(ph == "" && |w| == 1)
    ensures w in order && Occurs(w, RedactAll(order, s, ph))
  {
    var k, y := FindBridge(w, ph);
    var e, c := Separators(w);
    var u, v := w[..k], Separator(w, e, c);
    s, order := u + (v + y), [w, v];
    NoCopy(w, e, c, u, y);
    SeparatorReplaced(w, e, c, u, y, ph);
    ShowsAround(w, k, y, ph);
    RedactTwo(w, v, s, ph);
  }

  lemma ShownAlone(w: string, ph: string) returns (order: seq<string>, s: string)
    requires w != "" && !Sealed(w, ph)
    ensures w in order && Occurs(w, RedactAll(order, s, ph))
  {
    s := LeakyText(w, ph);
    order := [w];
    if !Occurs(w, s) { ReplaceAbsent(s, w, ph); }
    RedactTwo(w, w, s, ph);
  }

  // ------------------------------------------------------------ the theorem

  // No text and no order of any registered strings shows the secret.
  ghost predicate Hidden(w: string, ph: string) {
    forall order, s :: w in order ==> !Occurs(w, RedactAll(order, s, ph))
  }

  // Exactly when a secret stays hidden whatever is registered beside it: it is clear of the
  // placeholder, or one character and the placeholder is empty.
  lemma HiddenIffClear(w: string, ph: string)
    requires w != ""
    ensures Hidden(w, ph) <==> Clear(w, ph) || (ph == "" && |w| == 1)
  {
    if Clear(w, ph) {
      forall order, s | w in order ensures !Occurs(w, RedactAll(order, s, ph)) { NothingLeft(order, s, ph, w); }
    } else if ph == "" && |w| == 1 {
      forall order, s | w in order ensures !Occurs(w, RedactAll(order, s, ph)) { SingleGone(order, s, w); }
    } else if Sealed(w, ph) {
      var order, s := GivenAway(w, ph);
      assert !Hidden(w, ph);
    } else {
      var order, s := ShownAlone(w, ph);
      assert !Hidden(w, ph);
    }
  }
}
