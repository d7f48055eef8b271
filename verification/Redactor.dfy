/** The exact-string pass of the secret redactor. */
module Redactor {
  import opened Options

  predicate Occurs(w: string, s: string) {
    w <= s || (s != "" && Occurs(w, s[1..]))
  }

  // Python's `str.replace` for a non-empty `secret`: leftmost occurrences first, never overlapping.
  function Replace(s: string, secret: string, ph: string): string
    requires secret != ""
  {
    if s == "" then ""
    else if secret <= s then ph + Replace(s[|secret|..], secret, ph)
    else [s[0]] + Replace(s[1..], secret, ph)
  }

  // No copy of `w` can touch a placeholder: `w` lies in no placeholder, no placeholder lies in
  // `w`, and no end of one is a beginning of the other.
  ghost predicate Clear(w: string, ph: string) {
    && !Occurs(w, ph)
    && (forall k :: 0 <= k < |w| ==> !(w[k..] <= ph))
    && (forall k :: 0 <= k < |w| ==> !(ph <= w[k..]))
    && (forall k :: 0 <= k < |ph| ==> !(ph[k..] <= w))
  }

  lemma OccursAt(w: string, s: string, k: nat)
    requires k <= |s| && w <= s[k..]
    ensures Occurs(w, s)
  {
    if k > 0 {
      assert s[k..] == s[1..][k - 1..];
      OccursAt(w, s[1..], k - 1);
    }
  }

  ghost function Place(w: string, s: string): (k: nat)
    requires Occurs(w, s)
    ensures k <= |s| && w <= s[k..]
  {
    if w <= s then 0 else
      var k := 1 + Place(w, s[1..]);
      assert s[k..] == s[1..][k - 1..];
      k
  }

  lemma OccursLater(w: string, s: string, k: nat)
    requires k <= |s| && Occurs(w, s[k..])
    ensures Occurs(w, s)
  {
    var j := Place(w, s[k..]);
    assert s[k..][j..] == s[k + j..];
    OccursAt(w, s, k + j);
  }

  // A non-empty rest w[k..] that starts the output was already at the start of the input.
  lemma {:induction false} KeptPrefix(s: string, secret: string, ph: string, w: string, k: nat)
    requires secret != "" && Clear(w, ph) && k <= |w| && w[k..] <= Replace(s, secret, ph)
    ensures w[k..] <= s
    decreases |s|
  {
    if k < |w| && s != "" && !(secret <= s) {
      var u, r := w[k..], Replace(s[1..], secret, ph);
      assert u[1..] == w[k + 1..] && r == ([s[0]] + r)[1..];
      KeptPrefix(s[1..], secret, ph, w, k + 1);
      assert s == [s[0]] + s[1..] && u == [u[0]] + u[1..];
    }
  }

  // Replacing one secret never creates a copy of a clear word.
  lemma {:induction false} NothingAppears(s: string, secret: string, ph: string, w: string)
    requires secret != "" && w != "" && Clear(w, ph) && Occurs(w, Replace(s, secret, ph))
    ensures Occurs(w, s)
    decreases |s|
  {
    var out := Replace(s, secret, ph);
    if w <= out {
      assert w[0..] == w;
      KeptPrefix(s, secret, ph, w, 0);
    } else if secret <= s {
      var r := Replace(s[|secret|..], secret, ph);
      var p := Place(w, out);
      if p < |ph| { TouchesPlaceholder(w, ph, r, p); }
      assert out[p..] == r[p - |ph|..];
      OccursAt(w, r, p - |ph|);
      NothingAppears(s[|secret|..], secret, ph, w);
      OccursLater(w, s, |secret|);
    } else {
      assert out[1..] == Replace(s[1..], secret, ph);
      NothingAppears(s[1..], secret, ph, w);
    }
  }

  // A copy of `w` that starts inside the placeholder cannot be there.
  lemma TouchesPlaceholder(w: string, ph: string, r: string, p: nat)
    requires w != "" && p < |ph| && w <= (ph + r)[p..]
    ensures Occurs(w, ph) || ph[p..] <= w
  {
    var u := (ph + r)[p..];
    assert u == ph[p..] + r;
    if |w| <= |ph[p..]| {
      assert w == u[..|w|] == ph[p..][..|w|];
      OccursAt(w, ph, p);
    } else {
      assert ph[p..] == u[..|ph[p..]|] == w[..|ph[p..]|];
    }
  }

  // ------------------------------------------------------------ exactly which placeholders are safe

  // No copy of `w` starts in the first k characters when they stand in front of a whole one, so
  // that `str.replace` keeps them and replaces the whole one.
  ghost predicate Apart(w: string, k: nat)
    requires k <= |w|
  {
    forall j :: 0 <= j < k ==> !(w <= (w[..k] + w)[j..])
  }

  // No copy of `w` can be made of a placeholder and the text that is kept around it.
  ghost predicate Sealed(w: string, ph: string) {
    && !Occurs(w, ph)
    && (forall i :: 0 <= i < |ph| ==> !(ph[i..] <= w))
    && (forall k :: 0 < k < |w| && Apart(w, k) ==> !(w[k..] <= ph) && !(ph <= w[k..]))
  }

  lemma ClearIsSealed(w: string, ph: string)
    requires Clear(w, ph)
    ensures Sealed(w, ph)
  {
  }

  lemma CutFront(w: string, k: nat, s: string, j: nat)
    requires j < k <= |w| && w <= s
    ensures w <= (w[..k] + w)[j..] ==> w <= (w[..k] + s)[j..]
  {
    assert (w[..k] + s)[j..] == (w[..k] + w)[j..] + s[|w|..];
  }

  lemma FirstPart(u: string, ph: string, r: string)
    requires u <= ph + r
    ensures u <= ph || ph <= u
  {
    if |u| <= |ph| { assert u == (ph + r)[..|u|] == ph[..|u|]; } else { assert ph == (ph + r)[..|ph|] == u[..|ph|]; }
  }

  lemma WholeWord(w: string, s: string)
    ensures w <= (w[..|w|] + s)[0..]
  {
  }

  lemma OneMore(w: string, k: nat, s: string, r: string)
    requires k < |w| && s != "" && w[k..] <= [s[0]] + r
    ensures w[..k + 1] + s[1..] == w[..k] + s && (w[..k] + s)[k..] == s && w[k + 1..] <= r
  {
    assert w[k..][0] == w[k] && w[k] == ([s[0]] + r)[0];
    assert w[k..][1..] == w[k + 1..] && ([s[0]] + r)[1..] == r;
  }

  // The first k characters of a copy of `w` were kept. Then its rest does not start the output.
  lemma {:induction false} KeptFront(s: string, w: string, ph: string, k: nat)
    requires w != "" && Sealed(w, ph) && 0 < k <= |w|
    requires forall j :: 0 <= j < k ==> !(w <= (w[..k] + s)[j..])
    ensures !(w[k..] <= Replace(s, w, ph))
    decreases |s|
  {
    if k == |w| {
      WholeWord(w, s);
    } else if s != "" && w <= s {
      forall j | 0 <= j < k ensures !(w <= (w[..k] + w)[j..]) { CutFront(w, k, s, j); }
      if w[k..] <= Replace(s, w, ph) { FirstPart(w[k..], ph, Replace(s[|w|..], w, ph)); }
    } else if s != "" && w[k..] <= Replace(s, w, ph) {
      OneMore(w, k, s, Replace(s[1..], w, ph));
      KeptFront(s[1..], w, ph, k + 1);
    }
  }

  // The replaced secret itself is gone.
  lemma {:induction false} SealedGone(s: string, w: string, ph: string)
    requires w != "" && Sealed(w, ph)
    ensures !Occurs(w, Replace(s, w, ph))
    decreases |s|
  {
    var out := Replace(s, w, ph);
    if Occurs(w, out) && s != "" {
      var p := Place(w, out);
      if w <= s {
        var r := Replace(s[|w|..], w, ph);
        if p < |ph| { TouchesPlaceholder(w, ph, r, p); }
        assert out[p..] == r[p - |ph|..];
        OccursAt(w, r, p - |ph|);
        SealedGone(s[|w|..], w, ph);
      } else if p == 0 {
        FrontStays(s, w, ph);
      } else {
        assert out[1..] == Replace(s[1..], w, ph) && out[p..] == out[1..][p - 1..];
        OccursAt(w, out[1..], p - 1);
        SealedGone(s[1..], w, ph);
      }
    }
  }

  lemma FrontStays(s: string, w: string, ph: string)
    requires w != "" && Sealed(w, ph) && s != "" && !(w <= s)
    ensures !(w <= Replace(s, w, ph))
  {
    var r := Replace(s[1..], w, ph);
    if w <= [s[0]] + r {
      assert w[0..] == w && w[..0] + s == s && s[0..] == s;
      OneMore(w, 0, s, r);
      KeptFront(s[1..], w, ph, 1);
    }
  }

  lemma SecretGone(s: string, secret: string, ph: string)
    requires secret != "" && Clear(secret, ph)
    ensures !Occurs(secret, Replace(s, secret, ph))
  {
    ClearIsSealed(secret, ph);
    SealedGone(s, secret, ph);
  }

  lemma {:induction false} ReplaceShort(y: string, w: string, ph: string)
    requires |y| < |w|
    ensures Replace(y, w, ph) == y
  {
    if y != "" {
      ReplaceShort(y[1..], w, ph);
      assert y == [y[0]] + y[1..];
    }
  }

  lemma ReplaceFirst(w: string, y: string, ph: string)
    requires w != "" && |y| < |w|
    ensures Replace(w + y, w, ph) == ph + y
  {
    assert (w + y)[|w|..] == y;
    ReplaceShort(y, w, ph);
  }

  lemma {:induction false} KeptThen(x: string, t: string, w: string, ph: string)
    requires w != "" && forall j :: 0 <= j < |x| ==> !(w <= (x + t)[j..])
    ensures Replace(x + t, w, ph) == x + Replace(t, w, ph)
  {
    if x == "" {
      assert x + t == t;
    } else {
      var s := x + t;
      assert s[0..] == s && s[1..] == x[1..] + t;
      forall j | 0 <= j < |x[1..]| ensures !(w <= (x[1..] + t)[j..]) { assert (x[1..] + t)[j..] == s[j + 1..]; }
      KeptThen(x[1..], t, w, ph);
      assert x == [x[0]] + x[1..];
    }
  }

  // A whole copy of `w` between kept text.
  lemma LeaksAround(w: string, k: nat, y: string, ph: string)
    requires w != "" && k < |w| && Apart(w, k) && |y| < |w|
    ensures Replace(w[..k] + (w + y), w, ph) == w[..k] + (ph + y)
  {
    forall j | 0 <= j < |w[..k]| ensures !(w <= (w[..k] + (w + y))[j..]) {
      assert (w[..k] + (w + y))[j..] == (w[..k] + w)[j..] + y;
    }
    KeptThen(w[..k], w + y, w, ph);
    ReplaceFirst(w, y, ph);
  }

  // A text that still shows the secret after replacement.
  lemma LeakyText(w: string, ph: string) returns (s: string)
    requires w != "" && !Sealed(w, ph)
    ensures Occurs(w, Replace(s, w, ph))
  {
    if Occurs(w, ph) {
      s := w;
      ReplaceFirst(w, "", ph);
      assert w + "" == w && ph + "" == ph;
    } else if i :| 0 <= i < |ph| && ph[i..] <= w {
      var y := w[|ph| - i..];
      s := w + y;
      ReplaceFirst(w, y, ph);
      assert (ph + y)[i..] == ph[i..] + y == w;
      OccursAt(w, ph + y, i);
    } else {
      var k :| 0 < k < |w| && Apart(w, k) && (w[k..] <= ph || ph <= w[k..]);
      var y := if w[k..] <= ph then "" else w[k + |ph|..];
      s := w[..k] + (w + y);
      LeaksAround(w, k, y, ph);
      ShowsAround(w, k, y, ph);
    }
  }

  lemma ShowsAround(w: string, k: nat, y: string, ph: string)
    requires k < |w| && ((w[k..] <= ph && y == "") || (ph <= w[k..] && y == w[k + |ph|..]))
    ensures Occurs(w, w[..k] + (ph + y))
  {
    assert w == w[..k] + w[k..];
    if ph <= w[k..] { assert w[k..] == ph + w[k..][|ph|..]; }
    assert w[k..] <= ph + y;
    assert w <= w[..k] + (ph + y);
  }

  predicate Shows(w: string, s: string, ph: string)
    requires w != ""
  {
    Occurs(w, Replace(s, w, ph))
  }

  // Exactly which placeholders keep a secret out of every output, whatever the two look like.
  lemma SafeIffSealed(w: string, ph: string)
    requires w != ""
    ensures (forall s :: !Shows(w, s, ph)) <==> Sealed(w, ph)
  {
    if Sealed(w, ph) {
      forall s ensures !Shows(w, s, ph) { SealedGone(s, w, ph); }
    } else {
      var s := LeakyText(w, ph);
      assert Shows(w, s, ph);
    }
  }

  // No proper end of `w` is a beginning of `w`.
  ghost predicate Unbordered(w: string) {
    forall k :: 0 < k < |w| ==> !(w[k..] <= w)
  }

  // Two overlapping copies of a word make one of its ends a beginning of it.
  lemma CopiesOverlap(w: string, k: nat, j: nat)
    requires j < k < |w| && w <= (w[..k] + w)[j..]
    ensures w[k - j..] <= w
  {
    var t := w[..k] + w;
    var d := k - j;
    assert t[k..] == w && t[j..][..|w|] == w;
    assert w[d..] == t[j..][d..|w|] == t[k..][..|w| - d] == w[..|w| - d];
  }

  // For an unbordered secret and a placeholder that is not empty, clear is all it takes.
  lemma SafeIffClear(w: string, ph: string)
    requires w != "" && ph != "" && Unbordered(w)
    ensures (forall s :: !Shows(w, s, ph)) <==> Clear(w, ph)
  {
    SafeIffSealed(w, ph);
    forall k | 0 < k < |w| ensures Apart(w, k) {
      forall j | 0 <= j < k ensures !(w <= (w[..k] + w)[j..]) {
        if w <= (w[..k] + w)[j..] { CopiesOverlap(w, k, j); }
      }
    }
    if Sealed(w, ph) { SealedIsClear(w, ph); } else if Clear(w, ph) { ClearIsSealed(w, ph); }
  }

  lemma SealedIsClear(w: string, ph: string)
    requires w != "" && ph != "" && Sealed(w, ph) && forall k :: 0 < k < |w| ==> Apart(w, k)
    ensures Clear(w, ph)
  {
    assert w[0..] == w && ph[0..] == ph;
  }

  // `str.replace` with an empty pattern puts the placeholder around every character.
  function Spread(s: string, ph: string): string {
    if s == "" then ph else ph + ([s[0]] + Spread(s[1..], ph))
  }

  lemma {:induction false} NothingAppearsSpread(s: string, ph: string, w: string)
    requires w != "" && Clear(w, ph) && Occurs(w, Spread(s, ph))
    ensures Occurs(w, s)
  {
    var out := Spread(s, ph);
    var rest := if s == "" then "" else [s[0]] + Spread(s[1..], ph);
    var p := Place(w, out);
    assert out == ph + rest;
    if p < |ph| { TouchesPlaceholder(w, ph, rest, p); }
    assert out[p..] == rest[p - |ph|..];
    if s != "" {
      var tail := Spread(s[1..], ph);
      assert rest[1..] == tail;
      if p == |ph| {
        SpreadStart(s[1..], ph, w[1..]);
        assert w <= rest && w[1..] <= tail;
        assert w == [s[0]];
      } else {
        assert rest[p - |ph|..] == tail[p - |ph| - 1..];
        OccursAt(w, tail, p - |ph| - 1);
        NothingAppearsSpread(s[1..], ph, w);
      }
    }
  }

  lemma SpreadStart(s: string, ph: string, u: string)
    ensures u <= Spread(s, ph) ==> u <= ph || ph <= u
  {
    var out := Spread(s, ph);
    assert out[..|ph|] == ph;
    if u <= out {
      if |u| <= |ph| { assert u == out[..|u|] == ph[..|u|]; } else { assert ph == out[..|ph|] == u[..|ph|]; }
    }
  }

  // ------------------------------------------------------------ the whole pass

  function RedactOne(s: string, secret: string, ph: string): string {
    if secret == "" then Spread(s, ph) else if Occurs(secret, s) then Replace(s, secret, ph) else s
  }

  lemma NothingAppearsInOne(s: string, secret: string, ph: string, w: string)
    requires w != "" && Clear(w, ph) && Occurs(w, RedactOne(s, secret, ph))
    ensures Occurs(w, s)
  {
    if secret == "" { NothingAppearsSpread(s, ph, w); } else if Occurs(secret, s) { NothingAppears(s, secret, ph, w); }
  }

  // One pass over the secrets in the order given.
  function RedactAll(order: seq<string>, s: string, ph: string): string {
    if order == [] then s else RedactOne(RedactAll(order[..|order| - 1], s, ph), order[|order| - 1], ph)
  }

  // What is absent stays absent, so no later replacement brings back an earlier secret.
  lemma {:induction false} StaysAbsent(order: seq<string>, s: string, ph: string, w: string)
    requires w != "" && Clear(w, ph) && !Occurs(w, s)
    ensures !Occurs(w, RedactAll(order, s, ph))
  {
    if order != [] {
      var n := |order| - 1;
      StaysAbsent(order[..n], s, ph, w);
      if Occurs(w, RedactAll(order, s, ph)) { NothingAppearsInOne(RedactAll(order[..n], s, ph), order[n], ph, w); }
    }
  }

  // Whatever the order, no clear secret is left.
  lemma {:induction false} NothingLeft(order: seq<string>, s: string, ph: string, w: string)
    requires w in order && w != "" && Clear(w, ph)
    ensures !Occurs(w, RedactAll(order, s, ph))
  {
    var n := |order| - 1;
    var before := RedactAll(order[..n], s, ph);
    if order[n] == w {
      SecretGone(before, w, ph);
    } else {
      NothingLeft(order[..n], s, ph, w);
      if Occurs(w, RedactAll(order, s, ph)) { NothingAppearsInOne(before, order[n], ph, w); }
    }
  }

  // A second pass, in any other order, changes nothing.
  lemma {:induction false} SecondPassIdle(order: seq<string>, again: seq<string>, s: string, ph: string)
    requires forall w :: w in order ==> w != "" && Clear(w, ph)
    requires forall w :: w in again ==> w in order
    ensures RedactAll(again, RedactAll(order, s, ph), ph) == RedactAll(order, s, ph)
  {
    if again != [] {
      var n := |again| - 1;
      SecondPassIdle(order, again[..n], s, ph);
      NothingLeft(order, s, ph, again[n]);
    }
  }

  // ------------------------------------------------------------ a simple way to be clear

  lemma OccursShares(w: string, s: string)
    requires w != "" && Occurs(w, s)
    ensures w[0] in s
  {
  }

  // Sharing no character with a non-empty placeholder is the simplest way to be clear.
  lemma DisjointIsClear(w: string, ph: string)
    requires w != "" && ph != "" && forall c :: c in w ==> c !in ph
    ensures Clear(w, ph)
  {
    if Occurs(w, ph) { OccursShares(w, ph); }
    forall k | 0 <= k < |w| ensures !(w[k..] <= ph) && !(ph <= w[k..]) {
      assert w[k..][0] == w[k] && w[k] in w && ph[0] in ph;
    }
    forall k | 0 <= k < |ph| ensures !(ph[k..] <= w) { assert ph[k..][0] == ph[k] && ph[k] in ph && w[0] in w; }
  }

  // ------------------------------------------------------------ the redactor

  const REDACTED := "[REDACTED]"

  // The patterns are compiled rewrites of the text, taken as given.
  datatype Redactor = Redactor(patterns: seq<string -> string>, placeholder: string, extraStrings: set<string>)

  function NonEmpty(strings: seq<string>): set<string> {
    set i | 0 <= i < |strings| && strings[i] != "" :: strings[i]
  }

  // A new redactor with more patterns and secrets; empty strings are never registered.
  function WithExtra(r: Redactor, patterns: seq<string -> string>, strings: seq<string>): Redactor {
    Redactor(r.patterns + patterns, r.placeholder, r.extraStrings + NonEmpty(strings))
  }

  lemma WithExtraSecrets(r: Redactor, patterns: seq<string -> string>, strings: seq<string>)
    requires "" !in r.extraStrings
    ensures WithExtra(r, patterns, strings).placeholder == r.placeholder
    ensures forall s :: ApplyPatterns(WithExtra(r, patterns, strings).patterns, s) ==
                        ApplyPatterns(patterns, ApplyPatterns(r.patterns, s))
    ensures "" !in WithExtra(r, patterns, strings).extraStrings
    ensures forall w :: w in WithExtra(r, patterns, strings).extraStrings <==>
            w in r.extraStrings || (w in strings && w != "")
  {
    forall s ensures ApplyPatterns(r.patterns + patterns, s) == ApplyPatterns(patterns, ApplyPatterns(r.patterns, s)) {
      PatternsInOrder(r.patterns, patterns, s);
    }
  }

  function ApplyPatterns(patterns: seq<string -> string>, s: string): string {
    if patterns == [] then s else patterns[|patterns| - 1](ApplyPatterns(patterns[..|patterns| - 1], s))
  }

  // The patterns apply one after the other, in their order.
  lemma {:induction false} PatternsInOrder(first: seq<string -> string>, next: seq<string -> string>, s: string)
    ensures ApplyPatterns(first + next, s) == ApplyPatterns(next, ApplyPatterns(first, s))
    ensures |first| == 1 ==> ApplyPatterns(first, s) == first[0](s)
    ensures |first| == 0 ==> ApplyPatterns(first, s) == s
  {
    if next == [] {
      assert first + next == first;
    } else {
      PatternsInOrder(first, next[..|next| - 1], s);
      assert (first + next)[..|first + next| - 1] == first + next[..|next| - 1];
    }
  }

  predicate CopyAt(w: string, s: string, k: nat) { k + |w| <= |s| && s[k..k + |w|] == w }

  // What `in` asks, in places.
  lemma OccursIff(w: string, s: string)
    ensures Occurs(w, s) <==> exists k: nat :: CopyAt(w, s, k)
  {
    if Occurs(w, s) { assert CopyAt(w, s, Place(w, s)); }
    if k: nat :| CopyAt(w, s, k) { OccursAt(w, s, k); }
  }

  // Every replacement step by step: the text in front of the first copy stays, the copy becomes
  // the placeholder, and the text behind it is treated alike. Without a copy nothing changes.
  lemma ReplaceIs(a: string, w: string, t: string, ph: string)
    requires w != "" && forall j :: 0 <= j < |a| ==> !(w <= (a + (w + t))[j..])
    ensures Replace(a + (w + t), w, ph) == a + (ph + Replace(t, w, ph))
    ensures !Occurs(w, t) ==> Replace(t, w, ph) == t
  {
    KeptThen(a, w + t, w, ph);
    assert (w + t)[|w|..] == t;
    if !Occurs(w, t) { NoCopy(t, w, ph); }
  }

  lemma {:induction false} NoCopy(s: string, w: string, ph: string)
    requires w != "" && !Occurs(w, s)
    ensures Replace(s, w, ph) == s
  {
    if s != "" { NoCopy(s[1..], w, ph); }
  }

  lemma SpreadHead(s: string, ph: string)
    ensures |ph| <= |Spread(s, ph)| && ph + Spread(s, ph)[|ph|..] == Spread(s, ph)
  {
  }

  lemma SpreadJoins(ph: string, c: string, x: string, y: string)
    ensures ph + (c + (x + y)) == (ph + (c + x)) + y
  {
  }

  // For the empty secret the placeholder goes in front of every character and behind the last.
  lemma {:induction false} SpreadIs(s: string, t: string, ph: string)
    ensures |ph| <= |Spread(t, ph)| && Spread(s + t, ph) == Spread(s, ph) + Spread(t, ph)[|ph|..]
    ensures |s| == 0 ==> Spread(s, ph) == ph
    ensures |s| == 1 ==> Spread(s, ph) == ph + s + ph
  {
    SpreadHead(t, ph);
    if s == "" {
      assert s + t == t;
    } else {
      SpreadIs(s[1..], t, ph);
      assert (s + t)[1..] == s[1..] + t;
      SpreadJoins(ph, [s[0]], Spread(s[1..], ph), Spread(t, ph)[|ph|..]);
      SpreadJoins(ph, [s[0]], "", ph);
    }
  }

  // One secret after the other; one that the text does not hold changes nothing.
  lemma {:induction false} SecretsInOrder(first: seq<string>, next: seq<string>, s: string, ph: string)
    ensures RedactAll(first + next, s, ph) == RedactAll(next, RedactAll(first, s, ph), ph)
    ensures |first| == 1 && first[0] != "" ==> RedactAll(first, s, ph) == Replace(s, first[0], ph)
    ensures |first| == 1 && first[0] == "" ==> RedactAll(first, s, ph) == Spread(s, ph)
  {
    if |first| == 1 && first[0] != "" && !Occurs(first[0], s) { NoCopy(s, first[0], ph); }
    if next == [] {
      assert first + next == first;
    } else {
      SecretsInOrder(first, next[..|next| - 1], s, ph);
      assert (first + next)[..|first + next| - 1] == first + next[..|next| - 1];
    }
  }

  // The secrets are taken out of a set, so in no particular order.
  method Redact(r: Redactor, text: string) returns (out: string, ghost order: seq<string>)
    ensures text == "" ==> out == ""
    ensures text != "" ==> forall w :: w in order <==> w in r.extraStrings
    ensures forall i, j :: 0 <= i < j < |order| ==> order[i] != order[j]
    ensures text != "" ==> out == RedactAll(order, ApplyPatterns(r.patterns, text), r.placeholder)
    ensures text != "" ==> forall w :: w in r.extraStrings && w != "" && Clear(w, r.placeholder) ==> !Occurs(w, out)
  {
    order := [];
    if text == "" {
      return text, [];
    }
    out := text;
    for i := 0 to |r.patterns|
      invariant out == ApplyPatterns(r.patterns[..i], text)
    {
      assert r.patterns[..i + 1][..i] == r.patterns[..i];
      out := r.patterns[i](out);
    }
    assert r.patterns[..|r.patterns|] == r.patterns;
    ghost var scrubbed := out;
    var remaining := r.extraStrings;
    while remaining != {}
      invariant remaining <= r.extraStrings
      invariant forall w :: w in order <==> w in r.extraStrings && w !in remaining
      invariant forall i, j :: 0 <= i < j < |order| ==> order[i] != order[j]
      invariant out == RedactAll(order, scrubbed, r.placeholder)
      decreases remaining
    {
      var secret :| secret in remaining;
      ghost var longer := order + [secret];
      assert longer[..|longer| - 1] == order;
      if secret == "" {
        out := Spread(out, r.placeholder);
      } else if Occurs(secret, out) {
        out := Replace(out, secret, r.placeholder);
      }
      order := longer;
      remaining := remaining - {secret};
    }
    forall w | w in r.extraStrings && w != "" && Clear(w, r.placeholder) ensures !Occurs(w, out) {
      NothingLeft(order, scrubbed, r.placeholder, w);
    }
  }
}
