/** Texts made of chunks that three passes treat one by one, and where their semicolons go. */
module SqlChunks {
  import opened SqlSplit
  import opened SqlClassify
  import opened Substitution
  import Sequences

  // A piece of a text and what each of the passes makes of it.
  datatype Chunk = Chunk(text: string, once: string, twice: string, made: string)

  function Flat(cs: seq<Chunk>): string {
    if cs == [] then "" else cs[0].text + Flat(cs[1..])
  }

  // A chunk becomes a semicolon or has none in it.
  predicate Whole(c: Chunk) { c.made == ";" || ';' !in c.made }

  ghost predicate AllMade(a: Sub, b: Sub, c: Sub, cs: seq<Chunk>) {
    cs == [] ||
    (Whole(cs[0]) && AllTake(a, b, c, cs[0].text, Flat(cs[1..]), cs[0].once, cs[0].twice, cs[0].made) &&
     AllMade(a, b, c, cs[1..]))
  }

  // Where the chunks that become a semicolon begin.
  function Starts(cs: seq<Chunk>, from: nat): seq<nat> {
    if cs == [] then [] else
      (if cs[0].made == ";" then [from] else []) + Starts(cs[1..], from + |cs[0].text|)
  }

  lemma {:induction false} StartsShift(cs: seq<Chunk>, from: nat, d: nat, i: nat)
    ensures |Starts(cs, from + d)| == |Starts(cs, from)|
    ensures i < |Starts(cs, from)| ==> Starts(cs, from + d)[i] == Starts(cs, from)[i] + d
  {
    if cs != [] {
      StartsShift(cs[1..], from + |cs[0].text|, d, if cs[0].made == ";" && i > 0 then i - 1 else i);
    }
  }

  lemma SemisOne(s: string, rest: string, own: seq<nat>, from: nat)
    requires s != "" && s[1..] == rest && own == (if s[0] == ';' then [from] else [])
    ensures Semis(s, from) == own + Semis(rest, from + 1)
  {
  }

  lemma {:induction false} SemisConcat(a: string, c: string, from: nat)
    ensures Semis(a + c, from) == Semis(a, from) + Semis(c, from + |a|)
  {
    if a == "" {
      assert a + c == c;
    } else {
      var rest, own := a[1..], if a[0] == ';' then [from] else [];
      assert (a + c)[1..] == rest + c && (a + c)[0] == a[0];
      SemisConcat(rest, c, from + 1);
      SemisOne(a, rest, own, from);
      SemisOne(a + c, rest + c, own, from);
      Sequences.Assoc(own, Semis(rest, from + 1), Semis(c, from + |a|));
    }
  }

  // The semicolons of one chunk in front of a text.
  lemma SemisStep(c: Chunk, y: string)
    requires Whole(c)
    ensures c.made != ";" ==> |Semis(c.made + y, 0)| == |Semis(y, 0)|
    ensures c.made != ";" ==>
              forall i :: 0 <= i < |Semis(y, 0)| ==> Semis(c.made + y, 0)[i] == Semis(y, 0)[i] + |c.made|
    ensures c.made == ";" ==> |Semis(c.made + y, 0)| == 1 + |Semis(y, 0)| && Semis(c.made + y, 0)[0] == 0
    ensures c.made == ";" ==>
              forall i :: 0 <= i < |Semis(y, 0)| ==> Semis(c.made + y, 0)[i + 1] == Semis(y, 0)[i] + 1
  {
    SemisConcat(c.made, y, 0);
    SemisShift(y, 0, |c.made|);
    if c.made == ";" { assert c.made[1..] == ""; } else { NoSemis(c.made, 0); }
  }

  lemma FirstSource(a: Sub, b: Sub, c: Sub, s: string)
    requires a.rep != "" && b.rep != "" && c.rep != "" && Pass3(a, b, c, s) != ""
    ensures Source3(a, b, c, s, 0) == 0
  {
  }

  function Own(k: Chunk): nat { if k.made == ";" then 1 else 0 }

  // What the i-th semicolon of the result was made from; the end when there is none.
  function SemiSource(a: Sub, b: Sub, c: Sub, s: string, i: nat): nat {
    var p := Semis(Pass3(a, b, c, s), 0);
    if i < |p| && p[i] < |Pass3(a, b, c, s)| then Source3(a, b, c, s, p[i]) else |s|
  }

  function SemiCount(a: Sub, b: Sub, c: Sub, s: string): nat { |Semis(Pass3(a, b, c, s), 0)| }

  // The semicolons of a text behind one chunk keep their order and their sources.
  lemma ChunkStep(a: Sub, b: Sub, c: Sub, k: Chunk, x: string, i: nat)
    requires Whole(k) && AllTake(a, b, c, k.text, x, k.once, k.twice, k.made)
    requires a.rep != "" && b.rep != "" && c.rep != ""
    ensures SemiCount(a, b, c, k.text + x) == Own(k) + SemiCount(a, b, c, x)
    ensures i < Own(k) ==> SemiSource(a, b, c, k.text + x, i) == 0
    ensures Own(k) <= i ==> SemiSource(a, b, c, k.text + x, i) == |k.text| + SemiSource(a, b, c, x, i - Own(k))
  {
    TakesThree(a, b, c, k.text, x, k.once, k.twice, k.made);
    SemisStep(k, Pass3(a, b, c, x));
    if i < Own(k) {
      FirstSource(a, b, c, k.text + x);
    } else if i < Own(k) + SemiCount(a, b, c, x) {
      SemiInside(Pass3(a, b, c, x), i - Own(k));
      LaterSource(a, b, c, k, x, i, Semis(Pass3(a, b, c, x), 0)[i - Own(k)]);
    }
  }

  lemma PlaceAfter(k: Chunk, y: string, i: nat)
    requires Whole(k) && Own(k) <= i < Own(k) + |Semis(y, 0)|
    ensures i < |Semis(k.made + y, 0)|
    ensures var q := Semis(y, 0)[i - Own(k)]; q < |y| && Semis(k.made + y, 0)[i] == |k.made| + q
  {
    SemisStep(k, y);
    SemiInside(y, i - Own(k));
  }

  lemma LaterSource(a: Sub, b: Sub, c: Sub, k: Chunk, x: string, i: nat, q: nat)
    requires Whole(k) && AllTake(a, b, c, k.text, x, k.once, k.twice, k.made)
    requires Own(k) <= i && SemiIs(a, b, c, x, i - Own(k), q)
    ensures SemiSource(a, b, c, k.text + x, i) == |k.text| + SemiSource(a, b, c, x, i - Own(k))
  {
    PlacesBehind(a, b, c, k, x, i, q);
    var o := SemiSourceIs(a, b, c, x, i - Own(k), q);
    TakesThreeAt(a, b, c, k.text, x, k.once, k.twice, k.made, q, o);
    SourceIsSemi(a, b, c, k.text + x, i, |k.made| + q, |k.text| + o);
  }

  // The i-th semicolon of what the passes make of `s` is at place p.
  predicate SemiIs(a: Sub, b: Sub, c: Sub, s: string, i: nat, p: nat) {
    i < |Semis(Pass3(a, b, c, s), 0)| && Semis(Pass3(a, b, c, s), 0)[i] == p < |Pass3(a, b, c, s)|
  }

  lemma PlacesBehind(a: Sub, b: Sub, c: Sub, k: Chunk, x: string, i: nat, q: nat)
    requires Whole(k) && AllTake(a, b, c, k.text, x, k.once, k.twice, k.made)
    requires Own(k) <= i && SemiIs(a, b, c, x, i - Own(k), q)
    ensures SemiIs(a, b, c, k.text + x, i, |k.made| + q)
  {
    TakesThree(a, b, c, k.text, x, k.once, k.twice, k.made);
    PlaceAfter(k, Pass3(a, b, c, x), i);
  }

  lemma SourceIsSemi(a: Sub, b: Sub, c: Sub, s: string, i: nat, p: nat, o: nat)
    requires SemiIs(a, b, c, s, i, p) && Comes3(a, b, c, s, p, o)
    ensures SemiSource(a, b, c, s, i) == o
  {
  }

  lemma SemiSourceIs(a: Sub, b: Sub, c: Sub, s: string, i: nat, p: nat) returns (o: nat)
    requires SemiIs(a, b, c, s, i, p)
    ensures SemiSource(a, b, c, s, i) == o && Comes3(a, b, c, s, p, o)
  {
    o := Source3(a, b, c, s, p);
  }

  predicate NonEmpty(cs: seq<Chunk>) { forall i :: 0 <= i < |cs| ==> cs[i].text != "" }

  lemma {:induction false} StartsInside(cs: seq<Chunk>, from: nat, i: nat)
    requires i < |Starts(cs, from)| && NonEmpty(cs)
    ensures from <= Starts(cs, from)[i] < from + |Flat(cs)|
  {
    var own, rest := Own(cs[0]), cs[1..];
    FlatLength(cs, rest);
    if i >= own { StartsInside(rest, from + |cs[0].text|, i - own); }
  }

  lemma FlatLength(cs: seq<Chunk>, rest: seq<Chunk>)
    requires cs != [] && rest == cs[1..] && NonEmpty(cs)
    ensures |Flat(cs)| == |cs[0].text| + |Flat(rest)| && |cs[0].text| > 0 && NonEmpty(rest)
  {
  }

  lemma StartsIs(cs: seq<Chunk>, rest: seq<Chunk>, d: nat)
    requires cs != [] && rest == cs[1..] && d == |cs[0].text|
    ensures Starts(cs, 0) == (if cs[0].made == ";" then [0] else []) + Starts(rest, d)
  {
  }

  lemma StartsStep(cs: seq<Chunk>, rest: seq<Chunk>, i: nat)
    requires cs != [] && rest == cs[1..]
    ensures |Starts(cs, 0)| == Own(cs[0]) + |Starts(rest, 0)|
    ensures i < Own(cs[0]) ==> Starts(cs, 0)[i] == 0
    ensures Own(cs[0]) <= i < |Starts(cs, 0)| ==> Starts(cs, 0)[i] == |cs[0].text| + Starts(rest, 0)[i - Own(cs[0])]
  {
    StartsIs(cs, rest, |cs[0].text|);
    StartsShift(rest, 0, |cs[0].text|, if i < Own(cs[0]) then 0 else i - Own(cs[0]));
  }

  // The i-th semicolon of the result was made from the i-th chunk that becomes one.
  lemma {:induction false} ChunkSources(a: Sub, b: Sub, c: Sub, cs: seq<Chunk>, i: nat)
    requires a.rep != "" && b.rep != "" && c.rep != "" && AllMade(a, b, c, cs)
    ensures SemiCount(a, b, c, Flat(cs)) == |Starts(cs, 0)|
    ensures i < |Starts(cs, 0)| ==> SemiSource(a, b, c, Flat(cs), i) == Starts(cs, 0)[i]
    decreases |cs|
  {
    if cs != [] {
      ChunkStep(a, b, c, cs[0], Flat(cs[1..]), i);
      StartsStep(cs, cs[1..], i);
      ChunkSources(a, b, c, cs[1..], if i < Own(cs[0]) then 0 else i - Own(cs[0]));
    }
  }
}
