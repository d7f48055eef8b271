/** UTF-8 encoding of text, and that it loses nothing (RFC 3629, section 3). */
module Utf8 {
  import Sequences

  type Byte = n: int | 0 <= n < 256

  // Dafny characters are the Unicode scalar values, so every string has an encoding.
  function EncodeChar(c: char): (r: seq<Byte>)
    ensures 1 <= |r| <= 4
  {
    var n := c as int;
    var hi := n / 0x40;
    if n < 0x80 then [n]
    else if n < 0x800 then [0xC0 + hi, 0x80 + n % 0x40]
    else if n < 0x10000 then [0xE0 + hi / 0x40, 0x80 + hi % 0x40, 0x80 + n % 0x40]
    else [0xF0 + hi / 0x40 / 0x40, 0x80 + hi / 0x40 % 0x40, 0x80 + hi % 0x40, 0x80 + n % 0x40]
  }

  function Encode(s: string): seq<Byte> {
    if s == "" then [] else EncodeChar(s[0]) + Encode(s[1..])
  }

  function LengthByLead(b: Byte): nat {
    if b < 0x80 then 1 else if b < 0xE0 then 2 else if b < 0xF0 then 3 else 4
  }

  lemma LeadTellsLength(c: char)
    ensures |EncodeChar(c)| == LengthByLead(EncodeChar(c)[0])
  {
  }

  lemma Rejoin(n: nat, m: nat)
    requires n / 0x40 == m / 0x40 && n % 0x40 == m % 0x40
    ensures n == m
  {
  }

  lemma CharReads(c: char, d: char)
    requires EncodeChar(c) == EncodeChar(d)
    ensures c == d
  {
    var n, m := c as int, d as int;
    var p, q := EncodeChar(c), EncodeChar(d);
    LeadTellsLength(c);
    LeadTellsLength(d);
    assert forall i :: 0 <= i < |p| ==> p[i] == q[i];
    if |p| > 1 {
      assert p[|p| - 1] == 0x80 + n % 0x40 && q[|q| - 1] == 0x80 + m % 0x40;
      if |p| == 4 { Rejoin(n / 0x40 / 0x40, m / 0x40 / 0x40); }
      if |p| >= 3 { Rejoin(n / 0x40, m / 0x40); }
      Rejoin(n, m);
    }
  }

  lemma {:induction false} EncodeInjective(s: string, t: string)
    requires Encode(s) == Encode(t)
    ensures s == t
  {
    if s != "" && t != "" {
      var p, q, x, y := EncodeChar(s[0]), EncodeChar(t[0]), Encode(s[1..]), Encode(t[1..]);
      var u := p + x;
      LeadTellsLength(s[0]);
      LeadTellsLength(t[0]);
      assert u[0] == p[0] == q[0];
      assert u[..|p|] == p && u[..|q|] == q && u[|p|..] == x && u[|q|..] == y;
      CharReads(s[0], t[0]);
      EncodeInjective(s[1..], t[1..]);
      assert s == [s[0]] + s[1..] && t == [t[0]] + t[1..];
    }
  }

  // ------------------------------------------------------------ the bytes of a character

  predicate Continues(b: Byte) { 0x80 <= b < 0xC0 }

  function Above(b: Byte, base: int): int { b as int - base }

  // The code point that a well-formed sequence stands for; an over-long one stands for nothing.
  function Meaning(bs: seq<Byte>): int {
    if |bs| == 1 && bs[0] < 0x80 then bs[0]
    else if |bs| == 2 && 0xC2 <= bs[0] < 0xE0 && Continues(bs[1]) then Above(bs[0], 0xC0) * 0x40 + Above(bs[1], 0x80)
    else if |bs| == 3 && 0xE0 <= bs[0] < 0xF0 && Continues(bs[1]) && Continues(bs[2]) then
      LongEnough(Above(bs[0], 0xE0) * 0x1000 + Above(bs[1], 0x80) * 0x40 + Above(bs[2], 0x80), 0x800)
    else if |bs| == 4 && 0xF0 <= bs[0] < 0xF5 && Continues(bs[1]) && Continues(bs[2]) && Continues(bs[3]) then
      LongEnough(Above(bs[0], 0xF0) * 0x40000 + Above(bs[1], 0x80) * 0x1000 + Above(bs[2], 0x80) * 0x40 +
                 Above(bs[3], 0x80), 0x10000)
    else -1
  }

  function LongEnough(n: int, least: int): int { if n < least then -1 else n }

  lemma Sixes(n: nat)
    ensures n == n / 0x40 * 0x40 + n % 0x40
    ensures n / 0x40 / 0x40 == n / 0x1000 && n / 0x1000 / 0x40 == n / 0x40000
  {
  }

  lemma CharMeans(c: char)
    ensures Meaning(EncodeChar(c)) == c as int
  {
    var n := c as int;
    Sixes(n);
    Sixes(n / 0x40);
    Sixes(n / 0x40 / 0x40);
  }

  // A text is encoded character by character.
  lemma {:induction false} EncodeAppend(s: string, t: string)
    ensures Encode(s + t) == Encode(s) + Encode(t)
    ensures |s| == 1 ==> Encode(s) == EncodeChar(s[0])
  {
    if s == "" {
      assert s + t == t;
    } else {
      EncodeAppend(s[1..], t);
      assert (s + t)[1..] == s[1..] + t;
      Sequences.Assoc(EncodeChar(s[0]), Encode(s[1..]), Encode(t));
    }
  }
}
