/** Character classes, stripping, and the three cleaning passes of the SQL classifier. */
module SqlText {
  import opened Options
  import opened Substitution
  import Sequences

  // Python's `str.isspace`, which is also what `\s` matches in a str pattern.
  predicate IsSpace(c: char) {
    var n := c as int;
    0x09 <= n <= 0x0D || 0x1C <= n <= 0x20 || n == 0x85 || n == 0xA0 || n == 0x1680 ||
    0x2000 <= n <= 0x200A || n == 0x2028 || n == 0x2029 || n == 0x202F || n == 0x205F || n == 0x3000
  }

  predicate IsLetter(c: char) { 'A' <= c <= 'Z' || 'a' <= c <= 'z' }

  function UpperChar(c: char): char {
    if 'a' <= c <= 'z' then (c as int - 32) as char else c
  }

  function Upper(s: string): string {
    if s == "" then "" else [UpperChar(s[0])] + Upper(s[1..])
  }

  predicate Blank(s: string) { forall i :: 0 <= i < |s| ==> IsSpace(s[i]) }

  function Lstrip(s: string): string {
    if s != "" && IsSpace(s[0]) then Lstrip(s[1..]) else s
  }

  function Rstrip(s: string): string {
    if s != "" && IsSpace(s[|s| - 1]) then Rstrip(s[..|s| - 1]) else s
  }

  function Strip(s: string): string { Rstrip(Lstrip(s)) }

  function Letters(s: string): string {
    if s != "" && IsLetter(s[0]) then [s[0]] + Letters(s[1..]) else ""
  }

  // `^\s*([A-Za-z]+)`, upper-cased; "" when the text does not start with a word.
  function LeadingVerb(s: string): string { Upper(Letters(Lstrip(s))) }

  predicate Leads(s: string, c: char) { s != "" && s[0] == c }

  predicate Opens(s: string, c: char, d: char) { |s| >= 2 && s[0] == c && s[1] == d }

  // ------------------------------------------------------------ cleaning passes

  // The length up to and including the first "*/".
  function BlockLength(s: string): (r: Option<nat>)
    ensures r.Some? ==> 2 <= r.value <= |s|
  {
    if |s| < 2 then None
    else if Opens(s, '*', '/') then Some(2)
    else
      match BlockLength(s[1..])
      case None => None
      case Some(n) => Some(n + 1)
  }

  function LineLength(s: string): (n: nat)
    ensures n <= |s|
  {
    if s == "" || s[0] == '\n' then 0 else 1 + LineLength(s[1..])
  }

  // The longest-first match of `([^'\\]|\\.|'')*'` at the start of `s`: a doubled quote is
  // taken as an escaped one if the literal still closes later, else it closes here.
  function LiteralLength(s: string): (r: Option<nat>)
    ensures r.Some? ==> 1 <= r.value <= |s|
  {
    if s == "" then None
    else if s[0] == '\\' then
      if |s| >= 2 && s[1] != '\n' then Shift(LiteralLength(s[2..]), 2) else None
    else if s[0] == '\'' then
      if |s| >= 2 && s[1] == '\'' && LiteralLength(s[2..]).Some? then Shift(LiteralLength(s[2..]), 2) else Some(1)
    else Shift(LiteralLength(s[1..]), 1)
  }

  function Shift(r: Option<nat>, n: nat): Option<nat> {
    match r
    case None => None
    case Some(k) => Some(k + n)
  }

  // `/\*.*?\*/` with DOTALL; an unclosed opener is no match.
  function BlockMatch(s: string): (n: nat)
    ensures n <= |s|
  {
    if Opens(s, '/', '*') && BlockLength(s[2..]).Some? then 2 + BlockLength(s[2..]).value else 0
  }

  // `--[^\n]*`; the newline is not part of it.
  function LineMatch(s: string): (n: nat)
    ensures n <= |s|
  {
    if Opens(s, '-', '-') then 2 + LineLength(s[2..]) else 0
  }

  // A string literal; an unclosed quote is no match.
  function LiteralMatch(s: string): (n: nat)
    ensures n <= |s|
  {
    if s != "" && s[0] == '\'' && LiteralLength(s[1..]).Some? then 1 + LiteralLength(s[1..]).value else 0
  }

  // A block comment becomes one space.
  function StripBlocks(s: string): string {
    if s == "" then ""
    else if BlockMatch(s) > 0 then " " + StripBlocks(s[BlockMatch(s)..])
    else [s[0]] + StripBlocks(s[1..])
  }

  // So does a line comment.
  function StripLines(s: string): string {
    if s == "" then ""
    else if LineMatch(s) > 0 then " " + StripLines(s[LineMatch(s)..])
    else [s[0]] + StripLines(s[1..])
  }

  // A literal becomes the five characters ` '_' `.
  function StripLiterals(s: string): string {
    if s == "" then ""
    else if LiteralMatch(s) > 0 then " '_' " + StripLiterals(s[LiteralMatch(s)..])
    else [s[0]] + StripLiterals(s[1..])
  }

  function Clean(s: string): string { StripLiterals(StripLines(StripBlocks(s))) }

  // They are substitutions of one kind.
  const BLOCKS := Sub(BlockMatch, " ")
  const LINES := Sub(LineMatch, " ")
  const LITERALS := Sub(LiteralMatch, " '_' ")
  const CLEANER := [BLOCKS, LINES, LITERALS]

  lemma {:induction false} BlockPass(s: string)
    ensures StripBlocks(s) == Pass(BLOCKS, s)
  {
    if s != "" { BlockPass(s[if BlockMatch(s) > 0 then BlockMatch(s) else 1..]); }
  }

  lemma {:induction false} LinePass(s: string)
    ensures StripLines(s) == Pass(LINES, s)
  {
    if s != "" { LinePass(s[if LineMatch(s) > 0 then LineMatch(s) else 1..]); }
  }

  lemma {:induction false} LiteralPass(s: string)
    ensures StripLiterals(s) == Pass(LITERALS, s)
  {
    if s != "" { LiteralPass(s[if LiteralMatch(s) > 0 then LiteralMatch(s) else 1..]); }
  }

  lemma CleanIs(s: string)
    ensures Clean(s) == Passes(CLEANER, s)
  {
    BlockPass(s);
    LinePass(StripBlocks(s));
    LiteralPass(StripLines(StripBlocks(s)));
    ThreePasses(BLOCKS, LINES, LITERALS, s);
  }

  // ------------------------------------------------------------ plain text

  // No quote and no comment opener anywhere.
  predicate Plain(s: string) {
    forall i :: 0 <= i < |s| ==> s[i] != '\'' && !Opens(s[i..], '/', '*') && !Opens(s[i..], '-', '-')
  }

  // Nothing in a plain text matches, and nothing straddles a semicolon behind it.
  lemma NoMatch(a: string, x: string, i: nat)
    requires Plain(a) && i < |a| && (x == "" || x[0] == ';')
    ensures BlockMatch((a + x)[i..]) == LineMatch((a + x)[i..]) == LiteralMatch((a + x)[i..]) == 0
  {
    var t := (a + x)[i..];
    assert t[0] == a[i] == a[i..][0];
    if i + 1 < |a| { assert t[1] == a[i + 1] == a[i..][1]; } else if x != "" { assert t[1] == x[0]; }
  }

  lemma StripAfterPlain(a: string, x: string)
    requires Plain(a) && (x == "" || x[0] == ';')
    ensures StripBlocks(a + x) == a + StripBlocks(x)
    ensures StripLines(a + x) == a + StripLines(x)
    ensures StripLiterals(a + x) == a + StripLiterals(x)
  {
    forall i | 0 <= i < |a|
      ensures BLOCKS.m((a + x)[i..]) == LINES.m((a + x)[i..]) == LITERALS.m((a + x)[i..]) == 0
    {
      NoMatch(a, x, i);
    }
    AfterKept(a, x);
  }

  lemma AfterKept(a: string, x: string)
    ensures Kept(BLOCKS, a, x) ==> StripBlocks(a + x) == a + StripBlocks(x)
    ensures Kept(LINES, a, x) ==> StripLines(a + x) == a + StripLines(x)
    ensures Kept(LITERALS, a, x) ==> StripLiterals(a + x) == a + StripLiterals(x)
  {
    BlockPass(a + x);
    BlockPass(x);
    LinePass(a + x);
    LinePass(x);
    LiteralPass(a + x);
    LiteralPass(x);
    if Kept(BLOCKS, a, x) { PassAfter(BLOCKS, a, x); }
    if Kept(LINES, a, x) { PassAfter(LINES, a, x); }
    if Kept(LITERALS, a, x) { PassAfter(LITERALS, a, x); }
  }

  lemma Semicolon(b: string)
    ensures StripBlocks(";" + b) == ";" + StripBlocks(b)
    ensures StripLines(";" + b) == ";" + StripLines(b)
    ensures StripLiterals(";" + b) == ";" + StripLiterals(b)
  {
    var t := ";" + b;
    assert t[0] == ';' && t[1..] == b;
  }

  // Cleaning is local: a plain statement in front of a semicolon is left as it is, whatever follows.
  lemma CleanAfterPlain(a: string, b: string)
    requires Plain(a)
    ensures Clean(a + ";" + b) == a + ";" + Clean(b)
  {
    var b1, b2 := StripBlocks(b), StripLines(StripBlocks(b));
    Sequences.Assoc(a, ";", b);
    Sequences.Assoc(a, ";", Clean(b));
    Semicolon(b);
    Semicolon(b1);
    Semicolon(b2);
    StripAfterPlain(a, ";" + b);
    StripAfterPlain(a, ";" + b1);
    StripAfterPlain(a, ";" + b2);
  }

  lemma CleanPlain(a: string)
    requires Plain(a)
    ensures Clean(a) == a
  {
    StripAfterPlain(a, "");
    assert a + "" == a;
  }

  // ------------------------------------------------------------ blanks

  lemma BlankStrip(s: string)
    ensures Blank(s) <==> Strip(s) == ""
    ensures Blank(s) ==> Plain(s)
  {
    LstripBlank(s);
    RstripBlank(Lstrip(s));
    if Blank(s) {
      forall i | 0 <= i < |s| ensures s[i] != '\'' && !Opens(s[i..], '/', '*') && !Opens(s[i..], '-', '-') {
        assert IsSpace(s[i]) && s[i..][0] == s[i];
      }
    }
  }

  lemma LstripBlank(s: string)
    ensures Blank(s) <==> Lstrip(s) == ""
    ensures Lstrip(s) != "" ==> !IsSpace(Lstrip(s)[0])
  {
    if s != "" && IsSpace(s[0]) {
      LstripBlank(s[1..]);
      assert s == [s[0]] + s[1..];
    }
  }

  lemma RstripBlank(s: string)
    requires s != "" ==> !IsSpace(s[0])
    ensures Rstrip(s) == "" <==> s == ""
  {
  }
}
