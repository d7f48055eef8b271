/** The printed text of a value: what stands between the brackets, and what an escape means. */
module JsonText {
  import opened Options
  import opened Json
  import Sequences

  // ------------------------------------------------------------ one character

  function HexValue(c: char): Option<nat> {
    if '0' <= c <= '9' then Some(c as int - '0' as int)
    else if 'a' <= c <= 'f' then Some(10 + (c as int - 'a' as int))
    else if 'A' <= c <= 'F' then Some(10 + (c as int - 'A' as int))
    else None
  }

  function Short(c: char): Option<int> {
    if c == '"' then Some(0x22)
    else if c == '\\' then Some(0x5C)
    else if c == '/' then Some(0x2F)
    else if c == 'b' then Some(0x08)
    else if c == 'f' then Some(0x0C)
    else if c == 'n' then Some(0x0A)
    else if c == 'r' then Some(0x0D)
    else if c == 't' then Some(0x09)
    else None
  }

  // The code point that a reader takes a string's next character for (section 7 of RFC 8259).
  function Meaning(e: string): Option<int> {
    if |e| == 1 && e[0] != '"' && e[0] != '\\' && e[0] as int >= 0x20 then Some(e[0] as int)
    else if |e| == 2 && e[0] == '\\' then Short(e[1])
    else if |e| == 6 && e[0] == '\\' && e[1] == 'u' then
      match (HexValue(e[2]), HexValue(e[3]), HexValue(e[4]), HexValue(e[5]))
      case (Some(a), Some(b), Some(c), Some(d)) => Some(a * 0x1000 + b * 0x100 + c * 0x10 + d)
      case _ => None
    else None
  }

  // What is written for a character means that character. It is the character itself wherever
  // that is allowed, else the short escape if there is one, else four lower-case digits.
  lemma EscapeMeans(c: char)
    ensures Meaning(Escape(c)) == Some(c as int)
    ensures |Escape(c)| == 1 <==> c as int >= 0x20 && c != '"' && c != '\\'
    ensures |Escape(c)| == 2 <==> c == '"' || c == '\\' || c as int in {0x08, 0x09, 0x0A, 0x0C, 0x0D}
    ensures forall i :: 2 <= i < |Escape(c)| ==> !('A' <= Escape(c)[i] <= 'Z')
  {
  }

  // ------------------------------------------------------------ texts

  lemma {:induction false} EscapeRest(s: string, rest: string)
    ensures EscapeTo(s, rest) == EscapeTo(s, "") + rest
  {
    if s != "" {
      EscapeRest(s[1..], rest);
      Sequences.Assoc(Escape(s[0]), EscapeTo(s[1..], ""), rest);
    }
  }

  lemma QuoteRest(s: string, rest: string)
    ensures QuoteTo(s, rest) == "\"" + EscapeTo(s, "") + "\"" + rest
  {
    EscapeRest(s, "\"" + rest);
  }

  lemma {:induction false} PrintRest(v: Json, rest: string)
    ensures PrintTo(v, rest) == Print(v) + rest
    decreases v
  {
    match v
    case Str(s) => QuoteRest(s, rest); QuoteRest(s, "");
    case Arr(xs) =>
      ItemsRest(xs, "]" + rest);
      ItemsRest(xs, "]" + "");
      Bracketed("[", Commas(ItemTexts(xs)), "]", rest);
    case Obj(ms) =>
      MembersRest(ms, "}" + rest);
      MembersRest(ms, "}" + "");
      Bracketed("{", Commas(MemberTexts(ms)), "}", rest);
    case _ =>
  }

  lemma Bracketed(open: string, inner: string, close: string, rest: string)
    ensures open + (inner + (close + rest)) == open + (inner + (close + "")) + rest
    ensures open + (inner + (close + "")) == open + inner + close
  {
  }

  // The texts of the items, and those of the members.
  function ItemTexts(xs: Items): seq<string> {
    match xs
    case INil => []
    case ICons(h, t) => [Print(h)] + ItemTexts(t)
  }

  function MemberTexts(ms: Members): seq<string> {
    match ms
    case MNil => []
    case MCons(k, v, t) => [Print(Str(k)) + ":" + Print(v)] + MemberTexts(t)
  }

  function Commas(texts: seq<string>): string {
    if texts == [] then "" else if |texts| == 1 then texts[0] else texts[0] + "," + Commas(texts[1..])
  }

  lemma CommasStep(first: string, more: seq<string>, rest: string)
    ensures Commas([first] + more) + rest == first + if more == [] then rest else "," + (Commas(more) + rest)
  {
    var texts := [first] + more;
    assert texts[0] == first && texts[1..] == more;
    if more != [] { assert Commas(texts) == first + "," + Commas(more); }
  }

  lemma {:induction false} ItemsRest(xs: Items, rest: string)
    ensures PrintItemsTo(xs, rest) == Commas(ItemTexts(xs)) + rest
    decreases xs
  {
    match xs
    case INil =>
    case ICons(h, t) =>
      PrintRest(h, if t.INil? then rest else "," + PrintItemsTo(t, rest));
      ItemsRest(t, rest);
      CommasStep(Print(h), ItemTexts(t), rest);
  }

  lemma MemberRest(k: string, v: Json, rest: string)
    requires PrintTo(v, rest) == Print(v) + rest
    ensures QuoteTo(k, ":" + PrintTo(v, rest)) == (Print(Str(k)) + ":" + Print(v)) + rest
  {
    QuoteRest(k, ":" + PrintTo(v, rest));
    QuoteRest(k, "");
  }

  lemma {:induction false} MembersRest(ms: Members, rest: string)
    ensures PrintMembersTo(ms, rest) == Commas(MemberTexts(ms)) + rest
    decreases ms
  {
    match ms
    case MNil =>
    case MCons(k, v, t) =>
      var after := if t.MNil? then rest else "," + PrintMembersTo(t, rest);
      PrintRest(v, after);
      MemberRest(k, v, after);
      MembersRest(t, rest);
      CommasStep(Print(Str(k)) + ":" + Print(v), MemberTexts(t), rest);
  }

  // The text of every value: items and members stand between their brackets with commas and
  // nothing else, a name is written as a string, and a string character by character.
  lemma TextOf(v: Json)
    ensures match v
            case Null => Print(v) == "null"
            case Bool(b) => Print(v) == if b then "true" else "false"
            case Num(t) => Print(v) == t
            case Str(s) => Print(v) == "\"" + EscapeTo(s, "") + "\""
            case Arr(xs) => Print(v) == "[" + Commas(ItemTexts(xs)) + "]"
            case Obj(ms) => Print(v) == "{" + Commas(MemberTexts(ms)) + "}"
  {
    match v
    case Str(s) => QuoteRest(s, "");
    case Arr(xs) =>
      ItemsRest(xs, "]" + "");
      Bracketed("[", Commas(ItemTexts(xs)), "]", "");
    case Obj(ms) =>
      MembersRest(ms, "}" + "");
      Bracketed("{", Commas(MemberTexts(ms)), "}", "");
    case _ =>
  }

  // Escapes are written one after the other.
  lemma {:induction false} EscapesAppend(s: string, t: string)
    ensures EscapeTo(s + t, "") == EscapeTo(s, "") + EscapeTo(t, "")
    ensures |s| == 1 ==> EscapeTo(s, "") == Escape(s[0])
  {
    if s == "" {
      assert s + t == t;
    } else {
      EscapesAppend(s[1..], t);
      assert (s + t)[1..] == s[1..] + t;
      Sequences.Assoc(Escape(s[0]), EscapeTo(s[1..], ""), EscapeTo(t, ""));
    }
  }

  // A text without quotation marks, backslashes and control characters is its own escape.
  lemma {:induction false} NothingToEscape(s: string)
    requires forall i :: 0 <= i < |s| ==> s[i] as int >= 0x20 && s[i] != '"' && s[i] != '\\'
    ensures EscapeTo(s, "") == s
  {
    if s != "" { NothingToEscape(s[1..]); }
  }
}
