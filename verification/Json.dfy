/** Compact JSON with sorted keys: what it prints, and why equal text means equal value. */
module Json {
  import opened Options

  // An object keeps its members in insertion order, as a Python dict does. A number is its
  // printed token (`12`, `-0.5e3`, `NaN`).
  datatype Json =
    | Null
    | Bool(b: bool)
    | Num(token: string)
    | Str(s: string)
    | Arr(items: Items)
    | Obj(members: Members)

  datatype Items = INil | ICons(head: Json, tail: Items)

  datatype Members = MNil | MCons(key: string, value: Json, rest: Members)

  // ------------------------------------------------------------ printing

  function HexDigit(n: nat): char
    requires n < 16
  {
    if n < 10 then (n + 0x30) as char else (n + 0x57) as char
  }

  // Section 7 of RFC 8259: quotation mark, reverse solidus and control characters are escaped,
  // everything else stands for itself (ensure_ascii is off).
  function Escape(c: char): (r: string)
    ensures r != ""
  {
    if c == '"' then "\\\""
    else if c == '\\' then "\\\\"
    else if c as int == 0x0A then "\\n"
    else if c as int == 0x0D then "\\r"
    else if c as int == 0x09 then "\\t"
    else if c as int == 0x0C then "\\f"
    else if c as int == 0x08 then "\\b"
    else if c as int < 0x20 then "\\u00" + [HexDigit(c as int / 16), HexDigit(c as int % 16)]
    else [c]
  }

  // Every printer below writes its value in front of the text `rest` that follows it.
  function EscapeTo(s: string, rest: string): string {
    if s == "" then rest else Escape(s[0]) + EscapeTo(s[1..], rest)
  }

  function QuoteTo(s: string, rest: string): string { "\"" + EscapeTo(s, "\"" + rest) }

  function PrintTo(v: Json, rest: string): string {
    match v
    case Null => "null" + rest
    case Bool(b) => (if b then "true" else "false") + rest
    case Num(t) => t + rest
    case Str(s) => QuoteTo(s, rest)
    case Arr(xs) => "[" + PrintItemsTo(xs, "]" + rest)
    case Obj(ms) => "{" + PrintMembersTo(ms, "}" + rest)
  }

  function PrintItemsTo(xs: Items, rest: string): string {
    match xs
    case INil => rest
    case ICons(h, t) => PrintTo(h, if t.INil? then rest else "," + PrintItemsTo(t, rest))
  }

  function PrintMembersTo(ms: Members, rest: string): string {
    match ms
    case MNil => rest
    case MCons(k, v, t) => QuoteTo(k, ":" + PrintTo(v, if t.MNil? then rest else "," + PrintMembersTo(t, rest)))
  }

  function Print(v: Json): string { PrintTo(v, "") }

  // ------------------------------------------------------------ values

  // A number token holds no separator or closing bracket and cannot be taken for another kind.
  predicate TokenOk(t: string) {
    t != "" && t[0] !in ['"', '[', '{', 'n', 't', 'f'] && forall i :: 0 <= i < |t| ==> !Closes(t[i])
  }

  predicate Closes(c: char) { c == ',' || c == ']' || c == '}' }

  function KeySet(ms: Members): set<string> {
    match ms
    case MNil => {}
    case MCons(k, _, t) => {k} + KeySet(t)
  }

  // Values as Python holds them: proper number tokens and no duplicate keys.
  predicate WellFormed(v: Json) {
    match v
    case Num(t) => TokenOk(t)
    case Arr(xs) => ItemsWellFormed(xs)
    case Obj(ms) => MembersWellFormed(ms)
    case _ => true
  }

  predicate ItemsWellFormed(xs: Items) {
    match xs
    case INil => true
    case ICons(h, t) => WellFormed(h) && ItemsWellFormed(t)
  }

  predicate MembersWellFormed(ms: Members) {
    match ms
    case MNil => true
    case MCons(k, v, t) => k !in KeySet(t) && WellFormed(v) && MembersWellFormed(t)
  }

  // ------------------------------------------------------------ unique reading

  lemma EscapeReads(c: char, d: char, x: string, y: string)
    requires Escape(c) + x == Escape(d) + y
    ensures c == d && x == y
  {
    var u := Escape(c) + x;
    var p, q := Escape(c), Escape(d);
    assert u[0] == p[0] == q[0];
    assert |p| > 1 && |q| > 1 ==> u[1] == p[1] == q[1];
    assert |p| == 6 && |q| == 6 ==> u[4] == p[4] == q[4] && u[5] == p[5] == q[5];
    assert c == d;
    assert u[|p|..] == x && u[|q|..] == y;
  }

  lemma {:induction false} StringReads(s: string, t: string, x: string, y: string)
    requires EscapeTo(s, "\"" + x) == EscapeTo(t, "\"" + y)
    ensures s == t && x == y
  {
    var u := EscapeTo(s, "\"" + x);
    if s == "" || t == "" {
      EscapeHead(s, x);
      EscapeHead(t, y);
      assert ("\"" + x)[1..] == x && ("\"" + y)[1..] == y;
    } else {
      EscapeReads(s[0], t[0], EscapeTo(s[1..], "\"" + x), EscapeTo(t[1..], "\"" + y));
      StringReads(s[1..], t[1..], x, y);
      assert s == [s[0]] + s[1..] && t == [t[0]] + t[1..];
    }
  }

  // Only the closing quotation mark starts with one.
  lemma EscapeHead(s: string, x: string)
    ensures EscapeTo(s, "\"" + x) != "" && (EscapeTo(s, "\"" + x)[0] == '"' <==> s == "")
  {
  }

  lemma QuoteReads(s: string, t: string, x: string, y: string)
    requires QuoteTo(s, x) == QuoteTo(t, y)
    ensures s == t && x == y
  {
    assert QuoteTo(s, x)[1..] == EscapeTo(s, "\"" + x) && QuoteTo(t, y)[1..] == EscapeTo(t, "\"" + y);
    StringReads(s, t, x, y);
  }

  predicate Ends(x: string) { x == "" || Closes(x[0]) }

  lemma {:induction false} TokenReads(t: string, u: string, x: string, y: string)
    requires (forall i :: 0 <= i < |t| ==> !Closes(t[i])) && (forall i :: 0 <= i < |u| ==> !Closes(u[i]))
    requires Ends(x) && Ends(y) && t + x == u + y
    ensures t == u && x == y
  {
    TokenHead(t, x);
    TokenHead(u, y);
    if t != "" && u != "" {
      assert (t + x)[1..] == t[1..] + x && (u + y)[1..] == u[1..] + y && (t + x)[0] == t[0] && (u + y)[0] == u[0];
      TokenReads(t[1..], u[1..], x, y);
      assert t == [t[0]] + t[1..] && u == [u[0]] + u[1..];
    } else {
      assert t == "" ==> t + x == x;
      assert u == "" ==> u + y == y;
    }
  }

  lemma TokenHead(t: string, x: string)
    requires Ends(x) && forall i :: 0 <= i < |t| ==> !Closes(t[i])
    ensures Ends(t + x) <==> t == ""
  {
    if t == "" { assert t + x == x; } else { assert (t + x)[0] == t[0]; }
  }

  // The first character of a printed value tells its kind.
  function Kind(v: Json): nat {
    match v
    case Null => 0
    case Bool(b) => if b then 1 else 2
    case Num(_) => 3
    case Str(_) => 4
    case Arr(_) => 5
    case Obj(_) => 6
  }

  function KindOfChar(c: char): nat {
    if c == 'n' then 0 else if c == 't' then 1 else if c == 'f' then 2
    else if c == '"' then 4 else if c == '[' then 5 else if c == '{' then 6 else 3
  }

  lemma FirstChar(v: Json, x: string)
    requires WellFormed(v)
    ensures PrintTo(v, x) != "" && KindOfChar(PrintTo(v, x)[0]) == Kind(v) && !Closes(PrintTo(v, x)[0])
  {
  }

  // Equal texts hold equal values in front of equal rests.
  lemma {:induction false} ValueReads(v: Json, w: Json, x: string, y: string)
    requires WellFormed(v) && WellFormed(w) && Ends(x) && Ends(y)
    requires PrintTo(v, x) == PrintTo(w, y)
    ensures v == w && x == y
    decreases v
  {
    var u := PrintTo(v, x);
    FirstChar(v, x);
    FirstChar(w, y);
    match v {
      case Null => assert u[4..] == x && u[4..] == y;
      case Bool(b) => assert u[if b then 4 else 5..] == x && u[if b then 4 else 5..] == y;
      case Num(t) => TokenReads(t, w.token, x, y);
      case Str(s) => QuoteReads(s, w.s, x, y);
      case Arr(xs) =>
        assert u[1..] == PrintItemsTo(xs, "]" + x) && u[1..] == PrintItemsTo(w.items, "]" + y);
        ItemsRead(xs, w.items, x, y);
      case Obj(ms) =>
        assert u[1..] == PrintMembersTo(ms, "}" + x) && u[1..] == PrintMembersTo(w.members, "}" + y);
        MembersRead(ms, w.members, x, y);
    }
  }

  lemma {:induction false} ItemsRead(xs: Items, ys: Items, x: string, y: string)
    requires ItemsWellFormed(xs) && ItemsWellFormed(ys)
    requires PrintItemsTo(xs, "]" + x) == PrintItemsTo(ys, "]" + y)
    ensures xs == ys && x == y
    decreases xs
  {
    var cx, cy := "]" + x, "]" + y;
    if xs.INil? || ys.INil? {
      if xs.ICons? { FirstChar(xs.head, if xs.tail.INil? then cx else "," + PrintItemsTo(xs.tail, cx)); }
      if ys.ICons? { FirstChar(ys.head, if ys.tail.INil? then cy else "," + PrintItemsTo(ys.tail, cy)); }
      assert cx[1..] == x && cy[1..] == y;
    } else {
      var rx := if xs.tail.INil? then cx else "," + PrintItemsTo(xs.tail, cx);
      var ry := if ys.tail.INil? then cy else "," + PrintItemsTo(ys.tail, cy);
      ValueReads(xs.head, ys.head, rx, ry);
      assert xs.tail.INil? <==> ys.tail.INil?;
      if xs.tail.INil? {
        assert cx[1..] == x && cy[1..] == y;
      } else {
        assert rx[1..] == PrintItemsTo(xs.tail, cx) && ry[1..] == PrintItemsTo(ys.tail, cy);
        ItemsRead(xs.tail, ys.tail, x, y);
      }
    }
  }

  lemma {:induction false} MembersRead(ms: Members, ns: Members, x: string, y: string)
    requires MembersWellFormed(ms) && MembersWellFormed(ns)
    requires PrintMembersTo(ms, "}" + x) == PrintMembersTo(ns, "}" + y)
    ensures ms == ns && x == y
    decreases ms
  {
    var cx, cy := "}" + x, "}" + y;
    if ms.MNil? || ns.MNil? {
      assert PrintMembersTo(ms, cx)[0] == if ms.MNil? then '}' else '"';
      assert PrintMembersTo(ns, cy)[0] == if ns.MNil? then '}' else '"';
      assert cx[1..] == x && cy[1..] == y;
    } else {
      var rx := if ms.rest.MNil? then cx else "," + PrintMembersTo(ms.rest, cx);
      var ry := if ns.rest.MNil? then cy else "," + PrintMembersTo(ns.rest, cy);
      var vx, vy := ":" + PrintTo(ms.value, rx), ":" + PrintTo(ns.value, ry);
      QuoteReads(ms.key, ns.key, vx, vy);
      assert vx[1..] == PrintTo(ms.value, rx) && vy[1..] == PrintTo(ns.value, ry);
      ValueReads(ms.value, ns.value, rx, ry);
      assert ms.rest.MNil? <==> ns.rest.MNil?;
      if ms.rest.MNil? {
        assert cx[1..] == x && cy[1..] == y;
      } else {
        assert rx[1..] == PrintMembersTo(ms.rest, cx) && ry[1..] == PrintMembersTo(ns.rest, cy);
        MembersRead(ms.rest, ns.rest, x, y);
      }
    }
  }
}
