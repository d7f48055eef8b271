/** Sorting the members of every object, and the value a document denotes once the order of
    its members is forgotten. */
module JsonCanon {
  import opened Json

  // Python compares strings by code point.
  predicate Before(a: string, b: string) {
    if b == "" then false
    else if a == "" then true
    else a[0] < b[0] || (a[0] == b[0] && Before(a[1..], b[1..]))
  }

  lemma BeforeTotal(a: string, b: string)
    ensures a == b || Before(a, b) || Before(b, a)
    ensures !(Before(a, b) && Before(b, a)) && !Before(a, a)
  {
    if a != "" && b != "" {
      BeforeTotal(a[1..], b[1..]);
      assert a == [a[0]] + a[1..] && b == [b[0]] + b[1..];
    }
    if a != "" { BeforeTotal(a[1..], a[1..]); }
  }

  // The first difference decides, and a proper prefix comes first.
  predicate DecidedAt(a: string, b: string, i: nat) {
    i <= |a| && i < |b| && a[..i] == b[..i] && (i == |a| || a[i] < b[i])
  }

  lemma {:induction false} BeforeExact(a: string, b: string)
    ensures Before(a, b) <==> exists i: nat :: DecidedAt(a, b, i)
  {
    if a == "" || b == "" {
      if b != "" {
        assert a[..0] == b[..0];
        assert DecidedAt(a, b, 0);
      }
    } else {
      BeforeExact(a[1..], b[1..]);
      if i: nat :| DecidedAt(a, b, i) { DecidedBehind(a, b, i); }
      if a[0] == b[0] && Before(a[1..], b[1..]) {
        var i: nat :| DecidedAt(a[1..], b[1..], i);
        DecidedBehind(a, b, i + 1);
      }
      if a[0] < b[0] { DecidedBehind(a, b, 0); }
    }
  }

  lemma DecidedBehind(a: string, b: string, i: nat)
    requires a != "" && b != ""
    ensures i > 0 ==> (DecidedAt(a, b, i) <==> a[0] == b[0] && DecidedAt(a[1..], b[1..], i - 1))
    ensures i == 0 ==> (DecidedAt(a, b, i) <==> a[0] < b[0])
  {
    assert a[..0] == b[..0];
    if 0 < i <= |a| && i < |b| {
      ConsAgree(a[0], b[0], a[1..][..i - 1], b[1..][..i - 1]);
      assert a[..i] == [a[0]] + a[1..][..i - 1] && b[..i] == [b[0]] + b[1..][..i - 1];
    }
  }

  lemma ConsAgree(x: char, y: char, s: string, t: string)
    ensures [x] + s == [y] + t <==> x == y && s == t
  {
    assert ([x] + s)[0] == x && ([x] + s)[1..] == s && ([y] + t)[0] == y && ([y] + t)[1..] == t;
  }

  lemma BeforeTransitive(a: string, b: string, c: string)
    requires Before(a, b) && Before(b, c)
    ensures Before(a, c)
  {
    if a != "" && a[0] == b[0] && b[0] == c[0] { BeforeTransitive(a[1..], b[1..], c[1..]); }
  }

  function Insert(k: string, v: Json, ms: Members): (r: Members)
    ensures KeySet(r) == {k} + KeySet(ms)
  {
    match ms
    case MNil => MCons(k, v, MNil)
    case MCons(k2, v2, t) => if Before(k, k2) then MCons(k, v, ms) else MCons(k2, v2, Insert(k, v, t))
  }

  // `sort_keys=True`, at every depth.
  function Canon(v: Json): Json {
    match v
    case Arr(xs) => Arr(CanonItems(xs))
    case Obj(ms) => Obj(CanonMembers(ms))
    case _ => v
  }

  function CanonItems(xs: Items): Items {
    match xs
    case INil => INil
    case ICons(h, t) => ICons(Canon(h), CanonItems(t))
  }

  function CanonMembers(ms: Members): (r: Members)
    ensures KeySet(r) == KeySet(ms)
  {
    match ms
    case MNil => MNil
    case MCons(k, v, t) => Insert(k, Canon(v), CanonMembers(t))
  }

  function Dumps(v: Json): string { Print(Canon(v)) }

  // ------------------------------------------------------------ denotation

  datatype Value =
    | VNull
    | VBool(b: bool)
    | VNum(token: string)
    | VStr(s: string)
    | VArr(items: seq<Value>)
    | VObj(members: map<string, Value>)

  function Denote(v: Json): Value {
    match v
    case Null => VNull
    case Bool(b) => VBool(b)
    case Num(t) => VNum(t)
    case Str(s) => VStr(s)
    case Arr(xs) => VArr(DenoteItems(xs))
    case Obj(ms) => VObj(DenoteMembers(ms))
  }

  function DenoteItems(xs: Items): seq<Value> {
    match xs
    case INil => []
    case ICons(h, t) => [Denote(h)] + DenoteItems(t)
  }

  function DenoteMembers(ms: Members): (r: map<string, Value>)
    ensures r.Keys == KeySet(ms)
  {
    match ms
    case MNil => map[]
    case MCons(k, v, t) => DenoteMembers(t)[k := Denote(v)]
  }

  // ------------------------------------------------------------ canonical forms

  predicate Sorted(ms: Members) {
    ms.MNil? || ((forall k :: k in KeySet(ms.rest) ==> Before(ms.key, k)) && Sorted(ms.rest))
  }

  predicate Canonical(v: Json) {
    match v
    case Arr(xs) => CanonicalItems(xs)
    case Obj(ms) => Sorted(ms) && CanonicalMembers(ms)
    case _ => true
  }

  predicate CanonicalItems(xs: Items) { xs.INil? || (Canonical(xs.head) && CanonicalItems(xs.tail)) }

  predicate CanonicalMembers(ms: Members) { ms.MNil? || (Canonical(ms.value) && CanonicalMembers(ms.rest)) }

  lemma {:induction false} InsertSorted(k: string, v: Json, ms: Members)
    requires Sorted(ms) && k !in KeySet(ms)
    ensures Sorted(Insert(k, v, ms))
    decreases ms
  {
    if ms.MCons? {
      BeforeTotal(k, ms.key);
      if Before(k, ms.key) {
        forall k2 | k2 in KeySet(ms) ensures Before(k, k2) {
          if k2 != ms.key { BeforeTransitive(k, ms.key, k2); }
        }
      } else {
        InsertSorted(k, v, ms.rest);
      }
    }
  }

  lemma {:induction false} InsertDenotes(k: string, v: Json, ms: Members)
    requires k !in KeySet(ms)
    ensures DenoteMembers(Insert(k, v, ms)) == DenoteMembers(ms)[k := Denote(v)]
    decreases ms
  {
    if ms.MCons? {
      InsertDenotes(k, v, ms.rest);
      UpdatesSwap(DenoteMembers(ms.rest), k, Denote(v), ms.key, Denote(ms.value));
    }
  }

  lemma UpdatesSwap(m: map<string, Value>, k: string, x: Value, k2: string, y: Value)
    requires k != k2
    ensures m[k := x][k2 := y] == m[k2 := y][k := x]
  {
  }

  lemma {:induction false} InsertForm(k: string, v: Json, ms: Members)
    requires k !in KeySet(ms)
    ensures CanonicalMembers(ms) && Canonical(v) ==> CanonicalMembers(Insert(k, v, ms))
    ensures MembersWellFormed(ms) && WellFormed(v) ==> MembersWellFormed(Insert(k, v, ms))
    decreases ms
  {
    if ms.MCons? { InsertForm(k, v, ms.rest); }
  }

  lemma {:induction false} CanonKeeps(v: Json)
    requires WellFormed(v)
    ensures Canonical(Canon(v)) && WellFormed(Canon(v)) && Denote(Canon(v)) == Denote(v)
    decreases v
  {
    match v
    case Arr(xs) => CanonKeepsItems(xs);
    case Obj(ms) => CanonKeepsMembers(ms);
    case _ =>
  }

  lemma {:induction false} CanonKeepsItems(xs: Items)
    requires ItemsWellFormed(xs)
    ensures CanonicalItems(CanonItems(xs)) && ItemsWellFormed(CanonItems(xs)) &&
            DenoteItems(CanonItems(xs)) == DenoteItems(xs)
    decreases xs
  {
    if xs.ICons? {
      CanonKeeps(xs.head);
      CanonKeepsItems(xs.tail);
    }
  }

  lemma {:induction false} CanonKeepsMembers(ms: Members)
    requires MembersWellFormed(ms)
    ensures Sorted(CanonMembers(ms)) && CanonicalMembers(CanonMembers(ms)) && MembersWellFormed(CanonMembers(ms))
    ensures DenoteMembers(CanonMembers(ms)) == DenoteMembers(ms)
    decreases ms
  {
    if ms.MCons? {
      CanonKeeps(ms.value);
      CanonKeepsMembers(ms.rest);
      InsertSorted(ms.key, Canon(ms.value), CanonMembers(ms.rest));
      InsertDenotes(ms.key, Canon(ms.value), CanonMembers(ms.rest));
      InsertForm(ms.key, Canon(ms.value), CanonMembers(ms.rest));
    }
  }

  // ------------------------------------------------------------ one form per value

  lemma {:induction false} CanonicalUnique(v: Json, w: Json)
    requires Canonical(v) && Canonical(w) && Denote(v) == Denote(w)
    ensures v == w
    decreases v
  {
    match v
    case Arr(xs) => CanonicalUniqueItems(xs, w.items);
    case Obj(ms) => CanonicalUniqueMembers(ms, w.members);
    case _ =>
  }

  lemma {:induction false} CanonicalUniqueItems(xs: Items, ys: Items)
    requires CanonicalItems(xs) && CanonicalItems(ys) && DenoteItems(xs) == DenoteItems(ys)
    ensures xs == ys
    decreases xs
  {
    if xs.ICons? && ys.ICons? {
      var dx, dy := DenoteItems(xs), DenoteItems(ys);
      assert dx[0] == Denote(xs.head) && dy[0] == Denote(ys.head);
      assert dx[1..] == DenoteItems(xs.tail) && dy[1..] == DenoteItems(ys.tail);
      CanonicalUnique(xs.head, ys.head);
      CanonicalUniqueItems(xs.tail, ys.tail);
    }
  }

  lemma NoKeys(ms: Members)
    ensures KeySet(ms) == {} <==> ms.MNil?
  {
    if ms.MCons? { assert ms.key in KeySet(ms); }
  }

  lemma {:induction false} CanonicalUniqueMembers(ms: Members, ns: Members)
    requires Sorted(ms) && Sorted(ns) && CanonicalMembers(ms) && CanonicalMembers(ns)
    requires DenoteMembers(ms) == DenoteMembers(ns)
    ensures ms == ns
    decreases ms
  {
    var dm, dn := DenoteMembers(ms), DenoteMembers(ns);
    assert dm.Keys == KeySet(ms) && dn.Keys == KeySet(ns);
    if ms.MCons? && ns.MCons? {
      assert ms.key in dm && ns.key in dn;
      BeforeTotal(ms.key, ns.key);
      assert ms.key == ns.key;
      assert Denote(ms.value) == dm[ms.key] == dn[ns.key] == Denote(ns.value);
      BeforeTotal(ms.key, ms.key);
      assert DenoteMembers(ms.rest) == dm - {ms.key} && DenoteMembers(ns.rest) == dn - {ns.key};
      CanonicalUnique(ms.value, ns.value);
      CanonicalUniqueMembers(ms.rest, ns.rest);
    } else {
      NoKeys(ms);
      NoKeys(ns);
    }
  }

  // The serialiser separates values: equal text exactly for equal values, whatever the
  // order in which members were inserted, at any depth.
  lemma DumpsSeparates(v: Json, w: Json)
    requires WellFormed(v) && WellFormed(w)
    ensures Dumps(v) == Dumps(w) <==> Denote(v) == Denote(w)
  {
    CanonKeeps(v);
    CanonKeeps(w);
    if Denote(v) == Denote(w) { CanonicalUnique(Canon(v), Canon(w)); }
    if Dumps(v) == Dumps(w) { ValueReads(Canon(v), Canon(w), "", ""); }
  }
}
