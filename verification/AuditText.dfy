/** The signed document written out: which members it has, in which order, and their text. */
module AuditText {
  import opened Options
  import opened Json
  import opened JsonCanon
  import opened JsonText
  import opened AuditSigning
  import IsoTime
  import Utf8

  const NAMES: seq<string> :=
    ["action", "actor_user_id", "correlation_id", "created_at", "id", "payload", "resource_id", "resource_type",
     "tenant_id", "version"]

  function Values(e: Event, payload: Json, version: string): (r: seq<Json>)
    ensures |r| == 10
  {
    [Str(e.action), OrNull(e.actorUserId), OrNull(e.correlationId), Str(IsoTime.IsoUtc(e.createdAt)), Str(e.id),
     payload, OrNull(e.resourceId), Str(e.resourceType), Str(e.tenantId), Str(version)]
  }

  // ------------------------------------------------------------ lists of members

  predicate Ascending(ks: seq<string>) { forall i :: 0 < i < |ks| ==> Before(ks[i - 1], ks[i]) }

  lemma {:induction false} FirstIsLeast(ks: seq<string>, i: nat)
    requires Ascending(ks) && 0 < i < |ks|
    ensures Before(ks[0], ks[i])
  {
    if i > 1 {
      FirstIsLeast(ks, i - 1);
      BeforeTransitive(ks[0], ks[i - 1], ks[i]);
    }
  }

  lemma {:induction false} ZipSorted(ks: seq<string>, vs: seq<Json>)
    requires |ks| == |vs| && Ascending(ks) && forall i :: 0 <= i < |vs| ==> Canonical(vs[i])
    ensures Sorted(Zip(ks, vs)) && CanonicalMembers(Zip(ks, vs))
  {
    if ks != [] {
      ZipSorted(ks[1..], vs[1..]);
      ZipKeys(ks[1..], vs[1..]);
      forall k | k in ks[1..] ensures Before(ks[0], k) {
        var i :| 0 <= i < |ks[1..]| && ks[1..][i] == k;
        FirstIsLeast(ks, i + 1);
      }
    }
  }

  lemma {:induction false} AscendingDiffer(ks: seq<string>)
    requires Ascending(ks)
    ensures NoRepeats(ks)
  {
    forall i, j | 0 <= i < j < |ks| ensures ks[i] != ks[j] {
      FirstIsLeast(ks[i..], j - i);
      BeforeTotal(ks[i], ks[i]);
    }
  }

  lemma {:induction false} ZipAt(ks: seq<string>, vs: seq<Json>, i: nat)
    requires |ks| == |vs| && NoRepeats(ks) && i < |ks|
    ensures ks[i] in DenoteMembers(Zip(ks, vs)) && DenoteMembers(Zip(ks, vs))[ks[i]] == Denote(vs[i])
  {
    if i > 0 { ZipAt(ks[1..], vs[1..], i - 1); }
  }

  // The same members in another order.
  predicate Shuffled(ks: seq<string>, vs: seq<Json>, ks': seq<string>, vs': seq<Json>, at: seq<nat>, back: seq<nat>) {
    && |ks| == |vs| == |ks'| == |vs'| == |at| == |back|
    && (forall i :: 0 <= i < |at| ==> at[i] < |ks| && ks'[i] == ks[at[i]] && Denote(vs'[i]) == Denote(vs[at[i]]))
    && (forall j :: 0 <= j < |back| ==> back[j] < |at| && at[back[j]] == j)
  }

  lemma ShuffledAt(ks: seq<string>, vs: seq<Json>, ks': seq<string>, vs': seq<Json>, at: seq<nat>, back: seq<nat>,
                   j: nat)
    requires Shuffled(ks, vs, ks', vs', at, back) && NoRepeats(ks') && j < |ks|
    ensures ks[j] in DenoteMembers(Zip(ks', vs')) && DenoteMembers(Zip(ks', vs'))[ks[j]] == Denote(vs[j])
  {
    var i := back[j];
    assert at[i] == j && ks'[i] == ks[j];
    ZipAt(ks', vs', i);
  }

  lemma ShuffledKeys(ks: seq<string>, vs: seq<Json>, ks': seq<string>, vs': seq<Json>, at: seq<nat>, back: seq<nat>)
    requires Shuffled(ks, vs, ks', vs', at, back)
    ensures forall k :: k in ks' ==> k in ks
  {
    forall i | 0 <= i < |ks'| ensures ks'[i] in ks { assert ks'[i] == ks[at[i]]; }
  }

  lemma ShuffledDenote(ks: seq<string>, vs: seq<Json>, ks': seq<string>, vs': seq<Json>, at: seq<nat>, back: seq<nat>)
    requires Shuffled(ks, vs, ks', vs', at, back) && NoRepeats(ks) && NoRepeats(ks')
    ensures DenoteMembers(Zip(ks, vs)) == DenoteMembers(Zip(ks', vs'))
  {
    var m, m' := DenoteMembers(Zip(ks, vs)), DenoteMembers(Zip(ks', vs'));
    ZipKeys(ks, vs);
    ZipKeys(ks', vs');
    ShuffledKeys(ks, vs, ks', vs', at, back);
    forall j | 0 <= j < |ks| ensures ks[j] in m && ks[j] in m' && m[ks[j]] == m'[ks[j]] {
      ZipAt(ks, vs, j);
      ShuffledAt(ks, vs, ks', vs', at, back, j);
    }
    assert forall k :: k in m <==> k in m';
  }

  // ------------------------------------------------------------ the document

  lemma Differ(a: string, b: string, i: nat)
    requires DecidedAt(a, b, i)
    ensures Before(a, b)
  {
    BeforeExact(a, b);
  }

  lemma EarlyNames()
    ensures forall i :: 0 < i < 6 ==> Before(NAMES[i - 1], NAMES[i])
  {
    var n := NAMES;
    Differ(n[0], n[1], 3);
    Differ(n[1], n[2], 0);
    Differ(n[2], n[3], 1);
    Differ(n[3], n[4], 0);
    Differ(n[4], n[5], 0);
  }

  lemma LateNames()
    ensures forall i :: 6 <= i < 10 ==> Before(NAMES[i - 1], NAMES[i])
  {
    var n := NAMES;
    Differ(n[5], n[6], 0);
    Differ(n[6], n[7], 9);
    Differ(n[7], n[8], 0);
    Differ(n[8], n[9], 0);
  }

  lemma NamesAscend()
    ensures Ascending(NAMES) && |NAMES| == 10
  {
    EarlyNames();
    LateNames();
  }

  // The payload with its keys ascending at every depth.
  predicate InOrder(e: Event, payload: Json) {
    Canonical(payload) &&
    Denote(payload) == VObj(if e.payload.Some? then DenoteMembers(e.payload.value) else map[])
  }

  lemma Arranged(e: Event, payload: Json, version: string)
    requires InOrder(e, payload) && version == VERSION
    ensures Shuffled(FIELD_NAMES, FieldValues(e), NAMES, Values(e, payload, version), [3, 2, 7, 8, 0, 6, 5, 4, 1, 9],
                     [4, 8, 1, 0, 7, 6, 5, 2, 3, 9])
  {
  }

  lemma DocumentSorted(e: Event, payload: Json, version: string)
    requires ValidEvent(e) && InOrder(e, payload) && version == VERSION
    ensures Canon(Document(e)) == Obj(Zip(NAMES, Values(e, payload, version)))
  {
    var vs := Values(e, payload, version);
    NamesAscend();
    NamesDiffer();
    AscendingDiffer(NAMES);
    DocumentWellFormed(e);
    CanonKeeps(Document(e));
    ZipSorted(NAMES, vs);
    Arranged(e, payload, version);
    ShuffledDenote(FIELD_NAMES, FieldValues(e), NAMES, vs, [3, 2, 7, 8, 0, 6, 5, 4, 1, 9],
                   [4, 8, 1, 0, 7, 6, 5, 2, 3, 9]);
    CanonicalUnique(Canon(Document(e)), Obj(Zip(NAMES, vs)));
  }

  // ------------------------------------------------------------ its text

  function Member(name: string, text: string): string { "\"" + name + "\":" + text }

  predicate PlainName(name: string) { forall i :: 0 <= i < |name| ==> 'a' <= name[i] <= 'z' || name[i] == '_' }

  lemma NamesPlain()
    ensures forall i :: 0 <= i < |NAMES| ==> PlainName(NAMES[i])
  {
  }

  lemma MemberText(k: string, t: string)
    requires PlainName(k)
    ensures Print(Str(k)) + ":" + t == Member(k, t)
  {
    TextOf(Str(k));
    NothingToEscape(k);
  }

  lemma {:induction false} TextsAt(ks: seq<string>, vs: seq<Json>, i: nat)
    requires |ks| == |vs| && i < |ks| && forall j :: 0 <= j < |ks| ==> PlainName(ks[j])
    ensures |MemberTexts(Zip(ks, vs))| == |ks| && MemberTexts(Zip(ks, vs))[i] == Member(ks[i], Print(vs[i]))
    decreases |ks|
  {
    MemberText(ks[0], Print(vs[0]));
    if |ks| > 1 { TextsAt(ks[1..], vs[1..], if i == 0 then 0 else i - 1); }
  }

  function Text(s: string): string { Print(Str(s)) }

  function TextOrNull(s: Option<string>): string { if s.Some? then Text(s.value) else "null" }

  function Parts(e: Event, payload: Json, version: string): (r: seq<string>)
    ensures |r| == 10
  {
    [Text(e.action), TextOrNull(e.actorUserId), TextOrNull(e.correlationId), Text(IsoTime.IsoUtc(e.createdAt)),
     Text(e.id), Print(payload), TextOrNull(e.resourceId), Text(e.resourceType), Text(e.tenantId), Text(version)]
  }

  lemma ValueTexts(e: Event, payload: Json, version: string, i: nat)
    requires i < 10
    ensures Print(Values(e, payload, version)[i]) == Parts(e, payload, version)[i]
  {
    TextOf(Null);
  }

  function Members10(ts: seq<string>): (r: seq<string>)
    requires |ts| == 10
    ensures |r| == 10
  {
    seq(10, i requires 0 <= i < 10 => Member(NAMES[i], ts[i]))
  }

  lemma DocumentText(e: Event, payload: Json, version: string)
    ensures Print(Obj(Zip(NAMES, Values(e, payload, version)))) ==
            "{" + Commas(Members10(Parts(e, payload, version))) + "}"
  {
    var vs := Values(e, payload, version);
    var texts := MemberTexts(Zip(NAMES, vs));
    NamesPlain();
    TextOf(Obj(Zip(NAMES, vs)));
    forall i | 0 <= i < 10 ensures |texts| == 10 && texts[i] == Members10(Parts(e, payload, version))[i] {
      TextsAt(NAMES, vs, i);
      ValueTexts(e, payload, version, i);
    }
    assert texts == Members10(Parts(e, payload, version));
  }

  lemma WrittenOut(ts: seq<string>)
    requires |ts| == 10
    ensures Members10(ts) ==
            [Member("action", ts[0]), Member("actor_user_id", ts[1]), Member("correlation_id", ts[2]),
             Member("created_at", ts[3]), Member("id", ts[4]), Member("payload", ts[5]), Member("resource_id", ts[6]),
             Member("resource_type", ts[7]), Member("tenant_id", ts[8]), Member("version", ts[9])]
  {
  }

  // The signed bytes of every event: its nine fields and the version as one object without any
  // blanks, names ascending, absent values null, in UTF-8.
  lemma SignedBytes(e: Event, payload: Json)
    requires ValidEvent(e) && InOrder(e, payload)
    ensures CanonicalPayload(e) ==
            Utf8.Encode("{" + Commas([Member("action", Text(e.action)),
                                      Member("actor_user_id", TextOrNull(e.actorUserId)),
                                      Member("correlation_id", TextOrNull(e.correlationId)),
                                      Member("created_at", Text(IsoTime.IsoUtc(e.createdAt))),
                                      Member("id", Text(e.id)),
                                      Member("payload", Print(payload)),
                                      Member("resource_id", TextOrNull(e.resourceId)),
                                      Member("resource_type", Text(e.resourceType)),
                                      Member("tenant_id", Text(e.tenantId)),
                                      Member("version", Text("v1"))]) + "}")
  {
    var version := "v1";
    DocumentSorted(e, payload, version);
    DocumentText(e, payload, version);
    WrittenOut(Parts(e, payload, version));
  }

  // Every payload has exactly one such arrangement.
  lemma OneArrangement(e: Event)
    requires ValidEvent(e)
    ensures exists payload :: InOrder(e, payload) && forall other :: InOrder(e, other) ==> other == payload
  {
    var p := Canon(Obj(PayloadOf(e)));
    CanonKeeps(Obj(PayloadOf(e)));
    assert InOrder(e, p);
    forall other | InOrder(e, other) ensures other == p { CanonicalUnique(other, p); }
  }
}
