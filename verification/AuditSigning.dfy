/** Canonical bytes of an audit event, and the signature that is checked against them. */
module AuditSigning {
  import opened Options
  import opened Json
  import opened JsonCanon
  import IsoTime
  import Utf8

  type Bytes = seq<Utf8.Byte>

  // UUIDs are their canonical strings. `payload` is a dict or nothing.
  datatype Event = Event(id: string, tenantId: string, actorUserId: Option<string>, action: string,
                         resourceType: string, resourceId: Option<string>, payload: Option<Members>,
                         correlationId: Option<string>, createdAt: IsoTime.Time)

  predicate ValidEvent(e: Event) {
    IsoTime.Valid(e.createdAt) && MembersWellFormed(PayloadOf(e))
  }

  // `payload or {}`.
  function PayloadOf(e: Event): Members {
    if e.payload.Some? then e.payload.value else MNil
  }

  function OrNull(s: Option<string>): Json {
    if s.Some? then Str(s.value) else Null
  }

  const VERSION := "v1"

  const FIELD_NAMES: seq<string> :=
    ["id", "tenant_id", "actor_user_id", "action", "resource_type", "resource_id", "payload", "correlation_id",
     "created_at", "version"]

  function FieldValues(e: Event): (r: seq<Json>)
    ensures |r| == 10
  {
    [Str(e.id), Str(e.tenantId), OrNull(e.actorUserId), Str(e.action), Str(e.resourceType), OrNull(e.resourceId),
     Obj(PayloadOf(e)), OrNull(e.correlationId), Str(IsoTime.IsoUtc(e.createdAt)), Str(VERSION)]
  }

  function Zip(ks: seq<string>, vs: seq<Json>): Members
    requires |ks| == |vs|
  {
    if ks == [] then MNil else MCons(ks[0], vs[0], Zip(ks[1..], vs[1..]))
  }

  function Document(e: Event): Json { Obj(Zip(FIELD_NAMES, FieldValues(e))) }

  function CanonicalPayload(e: Event): Bytes { Utf8.Encode(Dumps(Document(e))) }

  // ------------------------------------------------------------ bytes separate events

  predicate NoRepeats(ks: seq<string>) {
    forall i, j :: 0 <= i < j < |ks| ==> ks[i] != ks[j]
  }

  lemma ZipKeys(ks: seq<string>, vs: seq<Json>)
    requires |ks| == |vs|
    ensures forall k :: k in KeySet(Zip(ks, vs)) <==> k in ks
  {
  }

  lemma {:induction false} ZipWellFormed(ks: seq<string>, vs: seq<Json>)
    requires |ks| == |vs| && NoRepeats(ks) && forall i :: 0 <= i < |vs| ==> WellFormed(vs[i])
    ensures MembersWellFormed(Zip(ks, vs))
  {
    if ks != [] {
      ZipWellFormed(ks[1..], vs[1..]);
      ZipKeys(ks[1..], vs[1..]);
    }
  }

  lemma MapCons(k: string, x: Value, y: Value, m: map<string, Value>, n: map<string, Value>)
    requires k !in m && k !in n
    ensures m[k := x] == n[k := y] <==> x == y && m == n
  {
    var p, q := m[k := x], n[k := y];
    assert p[k] == x && q[k] == y && m == p - {k} && n == q - {k};
  }

  predicate SameValues(vs: seq<Json>, ws: seq<Json>)
    requires |vs| == |ws|
  {
    vs == [] || (Denote(vs[0]) == Denote(ws[0]) && SameValues(vs[1..], ws[1..]))
  }

  lemma {:induction false} ZipSeparates(ks: seq<string>, vs: seq<Json>, ws: seq<Json>)
    requires |ks| == |vs| == |ws| && NoRepeats(ks)
    ensures DenoteMembers(Zip(ks, vs)) == DenoteMembers(Zip(ks, ws)) <==> SameValues(vs, ws)
  {
    if ks != [] {
      ZipSeparates(ks[1..], vs[1..], ws[1..]);
      ZipKeys(ks[1..], vs[1..]);
      ZipKeys(ks[1..], ws[1..]);
      MapCons(ks[0], Denote(vs[0]), Denote(ws[0]), DenoteMembers(Zip(ks[1..], vs[1..])),
              DenoteMembers(Zip(ks[1..], ws[1..])));
    }
  }

  lemma NamesDiffer()
    ensures |FIELD_NAMES| == 10 && NoRepeats(FIELD_NAMES)
  {
    var n := FIELD_NAMES;
    assert |n[0]| == 2 && |n[1]| == 9 && |n[2]| == 13 && |n[3]| == 6 && |n[4]| == 13;
    assert |n[5]| == 11 && |n[6]| == 7 && |n[7]| == 14 && |n[8]| == 10 && |n[9]| == 7;
    assert n[2][0] == 'a' && n[4][0] == 'r' && n[6][0] == 'p' && n[9][0] == 'v';
  }

  // All nine signed fields agree: an absent payload is an empty one, payloads are compared as
  // dicts, and timestamps by what is rendered.
  ghost predicate SameEvent(e: Event, f: Event) {
    && e.id == f.id && e.tenantId == f.tenantId && e.actorUserId == f.actorUserId && e.action == f.action
    && e.resourceType == f.resourceType && e.resourceId == f.resourceId && e.correlationId == f.correlationId
    && DenoteMembers(PayloadOf(e)) == DenoteMembers(PayloadOf(f))
    && IsoTime.SameReading(e.createdAt, f.createdAt)
  }

  lemma SameValuesAt(vs: seq<Json>, ws: seq<Json>)
    requires |vs| == |ws|
    ensures SameValues(vs, ws) <==> forall i :: 0 <= i < |vs| ==> Denote(vs[i]) == Denote(ws[i])
  {
    if vs != [] {
      SameValuesAt(vs[1..], ws[1..]);
      assert forall i :: 0 < i < |vs| ==> vs[i] == vs[1..][i - 1] && ws[i] == ws[1..][i - 1];
    }
  }

  lemma OrNullSeparates(s: Option<string>, t: Option<string>)
    ensures Denote(OrNull(s)) == Denote(OrNull(t)) <==> s == t
  {
  }

  lemma FieldsTellEvents(e: Event, f: Event)
    requires ValidEvent(e) && ValidEvent(f) && SameValues(FieldValues(e), FieldValues(f))
    ensures SameEvent(e, f)
  {
    var x, y := FieldValues(e), FieldValues(f);
    SameValuesAt(x, y);
    assert Denote(x[0]) == Denote(y[0]) && Denote(x[1]) == Denote(y[1]) && Denote(x[2]) == Denote(y[2]);
    assert Denote(x[3]) == Denote(y[3]) && Denote(x[4]) == Denote(y[4]) && Denote(x[5]) == Denote(y[5]);
    assert Denote(x[6]) == Denote(y[6]) && Denote(x[7]) == Denote(y[7]) && Denote(x[8]) == Denote(y[8]);
    OrNullSeparates(e.actorUserId, f.actorUserId);
    OrNullSeparates(e.resourceId, f.resourceId);
    OrNullSeparates(e.correlationId, f.correlationId);
    IsoTime.IsoSeparates(e.createdAt, f.createdAt);
  }

  lemma EventsTellFields(e: Event, f: Event)
    requires ValidEvent(e) && ValidEvent(f) && SameEvent(e, f)
    ensures SameValues(FieldValues(e), FieldValues(f))
  {
    IsoTime.IsoSeparates(e.createdAt, f.createdAt);
    SameValuesAt(FieldValues(e), FieldValues(f));
  }

  lemma DocumentWellFormed(e: Event)
    requires ValidEvent(e)
    ensures WellFormed(Document(e))
  {
    NamesDiffer();
    ZipWellFormed(FIELD_NAMES, FieldValues(e));
  }

  // Equal bytes exactly for equal events.
  lemma CanonicalBytesSeparate(e: Event, f: Event)
    requires ValidEvent(e) && ValidEvent(f)
    ensures CanonicalPayload(e) == CanonicalPayload(f) <==> SameEvent(e, f)
  {
    DocumentWellFormed(e);
    DocumentWellFormed(f);
    NamesDiffer();
    ZipSeparates(FIELD_NAMES, FieldValues(e), FieldValues(f));
    if SameValues(FieldValues(e), FieldValues(f)) { FieldsTellEvents(e, f); }
    if SameEvent(e, f) { EventsTellFields(e, f); }
    DumpsSeparates(Document(e), Document(f));
    if CanonicalPayload(e) == CanonicalPayload(f) { Utf8.EncodeInjective(Dumps(Document(e)), Dumps(Document(f))); }
  }

  // ------------------------------------------------------------ signatures

  // `mac(secret, body)` is the base64 text of the keyed digest.
  type Mac = (string, Bytes) -> string

  const VERSION_PREFIX := "v1:"

  datatype Status = SignedOk | Tampered | Unsigned | NoKeyConfigured

  // The two ways a check can raise instead of answering.
  datatype SigningError = EmptySecret | NonAsciiSignature

  predicate Ascii(s: string) { forall i :: 0 <= i < |s| ==> s[i] < 128 as char }

  function ComputeSignature(mac: Mac, secret: string, body: Bytes): Result<string, SigningError> {
    if secret == "" then Err(EmptySecret) else Ok(VERSION_PREFIX + mac(secret, body))
  }

  // `compare_digest` refuses text outside ASCII.
  function VerifySignature(mac: Mac, secret: Option<string>, body: Bytes, stored: Option<string>)
    : Result<Status, SigningError>
  {
    if stored.None? then Ok(Unsigned)
    else if secret.None? || secret.value == "" then Ok(NoKeyConfigured)
    else if !(VERSION_PREFIX <= stored.value) then Ok(Tampered)
    else
      match ComputeSignature(mac, secret.value, body)
      case Err(e) => Err(e)
      case Ok(expected) =>
        if !Ascii(expected) || !Ascii(stored.value) then Err(NonAsciiSignature)
        else Ok(if expected == stored.value then SignedOk else Tampered)
  }

  // What the audit service stores on insert: nothing when no key is configured.
  function Sign(mac: Mac, secret: string, e: Event): Option<string> {
    match ComputeSignature(mac, secret, CanonicalPayload(e))
    case Ok(s) => Some(s)
    case Err(_) => None
  }

  // What the query service reports for a stored row.
  function Check(mac: Mac, secret: Option<string>, row: Event, stored: Option<string>): Result<Status, SigningError> {
    VerifySignature(mac, secret, CanonicalPayload(row), stored)
  }

  ghost predicate GoodMac(mac: Mac, secret: string) {
    && (forall x: Bytes :: Ascii(mac(secret, x)))
    && (forall x: Bytes, y: Bytes :: mac(secret, x) == mac(secret, y) ==> x == y)
  }

  // A signed row is reported intact exactly while all nine signed fields are as they were
  // when it was signed; any change to one of them is reported as tampering.
  lemma SignedRowVerdict(mac: Mac, secret: string, signed: Event, row: Event)
    requires GoodMac(mac, secret) && secret != "" && ValidEvent(signed) && ValidEvent(row)
    ensures Check(mac, Some(secret), row, Sign(mac, secret, signed)) ==
            Ok(if SameEvent(signed, row) then SignedOk else Tampered)
  {
    var x, y := CanonicalPayload(signed), CanonicalPayload(row);
    CanonicalBytesSeparate(signed, row);
    PrefixAscii(mac(secret, x));
    PrefixAscii(mac(secret, y));
    PrefixSame(mac(secret, x), mac(secret, y));
  }

  // The rendering keeps the zone: the same instant read back is accepted exactly when it is
  // read back with the offset it was signed with.
  lemma OtherZoneIsTampering(mac: Mac, secret: string, signed: Event, t: IsoTime.Time)
    requires GoodMac(mac, secret) && secret != "" && ValidEvent(signed) && IsoTime.Valid(t)
    requires IsoTime.Instant(t) == IsoTime.Instant(signed.createdAt)
    ensures Check(mac, Some(secret), signed.(createdAt := t), Sign(mac, secret, signed)) ==
            Ok(if IsoTime.OffsetOf(t) == IsoTime.OffsetOf(signed.createdAt) then SignedOk else Tampered)
  {
    SignedRowVerdict(mac, secret, signed, signed.(createdAt := t));
    if IsoTime.OffsetOf(t) == IsoTime.OffsetOf(signed.createdAt) { IsoTime.InstantAndOffset(t, signed.createdAt); }
  }

  lemma PrefixAscii(s: string)
    ensures Ascii(VERSION_PREFIX + s) <==> Ascii(s)
    ensures VERSION_PREFIX <= VERSION_PREFIX + s
  {
    assert forall i :: 0 <= i < |s| ==> (VERSION_PREFIX + s)[i + 3] == s[i];
  }

  lemma PrefixSame(s: string, t: string)
    ensures VERSION_PREFIX + s == VERSION_PREFIX + t <==> s == t
  {
    assert (VERSION_PREFIX + s)[3..] == s && (VERSION_PREFIX + t)[3..] == t;
  }

  // No stored text other than the service's own signature is ever accepted.
  lemma OnlySignatureAccepted(mac: Mac, secret: Option<string>, row: Event, stored: Option<string>)
    requires secret.Some? && secret.value != "" ==> GoodMac(mac, secret.value)
    ensures Check(mac, secret, row, stored) == Ok(SignedOk) <==>
            secret.Some? && stored.Some? && stored == Sign(mac, secret.value, row)
  {
    if secret.Some? && secret.value != "" { PrefixAscii(mac(secret.value, CanonicalPayload(row))); }
  }

  // What is stored, and the answer to every check, in the text itself. The empty secret is never
  // met: without a key nothing is compared.
  lemma StatusTable(mac: Mac, secret: Option<string>, row: Event, stored: Option<string>, prefix: string)
    requires prefix == "v1:"
    ensures var keyed := secret.Some? && secret.value != "";
            var own := if keyed then prefix + mac(secret.value, CanonicalPayload(row)) else "";
            var answer := Check(mac, secret, row, stored);
            && (secret.Some? ==> Sign(mac, secret.value, row) == if keyed then Some(own) else None)
            && (answer == Ok(Unsigned) <==> stored.None?)
            && (answer == Ok(NoKeyConfigured) <==> stored.Some? && !keyed)
            && (answer == Ok(SignedOk) <==> keyed && stored == Some(own) && !BeyondAscii(own))
            && (answer == Err(NonAsciiSignature) <==>
                  keyed && stored.Some? && prefix <= stored.value && (BeyondAscii(own) || BeyondAscii(stored.value)))
            && answer != Err(EmptySecret)
  {
    if secret.Some? {
      var own := prefix + mac(secret.value, CanonicalPayload(row));
      AsciiMeans(own);
      PrefixAscii(mac(secret.value, CanonicalPayload(row)));
    }
    if stored.Some? { AsciiMeans(stored.value); }
  }

  predicate BeyondAscii(s: string) { exists c :: c in s && c as int >= 0x80 }

  lemma AsciiMeans(s: string)
    ensures Ascii(s) <==> !BeyondAscii(s)
  {
    if !BeyondAscii(s) {
      forall i | 0 <= i < |s| ensures s[i] < 128 as char { assert s[i] in s; }
    }
  }
}
