/** Approval requests as a state machine: rows that are decided once, and the audit trail
    that mirrors every transition. */
module ApprovalSpec {
  import opened Options
  import Sequences

  datatype State = Pending | Approved | Rejected | Expired | Cancelled

  datatype Row = Row(eventType: string, state: State, expiresAt: Option<int>, decidedAt: Option<int>,
                     decidedBy: Option<int>)

  datatype Entry = Requested(id: nat) | Closed(id: nat, target: State)

  // The table, indexed by request id, and the audit trail.
  datatype Store = Store(rows: seq<Row>, audit: seq<Entry>)

  const EVENT_TYPES: set<string> :=
    {"destructive_sql", "production_test_execution", "external_ticket_creation", "release_readiness",
     "ci_pipeline_modification", "high_cost_eval_run"}

  // The states a caller may ask for.
  predicate Decision(t: State) { t.Approved? || t.Rejected? || t.Cancelled? }

  function Requesting(s: Store, eventType: string, ttl: int, now: int): Store {
    if eventType !in EVENT_TYPES then s
    else Store(s.rows + [Row(eventType, Pending, Some(now + ttl), None, None)], s.audit + [Requested(|s.rows|)])
  }

  // Late means at or after the expiry; only an approval can be late.
  predicate TooLate(r: Row, target: State, now: int) {
    target.Approved? && r.expiresAt.Some? && now >= r.expiresAt.value
  }

  // The row leaves `Pending` for `target`, and the audit trail says so.
  function Close(s: Store, id: nat, target: State, now: int, user: Option<int>): Store
    requires id < |s.rows|
  {
    Store(s.rows[id := s.rows[id].(state := target, decidedAt := Some(now), decidedBy := user)],
          s.audit + [Closed(id, target)])
  }

  function Deciding(s: Store, id: nat, target: State, now: int, user: Option<int>): Store {
    if id >= |s.rows| || !s.rows[id].state.Pending? then s
    else if TooLate(s.rows[id], target, now) then Close(s, id, Expired, now, s.rows[id].decidedBy)
    else Close(s, id, target, now, user)
  }

  predicate Due(r: Row, now: int) {
    r.state.Pending? && r.expiresAt.Some? && r.expiresAt.value <= now
  }

  predicate AllDue(rows: seq<Row>, ids: seq<nat>, now: int) {
    (forall i :: 0 <= i < |ids| ==> ids[i] < |rows| && Due(rows[ids[i]], now)) &&
    forall i, j :: 0 <= i < j < |ids| ==> ids[i] != ids[j]
  }

  function Expiring(s: Store, ids: seq<nat>, now: int): (r: Store)
    requires AllDue(s.rows, ids, now)
    ensures |r.rows| == |s.rows|
    ensures forall k :: 0 <= k < |s.rows| && k !in ids ==> r.rows[k] == s.rows[k]
  {
    if ids == [] then s
    else
      var n := |ids| - 1;
      var t := Expiring(s, ids[..n], now);
      assert ids == ids[..n] + [ids[n]];
      Close(t, ids[n], Expired, now, t.rows[ids[n]].decidedBy)
  }

  // What one expiry run picks: due rows only, at most `limit`, the earliest to expire first.
  predicate Selection(rows: seq<Row>, now: int, limit: nat, ids: seq<nat>) {
    && AllDue(rows, ids, now)
    && |ids| <= limit
    && (forall i, j :: 0 <= i < j < |ids| ==> rows[ids[i]].expiresAt.value <= rows[ids[j]].expiresAt.value)
    && (forall k :: 0 <= k < |rows| && Due(rows[k], now) && k !in ids ==>
          |ids| == limit && forall i :: 0 <= i < |ids| ==> rows[ids[i]].expiresAt.value <= rows[k].expiresAt.value)
  }

  // ------------------------------------------------------------ what every row and entry keeps

  function Requests(audit: seq<Entry>, id: nat): nat {
    if audit == [] then 0
    else Requests(audit[..|audit| - 1], id) + if audit[|audit| - 1] == Requested(id) then 1 else 0
  }

  function Closings(audit: seq<Entry>, id: nat): seq<State> {
    if audit == [] then []
    else
      var last := audit[|audit| - 1];
      Closings(audit[..|audit| - 1], id) + if last.Closed? && last.id == id then [last.target] else []
  }

  // One request entry per row; one closing entry naming the final state, once it is final; an
  // approval strictly before the expiry.
  predicate RowSound(s: Store, id: nat)
    requires id < |s.rows|
  {
    var r := s.rows[id];
    && Requests(s.audit, id) == 1
    && Closings(s.audit, id) == (if r.state.Pending? then [] else [r.state])
    && (r.state.Pending? <==> r.decidedAt.None?)
    && r.expiresAt.Some?
    && (r.state.Approved? ==> r.decidedAt.value < r.expiresAt.value)
  }

  ghost predicate Sound(s: Store) {
    && (forall id :: 0 <= id < |s.rows| ==> RowSound(s, id))
    && (forall id :: id >= |s.rows| ==> Requests(s.audit, id) == 0 && Closings(s.audit, id) == [])
  }

  lemma AuditAppend(audit: seq<Entry>, e: Entry, id: nat)
    ensures Requests(audit + [e], id) == Requests(audit, id) + if e == Requested(id) then 1 else 0
    ensures Closings(audit + [e], id) == Closings(audit, id) + if e.Closed? && e.id == id then [e.target] else []
  {
    assert (audit + [e])[..|audit|] == audit;
  }

  lemma RequestingSound(s: Store, eventType: string, ttl: int, now: int)
    requires Sound(s)
    ensures Sound(Requesting(s, eventType, ttl, now))
  {
    var t := Requesting(s, eventType, ttl, now);
    if eventType in EVENT_TYPES {
      forall id: nat
        ensures Requests(t.audit, id) == (if id < |t.rows| then 1 else 0)
        ensures Closings(t.audit, id) == Closings(s.audit, id)
      {
        AuditAppend(s.audit, Requested(|s.rows|), id);
        assert id < |s.rows| ==> RowSound(s, id);
      }
      forall id | 0 <= id < |t.rows| ensures RowSound(t, id) {
        assert id < |s.rows| ==> RowSound(s, id) && t.rows[id] == s.rows[id];
      }
    }
  }

  lemma CloseSound(s: Store, id: nat, target: State, now: int, user: Option<int>)
    requires Sound(s) && id < |s.rows| && s.rows[id].state.Pending? && !target.Pending? &&
             !TooLate(s.rows[id], target, now)
    ensures Sound(Close(s, id, target, now, user))
  {
    var t := Close(s, id, target, now, user);
    forall k: nat
      ensures Requests(t.audit, k) == Requests(s.audit, k)
      ensures Closings(t.audit, k) == Closings(s.audit, k) + if k == id then [target] else []
    {
      AuditAppend(s.audit, Closed(id, target), k);
    }
    assert RowSound(s, id);
    forall k | 0 <= k < |t.rows| ensures RowSound(t, k) { assert RowSound(s, k); }
  }

  lemma DecidingSound(s: Store, id: nat, target: State, now: int, user: Option<int>)
    requires Sound(s) && Decision(target)
    ensures Sound(Deciding(s, id, target, now, user))
  {
    if id < |s.rows| && s.rows[id].state.Pending? {
      if TooLate(s.rows[id], target, now) {
        CloseSound(s, id, Expired, now, s.rows[id].decidedBy);
      } else {
        CloseSound(s, id, target, now, user);
      }
    }
  }

  lemma {:induction false} ExpiringSound(s: Store, ids: seq<nat>, now: int)
    requires Sound(s) && AllDue(s.rows, ids, now)
    ensures Sound(Expiring(s, ids, now))
  {
    if ids != [] {
      var n := |ids| - 1;
      ExpiringSound(s, ids[..n], now);
      var t := Expiring(s, ids[..n], now);
      assert t.rows[ids[n]] == s.rows[ids[n]];
      CloseSound(t, ids[n], Expired, now, t.rows[ids[n]].decidedBy);
    }
  }

  // A decided row never changes again, and no row disappears.
  ghost predicate Extends(s: Store, t: Store) {
    |s.rows| <= |t.rows| && forall id :: 0 <= id < |s.rows| && !s.rows[id].state.Pending? ==> t.rows[id] == s.rows[id]
  }

  lemma {:induction false} ExpiringExtends(s: Store, ids: seq<nat>, now: int)
    requires AllDue(s.rows, ids, now)
    ensures Extends(s, Expiring(s, ids, now))
    ensures forall i :: 0 <= i < |ids| ==> Expiring(s, ids, now).rows[ids[i]].state.Expired?
  {
    if ids != [] {
      var n := |ids| - 1;
      ExpiringExtends(s, ids[..n], now);
    }
  }

  // The entries of an expiry run.
  function Expiries(ids: seq<nat>): (r: seq<Entry>)
    ensures |r| == |ids| && forall i :: 0 <= i < |ids| ==> r[i] == Closed(ids[i], Expired)
  {
    if ids == [] then [] else Expiries(ids[..|ids| - 1]) + [Closed(ids[|ids| - 1], Expired)]
  }

  lemma {:induction false} ExpiringAudit(s: Store, ids: seq<nat>, now: int)
    requires AllDue(s.rows, ids, now)
    ensures Expiring(s, ids, now).audit == s.audit + Expiries(ids)
  {
    if ids == [] {
      assert s.audit + Expiries(ids) == s.audit;
    } else {
      ExpiringAudit(s, ids[..|ids| - 1], now);
      Sequences.Assoc(s.audit, Expiries(ids[..|ids| - 1]), [Closed(ids[|ids| - 1], Expired)]);
    }
  }

  // The expired rows keep everything but their state and the time of the decision.
  lemma {:induction false} ExpiringRows(s: Store, ids: seq<nat>, now: int, k: nat)
    requires AllDue(s.rows, ids, now) && k < |s.rows|
    ensures Expiring(s, ids, now).rows[k] ==
            if k in ids then s.rows[k].(state := Expired, decidedAt := Some(now)) else s.rows[k]
  {
    if ids != [] {
      var n := |ids| - 1;
      ExpiringRows(s, ids[..n], now, k);
      assert k in ids <==> k in ids[..n] || k == ids[n];
    }
  }

  // One expiry run: which rows it takes, what becomes of them and of the others, and its entries.
  lemma ExpiryRun(s: Store, now: int, limit: nat, ids: seq<nat>, k: nat)
    requires Selection(s.rows, now, limit, ids) && k < |s.rows|
    ensures var t, r := Expiring(s, ids, now), s.rows[k];
            && |t.rows| == |s.rows| && t.audit == s.audit + Expiries(ids)
            && (k in ids ==> r.state.Pending? && r.expiresAt.Some? && r.expiresAt.value <= now)
            && t.rows[k] == (if k in ids then r.(state := Expired, decidedAt := Some(now)) else r)
            && (|ids| < limit && r.state.Pending? && r.expiresAt.Some? && r.expiresAt.value <= now ==> k in ids)
  {
    ExpiringAudit(s, ids, now);
    ExpiringRows(s, ids, now, k);
    if k in ids {
      var i :| 0 <= i < |ids| && ids[i] == k;
      assert Due(s.rows[ids[i]], now);
    } else {
      assert |ids| < limit ==> !Due(s.rows[k], now);
    }
  }

  // After an expiry run with room to spare no pending row is overdue.
  lemma NothingOverdue(s: Store, now: int, limit: nat, ids: seq<nat>, k: nat)
    requires Selection(s.rows, now, limit, ids) && |ids| < limit && k < |s.rows|
    ensures !Due(Expiring(s, ids, now).rows[k], now)
  {
    ExpiringExtends(s, ids, now);
    if k in ids {
      var i :| 0 <= i < |ids| && ids[i] == k;
    }
  }
}
