/** The approval service: the only writer of the request table and its audit entries. */
module ApprovalService {
  import opened Options
  import opened ApprovalSpec

  // The exceptions a caller can meet.
  datatype ServiceError = UnknownEventType | NotFound | InvalidState(from: State, target: State)

  class ApprovalService {
    const defaultTtl: int
    var rows: seq<Row>
    var audit: seq<Entry>

    ghost function Value(): Store
      reads this
    {
      Store(rows, audit)
    }

    constructor (defaultTtl: int)
      ensures Value() == Store([], []) && this.defaultTtl == defaultTtl
      ensures Sound(Value())
    {
      this.defaultTtl := defaultTtl;
      rows, audit := [], [];
    }

    // A fresh pending row, its id, and its audit entry.
    method Request(eventType: string, ttl: Option<int>, now: int) returns (r: Result<nat, ServiceError>)
      requires Sound(Value())
      modifies this
      ensures Sound(Value())
      ensures Value() == Requesting(old(Value()), eventType, if ttl.Some? then ttl.value else defaultTtl, now)
      ensures r.Ok? <==>
              eventType in {"ci_pipeline_modification", "destructive_sql", "external_ticket_creation",
                            "high_cost_eval_run", "production_test_execution", "release_readiness"}
      ensures r.Ok? ==>
                && r.value == |old(rows)| && audit == old(audit) + [Requested(r.value)]
                && var expiresAt := now + if ttl.Some? then ttl.value else defaultTtl;
                   rows == old(rows) + [Row(eventType, Pending, Some(expiresAt), None, None)]
      ensures r.Err? ==> r.error == UnknownEventType && rows == old(rows) && audit == old(audit)
    {
      RequestingSound(Value(), eventType, if ttl.Some? then ttl.value else defaultTtl, now);
      if eventType !in EVENT_TYPES {
        return Err(UnknownEventType);
      }
      var expiresAt := now + if ttl.Some? then ttl.value else defaultTtl;
      var id := |rows|;
      rows := rows + [Row(eventType, Pending, Some(expiresAt), None, None)];
      audit := audit + [Requested(id)];
      return Ok(id);
    }

    // Approve, reject or cancel. A decided row is left alone; a late approval expires the row
    // and still raises.
    method Decide(id: nat, target: State, now: int, user: Option<int>) returns (r: Result<(), ServiceError>)
      requires Sound(Value()) && Decision(target)
      modifies this
      ensures Sound(Value()) && Value() == Deciding(old(Value()), id, target, now, user)
      ensures if id < |old(rows)| && old(rows)[id].state.Pending? then
                var was := old(rows)[id];
                var late := target == Approved && was.expiresAt.Some? && was.expiresAt.value <= now;
                && (r.Ok? <==> !late)
                && var end, decider := if late then Expired else target, if late then was.decidedBy else user;
                   && rows == old(rows)[id := Row(was.eventType, end, was.expiresAt, Some(now), decider)]
                   && audit == old(audit) + [Closed(id, end)]
              else r.Err? && rows == old(rows) && audit == old(audit)
      ensures r.Err? ==> r.error == if id >= |old(rows)| then NotFound else InvalidState(rows[id].state, target)
    {
      DecidingSound(Value(), id, target, now, user);
      if id >= |rows| {
        return Err(NotFound);
      }
      var row := rows[id];
      if row.state != Pending {
        return Err(InvalidState(row.state, target));
      }
      if target == Approved && row.expiresAt.Some? && now >= row.expiresAt.value {
        rows := rows[id := row.(state := Expired, decidedAt := Some(now))];
        audit := audit + [Closed(id, Expired)];
        return Err(InvalidState(Expired, target));
      }
      rows := rows[id := row.(state := target, decidedBy := user, decidedAt := Some(now))];
      audit := audit + [Closed(id, target)];
      return Ok(());
    }

    // The query of the expiry job: overdue pending rows, earliest first, at most `limit`.
    method SelectDue(now: int, limit: nat) returns (ids: seq<nat>)
      ensures Selection(rows, now, limit, ids)
    {
      ids := [];
      var more := true;
      while more && |ids| < limit
        invariant AllDue(rows, ids, now) && |ids| <= limit
        invariant forall i, j :: 0 <= i < j < |ids| ==> rows[ids[i]].expiresAt.value <= rows[ids[j]].expiresAt.value
        invariant forall k :: 0 <= k < |rows| && Due(rows[k], now) && k !in ids ==>
                    forall i :: 0 <= i < |ids| ==> rows[ids[i]].expiresAt.value <= rows[k].expiresAt.value
        invariant !more ==> forall k :: 0 <= k < |rows| && Due(rows[k], now) ==> k in ids
        decreases more, limit - |ids|
      {
        var next := EarliestDue(now, ids);
        if next.None? {
          more := false;
        } else {
          ids := ids + [next.value];
        }
      }
    }

    method EarliestDue(now: int, taken: seq<nat>) returns (best: Option<nat>)
      ensures best.Some? ==> best.value < |rows| && Due(rows[best.value], now) && best.value !in taken
      ensures best.Some? ==> forall k :: 0 <= k < |rows| && Due(rows[k], now) && k !in taken ==>
              rows[best.value].expiresAt.value <= rows[k].expiresAt.value
      ensures best.None? ==> forall k :: 0 <= k < |rows| && Due(rows[k], now) ==> k in taken
    {
      best := None;
      for i := 0 to |rows|
        invariant best.Some? ==> best.value < |rows| && Due(rows[best.value], now) && best.value !in taken
        invariant best.Some? ==> forall k :: 0 <= k < i && Due(rows[k], now) && k !in taken ==>
                  rows[best.value].expiresAt.value <= rows[k].expiresAt.value
        invariant best.None? ==> forall k :: 0 <= k < i && Due(rows[k], now) ==> k in taken
      {
        if Due(rows[i], now) && i !in taken &&
            (best.None? || rows[i].expiresAt.value < rows[best.value].expiresAt.value) {
          best := Some(i);
        }
      }
    }

    method ExpireDue(now: int, limit: nat) returns (ids: seq<nat>)
      requires Sound(Value())
      modifies this
      ensures Selection(old(rows), now, limit, ids)
      ensures Sound(Value()) && Value() == Expiring(old(Value()), ids, now)
    {
      ids := SelectDue(now, limit);
      ghost var start := Value();
      ExpiringSound(start, ids, now);
      for i := 0 to |ids|
        invariant AllDue(start.rows, ids[..i], now) && Value() == Expiring(start, ids[..i], now)
      {
        assert ids[..i + 1][..i] == ids[..i];
        var id := ids[i];
        assert rows[id] == start.rows[id];
        rows := rows[id := rows[id].(state := Expired, decidedAt := Some(now))];
        audit := audit + [Closed(id, Expired)];
      }
      assert ids[..|ids|] == ids;
    }
  }
}
