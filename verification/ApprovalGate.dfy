/** Workflow gates that pause on an approval request, re-driven by a runner, next to any other
    use of the approval service. */
module ApprovalGate {
  import opened Options
  import opened ApprovalSpec

  // How a gate stands: still waiting, passed, refused, or stopped because it could not even ask.
  datatype Outcome = Waiting | Completed(id: nat) | Denied(id: nat) | Broken

  // `asked` are the requests this gate made, `seenPending` how often it found one undecided.
  datatype Gate = Gate(asked: seq<nat>, seenPending: nat, outcome: Outcome)

  // `shared` maps a slot, the workflow and its shared key, to the request id kept there.
  datatype World = World(store: Store, shared: map<nat, nat>, gates: map<nat, Gate>)

  const EMPTY := World(Store([], []), map[], map[])

  // What happens to the kept id when a re-drive finds the request still pending: it is kept,
  // as the step's own documentation has it, or lost, because the runner replaces the stored
  // output of the paused step by the empty output of the second pause.
  datatype Persistence = Kept | Overwritten

  // `foreign` are the slots that others write: the workflow's initial values and the outputs of
  // steps that are no gates.
  datatype Config = Config(slotOf: nat -> nat, persistence: Persistence, foreign: nat -> bool)

  function GateOf(w: World, g: nat): Gate {
    if g in w.gates then w.gates[g] else Gate([], 0, Waiting)
  }

  function Settled(r: Row, id: nat): Outcome {
    match r.state
    case Pending => Waiting
    case Approved => Completed(id)
    case _ => Denied(id)
  }

  // One drive of gate `g`. Gates that are through, or whose workflow failed, are not driven.
  function Drive(cfg: Config, w: World, g: nat, eventType: string, ttl: int, now: int): World {
    var gate, slot := GateOf(w, g), cfg.slotOf(g);
    if !gate.outcome.Waiting? then w
    else if slot !in w.shared then
      if eventType !in EVENT_TYPES then w.(gates := w.gates[g := gate.(outcome := Broken)])
      else
        var id := |w.store.rows|;
        World(Requesting(w.store, eventType, ttl, now), w.shared[slot := id],
              w.gates[g := gate.(asked := gate.asked + [id])])
    else
      var id := w.shared[slot];
      if id >= |w.store.rows| then w.(gates := w.gates[g := gate.(outcome := Broken)])
      else if w.store.rows[id].state.Pending? then
        World(w.store, if cfg.persistence.Kept? then w.shared else w.shared - {slot},
              w.gates[g := gate.(seenPending := gate.seenPending + 1)])
      else w.(gates := w.gates[g := gate.(outcome := Settled(w.store.rows[id], id))])
  }

  // Everything that can happen, in any order.
  datatype Op =
    | RequestOp(eventType: string, ttl: int, now: int)
    | DecideOp(id: nat, target: State, now: int, user: Option<int>)
    | ExpireOp(ids: seq<nat>, now: int)
    | DriveOp(gate: nat, eventType: string, ttl: int, now: int)
    | WriteOp(slot: nat, id: nat)

  predicate Possible(cfg: Config, w: World, op: Op) {
    && (op.DecideOp? ==> Decision(op.target))
    && (op.ExpireOp? ==> AllDue(w.store.rows, op.ids, op.now))
    && (op.WriteOp? ==> cfg.foreign(op.slot))
  }

  function Do(cfg: Config, w: World, op: Op): World
    requires Possible(cfg, w, op)
  {
    match op
    case RequestOp(e, ttl, now) => w.(store := Requesting(w.store, e, ttl, now))
    case DecideOp(id, target, now, user) => w.(store := Deciding(w.store, id, target, now, user))
    case ExpireOp(ids, now) => w.(store := Expiring(w.store, ids, now))
    case DriveOp(g, e, ttl, now) => Drive(cfg, w, g, e, ttl, now)
    case WriteOp(slot, id) => w.(shared := w.shared[slot := id])
  }

  // The worlds some interleaving of operations leads to.
  ghost predicate Reaches(cfg: Config, w: World, ops: seq<Op>, end: World)
    decreases |ops|
  {
    if ops == [] then w == end else Possible(cfg, w, ops[0]) && Reaches(cfg, Do(cfg, w, ops[0]), ops[1..], end)
  }

  // ------------------------------------------------------------ invariants

  // A gate owns the requests it opened; the one in its slot is the last of them; it has passed
  // only on an approved one, and was refused only by a rejected, expired or cancelled one.
  predicate GateSound(cfg: Config, w: World, g: nat)
    requires g in w.gates
  {
    var gate, slot := w.gates[g], cfg.slotOf(g);
    && (forall i :: 0 <= i < |gate.asked| ==> gate.asked[i] < |w.store.rows|)
    && (slot in w.shared ==> gate.asked != [] && w.shared[slot] == gate.asked[|gate.asked| - 1])
    && |gate.asked| == (if cfg.persistence.Kept? then 0 else gate.seenPending) + (if slot in w.shared then 1 else 0)
    && (match gate.outcome
        case Completed(id) => id in gate.asked && id < |w.store.rows| && w.store.rows[id].state.Approved?
        case Denied(id) => id in gate.asked && id < |w.store.rows| &&
            w.store.rows[id].state in {Rejected, Expired, Cancelled}
        case _ => true)
  }

  ghost predicate Inv(cfg: Config, w: World) {
    && Sound(w.store)
    && (forall g :: g in w.gates ==> GateSound(cfg, w, g))
    && (forall g :: g !in w.gates ==> cfg.slotOf(g) !in w.shared)
  }

  ghost predicate DistinctSlots(cfg: Config) {
    forall g, h :: cfg.slotOf(g) == cfg.slotOf(h) ==> g == h
  }

  // Every gate has a slot of its own, which nobody else writes.
  ghost predicate OwnSlots(cfg: Config) {
    DistinctSlots(cfg) && forall g :: !cfg.foreign(cfg.slotOf(g))
  }

  // A change of the store that only decides pending rows disturbs no gate.
  lemma StoreStep(cfg: Config, w: World, store: Store)
    requires Inv(cfg, w) && Sound(store) && Extends(w.store, store)
    ensures Inv(cfg, w.(store := store))
  {
    var t := w.(store := store);
    forall g | g in t.gates ensures GateSound(cfg, t, g) { assert GateSound(cfg, w, g); }
  }

  lemma DriveOwn(cfg: Config, w: World, g: nat, eventType: string, ttl: int, now: int)
    requires Inv(cfg, w)
    ensures var t := Drive(cfg, w, g, eventType, ttl, now);
            Sound(t.store) && Extends(w.store, t.store) && g in t.gates
    ensures g in Drive(cfg, w, g, eventType, ttl, now).gates ==>
            GateSound(cfg, Drive(cfg, w, g, eventType, ttl, now), g)
  {
    RequestingSound(w.store, eventType, ttl, now);
    assert g in w.gates ==> GateSound(cfg, w, g);
  }

  // A gate is not disturbed when the store only decides pending rows and other slots and gates change.
  lemma GateUndisturbed(cfg: Config, w: World, t: World, h: nat)
    requires h in w.gates && GateSound(cfg, w, h) && Extends(w.store, t.store)
    requires h in t.gates && t.gates[h] == w.gates[h]
    requires cfg.slotOf(h) in t.shared <==> cfg.slotOf(h) in w.shared
    requires cfg.slotOf(h) in t.shared ==> t.shared[cfg.slotOf(h)] == w.shared[cfg.slotOf(h)]
    ensures GateSound(cfg, t, h)
  {
  }

  // One drive leaves the slots and gates of all the others alone.
  lemma DriveLeaves(cfg: Config, w: World, g: nat, eventType: string, ttl: int, now: int, h: nat)
    requires DistinctSlots(cfg) && h != g
    ensures var t, slot := Drive(cfg, w, g, eventType, ttl, now), cfg.slotOf(h);
            && (h in t.gates <==> h in w.gates) && (h in t.gates ==> t.gates[h] == w.gates[h])
            && (slot in t.shared <==> slot in w.shared) && (slot in t.shared ==> t.shared[slot] == w.shared[slot])
  {
    assert cfg.slotOf(h) != cfg.slotOf(g);
  }

  lemma DriveOther(cfg: Config, w: World, g: nat, eventType: string, ttl: int, now: int, h: nat)
    requires Inv(cfg, w) && DistinctSlots(cfg) && h != g
    ensures var t := Drive(cfg, w, g, eventType, ttl, now);
            (h in t.gates <==> h in w.gates) && (h in t.gates ==> GateSound(cfg, t, h)) &&
            (cfg.slotOf(h) in t.shared <==> cfg.slotOf(h) in w.shared)
  {
    DriveLeaves(cfg, w, g, eventType, ttl, now, h);
    DriveOwn(cfg, w, g, eventType, ttl, now);
    if h in w.gates { GateUndisturbed(cfg, w, Drive(cfg, w, g, eventType, ttl, now), h); }
  }

  lemma DriveSound(cfg: Config, w: World, g: nat, eventType: string, ttl: int, now: int)
    requires Inv(cfg, w) && OwnSlots(cfg)
    ensures Inv(cfg, Drive(cfg, w, g, eventType, ttl, now)) &&
            Extends(w.store, Drive(cfg, w, g, eventType, ttl, now).store)
  {
    var t := Drive(cfg, w, g, eventType, ttl, now);
    DriveOwn(cfg, w, g, eventType, ttl, now);
    forall h | h in t.gates ensures GateSound(cfg, t, h) {
      if h != g { DriveOther(cfg, w, g, eventType, ttl, now, h); }
    }
    forall h | h !in t.gates ensures cfg.slotOf(h) !in t.shared {
      if h != g { DriveOther(cfg, w, g, eventType, ttl, now, h); }
    }
  }

  // A write to a slot of no gate.
  lemma WriteSound(cfg: Config, w: World, slot: nat, id: nat)
    requires Inv(cfg, w) && OwnSlots(cfg) && cfg.foreign(slot)
    ensures Inv(cfg, w.(shared := w.shared[slot := id]))
  {
    var t := w.(shared := w.shared[slot := id]);
    forall g | g in t.gates ensures GateSound(cfg, t, g) { assert GateSound(cfg, w, g); }
  }

  lemma DoSound(cfg: Config, w: World, op: Op)
    requires Inv(cfg, w) && OwnSlots(cfg) && Possible(cfg, w, op)
    ensures Inv(cfg, Do(cfg, w, op)) && Extends(w.store, Do(cfg, w, op).store)
  {
    match op {
      case RequestOp(e, ttl, now) =>
        RequestingSound(w.store, e, ttl, now);
        StoreStep(cfg, w, Requesting(w.store, e, ttl, now));
      case DecideOp(id, target, now, user) =>
        DecidingSound(w.store, id, target, now, user);
        StoreStep(cfg, w, Deciding(w.store, id, target, now, user));
      case ExpireOp(ids, now) =>
        ExpiringSound(w.store, ids, now);
        ExpiringExtends(w.store, ids, now);
        StoreStep(cfg, w, Expiring(w.store, ids, now));
      case DriveOp(g, e, ttl, now) => DriveSound(cfg, w, g, e, ttl, now);
      case WriteOp(slot, id) => WriteSound(cfg, w, slot, id);
    }
  }

  // ------------------------------------------------------------ one review

  // The first drive of a gate opens a request, or breaks the gate when it asks for something
  // unheard of.
  lemma FirstDrive(cfg: Config, w: World, g: nat, eventType: string, ttl: int, now: int)
    requires g !in w.gates && cfg.slotOf(g) !in w.shared
    ensures var t, id := Drive(cfg, w, g, eventType, ttl, now), |w.store.rows|;
            if eventType in EVENT_TYPES then
              && t.store == Store(w.store.rows + [Row(eventType, Pending, Some(now + ttl), None, None)],
                                  w.store.audit + [Requested(id)])
              && t.shared == w.shared[cfg.slotOf(g) := id] && t.gates == w.gates[g := Gate([id], 0, Waiting)]
            else t == w.(gates := w.gates[g := Gate([], 0, Broken)])
  {
    var none: seq<nat> := [];
    assert none + [|w.store.rows|] == [|w.store.rows|];
  }

  // A drive with the kept request decided settles the gate for good: through on an approval, and
  // refused on anything else.
  lemma DecidedDrive(cfg: Config, w: World, g: nat, eventType: string, ttl: int, now: int)
    requires g in w.gates && w.gates[g].outcome.Waiting? && cfg.slotOf(g) in w.shared
    requires w.shared[cfg.slotOf(g)] < |w.store.rows| && !w.store.rows[w.shared[cfg.slotOf(g)]].state.Pending?
    ensures var t, id := Drive(cfg, w, g, eventType, ttl, now), w.shared[cfg.slotOf(g)];
            var end := if w.store.rows[id].state == Approved then Completed(id) else Denied(id);
            && t == w.(gates := w.gates[g := w.gates[g].(outcome := end)])
            && forall e, ttl', later :: Drive(cfg, t, g, e, ttl', later) == t
  {
  }

  // A whole review: the gate asks, somebody decides, the gate is driven again. It is through
  // exactly when the decision was an approval before the request ran out.
  lemma ReviewDecides(cfg: Config, w: World, g: nat, eventType: string, ttl: int, asked: int, target: State,
                      decided: int, user: Option<int>, later: int)
    requires g !in w.gates && cfg.slotOf(g) !in w.shared && eventType in EVENT_TYPES && Decision(target)
    ensures var w1, id := Drive(cfg, w, g, eventType, ttl, asked), |w.store.rows|;
            var w2 := w1.(store := Deciding(w1.store, id, target, decided, user));
            var t := Drive(cfg, w2, g, eventType, ttl, later);
            var late := target == Approved && asked + ttl <= decided;
            && g in t.gates && id < |t.store.rows|
            && t.gates[g].outcome == (if target == Approved && !late then Completed(id) else Denied(id))
            && t.store.rows[id] == Row(eventType, if late then Expired else target, Some(asked + ttl), Some(decided),
                                       if late then None else user)
  {
    FirstDrive(cfg, w, g, eventType, ttl, asked);
    var w1, id := Drive(cfg, w, g, eventType, ttl, asked), |w.store.rows|;
    assert w1.store.rows[id] == Row(eventType, Pending, Some(asked + ttl), None, None);
    DecidedDrive(cfg, w1.(store := Deciding(w1.store, id, target, decided, user)), g, eventType, ttl, later);
  }

  // ------------------------------------------------------------ the theorems

  // Safety over every interleaving, with a slot of its own for every gate.
  lemma {:induction false} ProtocolSafe(cfg: Config, w: World, ops: seq<Op>, end: World)
    requires Inv(cfg, w) && OwnSlots(cfg) && Reaches(cfg, w, ops, end)
    ensures Inv(cfg, end) && Extends(w.store, end.store)
    decreases |ops|
  {
    if ops != [] {
      DoSound(cfg, w, ops[0]);
      ProtocolSafe(cfg, Do(cfg, w, ops[0]), ops[1..], end);
    }
  }

  predicate ApprovedInTime(r: Row) {
    r.state.Approved? && r.decidedAt.Some? && r.expiresAt.Some? && r.decidedAt.value < r.expiresAt.value
  }

  // What that means from the start. A gate that is through holds an approval that came before
  // the expiry; if the kept id survives, it is of the only request the gate ever opened.
  lemma GatesAreSafe(cfg: Config, ops: seq<Op>, end: World, g: nat)
    requires OwnSlots(cfg) && Reaches(cfg, EMPTY, ops, end) && g in end.gates
    ensures var gate := end.gates[g];
            && (cfg.persistence.Kept? ==> |gate.asked| <= 1)
            && (gate.outcome.Completed? ==>
                  gate.outcome.id in gate.asked && gate.outcome.id < |end.store.rows| &&
                  ApprovedInTime(end.store.rows[gate.outcome.id]))
  {
    ProtocolSafe(cfg, EMPTY, ops, end);
    assert GateSound(cfg, end, g);
    if end.gates[g].outcome.Completed? { assert RowSound(end.store, end.gates[g].outcome.id); }
  }

  // When the id is lost, a gate has opened one request for every time it found one pending, and
  // one more if it is waiting on a request now: a single request exactly when it was re-driven
  // too early never, or once with no drive after that.
  lemma LostIdsReopen(cfg: Config, ops: seq<Op>, end: World, g: nat)
    requires OwnSlots(cfg) && cfg.persistence.Overwritten? && Reaches(cfg, EMPTY, ops, end) && g in end.gates
    ensures var gate := end.gates[g];
            |gate.asked| <= 1 <==> gate.seenPending == 0 || (gate.seenPending == 1 && cfg.slotOf(g) !in end.shared)
  {
    ProtocolSafe(cfg, EMPTY, ops, end);
    assert GateSound(cfg, end, g);
  }

  // Driving a waiting gate twice while its request is pending: nothing new with the id kept, a
  // second request with the id lost.
  lemma PendingTwice(cfg: Config, w: World, g: nat, eventType: string, ttl: int, now: int)
    requires g in w.gates && w.gates[g].outcome.Waiting? && eventType in EVENT_TYPES
    requires cfg.slotOf(g) in w.shared && w.shared[cfg.slotOf(g)] < |w.store.rows|
    requires w.store.rows[w.shared[cfg.slotOf(g)]].state.Pending?
    ensures var t := Drive(cfg, Drive(cfg, w, g, eventType, ttl, now), g, eventType, ttl, now);
            g in t.gates && |t.gates[g].asked| == |w.gates[g].asked| + if cfg.persistence.Kept? then 0 else 1
  {
  }

  // Two gates with one slot: the second passes on the first one's approval without ever asking.
  lemma SharedSlotSkipsReview(cfg: Config, w: World, first: nat, second: nat, eventType: string, ttl: int, now: int)
    requires first != second && cfg.slotOf(first) == cfg.slotOf(second) && second !in w.gates
    requires cfg.slotOf(first) in w.shared && w.shared[cfg.slotOf(first)] < |w.store.rows|
    requires w.store.rows[w.shared[cfg.slotOf(first)]].state.Approved?
    ensures var t := Drive(cfg, w, second, eventType, ttl, now);
            second in t.gates && t.gates[second].outcome.Completed? && t.gates[second].asked == []
  {
  }

  // A gate that is through holds an approval of a request it made itself.
  predicate OwnApproval(w: World, g: nat)
    requires g in w.gates
  {
    var gate := w.gates[g];
    gate.outcome.Completed? ==>
      gate.outcome.id in gate.asked && gate.outcome.id < |w.store.rows| && ApprovedInTime(w.store.rows[gate.outcome.id])
  }

  // The run that shows it from the start: the first gate asks, its request is approved, and the
  // second gate is driven.
  lemma SharedSlotRun(cfg: Config, first: nat, second: nat) returns (ops: seq<Op>, end: World)
    requires first != second && cfg.slotOf(first) == cfg.slotOf(second)
    ensures Reaches(cfg, EMPTY, ops, end) && second in end.gates && !OwnApproval(end, second)
  {
    var e :| e in EVENT_TYPES;
    var ask, approve, drive := DriveOp(first, e, 1, 0), DecideOp(0, Approved, 0, None), DriveOp(second, e, 1, 0);
    var w1 := Do(cfg, EMPTY, ask);
    var w2 := Do(cfg, w1, approve);
    end := Do(cfg, w2, drive);
    ops := [ask, approve, drive];
    assert w1.shared[cfg.slotOf(first)] == 0 && |w1.store.rows| == 1;
    assert w2.store.rows[0].state.Approved?;
    SharedSlotSkipsReview(cfg, w2, first, second, e, 1, 0);
    assert ops[1..] == [approve, drive] && ops[1..][1..] == [drive] && ops[1..][1..][1..] == [];
    assert Reaches(cfg, w2, [drive], end);
    assert Reaches(cfg, w1, [approve, drive], end);
  }

  // No run lets a gate through on anything but its own review.
  ghost predicate AlwaysOwn(cfg: Config) {
    forall ops, end, g :: Reaches(cfg, EMPTY, ops, end) && g in end.gates ==> OwnApproval(end, g)
  }

  // A gate whose slot others write: a request that somebody else made is approved, its id is
  // written there, and the gate is driven.
  lemma ForeignSlotRun(cfg: Config, g: nat) returns (ops: seq<Op>, end: World)
    requires cfg.foreign(cfg.slotOf(g))
    ensures Reaches(cfg, EMPTY, ops, end) && g in end.gates && !OwnApproval(end, g)
  {
    var e :| e in EVENT_TYPES;
    var ask, approve := RequestOp(e, 1, 0), DecideOp(0, Approved, 0, None);
    var write, drive := WriteOp(cfg.slotOf(g), 0), DriveOp(g, e, 1, 0);
    var w1 := Do(cfg, EMPTY, ask);
    var w2 := Do(cfg, w1, approve);
    var w3 := Do(cfg, w2, write);
    end := Do(cfg, w3, drive);
    ops := [ask, approve, write, drive];
    assert w3.store.rows[0].state.Approved? && g !in w3.gates;
    assert ops[1..] == [approve, write, drive] && ops[1..][1..] == [write, drive];
    assert [write, drive][1..] == [drive] && [drive][1..] == [];
    assert Reaches(cfg, w3, [drive], end);
    assert Reaches(cfg, w2, [write, drive], end);
    assert Reaches(cfg, w1, [approve, write, drive], end);
  }

  lemma OwnReviewsIffOwnSlots(cfg: Config)
    ensures AlwaysOwn(cfg) <==> OwnSlots(cfg)
  {
    if OwnSlots(cfg) {
      forall ops, end, g | Reaches(cfg, EMPTY, ops, end) && g in end.gates ensures OwnApproval(end, g) {
        GatesAreSafe(cfg, ops, end, g);
      }
    } else if !DistinctSlots(cfg) {
      var first, second :| cfg.slotOf(first) == cfg.slotOf(second) && first != second;
      var ops, end := SharedSlotRun(cfg, first, second);
      assert !AlwaysOwn(cfg);
    } else {
      var g :| cfg.foreign(cfg.slotOf(g));
      var ops, end := ForeignSlotRun(cfg, g);
      assert !AlwaysOwn(cfg);
    }
  }
}
