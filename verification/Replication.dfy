/** The two-node protocol: outbox, unreliable link, and edge room, as one transition system. */
module Replication {
  import opened Options
  import opened Sublists
  import opened LiveRoom
  import opened Outbox

  /** What happened to one POST. `Crashed`: the edge ingested it and the publisher died before acknowledging. */
  datatype Fate = Lost | ReplyLost | Crashed | Answered

  /** `Late` is a request of an earlier attempt that reaches the edge after its sender gave up on it. */
  datatype Step =
    | Offer(payload: Input, now: int)
    | Attempt(k: nat, fate: Fate, now: int)
    | Late(payload: Input, now: int)
    | Forget(cutoff: int)
    | Show(now: int)

  /** The durable state of both nodes, with two histories: the first payload under each id, and everything sent. */
  datatype System = System(tables: Tables, room: State, firsts: map<string, Input>, sent: set<Input>)

  const START := System(NO_ROWS, EMPTY, map[], {})

  const MIN_ID_LENGTH := 16
  const MAX_ATTEMPTS := 20

  /** The input that reaches the room in this step, if any. */
  function Arriving(s: System, step: Step): Option<Input> {
    match step
    case Attempt(k, fate, _) =>
      if k < |s.tables.pending| && fate != Lost then Some(s.tables.pending[k].payload) else None
    case Late(payload, _) => if payload in s.sent then Some(payload) else None
    case _ => None
  }

  function Received(c: Config, s: System, step: Step): (State, Option<Response>) {
    match Arriving(s, step)
    case Some(input) => var (room, response) := Ingest(c, s.room, input, step.now); (room, Some(response))
    case None => (s.room, None)
  }

  function Next(c: Config, s: System, step: Step): System {
    match step
    case Offer(payload, now) =>
      // A shorter id fails the payload contract before it reaches the outbox.
      if |payload.id| < MIN_ID_LENGTH then s else
      var (tables, added) := Enqueue(s.tables, payload.id, payload, now);
      s.(tables := tables,
         firsts := if added && payload.id !in s.firsts then s.firsts[payload.id := payload] else s.firsts)
    case Attempt(k, fate, now) =>
      if k >= |s.tables.pending| then s else
      var row := s.tables.pending[k];
      var (room, response) := Received(c, s, step);
      var failed := Fail(s.tables, row.id, row.attempts + 1, "delivery failed", MAX_ATTEMPTS, now);
      var tables := match fate
        case Crashed => s.tables
        case Answered => if response.value.Rejected? then failed else Acknowledge(s.tables, row.id, now)
        case _ => failed;
      s.(tables := tables, room := room, sent := s.sent + {row.payload})
    case Late(_, _) => s.(room := Received(c, s, step).0)
    case Forget(cutoff) => s.(tables := Prune(s.tables, cutoff))
    case Show(now) => s.(room := Snapshot(c, s.room, now))
  }

  /** The nodes after a run of steps. */
  function RunFrom(c: Config, s: System, steps: seq<Step>): System {
    if steps == [] then s else Next(c, RunFrom(c, s, steps[..|steps|-1]), steps[|steps|-1])
  }

  function Reach(c: Config, steps: seq<Step>): System {
    RunFrom(c, START, steps)
  }

  lemma ReachSnoc(c: Config, steps: seq<Step>, step: Step)
    ensures Reach(c, steps + [step]) == Next(c, Reach(c, steps), step)
  {
    assert (steps + [step])[..|steps|] == steps;
  }

  // ---------------------------------------------------------------- invariant

  predicate BelowInput(i: Input, v: Version) {
    Under(i.observedAt, InputRemoval(i), v)
  }

  /** The room's register is the join of the first payloads of the ids it has seen. */
  ghost predicate JoinOk(room: State, firsts: map<string, Input>) {
    && (forall id :: id in room.seen ==> id in firsts && firsts[id].id == id)
    && (forall id :: id in room.seen ==>
          InputTarget(firsts[id]) in room.versions && BelowInput(firsts[id], room.versions[InputTarget(firsts[id])]))
    && (forall x :: x in room.versions ==>
          var v := room.versions[x];
          v.eventId in room.seen && InputTarget(firsts[v.eventId]) == x
          && v.observedAt == firsts[v.eventId].observedAt && v.removed == InputRemoval(firsts[v.eventId]))
  }

  /** Everything visible was offered by the publisher, content and all. */
  ghost predicate Sourced(room: State, firsts: map<string, Input>) {
    forall e :: e in room.events ==>
      e.body.id in firsts && Claims(e.body, firsts[e.body.id]) && e.body.content == firsts[e.body.id].content
  }

  /** A payload that can still reach the room is the first one under its id, unless the room already has that id. */
  ghost predicate FirstOrSeen(s: System, payload: Input) {
    payload.id != "" && payload.id in s.firsts && (s.firsts[payload.id] == payload || payload.id in s.room.seen)
  }

  ghost predicate SystemOk(s: System) {
    && TablesOk(s.tables) && StorageOk(s.room) && JoinOk(s.room, s.firsts) && Sourced(s.room, s.firsts)
    && s.tables.delivered.Keys <= s.room.seen
    && (forall id :: id in s.firsts ==> s.firsts[id].id == id && (HasId(s.tables.pending, id) || id in s.room.seen))
    && (forall r :: r in s.tables.pending ==> FirstOrSeen(s, r.payload))
    && (forall p :: p in s.sent ==> FirstOrSeen(s, p))
  }

  /** The four outcomes of an ingest, as seen by the register. */
  lemma IngestOutcome(c: Config, room: State, input: Input, now: int)
    requires StorageOk(room) && input.id != ""
    ensures var (room', response) := Ingest(c, room, input, now);
      var x, v := InputTarget(input), Version(input.id, input.observedAt, InputRemoval(input));
      match response
      case Rejected(_) => room' == room
      case Duplicate(_) => room' == room && input.id in room.seen
      case Stale(_) => input.id !in room.seen && room' == room.(seen := room.seen + {input.id})
                       && x in room.versions && BelowInput(input, room.versions[x])
      case Accepted(_) => input.id !in room.seen && room'.seen == room.seen + {input.id}
                          && room'.versions == room.versions[x := v]
                          && (x in room.versions ==> Outlasts(v, room.versions[x]))
  {
    hide StorageOk, FreshOnly, Without, Last;
    StoredUnderVersion(c, room, now, InputTarget(input));
  }

  lemma IngestJoins(c: Config, room: State, input: Input, now: int, firsts: map<string, Input>)
    requires StorageOk(room) && JoinOk(room, firsts)
    requires input.id != "" && input.id in firsts && firsts[input.id].id == input.id
    requires firsts[input.id] == input || input.id in room.seen
    ensures var (room', response) := Ingest(c, room, input, now);
      && StorageOk(room') && JoinOk(room', firsts)
      && (response.Rejected? ==> room' == room) && (!response.Rejected? ==> room'.seen == room.seen + {input.id})
  {
    hide StorageOk, Ingest;
    IngestKeepsStorage(c, room, input, now);
    IngestOutcome(c, room, input, now);
  }

  lemma IngestSourced(c: Config, room: State, input: Input, now: int, firsts: map<string, Input>)
    requires Sourced(room, firsts) && input.id != "" && input.id in firsts
    requires firsts[input.id] == input || input.id in room.seen
    requires StorageOk(room)
    ensures Sourced(Ingest(c, room, input, now).0, firsts)
  {
    hide StorageOk;
    var e, live := Normalize(c, input, room.head, now), FreshOnly(c, room.events, now);
    FreshOnlyKeeps(c, room.events, now);
    WithoutKeeps(live, Target(e.body));
    assert StorageOk(room);
    StoredDistinct(c, room, now);
    AppendKeeps(Without(live, Target(e.body)), e);
  }

  lemma StoredDistinct(c: Config, room: State, now: int)
    requires StorageOk(room)
    ensures DistinctTargets(FreshOnly(c, room.events, now))
  {
    FreshOnlyKeeps(c, room.events, now);
  }

  lemma ReceiveKeeps(c: Config, s: System, input: Input, now: int)
    requires SystemOk(s) && FirstOrSeen(s, input)
    ensures var (room', response) := Ingest(c, s.room, input, now);
      SystemOk(s.(room := room')) && (!response.Rejected? ==> input.id in room'.seen)
  {
    hide StorageOk, Ingest, JoinOk, Sourced, TablesOk, HasId;
    assert s.firsts[input.id].id == input.id;
    IngestJoins(c, s.room, input, now, s.firsts);
    IngestSourced(c, s.room, input, now, s.firsts);
  }

  lemma FirstsGrow(room: State, firsts: map<string, Input>, payload: Input)
    ensures JoinOk(room, firsts) && Sourced(room, firsts) && payload.id !in firsts ==>
      JoinOk(room, firsts[payload.id := payload]) && Sourced(room, firsts[payload.id := payload])
  {
  }

  lemma OfferKeeps(c: Config, s: System, payload: Input, now: int)
    requires SystemOk(s)
    ensures SystemOk(Next(c, s, Offer(payload, now)))
  {
    hide StorageOk, TablesOk, JoinOk, Sourced, Enqueue, HasId;
    if |payload.id| >= MIN_ID_LENGTH {
      EnqueueKeepsTables(s.tables, payload, now);
      if payload.id !in s.firsts {
        FirstsGrow(s.room, s.firsts, payload);
      }
      StillPending(s.tables, payload, now);
    }
  }

  lemma StillPending(t: Tables, payload: Input, now: int)
    requires TablesOk(t)
    ensures var t' := Enqueue(t, payload.id, payload, now).0;
      t'.delivered == t.delivered && forall id :: HasId(t.pending, id) ==> HasId(t'.pending, id)
  {
    EnqueueKeepsTables(t, payload, now);
    forall id | HasId(t.pending, id) ensures HasId(Enqueue(t, payload.id, payload, now).0.pending, id) {
      var r :| r in t.pending && r.id == id;
      assert r in Enqueue(t, payload.id, payload, now).0.pending;
    }
  }

  lemma FailKeeps(s: System, k: nat, now: int)
    requires SystemOk(s) && k < |s.tables.pending|
    ensures var row := s.tables.pending[k];
      SystemOk(s.(tables := Fail(s.tables, row.id, row.attempts + 1, "delivery failed", MAX_ATTEMPTS, now),
                  sent := s.sent + {row.payload}))
  {
    hide StorageOk, JoinOk, Sourced;
    var row := s.tables.pending[k];
    assert row in s.tables.pending;
    FailKeepsTables(s.tables, row.id, row.attempts + 1, "delivery failed", MAX_ATTEMPTS, now);
    var t' := Fail(s.tables, row.id, row.attempts + 1, "delivery failed", MAX_ATTEMPTS, now);
    forall r | r in t'.pending ensures FirstOrSeen(s, r.payload) {
      var m :| 0 <= m < |t'.pending| && t'.pending[m] == r;
      assert s.tables.pending[m] in s.tables.pending;
    }
    forall id | id in s.firsts ensures HasId(t'.pending, id) || id in s.room.seen {
      if HasId(s.tables.pending, id) {
        var m :| 0 <= m < |s.tables.pending| && s.tables.pending[m].id == id;
        assert t'.pending[m] in t'.pending;
      }
    }
  }

  lemma AcknowledgeKeeps(s: System, k: nat, now: int)
    requires SystemOk(s) && k < |s.tables.pending| && s.tables.pending[k].id in s.room.seen
    ensures var row := s.tables.pending[k];
      SystemOk(s.(tables := Acknowledge(s.tables, row.id, now), sent := s.sent + {row.payload}))
  {
    hide StorageOk, JoinOk, Sourced;
    var row := s.tables.pending[k];
    assert row in s.tables.pending;
    AcknowledgeKeepsTables(s.tables, row.id, now);
    var t' := Acknowledge(s.tables, row.id, now);
    forall id | id in s.firsts ensures HasId(t'.pending, id) || id in s.room.seen {
      if HasId(s.tables.pending, id) && id != row.id {
        var r :| r in s.tables.pending && r.id == id;
        assert r in t'.pending;
      }
    }
  }

  lemma AttemptKeeps(c: Config, s: System, k: nat, fate: Fate, now: int)
    requires SystemOk(s)
    ensures SystemOk(Next(c, s, Attempt(k, fate, now)))
  {
    hide SystemOk, Ingest;
    if k < |s.tables.pending| {
      var row := s.tables.pending[k];
      PendingIsFirst(s, row);
      var t := s.(room := Received(c, s, Attempt(k, fate, now)).0);
      if fate != Lost {
        ReceiveKeeps(c, s, row.payload, now);
      }
      FailKeeps(t, k, now);
      SendKeeps(t, row);
      if fate == Answered && !Ingest(c, s.room, row.payload, now).1.Rejected? {
        AcknowledgeKeeps(t, k, now);
      }
    }
  }

  lemma PendingIsFirst(s: System, row: Row)
    ensures SystemOk(s) && row in s.tables.pending ==> FirstOrSeen(s, row.payload) && row.id == row.payload.id
  {
  }

  lemma SendKeeps(s: System, row: Row)
    ensures SystemOk(s) && row in s.tables.pending ==> SystemOk(s.(sent := s.sent + {row.payload}))
  {
    hide StorageOk, JoinOk, Sourced, TablesOk, HasId;
  }

  lemma LateKeeps(c: Config, s: System, payload: Input, now: int)
    requires SystemOk(s)
    ensures SystemOk(Next(c, s, Late(payload, now)))
  {
    if payload in s.sent {
      assert FirstOrSeen(s, payload);
      hide SystemOk, Ingest, FirstOrSeen;
      ReceiveKeeps(c, s, payload, now);
    }
  }

  lemma ForgetKeeps(c: Config, s: System, cutoff: int)
    ensures SystemOk(s) ==> SystemOk(Next(c, s, Forget(cutoff)))
  {
    hide StorageOk, JoinOk, Sourced;
  }

  lemma ShowKeeps(c: Config, s: System, now: int)
    requires SystemOk(s)
    ensures SystemOk(Next(c, s, Show(now)))
  {
    hide StorageOk, TablesOk, HasId;
    SnapshotKeepsStorage(c, s.room, now);
  }

  lemma StepKeeps(c: Config, s: System, step: Step)
    requires SystemOk(s)
    ensures SystemOk(Next(c, s, step))
  {
    hide SystemOk, Next;
    match step
    case Offer(payload, now) => OfferKeeps(c, s, payload, now);
    case Attempt(k, fate, now) => AttemptKeeps(c, s, k, fate, now);
    case Late(payload, now) => LateKeeps(c, s, payload, now);
    case Forget(cutoff) => ForgetKeeps(c, s, cutoff);
    case Show(now) => ShowKeeps(c, s, now);
  }

  lemma {:induction false} EveryReachOk(c: Config, steps: seq<Step>)
    ensures SystemOk(Reach(c, steps))
  {
    if steps != [] {
      EveryReachOk(c, steps[..|steps|-1]);
      StepKeeps(c, Reach(c, steps[..|steps|-1]), steps[|steps|-1]);
    }
  }

  // ---------------------------------------------------------------- what every run guarantees

  ghost predicate StillThere(rows: seq<Row>, row: Row) {
    exists r :: r in rows && SameRow(r, row)
  }

  lemma FailLeaves(t: Tables, row: Row, id: string, attempts: nat, now: int)
    requires TablesOk(t) && row in t.pending
    ensures StillThere(Fail(t, id, attempts, "delivery failed", MAX_ATTEMPTS, now).pending, row)
  {
    var t' := Fail(t, id, attempts, "delivery failed", MAX_ATTEMPTS, now);
    FailKeepsTables(t, id, attempts, "delivery failed", MAX_ATTEMPTS, now);
    var m :| 0 <= m < |t.pending| && t.pending[m] == row;
    assert t'.pending[m] in t'.pending;
  }

  lemma AcknowledgeLeaves(t: Tables, row: Row, id: string, now: int)
    requires TablesOk(t) && row in t.pending && row.id != id
    ensures StillThere(Acknowledge(t, id, now).pending, row)
  {
    AcknowledgeKeepsTables(t, id, now);
    assert SameRow(row, row);
  }

  lemma OfferLeaves(t: Tables, row: Row, payload: Input, now: int)
    requires TablesOk(t) && row in t.pending
    ensures StillThere(t.pending, row) && StillThere(Enqueue(t, payload.id, payload, now).0.pending, row)
  {
    EnqueueKeepsTables(t, payload, now);
    assert SameRow(row, row);
  }

  /** An enqueued event leaves the outbox only once the edge has it. */
  lemma PendingUntilAcknowledged(c: Config, s: System, step: Step, row: Row)
    requires SystemOk(s) && row in s.tables.pending
    ensures var s' := Next(c, s, step);
      || StillThere(s'.tables.pending, row)
      || (row.id in s'.tables.delivered && row.id in s'.room.seen && step.Attempt? && step.fate == Answered)
  {
    hide StorageOk, JoinOk, Sourced, Ingest, StillThere, Acknowledge, Fail, Enqueue, TablesOk, HasId;
    match step
    case Offer(payload, now) =>
      OfferLeaves(s.tables, row, payload, now);
    case Attempt(k, fate, now) =>
      OfferLeaves(s.tables, row, row.payload, now);
      if k < |s.tables.pending| {
        var sent := s.tables.pending[k];
        FailLeaves(s.tables, row, sent.id, sent.attempts + 1, now);
        if row.id != sent.id {
          AcknowledgeLeaves(s.tables, row, sent.id, now);
        } else if fate == Answered && !Received(c, s, step).1.value.Rejected? {
          AcknowledgedIsSeen(c, s, step);
        }
      }
    case _ =>
      OfferLeaves(s.tables, row, row.payload, 0);
  }

  lemma AcknowledgedIsSeen(c: Config, s: System, step: Step)
    requires SystemOk(s) && step.Attempt? && step.k < |s.tables.pending|
    requires step.fate == Answered && !Received(c, s, step).1.value.Rejected?
    ensures var id := s.tables.pending[step.k].id;
      id in Next(c, s, step).tables.delivered && id in Next(c, s, step).room.seen
  {
    hide StorageOk, JoinOk, Sourced, Ingest;
    var row := s.tables.pending[step.k];
    PendingIsFirst(s, row);
    ReceiveKeeps(c, s, row.payload, step.now);
  }

  /** An attempt moves its row exactly when the edge answers and takes it, and otherwise marks it, unless it crashes. */
  lemma AttemptSettles(c: Config, s: System, k: nat, fate: Fate, now: int)
    requires SystemOk(s) && k < |s.tables.pending|
    ensures var s', row := Next(c, s, Attempt(k, fate, now)), s.tables.pending[k];
      if fate == Crashed then s'.tables == s.tables
      else if fate == Answered && row.payload.wellFormed && row.payload.isPublic then
        && s'.tables.delivered == s.tables.delivered[row.id := now]
        && forall r :: r in s'.tables.pending <==> r in s.tables.pending && r != row
      else
        && s'.tables.delivered == s.tables.delivered
        && s'.tables.pending == s.tables.pending[k := row.(
             attempts := row.attempts + 1, lastError := "delivery failed",
             nextAttemptAt := now + 1000 * Delay(row.attempts + 1, MAX_ATTEMPTS))]
  {
    hide StorageOk, JoinOk, Sourced, Fail, Delay, Delete, Normalize;
    var row := s.tables.pending[k];
    FailMarksOne(s.tables, k, row.attempts + 1, "delivery failed", MAX_ATTEMPTS, now);
    AcknowledgeKeepsTables(s.tables, row.id, now);
    SameIdSameRow(s.tables, row);
    hide TablesOk, SystemOk;
    RejectedIff(c, s.room, row.payload, now);
  }

  lemma SameIdSameRow(t: Tables, row: Row)
    ensures TablesOk(t) && row in t.pending ==> forall r :: r in t.pending && r.id == row.id ==> r == row
  {
  }

  lemma RejectedIff(c: Config, room: State, input: Input, now: int)
    ensures Ingest(c, room, input, now).1.Rejected? <==> !input.wellFormed || !input.isPublic
  {
  }

  /**
   * A request that was given up on can still arrive: it takes effect while its row stays pending, and then the row's
   * own delivery finds the id seen and changes nothing.
   */
  lemma LateCopyDelivers(c: Config, s: System, k: nat, failed: int, late: int)
    requires SystemOk(s) && k < |s.tables.pending|
    ensures var p, t := s.tables.pending[k].payload, Next(c, s, Attempt(k, Lost, failed));
      var u := Next(c, t, Late(p, late));
      && t.room == s.room && u.room == Ingest(c, s.room, p, late).0 && u.tables == t.tables
      && k < |u.tables.pending| && u.tables.pending[k].payload == p
      && (p.wellFormed && p.isPublic ==>
            p.id in u.room.seen && Next(c, u, Attempt(k, Answered, late)).room == u.room)
  {
    hide StorageOk, JoinOk, Sourced, Ingest, Fail, Delay, TablesOk, HasId;
    var p, t := s.tables.pending[k].payload, Next(c, s, Attempt(k, Lost, failed));
    AttemptSettles(c, s, k, Lost, failed);
    PendingIsFirst(s, s.tables.pending[k]);
    hide SystemOk;
    ReceiveKeeps(c, s, p, late);
    RejectedIff(c, s.room, p, late);
    SeenIsRepeated(c, Ingest(c, s.room, p, late).0, p, late);
  }

  lemma SeenIsRepeated(c: Config, room: State, p: Input, now: int)
    ensures p.id != "" && p.id in room.seen ==> Ingest(c, room, p, now).0 == room
  {
  }

  /** A reader is shown the events that have not expired, in their order, and nothing else changes. */
  lemma ShownAreFresh(c: Config, s: System, now: int)
    ensures var t := Next(c, s, Show(now));
      && t == s.(room := s.room.(events := t.room.events)) && Within(t.room.events, s.room.events)
      && forall e :: e in t.room.events <==> e in s.room.events && Fresh(c, e, now)
  {
    hide Fresh, Within;
    FreshOnlyKeeps(c, s.room.events, now);
    FreshOnlyInOrder(c, s.room.events, now);
  }

  /** A delivered id that is offered again after a prune is sent again iff the prune forgot it; it has no new effect. */
  lemma PrunedIsSentAgainIff(c: Config, s: System, cutoff: int, p: Input, now: int)
    requires SystemOk(s) && p.id in s.tables.delivered && |p.id| >= MIN_ID_LENGTH
    ensures var s' := Next(c, Next(c, s, Forget(cutoff)), Offer(p, now));
      && (HasId(s'.tables.pending, p.id) <==> s.tables.delivered[p.id] < cutoff)
      && s'.room == s.room && p.id in s'.room.seen && s'.firsts == s.firsts
  {
    hide StorageOk, JoinOk, Sourced;
    var pruned := Prune(s.tables, cutoff);
    assert !HasId(s.tables.pending, p.id);
    EnqueueKeepsTables(pruned, p, now);
    DeliveredIsFirst(s, p.id);
  }

  lemma DeliveredIsFirst(s: System, id: string)
    ensures SystemOk(s) && id in s.tables.delivered ==> id in s.firsts
  {
    hide StorageOk, Sourced, TablesOk, HasId;
  }

  /** No offered event is ever lost, and none is both pending and delivered. */
  lemma NothingIsLost(c: Config, steps: seq<Step>, id: string)
    requires id in Reach(c, steps).firsts
    ensures var s := Reach(c, steps);
      && (HasId(s.tables.pending, id) || id in s.room.seen)
      && !(HasId(s.tables.pending, id) && id in s.tables.delivered)
      && (id in s.tables.delivered ==> id in s.room.seen)
  {
    EveryReachOk(c, steps);
  }

  /** The id under which this step changed the room's register, list or hash chain, if it did. */
  function Effect(c: Config, s: System, step: Step): Option<string> {
    match Arriving(s, step)
    case Some(input) =>
      (match Ingest(c, s.room, input, step.now).1
       case Accepted(_) => Some(input.id)
       case Stale(_) => Some(input.id)
       case _ => None)
    case None => None
  }

  function Effects(c: Config, steps: seq<Step>, id: string): nat {
    if steps == [] then 0 else
    var before := steps[..|steps|-1];
    Effects(c, before, id) + if Effect(c, Reach(c, before), steps[|steps|-1]) == Some(id) then 1 else 0
  }

  lemma StepEffect(c: Config, s: System, step: Step)
    requires SystemOk(s)
    ensures var room' := Next(c, s, step).room;
      match Effect(c, s, step)
      case Some(id) => id !in s.room.seen && room'.seen == s.room.seen + {id}
      case None => room' == s.room || (step.Show? && room' == s.room.(events := room'.events))
  {
    hide StorageOk, JoinOk, Sourced, TablesOk, Ingest;
    if Arriving(s, step).Some? {
      var input := Arriving(s, step).value;
      assert FirstOrSeen(s, input);
      IngestOutcome(c, s.room, input, step.now);
    }
  }

  /** Exactly-once effect: over every run an id has taken effect once if the room has seen it, and otherwise never. */
  lemma {:induction false} ExactlyOnce(c: Config, steps: seq<Step>, id: string)
    ensures Effects(c, steps, id) == if id in Reach(c, steps).room.seen then 1 else 0
  {
    hide Next, Effect;
    if steps != [] {
      var before, step := steps[..|steps|-1], steps[|steps|-1];
      ExactlyOnce(c, before, id);
      EveryReachOk(c, before);
      StepEffect(c, Reach(c, before), step);
    }
  }

  /** When the outbox has drained, each incident shows the maximum of the first payloads offered for it. */
  lemma DrainedRunsConverge(c: Config, steps: seq<Step>, x: string)
    requires Reach(c, steps).tables.pending == []
    ensures var s := Reach(c, steps);
      && s.room.seen == s.firsts.Keys
      && (x in s.room.versions <==> exists id :: id in s.firsts && InputTarget(s.firsts[id]) == x)
      && (x in s.room.versions ==>
            var v := s.room.versions[x];
            && (forall id :: id in s.firsts && InputTarget(s.firsts[id]) == x ==> BelowInput(s.firsts[id], v))
            && v.eventId in s.firsts && InputTarget(s.firsts[v.eventId]) == x
            && v.observedAt == s.firsts[v.eventId].observedAt && v.removed == InputRemoval(s.firsts[v.eventId]))
  {
    hide StorageOk, Sourced, TablesOk;
    EveryReachOk(c, steps);
  }

  /**
   * When the outbox has drained, an incident is withdrawn exactly when one of the removals offered for it is at least
   * as late as everything else offered for it, and then the edge lists nothing about it.
   */
  lemma DrainedWithdrawnIff(c: Config, steps: seq<Step>, x: string)
    requires Reach(c, steps).tables.pending == [] && x in Reach(c, steps).room.versions
    ensures var s := Reach(c, steps);
      && (s.room.versions[x].removed <==>
            exists id :: id in s.firsts && InputTarget(s.firsts[id]) == x && InputRemoval(s.firsts[id])
              && forall other :: other in s.firsts && InputTarget(s.firsts[other]) == x ==>
                   s.firsts[other].observedAt <= s.firsts[id].observedAt)
      && (s.room.versions[x].removed ==> forall e :: e in s.room.events ==> Target(e.body) != x)
  {
    hide Reach, SystemOk;
    DrainedRunsConverge(c, steps, x);
    EveryReachOk(c, steps);
    WithdrawnIsHidden(Reach(c, steps), x);
    var s := Reach(c, steps);
    var v := s.room.versions[x];
    assert v.removed ==> InputRemoval(s.firsts[v.eventId]);
  }

  lemma WithdrawnIsHidden(s: System, x: string)
    ensures SystemOk(s) && x in s.room.versions && s.room.versions[x].removed ==>
      forall e :: e in s.room.events ==> Target(e.body) != x
  {
    hide TablesOk, JoinOk, HasId;
  }

  /** The list shows nothing about x but the payload first offered under id, with its content and this time. */
  ghost predicate ShowsOnly(s: System, x: string, id: string, observedAt: int) {
    forall e :: e in s.room.events && Target(e.body) == x ==>
      e.body.id == id && e.body.observedAt == observedAt && id in s.firsts && e.body.content == s.firsts[id].content
  }

  lemma ListedIsVersion(s: System, x: string)
    ensures SystemOk(s) && x in s.room.versions ==>
      ShowsOnly(s, x, s.room.versions[x].eventId, s.room.versions[x].observedAt)
  {
    hide TablesOk, JoinOk, HasId;
  }

  /**
   * The version id leaves out the observation time, so content that returns keeps its old id and is not sent again.
   * A newest offer p is what the drained edge holds exactly when p's id had not been offered with an older time;
   * then nothing else is listed for the incident.
   */
  lemma NewestOfferShownIff(c: Config, steps: seq<Step>, p: Input)
    requires var s := Reach(c, steps);
      && s.tables.pending == [] && p.id in s.firsts && InputTarget(s.firsts[p.id]) == InputTarget(p)
      && s.firsts[p.id].observedAt <= p.observedAt
      && forall id :: id in s.firsts && id != p.id && InputTarget(s.firsts[id]) == InputTarget(p) ==>
           s.firsts[id].observedAt < p.observedAt
    ensures var s, x := Reach(c, steps), InputTarget(p);
      && x in s.room.versions
      && (s.room.versions[x].observedAt == p.observedAt <==> s.firsts[p.id].observedAt == p.observedAt)
      && (s.firsts[p.id].observedAt == p.observedAt ==>
            && s.room.versions[x] == Version(p.id, p.observedAt, InputRemoval(s.firsts[p.id]))
            && ShowsOnly(s, x, p.id, p.observedAt))
  {
    hide SystemOk, ShowsOnly;
    EveryReachOk(c, steps);
    DrainedRunsConverge(c, steps, InputTarget(p));
    ListedIsVersion(Reach(c, steps), InputTarget(p));
  }

  ghost predicate Lists(room: State, p: Input) {
    exists e :: e in room.events && e.body.id == p.id && e.body.content == p.content && Target(e.body) == InputTarget(p)
  }

  lemma NewerIsListed(c: Config, room: State, p: Input, now: int)
    requires StorageOk(room) && p.wellFormed && p.isPublic && p.id != "" && p.id !in room.seen && !InputRemoval(p)
    requires InputTarget(p) in room.versions ==> room.versions[InputTarget(p)].observedAt < p.observedAt
    ensures Lists(Ingest(c, room, p, now).0, p)
  {
    hide StorageOk, FreshOnly, Without;
    StoredUnderVersion(c, room, now, InputTarget(p));
    var e := Normalize(c, p, room.head, now);
    var rest := Without(FreshOnly(c, room.events, now), Target(e.body));
    var all, shown := rest + [e], Last(rest + [e], MAX_EVENTS);
    assert shown[|shown|-1] == all[|all|-1] == e;
    assert e in shown;
  }

  lemma OfferThenAnswer(c: Config, s: System, p: Input, now: int)
    requires s.tables.pending == [] && p.id !in s.firsts && p.id !in s.tables.delivered
    requires |p.id| >= MIN_ID_LENGTH && p.wellFormed && p.isPublic
    ensures Next(c, Next(c, s, Offer(p, now)), Attempt(0, Answered, now))
         == System(Tables([], s.tables.delivered[p.id := now]), Ingest(c, s.room, p, now).0, s.firsts[p.id := p],
                   s.sent + {p})
  {
    hide Ingest;
    var row, t := Row(p.id, p, now, 0, 0, ""), Next(c, s, Offer(p, now));
    assert t.tables.pending == [] + [row] == [row];
    assert Delete([row], p.id) == [] + Delete([], p.id) == [];
    NotRejected(c, t.room, p, now);
  }

  lemma OfferAndAnswer(c: Config, steps: seq<Step>, p: Input, now: int)
    requires var s := Reach(c, steps); s.tables.pending == [] && p.id !in s.firsts && p.id !in s.tables.delivered
    requires |p.id| >= MIN_ID_LENGTH && p.wellFormed && p.isPublic && !InputRemoval(p)
    requires var versions := Reach(c, steps).room.versions;
      InputTarget(p) in versions ==> versions[InputTarget(p)].observedAt < p.observedAt
    ensures var s, s' := Reach(c, steps), Reach(c, steps + [Offer(p, now)] + [Attempt(0, Answered, now)]);
      && s'.tables == Tables([], s.tables.delivered[p.id := now]) && s'.firsts == s.firsts[p.id := p]
      && Lists(s'.room, p)
  {
    hide Ingest, Next, Reach, TablesOk, Sourced, Lists;
    EveryReachOk(c, steps);
    OfferThenAnswer(c, Reach(c, steps), p, now);
    ReachSnoc(c, steps, Offer(p, now));
    ReachSnoc(c, steps + [Offer(p, now)], Attempt(0, Answered, now));
    NewerIsListed(c, Reach(c, steps).room, p, now);
  }

  lemma NotRejected(c: Config, room: State, input: Input, now: int)
    ensures input.wellFormed && input.isPublic ==> !Ingest(c, room, input, now).1.Rejected?
  {
  }

  const CONTENT_A := Input(true, true, "incident-7:aaaaa", "incident-7", "sar", false, 1, "at sea")
  const CONTENT_B := Input(true, true, "incident-7:bbbbb", "incident-7", "sar", false, 2, "rescued")

  /** Content A is offered and delivered, then B, and then A is offered again, observed last. */
  function Returning(): seq<Step> {
    [] + [Offer(CONTENT_A, 1)] + [Attempt(0, Answered, 1)] + [Offer(CONTENT_B, 2)] + [Attempt(0, Answered, 2)]
    + [Offer(CONTENT_A.(observedAt := 3), 3)]
  }

  /** The edge drains and keeps listing B, and nothing but B. */
  lemma ReturnedContentIsNotShown(c: Config)
    ensures var s := Reach(c, Returning());
      && s.tables.pending == [] && Lists(s.room, CONTENT_B) && ShowsOnly(s, "incident-7", CONTENT_B.id, 2)
      && "incident-7" in s.room.versions && s.room.versions["incident-7"] == Version(CONTENT_B.id, 2, false)
  {
    hide Ingest, Next, Reach, Lists, ShowsOnly, SystemOk;
    var a, b, again := CONTENT_A, CONTENT_B, CONTENT_A.(observedAt := 3);
    assert a.id[11] != b.id[11];
    var first := [] + [Offer(a, 1)] + [Attempt(0, Answered, 1)];
    var second := first + [Offer(b, 2)] + [Attempt(0, Answered, 2)];
    NothingYet(c);
    OfferAndAnswer(c, [], a, 1);
    DrainedRunsConverge(c, first, "incident-7");
    OfferAndAnswer(c, first, b, 2);
    OfferAgainIsDropped(c, Reach(c, second), again, 3);
    ReachSnoc(c, second, Offer(again, 3));
    assert Returning() == second + [Offer(again, 3)];
    NewestOfferShownIff(c, second, b);
  }

  lemma NothingYet(c: Config)
    ensures Reach(c, []) == START
  {
  }

  lemma OfferAgainIsDropped(c: Config, s: System, p: Input, now: int)
    ensures p.id in s.tables.delivered ==> Next(c, s, Offer(p, now)) == s
  {
  }
}
