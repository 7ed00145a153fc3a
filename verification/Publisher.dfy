/** The publisher process: the outbox object, and the collect and deliver loops as runs of the protocol. */
module Publisher {
  import opened Options
  import opened LiveRoom
  import opened Numbers
  import opened Outbox
  import opened Replication

  /** The SQLite outbox. */
  class Store {
    var pending: seq<Row>
    var delivered: map<string, int>

    function Value(): Tables
      reads this
    {
      Tables(pending, delivered)
    }

    constructor ()
      ensures Value() == NO_ROWS
    {
      pending, delivered := [], map[];
    }

    method Enqueue(id: string, payload: Input, now: int) returns (added: bool)
      modifies this`pending
      ensures (Value(), added) == Outbox.Enqueue(old(Value()), id, payload, now)
    {
      if id in delivered {
        return false;
      }
      added := !HasId(pending, id);
      if added {
        pending := pending + [Row(id, payload, now, 0, 0, "")];
      }
    }

    method Acknowledge(id: string, now: int)
      modifies this
      ensures Value() == Outbox.Acknowledge(old(Value()), id, now)
    {
      pending := Delete(pending, id);
      delivered := delivered[id := now];
    }

    method Fail(id: string, attempts: nat, error: string, maxAttempts: nat, now: int)
      modifies this`pending
      ensures Value() == Outbox.Fail(old(Value()), id, attempts, error, maxAttempts, now)
    {
      pending := Postponed(pending, id, attempts, error[..Min(|error|, 500)],
                           now + 1000 * Delay(attempts, maxAttempts));
    }

    method Prune(cutoff: int)
      modifies this`delivered
      ensures Value() == Outbox.Prune(old(Value()), cutoff)
    {
      delivered := map id | id in delivered && delivered[id] >= cutoff :: delivered[id];
    }
  }

  // ---------------------------------------------------------------- cycles are runs

  lemma RunFromSnoc(c: Config, s: System, steps: seq<Step>, step: Step)
    ensures RunFrom(c, s, steps + [step]) == Next(c, RunFrom(c, s, steps), step)
  {
    assert (steps + [step])[..|steps|] == steps;
  }

  lemma {:induction false} RunFromAppend(c: Config, s: System, a: seq<Step>, b: seq<Step>)
    ensures RunFrom(c, s, a + b) == RunFrom(c, RunFrom(c, s, a), b)
    decreases |b|
  {
    hide Next;
    if b == [] {
      assert a + b == a;
    } else {
      RunFromAppend(c, s, a, b[..|b|-1]);
      assert (a + b)[..|a+b|-1] == a + b[..|b|-1];
    }
  }

  /** Steps after a run of the protocol are part of a run, so what every run guarantees holds after them. */
  lemma ContinuesRun(c: Config, before: seq<Step>, steps: seq<Step>)
    ensures RunFrom(c, Reach(c, before), steps) == Reach(c, before + steps)
    ensures SystemOk(RunFrom(c, Reach(c, before), steps))
  {
    hide SystemOk, RunFrom;
    RunFromAppend(c, START, before, steps);
    EveryReachOk(c, before + steps);
  }

  lemma {:induction false} FirstsStay(c: Config, s: System, steps: seq<Step>, id: string)
    requires id in s.firsts
    ensures id in RunFrom(c, s, steps).firsts
  {
    hide Ingest;
    if steps != [] {
      FirstsStay(c, s, steps[..|steps|-1], id);
    }
  }

  ghost predicate Nodes(s: System, t: Tables, r: State) {
    s.tables == t && s.room == r
  }

  /** The row a step addresses by position, while its id is still pending. */
  lemma AttemptedRow(t: Tables, row: Row) returns (k: nat)
    requires TablesOk(t) && row in t.pending
    ensures k < |t.pending| && t.pending[k] == row
  {
    k :| 0 <= k < |t.pending| && t.pending[k] == row;
  }

  /** Rows that wait for their turn in this batch: pending, untouched, with distinct ids. */
  ghost predicate Waiting(t: Tables, batch: seq<Row>) {
    && (forall r :: r in batch ==> r in t.pending)
    && DistinctIds(batch)
  }

  lemma WaitingSurvivesFail(t: Tables, batch: seq<Row>, attempts: nat, error: string, now: int)
    requires TablesOk(t) && batch != [] && Waiting(t, batch)
    ensures var t' := Outbox.Fail(t, batch[0].id, attempts, error, MAX_ATTEMPTS, now);
      TablesOk(t') && Waiting(t', batch[1..]) && |t'.pending| == |t.pending|
  {
    hide Postponed, Delay, TablesOk;
    var id := batch[0].id;
    FailKeepsTables(t, id, attempts, error, MAX_ATTEMPTS, now);
    PostponedSameRows(t.pending, id, attempts, error[..Min(|error|, 500)], now + 1000 * Delay(attempts, MAX_ATTEMPTS));
    var failed := Outbox.Fail(t, id, attempts, error, MAX_ATTEMPTS, now);
    forall r | r in batch[1..] ensures r in failed.pending {
      var n :| 0 <= n < |batch| - 1 && batch[1..][n] == r;
      assert batch[n+1].id != id && batch[n+1] in t.pending;
      var k :| 0 <= k < |t.pending| && t.pending[k] == r;
      assert failed.pending[k] == r;
    }
  }

  lemma WaitingSurvivesAcknowledge(t: Tables, batch: seq<Row>, now: int)
    requires TablesOk(t) && batch != [] && Waiting(t, batch)
    ensures var t' := Outbox.Acknowledge(t, batch[0].id, now);
      TablesOk(t') && Waiting(t', batch[1..]) && |t'.pending| == |t.pending| - 1
  {
    hide Delete;
    var id := batch[0].id;
    AcknowledgeKeepsTables(t, id, now);
    forall r | r in batch[1..] ensures r in t.pending && r.id != id {
      var n :| 0 <= n < |batch| - 1 && batch[1..][n] == r;
      assert batch[n+1].id != id;
    }
    var m := AttemptedRow(t, batch[0]);
    DeleteShortens(t.pending, id, m);
  }

  lemma WaitingSurvivesCrash(t: Tables, batch: seq<Row>)
    ensures batch != [] && Waiting(t, batch) ==> Waiting(t, batch[1..])
  {
  }

  lemma {:induction false} DeleteShortens(rows: seq<Row>, id: string, k: nat)
    requires k < |rows| && rows[k].id == id
    requires DistinctIds(rows)
    ensures |Delete(rows, id)| == |rows| - 1
  {
    if k == 0 {
      DeleteMissing(rows[1..], id);
    } else {
      DeleteShortens(rows[1..], id, k - 1);
    }
  }

  lemma {:induction false} DeleteMissing(rows: seq<Row>, id: string)
    requires forall i :: 0 <= i < |rows| ==> rows[i].id != id
    ensures Delete(rows, id) == rows
  {
    if rows != [] {
      DeleteMissing(rows[1..], id);
    }
  }

  lemma {:induction false} DueIsWaiting(rows: seq<Row>, now: int)
    requires DistinctIds(rows)
    ensures DistinctIds(Due(rows, now))
  {
    if rows != [] {
      DueIsWaiting(rows[1..], now);
      DueRows(rows[1..], now);
      var d := Due(rows[1..], now);
      assert forall k :: 0 <= k < |d| ==> d[k] in d && d[k] in rows[1..];
      assert forall x :: x in rows[1..] ==> x.id != rows[0].id;
    }
  }

  lemma ReadyIsWaiting(t: Tables, limit: nat, now: int)
    requires TablesOk(t)
    ensures Waiting(t, Ready(t, limit, now))
    ensures forall r :: r in Ready(t, limit, now) ==> r.nextAttemptAt <= now
  {
    DueIsWaiting(t.pending, now);
    DueRows(t.pending, now);
  }

  /** The edge takes the payload. */
  predicate Deliverable(row: Row) {
    row.payload.wellFormed && row.payload.isPublic
  }

  /** One pass of the deliver loop body is one Attempt step, at the row in hand. */
  method DeliverRow(outbox: Store, room: Room, row: Row, fate: Fate, now: int, ghost batch: seq<Row>, ghost s: System)
    returns (moved: bool, ghost step: Step)
    requires TablesOk(outbox.Value()) && Waiting(outbox.Value(), batch) && batch != [] && row == batch[0]
    requires Nodes(s, outbox.Value(), room.Value())
    modifies outbox, room
    ensures TablesOk(outbox.Value()) && Waiting(outbox.Value(), batch[1..])
    ensures Addresses(s, step, row, fate, now)
    ensures Nodes(Next(room.config, s, step), outbox.Value(), room.Value())
    ensures |outbox.pending| == |old(outbox.pending)| - if moved then 1 else 0
    ensures moved <==> fate == Answered && Deliverable(row)
    ensures moved ==> forall r :: r in outbox.pending ==> r in old(outbox.pending)
  {
    hide TablesOk, Waiting, Ingest, Delete;
    RejectedIff(room.config, room.Value(), row.payload, now);
    AcknowledgeKeepsTables(outbox.Value(), row.id, now);
    assert row in outbox.pending by { WaitingHead(outbox.Value(), batch); }
    ghost var k := AttemptedRow(outbox.Value(), row);
    WaitingSurvivesFail(outbox.Value(), batch, row.attempts + 1, "delivery failed", now);
    WaitingSurvivesAcknowledge(outbox.Value(), batch, now);
    WaitingSurvivesCrash(outbox.Value(), batch);
    step, moved := Attempt(k, fate, now), false;
    if fate == Lost {
      outbox.Fail(row.id, row.attempts + 1, "delivery failed", MAX_ATTEMPTS, now);
    } else {
      var response := room.Post(row.payload, now);
      if fate == Crashed {
        return;
      }
      if fate == Answered && !response.Rejected? {
        outbox.Acknowledge(row.id, now);
        moved := true;
      } else {
        outbox.Fail(row.id, row.attempts + 1, "delivery failed", MAX_ATTEMPTS, now);
      }
    }
  }

  /** The step sends this row, from the state s. */
  ghost predicate Addresses(s: System, step: Step, row: Row, fate: Fate, now: int) {
    && step.Attempt? && step.fate == fate && step.now == now
    && step.k < |s.tables.pending| && s.tables.pending[step.k] == row
  }

  /** The k-th step of the run sends the k-th row of the batch. */
  ghost predicate Follows(c: Config, s: System, steps: seq<Step>, batch: seq<Row>, fates: nat -> Fate,
                          clock: nat -> int) {
    && |steps| <= |batch|
    && forall k :: 0 <= k < |steps| ==> Addresses(RunFrom(c, s, steps[..k]), steps[k], batch[k], fates(k), clock(k))
  }

  lemma FollowsSnoc(c: Config, s: System, steps: seq<Step>, batch: seq<Row>, fates: nat -> Fate, clock: nat -> int,
                    step: Step)
    requires Follows(c, s, steps, batch, fates, clock) && |steps| < |batch|
    requires Addresses(RunFrom(c, s, steps), step, batch[|steps|], fates(|steps|), clock(|steps|))
    ensures Follows(c, s, steps + [step], batch, fates, clock)
  {
    hide Addresses, RunFrom;
    var more := steps + [step];
    assert more[..|steps|] == steps;
    forall k | 0 <= k < |steps| ensures more[..k] == steps[..k] && more[k] == steps[k] {
    }
  }

  /**
   * One deliver cycle over an unreliable link. `fates` and `clock` say what happened to the k-th POST, and when.
   * The cycle is a run of Attempt steps, the k-th sending the k-th due row, and counts the rows it moved.
   */
  method Deliver(outbox: Store, room: Room, limit: nat, fates: nat -> Fate, clock: nat -> int, ghost s: System)
    returns (delivered: nat, died: bool, ghost steps: seq<Step>)
    requires TablesOk(outbox.Value()) && Nodes(s, outbox.Value(), room.Value())
    modifies outbox, room
    ensures TablesOk(outbox.Value())
    ensures Nodes(RunFrom(room.config, s, steps), outbox.Value(), room.Value())
    ensures Follows(room.config, s, steps, Ready(old(outbox.Value()), limit, clock(0)), fates, clock)
    ensures delivered == |old(outbox.pending)| - |outbox.pending| <= |steps| <= limit
    ensures if died then steps != [] && steps[|steps|-1].fate == Crashed
            else |steps| == |Ready(old(outbox.Value()), limit, clock(0))| &&
                 forall k :: 0 <= k < |steps| ==> fates(k) != Crashed
    ensures AllGood(Ready(old(outbox.Value()), limit, clock(0)), fates) ==>
      && !died && delivered == |steps|
      && forall r :: r in outbox.pending ==> r in old(outbox.pending)
  {
    hide TablesOk, Waiting, Ready, Next, Follows, RunFrom, Deliverable;
    var batch := Ready(outbox.Value(), limit, clock(0));
    ReadyIsWaiting(outbox.Value(), limit, clock(0));
    ReadyBound(outbox.Value(), limit, clock(0));
    steps, delivered, died := [], 0, false;
    NothingSent(room.config, s, batch, fates, clock);
    for i := 0 to |batch|
      invariant |steps| == i
      invariant Nodes(RunFrom(room.config, s, steps), outbox.Value(), room.Value())
      invariant Follows(room.config, s, steps, batch, fates, clock)
      invariant TablesOk(outbox.Value()) && Waiting(outbox.Value(), batch[i..])
      invariant delivered == |old(outbox.pending)| - |outbox.pending| <= i
      invariant forall k :: 0 <= k < i ==> fates(k) != Crashed
      invariant AllGood(batch, fates) ==>
        delivered == i && forall r :: r in outbox.pending ==> r in old(outbox.pending)
    {
      assert batch[i..][0] == batch[i] && batch[i..][1..] == batch[i+1..];
      var moved: bool;
      ghost var step;
      ghost var here := RunFrom(room.config, s, steps);
      moved, step := DeliverRow(outbox, room, batch[i], fates(i), clock(i), batch[i..], here);
      RunFromSnoc(room.config, s, steps, step);
      FollowsSnoc(room.config, s, steps, batch, fates, clock, step);
      steps := steps + [step];
      if moved {
        delivered := delivered + 1;
      }
      if fates(i) == Crashed {
        died := true;
        return;
      }
    }
  }

  /** Every POST of the batch is answered, and the edge takes every payload. */
  ghost predicate AllGood(batch: seq<Row>, fates: nat -> Fate) {
    forall k :: 0 <= k < |batch| ==> fates(k) == Answered && Deliverable(batch[k])
  }

  lemma NothingSent(c: Config, s: System, batch: seq<Row>, fates: nat -> Fate, clock: nat -> int)
    ensures Follows(c, s, [], batch, fates, clock) && RunFrom(c, s, []) == s
  {
  }

  lemma ReadyBound(t: Tables, limit: nat, now: int)
    ensures |Ready(t, limit, now)| <= limit
  {
  }

  lemma {:induction false} AllDue(rows: seq<Row>, now: int)
    requires forall r :: r in rows ==> r.nextAttemptAt <= now
    ensures Due(rows, now) == rows
  {
    if rows != [] {
      AllDue(rows[1..], now);
    }
  }

  ghost predicate DueAndDeliverable(rows: seq<Row>, now: int) {
    forall r :: r in rows ==> Deliverable(r) && r.nextAttemptAt <= now
  }

  /** One cycle over a working link, with every row due and taken by the edge. */
  method DrainOnce(outbox: Store, room: Room, limit: nat, clock: nat -> int, ghost s: System)
    returns (ghost steps: seq<Step>)
    requires TablesOk(outbox.Value()) && Nodes(s, outbox.Value(), room.Value())
    requires DueAndDeliverable(outbox.pending, clock(0))
    modifies outbox, room
    ensures TablesOk(outbox.Value()) && Nodes(RunFrom(room.config, s, steps), outbox.Value(), room.Value())
    ensures |steps| == Min(|old(outbox.pending)|, limit) && |outbox.pending| == |old(outbox.pending)| - |steps|
    ensures forall r :: r in outbox.pending ==> r in old(outbox.pending)
  {
    hide TablesOk, Next, RunFrom, Follows, Deliverable;
    AllDue(outbox.pending, clock(0));
    var _, _, more := Deliver(outbox, room, limit, _ => Answered, clock, s);
    steps := more;
  }

  /** The number of batches that hold n rows. */
  function Batches(n: nat, limit: nat): nat
    requires limit > 0
  {
    if n == 0 then 0 else 1 + Batches(n - Min(n, limit), limit)
  }

  lemma {:induction false} BatchesIsLeast(n: nat, limit: nat)
    requires limit > 0
    ensures n <= Batches(n, limit) * limit
    ensures n > 0 ==> (Batches(n, limit) - 1) * limit < n
  {
    if n > 0 {
      var rest := n - Min(n, limit);
      BatchesIsLeast(rest, limit);
      assert Batches(n, limit) * limit == Batches(rest, limit) * limit + limit;
      assert (Batches(n, limit) - 1) * limit == Batches(rest, limit) * limit;
      if rest > 0 {
        assert (Batches(rest, limit) - 1) * limit == Batches(rest, limit) * limit - limit;
      }
    }
  }

  /**
   * Progress: over a working link, with every row due and taken by the edge, the outbox is empty after the least number
   * of cycles whose batches can hold it.
   */
  method Drain(outbox: Store, room: Room, limit: nat, clock: nat -> (nat -> int), ghost s: System)
    returns (cycles: nat, ghost steps: seq<Step>)
    requires limit > 0 && TablesOk(outbox.Value()) && Nodes(s, outbox.Value(), room.Value())
    requires forall n: nat :: DueAndDeliverable(outbox.pending, clock(n)(0))
    modifies outbox, room
    ensures outbox.pending == [] && cycles == Batches(|old(outbox.pending)|, limit)
    ensures |steps| == |old(outbox.pending)|
    ensures Nodes(RunFrom(room.config, s, steps), outbox.Value(), room.Value())
  {
    hide TablesOk, Next, RunFrom, DueAndDeliverable;
    cycles, steps := 0, [];
    RunFromNothing(room.config, s);
    while outbox.pending != []
      invariant TablesOk(outbox.Value()) && Nodes(RunFrom(room.config, s, steps), outbox.Value(), room.Value())
      invariant forall r :: r in outbox.pending ==> r in old(outbox.pending)
      invariant Batches(|old(outbox.pending)|, limit) == cycles + Batches(|outbox.pending|, limit)
      invariant |steps| + |outbox.pending| == |old(outbox.pending)|
      decreases |outbox.pending|
    {
      FewerDue(old(outbox.pending), outbox.pending, clock(cycles)(0));
      ghost var here := RunFrom(room.config, s, steps);
      ghost var more := DrainOnce(outbox, room, limit, clock(cycles), here);
      RunFromAppend(room.config, s, steps, more);
      steps := steps + more;
      cycles := cycles + 1;
    }
  }

  lemma FewerDue(rows: seq<Row>, fewer: seq<Row>, now: int)
    ensures DueAndDeliverable(rows, now) && (forall r :: r in fewer ==> r in rows) ==> DueAndDeliverable(fewer, now)
  {
  }

  lemma RunFromNothing(c: Config, s: System)
    ensures RunFrom(c, s, []) == s
  {
  }

  lemma WaitingHead(t: Tables, batch: seq<Row>)
    ensures Waiting(t, batch) && batch != [] ==> batch[0] in t.pending
  {
  }

  // ---------------------------------------------------------------- collect

  /** A scanned row: still public, or no longer so with the removal that would withdraw it. */
  datatype Candidate = Eligible(payload: Input) | Excluded(incident: string, removal: Input)

  predicate EverDelivered(delivered: map<string, int>, incident: string) {
    exists id :: id in delivered && incident + ":" <= id
  }

  function Offered(delivered: map<string, int>, candidate: Candidate): Option<Input> {
    match candidate
    case Eligible(payload) => Some(payload)
    case Excluded(incident, removal) => if EverDelivered(delivered, incident) then Some(removal) else None
  }

  /** A version id of the incident. */
  predicate Prefixed(id: string, incident: string) {
    |id| > |incident| && id[..|incident|] == incident && id[|incident|] == ':'
  }

  /** The edge was sent some version of this incident, and that is still on record. */
  ghost predicate SentBefore(delivered: map<string, int>, incident: string) {
    exists id :: id in delivered && Prefixed(id, incident)
  }

  /** What the edge is owed for a row: the payload of a public one, the removal of a withdrawn one it was sent. */
  ghost predicate Owes(delivered: map<string, int>, candidate: Candidate, p: Input) {
    if candidate.Eligible? then p == candidate.payload
    else p == candidate.removal && SentBefore(delivered, candidate.incident)
  }

  lemma OfferedIsOwed(delivered: map<string, int>, candidate: Candidate, p: Input)
    ensures Offered(delivered, candidate) == Some(p) <==> Owes(delivered, candidate, p)
  {
    if candidate.Excluded? {
      forall id ensures candidate.incident + ":" <= id <==> Prefixed(id, candidate.incident) {
        PrefixedIff(id, candidate.incident);
      }
    }
  }

  lemma PrefixedIff(id: string, incident: string)
    ensures incident + ":" <= id <==> Prefixed(id, incident)
  {
    var head := incident + ":";
    assert head[..|incident|] == incident && head[|incident|] == ':';
    if Prefixed(id, incident) {
      assert id[..|head|] == head;
    }
  }

  /** The offers a scan makes, in order. */
  function Offers(delivered: map<string, int>, candidates: seq<Candidate>, now: int): seq<Step> {
    if candidates == [] then [] else
    Offers(delivered, candidates[..|candidates|-1], now)
    + match Offered(delivered, candidates[|candidates|-1])
      case Some(p) => [Offer(p, now)]
      case None => []
  }

  lemma OffersNext(delivered: map<string, int>, candidates: seq<Candidate>, i: nat, now: int)
    requires i < |candidates|
    ensures Offers(delivered, candidates[..i+1], now) == Offers(delivered, candidates[..i], now)
      + match Offered(delivered, candidates[i]) case Some(p) => [Offer(p, now)] case None => []
  {
    assert candidates[..i+1][..i] == candidates[..i];
  }

  /** The id is in the outbox, or was. */
  ghost predicate OnRecord(t: Tables, id: string) {
    id in t.delivered || HasId(t.pending, id)
  }

  /** Everything owed for these candidates is acceptable to the outbox, and on record. */
  ghost predicate AllOnRecord(t: Tables, delivered: map<string, int>, candidates: seq<Candidate>) {
    forall k, p :: 0 <= k < |candidates| && Owes(delivered, candidates[k], p) ==>
      |p.id| >= MIN_ID_LENGTH && OnRecord(t, p.id)
  }

  /** The rows are new ones for what is owed for some of these candidates. */
  ghost predicate AllOwed(rows: seq<Row>, delivered: map<string, int>, candidates: seq<Candidate>, now: int) {
    forall r :: r in rows ==>
      && r == Row(r.payload.id, r.payload, now, 0, 0, "")
      && exists k :: 0 <= k < |candidates| && Owes(delivered, candidates[k], r.payload)
  }

  lemma RecordGrows(t: Tables, t': Tables, delivered: map<string, int>, candidates: seq<Candidate>, next: Candidate)
    requires AllOnRecord(t, delivered, candidates) && t'.delivered == t.delivered
    requires forall id :: HasId(t.pending, id) ==> HasId(t'.pending, id)
    requires forall p :: Owes(delivered, next, p) ==> |p.id| >= MIN_ID_LENGTH && OnRecord(t', p.id)
    ensures AllOnRecord(t', delivered, candidates + [next])
  {
    hide Owes, HasId;
  }

  lemma OwedGrows(rows: seq<Row>, delivered: map<string, int>, candidates: seq<Candidate>, next: Candidate, now: int,
                  r: Row)
    requires AllOwed(rows, delivered, candidates, now)
    ensures AllOwed(rows, delivered, candidates + [next], now)
    ensures r == Row(r.payload.id, r.payload, now, 0, 0, "") && Owes(delivered, next, r.payload) ==>
      AllOwed(rows + [r], delivered, candidates + [next], now)
  {
    hide Owes;
    forall x | x in rows
      ensures exists k :: 0 <= k <= |candidates| && Owes(delivered, (candidates + [next])[k], x.payload)
    {
      var k :| 0 <= k < |candidates| && Owes(delivered, candidates[k], x.payload);
      assert (candidates + [next])[k] == candidates[k];
    }
    assert (candidates + [next])[|candidates|] == next;
  }

  /**
   * One collect cycle is the run of the offers of the scanned candidates, which leaves the edge alone. Everything owed
   * for them is then on record, and new rows hold nothing else. It stops at the first payload that breaks the contract;
   * `scanned` counts the candidates before that.
   */
  method Collect(outbox: Store, candidates: seq<Candidate>, now: int, ghost c: Config, ghost s: System)
    returns (added: nat, failed: bool, ghost scanned: nat)
    requires TablesOk(outbox.Value()) && s.tables == outbox.Value()
    modifies outbox`pending
    ensures TablesOk(outbox.Value())
    ensures scanned <= |candidates| && failed == (scanned < |candidates|)
    ensures failed ==> exists p :: Owes(outbox.delivered, candidates[scanned], p) && |p.id| < MIN_ID_LENGTH
    ensures Nodes(RunFrom(c, s, Offers(outbox.delivered, candidates[..scanned], now)), outbox.Value(), s.room)
    ensures added == |outbox.pending| - |old(outbox.pending)| && old(outbox.pending) <= outbox.pending
    ensures AllOnRecord(outbox.Value(), outbox.delivered, candidates[..scanned])
    ensures AllOwed(outbox.pending[|old(outbox.pending)|..], outbox.delivered, candidates[..scanned], now)
  {
    hide TablesOk, HasId, RunFrom, Offers, Offered, Owes, AllOnRecord, AllOwed;
    added, failed, scanned := 0, false, 0;
    NothingOffered(c, s, outbox.delivered, now);
    NothingOwed(outbox.Value(), outbox.delivered, now);
    ghost var kept := |outbox.pending|;
    assert candidates[..0] == [] && outbox.pending[kept..] == [];
    for i := 0 to |candidates|
      invariant scanned == i && TablesOk(outbox.Value())
      invariant Nodes(RunFrom(c, s, Offers(outbox.delivered, candidates[..i], now)), outbox.Value(), s.room)
      invariant added == |outbox.pending| - kept && old(outbox.pending) <= outbox.pending
      invariant AllOnRecord(outbox.Value(), outbox.delivered, candidates[..i])
      invariant AllOwed(outbox.pending[kept..], outbox.delivered, candidates[..i], now)
    {
      var offered := Offered(outbox.delivered, candidates[i]);
      OffersNext(outbox.delivered, candidates, i, now);
      ghost var t, rows := outbox.Value(), outbox.pending[kept..];
      ghost var row := Row("", Input(false, false, "", "", "", false, 0, ""), 0, 0, 0, "");
      if offered.Some? {
        var p := offered.value;
        OfferedIsOwed(outbox.delivered, candidates[i], p);
        if |p.id| < MIN_ID_LENGTH {
          failed := true;
          return;
        }
        EnqueueKeepsTables(outbox.Value(), p, now);
        StillPending(outbox.Value(), p, now);
        RunFromSnoc(c, s, Offers(outbox.delivered, candidates[..i], now), Offer(p, now));
        row := Row(p.id, p, now, 0, 0, "");
        var isNew := outbox.Enqueue(p.id, p, now);
        if isNew {
          added := added + 1;
          assert outbox.pending[kept..] == rows + [row];
        }
      } else {
        assert Offers(outbox.delivered, candidates[..i+1], now) == Offers(outbox.delivered, candidates[..i], now);
      }
      NextOwed(outbox.Value(), outbox.delivered, candidates[i]);
      RecordGrows(t, outbox.Value(), outbox.delivered, candidates[..i], candidates[i]);
      OwedGrows(rows, outbox.delivered, candidates[..i], candidates[i], now, row);
      assert candidates[..i+1] == candidates[..i] + [candidates[i]];
      scanned := scanned + 1;
    }
  }

  lemma NothingOwed(t: Tables, delivered: map<string, int>, now: int)
    ensures AllOnRecord(t, delivered, []) && AllOwed([], delivered, [], now)
  {
  }

  lemma NextOwed(t: Tables, delivered: map<string, int>, next: Candidate)
    requires var offered := Offered(delivered, next);
      offered.Some? ==> |offered.value.id| >= MIN_ID_LENGTH && OnRecord(t, offered.value.id)
    ensures forall p :: Owes(delivered, next, p) ==> |p.id| >= MIN_ID_LENGTH && OnRecord(t, p.id)
  {
    hide Offered, Owes, OnRecord;
    forall p | Owes(delivered, next, p) ensures |p.id| >= MIN_ID_LENGTH && OnRecord(t, p.id) {
      OfferedIsOwed(delivered, next, p);
    }
  }

  lemma NothingOffered(c: Config, s: System, delivered: map<string, int>, now: int)
    ensures forall candidates: seq<Candidate> :: Offers(delivered, candidates[..0], now) == []
    ensures RunFrom(c, s, []) == s
  {
  }

  // ---------------------------------------------------------------- the publisher

  /** How a cycle ends: normally, with a collect that raised, or with the death of the process. */
  datatype Ending = Completed | Raised | Died

  const PRUNE_EVERY := 3600

  lemma ReachForget(c: Config, steps: seq<Step>, cutoff: int)
    ensures var s, s' := Reach(c, steps), Reach(c, steps + [Forget(cutoff)]);
      s' == s.(tables := Outbox.Prune(s.tables, cutoff))
  {
    assert (steps + [Forget(cutoff)])[..|steps|] == steps;
  }

  /** Everything owed for these candidates has been offered to the outbox. */
  ghost predicate AllFirsts(s: System, delivered: map<string, int>, candidates: seq<Candidate>) {
    forall k, p :: 0 <= k < |candidates| && Owes(delivered, candidates[k], p) ==> p.id in s.firsts
  }

  lemma RecordedAreFirst(s: System, delivered: map<string, int>, candidates: seq<Candidate>)
    requires SystemOk(s) && AllOnRecord(s.tables, delivered, candidates)
    ensures AllFirsts(s, delivered, candidates)
  {
    hide Owes, TablesOk, StorageOk, Sourced, SystemOk, OnRecord;
    forall k, p | 0 <= k < |candidates| && Owes(delivered, candidates[k], p) ensures p.id in s.firsts {
      RecordedIsFirst(s, p.id);
    }
  }

  lemma RecordedIsFirst(s: System, id: string)
    ensures SystemOk(s) && OnRecord(s.tables, id) ==> id in s.firsts
  {
  }

  /** However the run goes on, what was owed is then pending or has reached the edge. */
  ghost predicate AllAccounted(rows: seq<Row>, seen: set<string>, delivered: map<string, int>,
                               candidates: seq<Candidate>) {
    forall k, p :: 0 <= k < |candidates| && Owes(delivered, candidates[k], p) ==> HasId(rows, p.id) || p.id in seen
  }

  lemma AccountedFor(c: Config, before: seq<Step>, steps: seq<Step>, delivered: map<string, int>,
                     candidates: seq<Candidate>)
    requires AllFirsts(Reach(c, before), delivered, candidates)
    ensures var s := Reach(c, before + steps);
      SystemOk(s) && AllAccounted(s.tables.pending, s.room.seen, delivered, candidates)
  {
    hide Owes, HasId, SystemOk, Reach, RunFrom;
    ContinuesRun(c, before, steps);
    forall k, p | 0 <= k < |candidates| && Owes(delivered, candidates[k], p)
      ensures var s := Reach(c, before + steps); HasId(s.tables.pending, p.id) || p.id in s.room.seen
    {
      FirstsStay(c, Reach(c, before), steps, p.id);
      NothingIsLost(c, before + steps, p.id);
    }
  }

  lemma SystemHasTables(s: System)
    ensures SystemOk(s) ==> TablesOk(s.tables)
  {
  }

  class Node {
    const outbox: Store
    var cycles: nat

    constructor ()
      ensures fresh(outbox) && outbox.Value() == NO_ROWS && cycles == 0
    {
      outbox := new Store();
      cycles := 0;
    }

    /**
     * One cycle of `run`: collect, deliver, and every 3600th time prune. After any run of the protocol it is part of
     * a run: the offers of the scan, an attempt at each row then due, and the pruning. So the protocol's invariant
     * holds after it, and everything owed for the scanned rows is pending or has reached the edge.
     */
    method Cycle(room: Room, candidates: seq<Candidate>, limit: nat, fates: nat -> Fate, now: int, clock: nat -> int,
                 cutoff: int, ghost before: seq<Step>)
      returns (added: nat, delivered: nat, ending: Ending, ghost scanned: nat, ghost attempts: seq<Step>,
               ghost steps: seq<Step>)
      requires Nodes(Reach(room.config, before), outbox.Value(), room.Value())
      modifies this`cycles, outbox, room
      ensures scanned <= |candidates| && (ending == Raised <==> scanned < |candidates|)
      ensures steps == Offers(old(outbox.delivered), candidates[..scanned], now) + attempts
                       + if ending == Completed && cycles % PRUNE_EVERY == 0 then [Forget(cutoff)] else []
      ensures Nodes(Reach(room.config, before + steps), outbox.Value(), room.Value())
      ensures SystemOk(Reach(room.config, before + steps))
      ensures cycles == old(cycles) + if ending == Completed then 1 else 0
      ensures ending == Raised ==>
        attempts == [] && exists p :: Owes(old(outbox.delivered), candidates[scanned], p) && |p.id| < MIN_ID_LENGTH
      ensures var s := Reach(room.config, before + Offers(old(outbox.delivered), candidates[..scanned], now));
        && (ending != Raised ==> Follows(room.config, s, attempts, Ready(s.tables, limit, clock(0)), fates, clock))
        && (ending == Completed ==> |attempts| == |Ready(s.tables, limit, clock(0))|)
      ensures ending == Died ==> attempts != [] && attempts[|attempts|-1].fate == Crashed
      ensures AllAccounted(outbox.pending, room.seen, old(outbox.delivered), candidates[..scanned])
    {
      hide SystemOk, TablesOk, Offers, Follows, Ready, HasId, Next, RunFrom, Reach, Owes;
      hide AllOnRecord, AllOwed, AllFirsts, AllAccounted;
      ghost var c, known, start := room.config, outbox.delivered, Reach(room.config, before);
      EveryReachOk(c, before);
      SystemHasTables(start);
      var failed: bool;
      delivered, ending, attempts := 0, Completed, [];
      added, failed, scanned := Collect(outbox, candidates, now, c, start);
      ghost var offers := Offers(known, candidates[..scanned], now);
      ContinuesRun(c, before, offers);
      ghost var offered := Reach(c, before + offers);
      assert offered.tables == outbox.Value();
      RecordedAreFirst(offered, known, candidates[..scanned]);
      steps := offers;
      if failed {
        ending := Raised;
      } else {
        var died: bool;
        delivered, died, attempts := Deliver(outbox, room, limit, fates, clock, offered);
        ContinuesRun(c, before + offers, attempts);
        assert before + offers + attempts == before + (offers + attempts);
        steps := offers + attempts;
        if died {
          ending := Died;
        } else {
          cycles := cycles + 1;
          if cycles % PRUNE_EVERY == 0 {
            ReachForget(c, before + steps, cutoff);
            assert before + steps + [Forget(cutoff)] == before + (steps + [Forget(cutoff)]);
            steps := steps + [Forget(cutoff)];
            outbox.Prune(cutoff);
          }
        }
      }
      assert before + offers + steps[|offers|..] == before + steps;
      AccountedFor(c, before + offers, steps[|offers|..], known, candidates[..scanned]);
      assert steps == offers + attempts
        + if ending == Completed && cycles % PRUNE_EVERY == 0 then [Forget(cutoff)] else [];
    }
  }
}
