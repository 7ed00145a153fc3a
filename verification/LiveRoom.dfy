/** The edge's durable live room: a versioned register per incident, a visible list, and a hash chain. */
module LiveRoom {
  import opened Options
  import opened Sublists

  const MAX_EVENTS := 500

  /** A signed POST body. `wellFormed` is the verdict of the validators; an empty id or incident id is an absent one. */
  datatype Input = Input(wellFormed: bool, isPublic: bool, id: string, incidentId: string, kind: string,
                         expired: bool, observedAt: int, content: string)

  /** An event without its own hash. While the id is still being derived it is empty. */
  datatype Body = Body(id: string, incidentId: string, kind: string, expired: bool, observedAt: int,
                       receivedAt: int, expiresAt: int, content: string, previousHash: Option<string>)

  datatype Event = Event(body: Body, hash: string)

  datatype Version = Version(eventId: string, observedAt: int, removed: bool)

  /** The storage keys: `event:*`, `events`, `head_hash`, `updated_at`, `incident:*`. */
  datatype State = State(seen: set<string>, events: seq<Event>, head: Option<string>, updatedAt: Option<int>,
                         versions: map<string, Version>)

  datatype Response = Rejected(status: int) | Duplicate(id: string) | Stale(id: string) | Accepted(event: Event)

  /** Lifetime in milliseconds and the digest of the serialised event. */
  datatype Config = Config(ttl: int, digest: Body -> string)

  const EMPTY := State({}, [], None, None, map[])

  function Target(b: Body): string {
    if b.incidentId != "" then b.incidentId else b.id
  }

  predicate Removal(b: Body) {
    b.expired || b.kind == "incident_removed"
  }

  function Normalize(c: Config, input: Input, previous: Option<string>, now: int): Event {
    var draft := Body("", input.incidentId, input.kind, input.expired, input.observedAt,
                      now, input.observedAt + c.ttl, input.content, previous);
    var named := draft.(id := if input.id != "" then input.id else c.digest(draft));
    Event(named, c.digest(named))
  }

  /** A zero deadline counts as a missing one. */
  predicate Fresh(c: Config, e: Event, now: int) {
    if e.body.expiresAt != 0 then e.body.expiresAt > now else e.body.receivedAt + c.ttl > now
  }

  function FreshOnly(c: Config, events: seq<Event>, now: int): seq<Event> {
    if events == [] then []
    else (if Fresh(c, events[0], now) then [events[0]] else []) + FreshOnly(c, events[1..], now)
  }

  function Without(events: seq<Event>, incident: string): seq<Event> {
    if events == [] then []
    else (if Target(events[0].body) == incident then [] else [events[0]]) + Without(events[1..], incident)
  }

  function Visible(events: seq<Event>, incident: string): Option<Event> {
    if events == [] then None
    else if Target(events[0].body) == incident then Some(events[0])
    else Visible(events[1..], incident)
  }

  function Last<T>(s: seq<T>, n: nat): seq<T> {
    if |s| <= n then s else s[|s|-n..]
  }

  predicate IsStale(current: Option<Version>, observedAt: int, removed: bool) {
    && current.Some?
    && (|| observedAt < current.value.observedAt
        || (current.value.removed && !removed && observedAt <= current.value.observedAt))
  }

  function CurrentVersion(s: State, live: seq<Event>, incident: string): Option<Version> {
    if incident in s.versions then Some(s.versions[incident])
    else match Visible(live, incident)
      case Some(e) => Some(Version(e.body.id, e.body.observedAt, false))
      case None => None
  }

  /** One POST to `/events`, as one atomic step. */
  function Ingest(c: Config, s: State, input: Input, now: int): (State, Response) {
    if !input.wellFormed then (s, Rejected(400)) else
    var e := Normalize(c, input, s.head, now);
    if !input.isPublic then (s, Rejected(403)) else
    if e.body.id in s.seen then (s, Duplicate(e.body.id)) else
    var live := FreshOnly(c, s.events, now);
    var incident, removed := Target(e.body), Removal(e.body);
    if IsStale(CurrentVersion(s, live, incident), e.body.observedAt, removed) then
      (s.(seen := s.seen + {e.body.id}), Stale(e.body.id))
    else
      var rest := Without(live, incident);
      (State(s.seen + {e.body.id}, if removed then rest else Last(rest + [e], MAX_EVENTS), Some(e.hash), Some(now),
             s.versions[incident := Version(e.body.id, e.body.observedAt, removed)]),
       Accepted(e))
  }

  /** `loadSnapshot`: drops what expired, for good. */
  function Snapshot(c: Config, s: State, now: int): State {
    s.(events := FreshOnly(c, s.events, now))
  }

  // ---------------------------------------------------------------- lists

  ghost predicate DistinctTargets(events: seq<Event>) {
    forall i, j :: 0 <= i < j < |events| ==> Target(events[i].body) != Target(events[j].body)
  }

  lemma {:induction false} FreshOnlyKeeps(c: Config, events: seq<Event>, now: int)
    ensures var r := FreshOnly(c, events, now);
      && |r| <= |events| && (forall e :: e in r <==> e in events && Fresh(c, e, now))
      && (DistinctTargets(events) ==> DistinctTargets(r))
  {
    if events != [] {
      FreshOnlyKeeps(c, events[1..], now);
      var t := FreshOnly(c, events[1..], now);
      assert forall e :: e in events <==> e == events[0] || e in events[1..];
      if DistinctTargets(events) {
        forall k | 0 <= k < |t| ensures Target(t[k].body) != Target(events[0].body) {
          assert t[k] in events[1..];
        }
      }
    }
  }

  lemma {:induction false} WithoutKeeps(events: seq<Event>, incident: string)
    ensures var r := Without(events, incident);
      && |r| <= |events| && (forall e :: e in r <==> e in events && Target(e.body) != incident)
      && (DistinctTargets(events) ==> DistinctTargets(r))
  {
    if events != [] {
      WithoutKeeps(events[1..], incident);
      var t := Without(events[1..], incident);
      assert forall e :: e in events <==> e == events[0] || e in events[1..];
      if DistinctTargets(events) {
        forall k | 0 <= k < |t| ensures Target(t[k].body) != Target(events[0].body) {
          assert t[k] in events[1..];
        }
      }
    }
  }

  lemma {:induction false} FreshOnlyInOrder(c: Config, events: seq<Event>, now: int)
    ensures Within(FreshOnly(c, events, now), events)
  {
    hide Fresh, Within;
    if events == [] {
      WithinSelf(events);
    } else {
      FreshOnlyInOrder(c, events[1..], now);
      WithinFront(FreshOnly(c, events[1..], now), events[1..], events[0]);
      assert [events[0]] + events[1..] == events;
      assert [] + FreshOnly(c, events[1..], now) == FreshOnly(c, events[1..], now);
    }
  }

  lemma {:induction false} WithoutInOrder(events: seq<Event>, incident: string)
    ensures Within(Without(events, incident), events)
  {
    hide Target, Within;
    if events == [] {
      WithinSelf(events);
    } else {
      WithoutInOrder(events[1..], incident);
      WithinFront(Without(events[1..], incident), events[1..], events[0]);
      assert [events[0]] + events[1..] == events;
      assert [] + Without(events[1..], incident) == Without(events[1..], incident);
    }
  }

  lemma {:induction false} VisibleFinds(events: seq<Event>, incident: string)
    ensures match Visible(events, incident)
      case Some(e) => e in events && Target(e.body) == incident
      case None => forall e :: e in events ==> Target(e.body) != incident
  {
    if events != [] && Target(events[0].body) != incident {
      VisibleFinds(events[1..], incident);
      assert forall e :: e in events <==> e == events[0] || e in events[1..];
    }
  }

  // ---------------------------------------------------------------- storage invariant

  /** Every stored event is the current, active version of its own incident. */
  ghost predicate StorageOk(s: State) {
    && |s.events| <= MAX_EVENTS && DistinctTargets(s.events)
    && (forall e :: e in s.events ==>
          && Target(e.body) in s.versions && e.body.id in s.seen
          && s.versions[Target(e.body)] == Version(e.body.id, e.body.observedAt, false))
    && (forall x :: x in s.versions ==> s.versions[x].eventId in s.seen)
  }

  lemma StoredUnderVersion(c: Config, s: State, now: int, incident: string)
    requires StorageOk(s)
    ensures CurrentVersion(s, FreshOnly(c, s.events, now), incident)
         == if incident in s.versions then Some(s.versions[incident]) else None
  {
    FreshOnlyKeeps(c, s.events, now);
    VisibleFinds(FreshOnly(c, s.events, now), incident);
  }

  lemma AppendKeeps(rest: seq<Event>, e: Event)
    requires DistinctTargets(rest) && forall x :: x in rest ==> Target(x.body) != Target(e.body)
    ensures var r := Last(rest + [e], MAX_EVENTS);
      |r| <= MAX_EVENTS && DistinctTargets(r) && forall x :: x in r ==> x in rest || x == e
  {
    var all, r := rest + [e], Last(rest + [e], MAX_EVENTS);
    assert forall k :: 0 <= k < |rest| ==> rest[k] in rest;
    assert DistinctTargets(all);
    var cut := |all| - |r|;
    assert forall k :: 0 <= k < |r| ==> r[k] == all[k + cut];
  }

  lemma IngestKeepsStorage(c: Config, s: State, input: Input, now: int)
    requires StorageOk(s)
    ensures StorageOk(Ingest(c, s, input, now).0)
  {
    hide FreshOnly, Without, DistinctTargets, Last, Normalize;
    var e := Normalize(c, input, s.head, now);
    var live := FreshOnly(c, s.events, now);
    var rest := Without(live, Target(e.body));
    FreshOnlyKeeps(c, s.events, now);
    WithoutKeeps(live, Target(e.body));
    AppendKeeps(rest, e);
  }

  lemma SnapshotKeepsStorage(c: Config, s: State, now: int)
    requires StorageOk(s)
    ensures StorageOk(Snapshot(c, s, now))
    ensures forall e :: e in Snapshot(c, s, now).events <==> e in s.events && Fresh(c, e, now)
  {
    FreshOnlyKeeps(c, s.events, now);
  }

  // ---------------------------------------------------------------- runs

  datatype Op = Post(input: Input, now: int) | Read(now: int)

  function Apply(c: Config, s: State, op: Op): State {
    match op
    case Post(input, now) => Ingest(c, s, input, now).0
    case Read(now) => Snapshot(c, s, now)
  }

  function Run(c: Config, s: State, ops: seq<Op>): State {
    if ops == [] then s else Apply(c, Run(c, s, ops[..|ops|-1]), ops[|ops|-1])
  }

  lemma {:induction false} EveryRunKeepsStorage(c: Config, s: State, ops: seq<Op>)
    requires StorageOk(s)
    ensures StorageOk(Run(c, s, ops))
  {
    if ops != [] {
      var t, op := Run(c, s, ops[..|ops|-1]), ops[|ops|-1];
      EveryRunKeepsStorage(c, s, ops[..|ops|-1]);
      match op
      case Post(input, now) => IngestKeepsStorage(c, t, input, now);
      case Read(now) => SnapshotKeepsStorage(c, t, now);
    }
  }

  // ---------------------------------------------------------------- the register converges

  /** The event a post puts up for ingestion, unless the validators or the visibility check turn it away. */
  function Arrival(c: Config, s: State, op: Op): Option<Body> {
    if op.Post? && op.input.wellFormed && op.input.isPublic then Some(Normalize(c, op.input, s.head, op.now).body)
    else None
  }

  /** The first arrival under each id, over a whole run. */
  function Firsts(c: Config, ops: seq<Op>): map<string, Body> {
    if ops == [] then map[] else
    var firsts := Firsts(c, ops[..|ops|-1]);
    match Arrival(c, Run(c, EMPTY, ops[..|ops|-1]), ops[|ops|-1])
    case Some(b) => if b.id in firsts then firsts else firsts[b.id := b]
    case None => firsts
  }

  /** A claim does not outrank v: later observations win, and at equal times a removal wins. */
  predicate Under(observedAt: int, removal: bool, v: Version) {
    observedAt < v.observedAt || (observedAt == v.observedAt && (removal ==> v.removed))
  }

  predicate Below(b: Body, v: Version) {
    Under(b.observedAt, Removal(b), v)
  }

  predicate Records(v: Version, b: Body) {
    v == Version(b.id, b.observedAt, Removal(b))
  }

  /** Each incident's version is one of the first arrivals for it, and none of them outranks it. */
  ghost predicate RegisterOk(s: State, firsts: map<string, Body>) {
    && s.seen == firsts.Keys
    && (forall id :: id in firsts ==> firsts[id].id == id)
    && (forall id :: id in firsts ==>
          Target(firsts[id]) in s.versions && Below(firsts[id], s.versions[Target(firsts[id])]))
    && (forall x :: x in s.versions ==>
          var v := s.versions[x];
          v.eventId in firsts && Records(v, firsts[v.eventId]) && Target(firsts[v.eventId]) == x)
  }

  /** What an ingest does to the ids and the register: nothing for a known id, else it keeps or raises one version. */
  lemma IngestRaises(c: Config, s: State, input: Input, now: int)
    requires StorageOk(s) && input.wellFormed && input.isPublic
    ensures var b, t := Normalize(c, input, s.head, now).body, Ingest(c, s, input, now).0;
      var x, v := Target(b), Version(b.id, b.observedAt, Removal(b));
      if b.id in s.seen then t == s
      else
        && t.seen == s.seen + {b.id}
        && (|| (t.versions == s.versions && x in s.versions && Below(b, s.versions[x]))
            || (t.versions == s.versions[x := v] && (x in s.versions ==> Outlasts(v, s.versions[x]))))
  {
    hide StorageOk, Normalize, FreshOnly, Without, Last;
    StoredUnderVersion(c, s, now, Target(Normalize(c, input, s.head, now).body));
  }

  lemma IngestKeepsRegister(c: Config, s: State, input: Input, now: int, firsts: map<string, Body>)
    requires StorageOk(s) && RegisterOk(s, firsts) && input.wellFormed && input.isPublic
    ensures var b := Normalize(c, input, s.head, now).body;
      RegisterOk(Ingest(c, s, input, now).0, if b.id in firsts then firsts else firsts[b.id := b])
  {
    hide StorageOk, Normalize, Ingest, Target, Removal;
    IngestRaises(c, s, input, now);
  }

  /** Over every run, the register is the join of the first arrivals. */
  lemma {:induction false} RegisterIsJoin(c: Config, ops: seq<Op>)
    ensures RegisterOk(Run(c, EMPTY, ops), Firsts(c, ops))
  {
    if ops != [] {
      var before, op := ops[..|ops|-1], ops[|ops|-1];
      RegisterIsJoin(c, before);
      EveryRunKeepsStorage(c, EMPTY, before);
      if Arrival(c, Run(c, EMPTY, before), op).Some? {
        IngestKeepsRegister(c, Run(c, EMPTY, before), op.input, op.now, Firsts(c, before));
      }
    }
  }

  ghost predicate Posted(ops: seq<Op>, i: Input) {
    i.wellFormed && i.isPublic && exists k :: 0 <= k < |ops| && ops[k].Post? && ops[k].input == i
  }

  function InputTarget(i: Input): string {
    if i.incidentId != "" then i.incidentId else i.id
  }

  predicate InputRemoval(i: Input) {
    i.expired || i.kind == "incident_removed"
  }

  /** Ids name one claim each: the incident, the observation time, and whether it removes. */
  ghost predicate OneClaimPerId(ops: seq<Op>) {
    && (forall i :: Posted(ops, i) ==> i.id != "")
    && (forall i, j :: Posted(ops, i) && Posted(ops, j) && i.id == j.id ==> SameClaim(i, j))
  }

  predicate SameClaim(i: Input, j: Input) {
    InputTarget(i) == InputTarget(j) && i.observedAt == j.observedAt && InputRemoval(i) == InputRemoval(j)
  }

  predicate Claims(b: Body, i: Input) {
    b.id == i.id && Target(b) == InputTarget(i) && b.observedAt == i.observedAt && Removal(b) == InputRemoval(i)
  }

  /** The part of a posted input that the first arrival under its id reflects. */
  ghost predicate HasSource(ops: seq<Op>, b: Body) {
    exists i :: Posted(ops, i) && Claims(b, i)
  }

  lemma PostedGrows(ops: seq<Op>, op: Op)
    ensures forall i ::
      Posted(ops + [op], i) <==> Posted(ops, i) || (op.Post? && i == op.input && i.wellFormed && i.isPublic)
    ensures forall b :: HasSource(ops, b) ==> HasSource(ops + [op], b)
  {
    var more := ops + [op];
    forall i ensures Posted(more, i) <==> Posted(ops, i) || (op.Post? && i == op.input && i.wellFormed && i.isPublic) {
      assert more[|ops|] == op;
      assert forall k :: 0 <= k < |ops| ==> more[k] == ops[k];
    }
  }

  lemma {:induction false} FirstsArePosts(c: Config, ops: seq<Op>)
    requires forall i :: Posted(ops, i) ==> i.id != ""
    ensures forall i :: Posted(ops, i) ==> i.id in Firsts(c, ops)
    ensures forall id :: id in Firsts(c, ops) ==> Firsts(c, ops)[id].id == id && HasSource(ops, Firsts(c, ops)[id])
  {
    hide Posted, HasSource, Run;
    if ops == [] {
      NothingPosted();
    } else {
      var before, op := ops[..|ops|-1], ops[|ops|-1];
      assert ops == before + [op];
      PostedGrows(before, op);
      FirstsArePosts(c, before);
      var arrival := Arrival(c, Run(c, EMPTY, before), op);
      if arrival.Some? {
        assert Posted(ops, op.input) && Claims(arrival.value, op.input);
        SourceOf(ops, op.input, arrival.value);
      }
    }
  }

  lemma NothingPosted()
    ensures forall i :: !Posted([], i)
  {
  }

  lemma SourceOf(ops: seq<Op>, i: Input, b: Body)
    ensures Posted(ops, i) && Claims(b, i) ==> HasSource(ops, b)
  {
  }

  /** The version of incident x is the maximum of the posted claims about x, whatever the order and repetition. */
  ghost predicate IsMaximum(ops: seq<Op>, x: string, v: Version) {
    && (forall i :: Posted(ops, i) && InputTarget(i) == x ==> i.observedAt <= v.observedAt)
    && (exists i :: Posted(ops, i) && InputTarget(i) == x && i.observedAt == v.observedAt)
    && (v.removed <==>
          exists i :: Posted(ops, i) && InputTarget(i) == x && i.observedAt == v.observedAt && InputRemoval(i))
  }

  lemma FinalVersionIsMaximum(c: Config, ops: seq<Op>, x: string)
    requires OneClaimPerId(ops)
    ensures var versions := Run(c, EMPTY, ops).versions;
      && (x in versions <==> exists i :: Posted(ops, i) && InputTarget(i) == x)
      && (x in versions ==> IsMaximum(ops, x, versions[x]))
  {
    hide Run, Firsts, Posted;
    var s, firsts := Run(c, EMPTY, ops), Firsts(c, ops);
    RegisterIsJoin(c, ops);
    FirstsArePosts(c, ops);
    forall i | Posted(ops, i)
      ensures InputTarget(i) in s.versions && Below(firsts[i.id], s.versions[InputTarget(i)])
      ensures Claims(firsts[i.id], i)
    {
      var j :| Posted(ops, j) && Claims(firsts[i.id], j);
      assert SameClaim(i, j);
    }
    if x in s.versions {
      var v := s.versions[x];
      assert HasSource(ops, firsts[v.eventId]);
      var j :| Posted(ops, j) && Claims(firsts[v.eventId], j);
      hide RegisterOk, StorageOk, OneClaimPerId;
      assert InputTarget(j) == x && j.observedAt == v.observedAt && InputRemoval(j) == v.removed;
    }
  }

  /** Strong convergence: two runs that posted the same events agree on (observed_at, removed) everywhere. */
  lemma RunsConverge(c: Config, d: Config, ops: seq<Op>, ops': seq<Op>)
    requires OneClaimPerId(ops) && forall i :: Posted(ops, i) <==> Posted(ops', i)
    ensures var v, w := Run(c, EMPTY, ops).versions, Run(d, EMPTY, ops').versions;
      v.Keys == w.Keys && forall x :: x in v ==> v[x].observedAt == w[x].observedAt && v[x].removed == w[x].removed
  {
    hide Run, Posted;
    var v, w := Run(c, EMPTY, ops).versions, Run(d, EMPTY, ops').versions;
    forall x ensures x in v <==> x in w
      ensures x in v ==> v[x].observedAt == w[x].observedAt && v[x].removed == w[x].removed
    {
      FinalVersionIsMaximum(c, ops, x);
      FinalVersionIsMaximum(d, ops', x);
    }
  }

  // ---------------------------------------------------------------- which event is shown

  ghost predicate SamePosts(ops: seq<Op>, ops': seq<Op>) {
    forall i :: Posted(ops, i) <==> Posted(ops', i)
  }

  /** i carries the maximal claim about x. */
  ghost predicate Leads(ops: seq<Op>, x: string, i: Input) {
    && Posted(ops, i) && InputTarget(i) == x
    && forall j :: Posted(ops, j) && InputTarget(j) == x ==>
         Under(j.observedAt, InputRemoval(j), Version(i.id, i.observedAt, InputRemoval(i)))
  }

  /** The version shown is that of a leading post. */
  lemma WinnerLeads(c: Config, ops: seq<Op>, x: string) returns (i: Input)
    requires OneClaimPerId(ops) && x in Run(c, EMPTY, ops).versions
    ensures Leads(ops, x, i) && i.id == Run(c, EMPTY, ops).versions[x].eventId
    ensures var v := Run(c, EMPTY, ops).versions[x]; i.observedAt == v.observedAt && InputRemoval(i) == v.removed
  {
    hide Run, Firsts, Posted, StorageOk;
    FinalVersionIsMaximum(c, ops, x);
    RegisterIsJoin(c, ops);
    FirstsArePosts(c, ops);
    var v, firsts := Run(c, EMPTY, ops).versions[x], Firsts(c, ops);
    assert HasSource(ops, firsts[v.eventId]);
    i :| Posted(ops, i) && Claims(firsts[v.eventId], i);
  }

  /** The operations without the posts under this id. */
  function WithoutId(ops: seq<Op>, id: string): seq<Op> {
    if ops == [] then [] else
    var op := ops[|ops|-1];
    WithoutId(ops[..|ops|-1], id) + if op.Post? && op.input.id == id then [] else [op]
  }

  lemma {:induction false} WithoutIdPosts(ops: seq<Op>, id: string)
    ensures forall i :: Posted(WithoutId(ops, id), i) <==> Posted(ops, i) && i.id != id
  {
    if ops == [] {
      NothingPosted();
    } else {
      hide Posted, HasSource;
      var before, op := ops[..|ops|-1], ops[|ops|-1];
      WithoutIdPosts(before, id);
      assert ops == before + [op];
      PostedGrows(before, op);
      PostedGrows(WithoutId(before, id), op);
      assert WithoutId(before, id) + [] == WithoutId(before, id);
    }
  }

  lemma {:induction false} PostedAppend(a: seq<Op>, b: seq<Op>)
    ensures forall i :: Posted(a + b, i) <==> Posted(a, i) || Posted(b, i)
    decreases |b|
  {
    hide Posted, HasSource;
    if b == [] {
      NothingPosted();
      assert a + b == a;
    } else {
      var init, last := b[..|b|-1], b[|b|-1];
      PostedAppend(a, init);
      PostedGrows(init, last);
      PostedGrows(a + init, last);
      assert init + [last] == b && (a + init) + [last] == a + b;
    }
  }

  lemma SubPostsOneClaim(ops: seq<Op>, sub: seq<Op>)
    ensures OneClaimPerId(ops) && (forall i :: Posted(sub, i) ==> Posted(ops, i)) ==> OneClaimPerId(sub)
  {
    hide Posted, SameClaim;
  }

  lemma PostedIsSeen(c: Config, ops: seq<Op>, i: Input)
    requires OneClaimPerId(ops) && Posted(ops, i)
    ensures i.id in Run(c, EMPTY, ops).seen
  {
    hide Posted, Run, Firsts;
    RegisterIsJoin(c, ops);
    FirstsArePosts(c, ops);
  }

  /** A leading post under a new id is accepted, and shown. */
  lemma LeaderIsShown(c: Config, s: State, input: Input, now: int)
    requires StorageOk(s) && input.wellFormed && input.isPublic && input.id != "" && input.id !in s.seen
    requires var x := InputTarget(input);
      x in s.versions ==>
        Under(s.versions[x].observedAt, s.versions[x].removed, Version("", input.observedAt, InputRemoval(input)))
    ensures InputTarget(input) in Ingest(c, s, input, now).0.versions
    ensures Ingest(c, s, input, now).0.versions[InputTarget(input)].eventId == input.id
  {
    hide StorageOk, FreshOnly, Without, Last;
    StoredUnderVersion(c, s, now, InputTarget(input));
  }

  /** Once every other id has been seen, the run shows the leading id b as soon as it is posted. */
  lemma {:induction false} LeaderComesLast(c: Config, pre: seq<Op>, t: seq<Op>, x: string, b: Input)
    requires OneClaimPerId(pre + t) && forall i :: Posted(t, i) && i.id != b.id ==> Posted(pre, i)
    requires InputTarget(b) == x && forall j :: Posted(pre + t, j) && InputTarget(j) == x ==>
      Under(j.observedAt, InputRemoval(j), Version(b.id, b.observedAt, InputRemoval(b)))
    requires b.id != "" && forall i :: Posted(pre + t, i) && i.id == b.id ==> SameClaim(i, b)
    requires forall i :: Posted(pre, i) ==> i.id != b.id
    ensures var s := Run(c, EMPTY, pre + t);
      b.id in s.seen ==> x in s.versions && s.versions[x].eventId == b.id
    decreases |t|
  {
    hide Run, Posted, OneClaimPerId, SameClaim, Ingest;
    if t == [] {
      assert pre + t == pre;
      UnpostedIsUnseen(c, pre, b.id);
    } else {
      var init, op := t[..|t|-1], t[|t|-1];
      var before := pre + init;
      assert init + [op] == t && before + [op] == pre + t;
      PostedGrows(init, op);
      PostedGrows(before, op);
      SubPostsOneClaim(pre + t, before);
      LeaderComesLast(c, pre, init, x, b);
      RunSnoc(c, before, op);
      EveryRunKeepsStorage(c, EMPTY, before);
      var s := Run(c, EMPTY, before);
      if !(op.Post? && op.input.wellFormed && op.input.isPublic) {
        QuietStep(c, s, op);
      } else if op.input.id in s.seen {
        assert Posted(pre + t, op.input);
        PostsAreNamed(pre + t, op.input);
        RepeatStep(c, s, op);
      } else if op.input.id == b.id {
        assert Posted(pre + t, op.input);
        OvertakenBy(c, before, x, b);
        SameClaimIs(op.input, b);
        LeaderIsShown(c, s, op.input, op.now);
      } else {
        assert Posted(t, op.input) && Posted(pre, op.input);
        PostedAppend(pre, init);
        PostedIsSeen(c, before, op.input);
      }
    }
  }

  lemma PostsAreNamed(ops: seq<Op>, i: Input)
    ensures OneClaimPerId(ops) && Posted(ops, i) ==> i.id != ""
  {
  }

  lemma SameClaimIs(i: Input, j: Input)
    ensures SameClaim(i, j) <==>
      InputTarget(i) == InputTarget(j) && i.observedAt == j.observedAt && InputRemoval(i) == InputRemoval(j)
  {
  }

  lemma RunSnoc(c: Config, ops: seq<Op>, op: Op)
    ensures Run(c, EMPTY, ops + [op]) == Apply(c, Run(c, EMPTY, ops), op)
  {
    assert (ops + [op])[..|ops|] == ops;
  }

  lemma QuietStep(c: Config, s: State, op: Op)
    ensures !(op.Post? && op.input.wellFormed && op.input.isPublic) ==>
      Apply(c, s, op).seen == s.seen && Apply(c, s, op).versions == s.versions
  {
  }

  lemma RepeatStep(c: Config, s: State, op: Op)
    ensures op.Post? && op.input.id in s.seen && op.input.id != "" ==> Apply(c, s, op) == s
  {
  }

  lemma UnpostedIsUnseen(c: Config, ops: seq<Op>, id: string)
    requires OneClaimPerId(ops) && forall i :: Posted(ops, i) ==> i.id != id
    ensures id !in Run(c, EMPTY, ops).seen
  {
    hide Run, Firsts, Posted;
    RegisterIsJoin(c, ops);
    FirstsArePosts(c, ops);
    assert id in Firsts(c, ops) ==> HasSource(ops, Firsts(c, ops)[id]);
  }

  lemma OvertakenBy(c: Config, ops: seq<Op>, x: string, b: Input)
    requires OneClaimPerId(ops) && forall j :: Posted(ops, j) && InputTarget(j) == x ==>
      Under(j.observedAt, InputRemoval(j), Version(b.id, b.observedAt, InputRemoval(b)))
    ensures var versions := Run(c, EMPTY, ops).versions;
      x in versions ==>
        Under(versions[x].observedAt, versions[x].removed, Version("", b.observedAt, InputRemoval(b)))
  {
    hide Run, Posted, OneClaimPerId;
    if x in Run(c, EMPTY, ops).versions {
      var i := WinnerLeads(c, ops, x);
    }
  }

  /** Some run of the same posts ends with the leading post b shown. */
  lemma LeaderCanWin(c: Config, ops: seq<Op>, x: string, b: Input) returns (ops': seq<Op>)
    requires OneClaimPerId(ops) && Leads(ops, x, b)
    ensures SamePosts(ops, ops')
    ensures x in Run(c, EMPTY, ops').versions && Run(c, EMPTY, ops').versions[x].eventId == b.id
  {
    hide Run, Posted, SameClaim;
    var pre := WithoutId(ops, b.id);
    ops' := pre + ops;
    WithoutIdPosts(ops, b.id);
    PostedAppend(pre, ops);
    SubPostsOneClaim(ops, ops');
    LeaderComesLast(c, pre, ops, x, b);
    PostedIsSeen(c, ops', b);
  }

  /**
   * All runs of the same posts show the same event of an incident exactly when only one id carries the maximal claim:
   * of equal claims the last to arrive wins.
   */
  lemma ShownEventConvergesIff(c: Config, ops: seq<Op>, x: string)
    requires OneClaimPerId(ops) && x in Run(c, EMPTY, ops).versions
    ensures (forall ops' :: SamePosts(ops, ops') ==>
               x in Run(c, EMPTY, ops').versions
               && Run(c, EMPTY, ops').versions[x].eventId == Run(c, EMPTY, ops).versions[x].eventId)
       <==> (forall i, j :: Leads(ops, x, i) && Leads(ops, x, j) ==> i.id == j.id)
  {
    hide Run, Posted, OneClaimPerId, Leads, SamePosts;
    if forall i, j :: Leads(ops, x, i) && Leads(ops, x, j) ==> i.id == j.id {
      var i := WinnerLeads(c, ops, x);
      forall ops' | SamePosts(ops, ops')
        ensures x in Run(c, EMPTY, ops').versions
        ensures Run(c, EMPTY, ops').versions[x].eventId == Run(c, EMPTY, ops).versions[x].eventId
      {
        SamePostsTransfer(c, ops, ops', x);
        var j := WinnerLeads(c, ops', x);
        SameLeaders(ops, ops', x, j);
      }
    } else {
      var i, j :| Leads(ops, x, i) && Leads(ops, x, j) && i.id != j.id;
      var a := LeaderCanWin(c, ops, x, i);
      var b := LeaderCanWin(c, ops, x, j);
    }
  }

  lemma SamePostsTransfer(c: Config, ops: seq<Op>, ops': seq<Op>, x: string)
    requires OneClaimPerId(ops) && SamePosts(ops, ops') && x in Run(c, EMPTY, ops).versions
    ensures OneClaimPerId(ops') && x in Run(c, EMPTY, ops').versions
  {
    hide Run, Posted, SameClaim;
    FinalVersionIsMaximum(c, ops, x);
    FinalVersionIsMaximum(c, ops', x);
  }

  lemma SameLeaders(ops: seq<Op>, ops': seq<Op>, x: string, i: Input)
    ensures SamePosts(ops, ops') && Leads(ops', x, i) ==> Leads(ops, x, i)
  {
    hide Posted;
  }

  // ---------------------------------------------------------------- tombstones

  predicate Outlasts(w: Version, v: Version) {
    Under(v.observedAt, v.removed, w)
  }

  lemma ApplyRaises(c: Config, s: State, op: Op)
    requires StorageOk(s)
    ensures forall x :: x in s.versions ==>
      x in Apply(c, s, op).versions && Outlasts(Apply(c, s, op).versions[x], s.versions[x])
  {
    if op.Post? && op.input.wellFormed && op.input.isPublic {
      hide Ingest, StorageOk, Normalize;
      IngestRaises(c, s, op.input, op.now);
    }
  }

  lemma {:induction false} VersionsOnlyRise(c: Config, s: State, ops: seq<Op>)
    requires StorageOk(s)
    ensures var versions := Run(c, s, ops).versions;
      forall x :: x in s.versions ==> x in versions && Outlasts(versions[x], s.versions[x])
  {
    if ops != [] {
      var before, op := ops[..|ops|-1], ops[|ops|-1];
      VersionsOnlyRise(c, s, before);
      EveryRunKeepsStorage(c, s, before);
      hide Run, Ingest, StorageOk, Normalize;
      ApplyRaises(c, Run(c, s, before), op);
    }
  }

  /** Once an incident is removed, only a strictly newer observation can ever show it again. */
  lemma RemovedStaysHidden(c: Config, s: State, ops: seq<Op>, e: Event)
    requires StorageOk(s) && Target(e.body) in s.versions && s.versions[Target(e.body)].removed
    requires e in Run(c, s, ops).events
    ensures e.body.observedAt > s.versions[Target(e.body)].observedAt
  {
    VersionsOnlyRise(c, s, ops);
    EveryRunKeepsStorage(c, s, ops);
  }

  // ---------------------------------------------------------------- deadlines

  ghost predicate DeadlinesOk(c: Config, s: State) {
    forall e :: e in s.events ==> e.body.expiresAt == e.body.observedAt + c.ttl
  }

  lemma {:induction false} EveryRunKeepsDeadlines(c: Config, s: State, ops: seq<Op>)
    requires StorageOk(s) && DeadlinesOk(c, s)
    ensures DeadlinesOk(c, Run(c, s, ops))
  {
    if ops != [] {
      var before, op := ops[..|ops|-1], ops[|ops|-1];
      var t := Run(c, s, before);
      EveryRunKeepsDeadlines(c, s, before);
      EveryRunKeepsStorage(c, s, before);
      FreshOnlyKeeps(c, t.events, op.now);
      if op.Post? {
        var e, live := Normalize(c, op.input, t.head, op.now), FreshOnly(c, t.events, op.now);
        WithoutKeeps(live, Target(e.body));
        AppendKeeps(Without(live, Target(e.body)), e);
      }
    }
  }

  /** A snapshot shows an event past its deadline exactly when that deadline is the epoch, which reads as unset. */
  lemma SnapshotDeadlines(c: Config, ops: seq<Op>, now: int, e: Event)
    requires now >= 0 && e in Run(c, EMPTY, ops).events
    ensures e in Snapshot(c, Run(c, EMPTY, ops), now).events
       <==> e.body.observedAt + c.ttl > now || (e.body.observedAt + c.ttl == 0 && e.body.receivedAt + c.ttl > now)
  {
    EveryRunKeepsDeadlines(c, EMPTY, ops);
    FreshOnlyKeeps(c, Run(c, EMPTY, ops).events, now);
  }

  /** The exception occurs: an event observed one lifetime before the epoch is shown when it arrives, however late. */
  lemma EpochDeadlineIsMissed(c: Config, now: int)
    requires c.ttl > 0 && now > 0
    ensures var posted := Run(c, EMPTY, [Post(Input(true, true, "a", "", "sar", false, -c.ttl, ""), now)]);
      |Snapshot(c, posted, now).events| == 1 && posted.events[0].body.observedAt + c.ttl < now
  {
    var op := Post(Input(true, true, "a", "", "sar", false, -c.ttl, ""), now);
    var e := Normalize(c, op.input, None, now);
    assert [op][..0] == [];
    assert Without([], "a") == [] && FreshOnly(c, [], now) == [];
    assert Run(c, EMPTY, [op]).events == [] + [e] == [e];
    assert Fresh(c, e, now);
    assert FreshOnly(c, [e], now) == [e] + FreshOnly(c, [e][1..], now) == [e];
  }

  // ---------------------------------------------------------------- how long an event is listed

  /** What an accepted event of this incident joins. */
  ghost function Others(c: Config, s: State, incident: string, now: int): set<Event> {
    set x | x in s.events && Fresh(c, x, now) && Target(x.body) != incident
  }

  /** e stands before all others of the set in the list. */
  ghost predicate Oldest(events: seq<Event>, others: set<Event>, e: Event) {
    e in others && forall x :: x in others && x != e ==> Precedes(events, e, x)
  }

  /** Why a listed event leaves: it expired, a version of its incident is accepted, or it is oldest of 500 others. */
  ghost predicate Displaces(c: Config, s: State, op: Op, e: Event) {
    match op
    case Read(now) => !Fresh(c, e, now)
    case Post(input, now) =>
      var (_, response) := Ingest(c, s, input, now);
      response.Accepted? &&
        var body, others := response.event.body, Others(c, s, Target(response.event.body), now);
        || !Fresh(c, e, now) || Target(body) == Target(e.body)
        || (!Removal(body) && |others| == MAX_EVENTS && Oldest(s.events, others, e))
  }

  lemma TargetsTellApart(events: seq<Event>)
    requires DistinctTargets(events)
    ensures Distinct(events)
  {
  }

  lemma {:induction false} SizeOfDistinct<T(!new)>(s: seq<T>)
    requires Distinct(s)
    ensures |set x | x in s| == |s|
  {
    if s == [] {
      assert (set x | x in s) == {};
    } else {
      var init, last := s[..|s|-1], s[|s|-1];
      SizeOfDistinct(init);
      assert (set x | x in s) == (set x | x in init) + {last};
    }
  }

  lemma LastKeeps(rest: seq<Event>, e: Event, x: Event)
    requires |rest| <= MAX_EVENTS && DistinctTargets(rest) && x in rest
    ensures x in Last(rest + [e], MAX_EVENTS) <==> !(|rest| == MAX_EVENTS && rest[0] == x) || x == e
  {
    var all, r := rest + [e], Last(rest + [e], MAX_EVENTS);
    var k :| 0 <= k < |rest| && rest[k] == x;
    if |rest| == MAX_EVENTS {
      assert r == rest[1..] + [e];
      assert forall n :: 1 <= n < |rest| ==> r[n-1] == rest[n];
    } else {
      assert all[k] == x;
    }
  }

  /** Both filters of an ingest keep the list's order, and the others are what they leave. */
  lemma OthersListed(c: Config, s: State, incident: string, now: int)
    requires StorageOk(s)
    ensures var rest := Without(FreshOnly(c, s.events, now), incident);
      && Within(rest, s.events) && DistinctTargets(rest) && |rest| <= MAX_EVENTS
      && (forall x :: x in rest <==> x in Others(c, s, incident, now))
      && |Others(c, s, incident, now)| == |rest|
  {
    var live := FreshOnly(c, s.events, now);
    var rest := Without(live, incident);
    FreshOnlyKeeps(c, s.events, now);
    WithoutKeeps(live, incident);
    FreshOnlyInOrder(c, s.events, now);
    WithoutInOrder(live, incident);
    WithinTransitive(rest, live, s.events);
    TargetsTellApart(rest);
    SizeOfDistinct(rest);
    assert (set x | x in rest) == Others(c, s, incident, now);
  }

  lemma FirstIsOldest(events: seq<Event>, rest: seq<Event>, others: set<Event>, e: Event)
    requires Within(rest, events) && DistinctTargets(events) && DistinctTargets(rest)
    requires e in rest && forall x :: x in rest <==> x in others
    ensures rest[0] == e <==> Oldest(events, others, e)
  {
    TargetsTellApart(events);
    if rest[0] == e {
      forall x | x in others && x != e ensures Precedes(events, e, x) {
        var k :| 0 <= k < |rest| && rest[k] == x;
        assert Precedes(rest, e, x);
        WithinKeepsOrder(rest, events, e, x);
      }
    } else if Oldest(events, others, e) {
      assert rest[0] in others;
      WithinOrderIff(rest, events, e, rest[0]);
      assert false;
    }
  }

  lemma StaysListedIff(c: Config, s: State, op: Op, e: Event)
    requires StorageOk(s) && e in s.events
    ensures e in Apply(c, s, op).events <==> !Displaces(c, s, op, e)
  {
    hide FreshOnly, Without, Last, Normalize, Fresh, IsStale, Oldest, Others, DistinctTargets;
    FreshOnlyKeeps(c, s.events, op.now);
    if op.Post? {
      var added, live := Normalize(c, op.input, s.head, op.now), FreshOnly(c, s.events, op.now);
      WithoutKeeps(live, Target(added.body));
      OthersListed(c, s, Target(added.body), op.now);
      var rest, others := Without(live, Target(added.body)), Others(c, s, Target(added.body), op.now);
      if e in rest {
        FirstIsOldest(s.events, rest, others, e);
        LastKeeps(rest, added, e);
      } else {
        AppendKeeps(rest, added);
      }
    }
  }

  /** An event that has left the list does not come back: its id is taken. */
  lemma GoneStaysGone(c: Config, s: State, op: Op, e: Event)
    requires e !in s.events && e.body.id in s.seen
    ensures e !in Apply(c, s, op).events && e.body.id in Apply(c, s, op).seen
  {
    hide FreshOnly, Without, Last, Normalize, IsStale;
    FreshOnlyKeeps(c, s.events, op.now);
    if op.Post? {
      var added, live := Normalize(c, op.input, s.head, op.now), FreshOnly(c, s.events, op.now);
      WithoutKeeps(live, Target(added.body));
      LastIsFromAll(Without(live, Target(added.body)) + [added]);
    }
  }

  lemma LastIsFromAll(all: seq<Event>)
    ensures forall x :: x in Last(all, MAX_EVENTS) ==> x in all
  {
  }

  ghost predicate NeverDisplaced(c: Config, s: State, ops: seq<Op>, e: Event) {
    forall k :: 0 <= k < |ops| ==> !Displaces(c, Run(c, s, ops[..k]), ops[k], e)
  }

  /** Over a run, a listed event is still listed exactly when nothing in the run displaced it. */
  lemma {:induction false} ListedUntilDisplacedIff(c: Config, s: State, ops: seq<Op>, e: Event)
    requires StorageOk(s) && e in s.events
    ensures e in Run(c, s, ops).events <==> NeverDisplaced(c, s, ops, e)
    ensures e.body.id in Run(c, s, ops).seen
  {
    hide Displaces, Apply, StorageOk;
    if ops == [] {
      ListedIsSeen(s, e);
    } else {
      var before, op := ops[..|ops|-1], ops[|ops|-1];
      assert forall k :: 0 <= k < |before| ==> before[..k] == ops[..k] && before[k] == ops[k];
      ListedUntilDisplacedIff(c, s, before, e);
      EveryRunKeepsStorage(c, s, before);
      if e in Run(c, s, before).events {
        StaysListedIff(c, Run(c, s, before), op, e);
        SeenStaysSeen(c, Run(c, s, before), op, e.body.id);
      } else {
        GoneStaysGone(c, Run(c, s, before), op, e);
      }
    }
  }

  lemma ListedIsSeen(s: State, e: Event)
    ensures StorageOk(s) && e in s.events ==> e.body.id in s.seen
  {
  }

  lemma SeenStaysSeen(c: Config, s: State, op: Op, id: string)
    ensures id in s.seen ==> id in Apply(c, s, op).seen
  {
  }

  // ---------------------------------------------------------------- the hash chain

  function AcceptedEvents(c: Config, s: State, ops: seq<Op>): seq<Event> {
    if ops == [] then [] else
    var before, op := ops[..|ops|-1], ops[|ops|-1];
    AcceptedEvents(c, s, before) +
    if op.Post? && Ingest(c, Run(c, s, before), op.input, op.now).1.Accepted?
    then [Ingest(c, Run(c, s, before), op.input, op.now).1.event] else []
  }

  /** es links `from` to `head`: each event carries its predecessor's hash and is hashed by the digest. */
  ghost predicate Chained(c: Config, from: Option<string>, es: seq<Event>, head: Option<string>) {
    if es == [] then from == head else
    var e := es[|es|-1];
    head == Some(e.hash) && e.hash == c.digest(e.body) && Chained(c, from, es[..|es|-1], e.body.previousHash)
  }

  lemma {:induction false} AcceptedEventsAreChained(c: Config, s: State, ops: seq<Op>)
    ensures Chained(c, s.head, AcceptedEvents(c, s, ops), Run(c, s, ops).head)
  {
    if ops != [] {
      var before, op := ops[..|ops|-1], ops[|ops|-1];
      AcceptedEventsAreChained(c, s, before);
      var es := AcceptedEvents(c, s, before);
      if op.Post? && Ingest(c, Run(c, s, before), op.input, op.now).1.Accepted? {
        assert (es + [Ingest(c, Run(c, s, before), op.input, op.now).1.event])[..|es|] == es;
      } else {
        assert AcceptedEvents(c, s, ops) == es;
      }
    }
  }

  ghost predicate Injective(digest: Body -> string) {
    forall a, b :: digest(a) == digest(b) ==> a == b
  }

  lemma {:induction false} ChainDeterminesHistory(c: Config, es: seq<Event>, fs: seq<Event>, head: Option<string>)
    requires Injective(c.digest) && Chained(c, None, es, head) && Chained(c, None, fs, head)
    ensures es == fs
  {
    if es != [] && fs != [] {
      var e, f := es[|es|-1], fs[|fs|-1];
      assert e == f;
      ChainDeterminesHistory(c, es[..|es|-1], fs[..|fs|-1], e.body.previousHash);
      assert es == es[..|es|-1] + [e] && fs == fs[..|fs|-1] + [f];
    }
  }

  /** Two rooms with the same head hash accepted the same events in the same order. */
  lemma SameHeadSameHistory(c: Config, ops: seq<Op>, ops': seq<Op>)
    requires Injective(c.digest) && Run(c, EMPTY, ops).head == Run(c, EMPTY, ops').head
    ensures AcceptedEvents(c, EMPTY, ops) == AcceptedEvents(c, EMPTY, ops')
  {
    AcceptedEventsAreChained(c, EMPTY, ops);
    AcceptedEventsAreChained(c, EMPTY, ops');
    ChainDeterminesHistory(c, AcceptedEvents(c, EMPTY, ops), AcceptedEvents(c, EMPTY, ops'), Run(c, EMPTY, ops).head);
  }

  // ---------------------------------------------------------------- the list is the history

  lemma AcceptedSnoc(c: Config, ops: seq<Op>)
    requires ops != []
    ensures var before, op := ops[..|ops|-1], ops[|ops|-1];
      var s, log := Run(c, EMPTY, before), AcceptedEvents(c, EMPTY, before);
      AcceptedEvents(c, EMPTY, ops) ==
        if op.Post? && Ingest(c, s, op.input, op.now).1.Accepted?
        then log + [Ingest(c, s, op.input, op.now).1.event] else log
  {
  }

  /** What one step does to the list: it keeps some of it in order, and an accepted active event joins at the end. */
  lemma ApplyInOrder(c: Config, s: State, op: Op, log: seq<Event>)
    requires Within(s.events, log)
    ensures var accepted := op.Post? && Ingest(c, s, op.input, op.now).1.Accepted?;
      Within(Apply(c, s, op).events,
             if accepted then log + [Ingest(c, s, op.input, op.now).1.event] else log)
  {
    hide Within, FreshOnly, Without, Normalize, IsStale, Fresh;
    var live := FreshOnly(c, s.events, op.now);
    FreshOnlyInOrder(c, s.events, op.now);
    WithinTransitive(live, s.events, log);
    if op.Post? {
      var e := Normalize(c, op.input, s.head, op.now);
      var rest := Without(live, Target(e.body));
      WithoutInOrder(live, Target(e.body));
      WithinTransitive(rest, live, log);
      WithinLonger(rest, log, e);
      LastInOrder(rest + [e]);
      WithinTransitive(Last(rest + [e], MAX_EVENTS), rest + [e], log + [e]);
    }
  }

  lemma LastInOrder(all: seq<Event>)
    ensures Within(Last(all, MAX_EVENTS), all)
  {
    WithinSelf(all);
    if |all| > MAX_EVENTS {
      WithinSuffix(all, |all| - MAX_EVENTS);
    }
  }

  /** No id is accepted twice, and accepted ids are seen. */
  ghost predicate AcceptedOnce(log: seq<Event>, seen: set<string>) {
    && (forall e :: e in log ==> e.body.id in seen)
    && forall i, j :: 0 <= i < j < |log| ==> log[i].body.id != log[j].body.id
  }

  lemma {:induction false} IdsAreAcceptedOnce(c: Config, ops: seq<Op>)
    ensures AcceptedOnce(AcceptedEvents(c, EMPTY, ops), Run(c, EMPTY, ops).seen)
  {
    if ops != [] {
      hide Normalize, FreshOnly, Without, IsStale, AcceptedEvents;
      var before, op := ops[..|ops|-1], ops[|ops|-1];
      IdsAreAcceptedOnce(c, before);
      AcceptedSnoc(c, ops);
    } else {
      assert AcceptedEvents(c, EMPTY, ops) == [];
    }
  }

  /** Over every run the list is in the order of acceptance. */
  lemma {:induction false} ListIsAcceptanceOrder(c: Config, ops: seq<Op>)
    ensures var list, log := Run(c, EMPTY, ops).events, AcceptedEvents(c, EMPTY, ops);
      && Within(list, log) && Distinct(log)
      && forall e, x :: e in list && x in list ==> (Precedes(list, e, x) <==> Precedes(log, e, x))
  {
    hide Within, Precedes, Apply;
    if ops == [] {
      WithinSelf<Event>([]);
    } else {
      var before, op := ops[..|ops|-1], ops[|ops|-1];
      ListIsAcceptanceOrder(c, before);
      AcceptedSnoc(c, ops);
      hide AcceptedEvents;
      ApplyInOrder(c, Run(c, EMPTY, before), op, AcceptedEvents(c, EMPTY, before));
    }
    IdsAreAcceptedOnce(c, ops);
    var list, log := Run(c, EMPTY, ops).events, AcceptedEvents(c, EMPTY, ops);
    forall e, x | e in list && x in list ensures Precedes(list, e, x) <==> Precedes(log, e, x) {
      WithinOrderIff(list, log, e, x);
    }
  }

  /** The event the cap drops is, of those it counts, the one accepted first. */
  lemma OldestWasAcceptedFirst(c: Config, ops: seq<Op>, incident: string, now: int, e: Event)
    ensures var s := Run(c, EMPTY, ops);
      Oldest(s.events, Others(c, s, incident, now), e)
      <==> Oldest(AcceptedEvents(c, EMPTY, ops), Others(c, s, incident, now), e)
  {
    ListIsAcceptanceOrder(c, ops);
  }

  /** The event says what the posted input says, and when it arrived; a missing id is the digest of the rest. */
  ghost predicate Carries(c: Config, e: Event, op: Op) {
    && op.Post? && op.input.wellFormed && op.input.isPublic
    && e.body.id == (if op.input.id != "" then op.input.id else c.digest(e.body.(id := "")))
    && e.body.incidentId == op.input.incidentId && e.body.kind == op.input.kind
    && e.body.expired == op.input.expired && e.body.observedAt == op.input.observedAt
    && e.body.content == op.input.content && e.body.receivedAt == op.now
  }

  /** Every accepted event carries one of the posts, in the order of the posts. */
  ghost predicate FollowsPosts(c: Config, log: seq<Event>, ops: seq<Op>) {
    exists at: seq<nat> :: CarriesAt(c, log, ops, at)
  }

  ghost predicate CarriesAt(c: Config, log: seq<Event>, ops: seq<Op>, at: seq<nat>) {
    && |at| == |log|
    && (forall k :: 0 <= k < |at| ==> at[k] < |ops| && Carries(c, log[k], ops[at[k]]))
    && (forall j, k :: 0 <= j < k < |at| ==> at[j] < at[k])
  }

  lemma FollowsLonger(c: Config, log: seq<Event>, ops: seq<Op>, e: Event)
    requires ops != [] && FollowsPosts(c, log, ops[..|ops|-1])
    ensures FollowsPosts(c, log, ops)
    ensures Carries(c, e, ops[|ops|-1]) ==> FollowsPosts(c, log + [e], ops)
  {
    hide Carries;
    var at: seq<nat> :| CarriesAt(c, log, ops[..|ops|-1], at);
    assert CarriesAt(c, log, ops, at);
    assert Carries(c, e, ops[|ops|-1]) ==> CarriesAt(c, log + [e], ops, at + [|ops| - 1]);
  }

  lemma NormalizeCarries(c: Config, input: Input, previous: Option<string>, now: int)
    ensures input.wellFormed && input.isPublic ==> Carries(c, Normalize(c, input, previous, now), Post(input, now))
  {
  }

  /** A step that accepts an event notes its receipt time and hash; no other step does. */
  lemma StepNotes(c: Config, s: State, op: Op)
    ensures var t := Apply(c, s, op);
      if op.Post? && Ingest(c, s, op.input, op.now).1.Accepted? then
        var e := Ingest(c, s, op.input, op.now).1.event;
        Carries(c, e, op) && t.updatedAt == Some(e.body.receivedAt) && t.head == Some(e.hash)
      else t.updatedAt == s.updatedAt && t.head == s.head
  {
    hide FreshOnly, Without, IsStale, CurrentVersion, Last, Carries;
    if op.Post? {
      NormalizeCarries(c, op.input, s.head, op.now);
      assert Carries(c, Normalize(c, op.input, s.head, op.now), op) ==>
        Normalize(c, op.input, s.head, op.now).body.receivedAt == op.now;
    }
  }

  /** The accepted events are posts in order; the room's clock and head are those of the last one. */
  lemma {:induction false} HistoryIsPosts(c: Config, ops: seq<Op>)
    ensures var s, log := Run(c, EMPTY, ops), AcceptedEvents(c, EMPTY, ops);
      && FollowsPosts(c, log, ops)
      && s.updatedAt == (if log == [] then None else Some(log[|log|-1].body.receivedAt))
      && s.head == (if log == [] then None else Some(log[|log|-1].hash))
  {
    if ops == [] {
      assert CarriesAt(c, [], ops, []);
    } else {
      var before, op := ops[..|ops|-1], ops[|ops|-1];
      HistoryIsPosts(c, before);
      AcceptedSnoc(c, ops);
      var s := Run(c, EMPTY, before);
      hide AcceptedEvents, FollowsPosts, Carries, Apply, Ingest;
      StepNotes(c, s, op);
      var e := if op.Post? && Ingest(c, s, op.input, op.now).1.Accepted?
        then Ingest(c, s, op.input, op.now).1.event else Event(Body("", "", "", false, 0, 0, 0, "", None), "");
      FollowsLonger(c, AcceptedEvents(c, EMPTY, before), ops, e);
    }
  }

  // ---------------------------------------------------------------- the answer to a post

  /** An earlier first arrival for the incident outranks b. */
  ghost predicate Outranked(firsts: map<string, Body>, b: Body) {
    exists id :: id in firsts && Target(firsts[id]) == Target(b)
      && !Below(firsts[id], Version(b.id, b.observedAt, Removal(b)))
  }

  /** Over every run: refused by its flags, a duplicate iff its id has arrived, stale iff outranked, else accepted. */
  lemma AnswerIff(c: Config, ops: seq<Op>, input: Input, now: int)
    ensures var s, firsts := Run(c, EMPTY, ops), Firsts(c, ops);
      var b, answer := Normalize(c, input, s.head, now).body, Ingest(c, s, input, now).1;
      if !input.wellFormed then answer == Rejected(400)
      else if !input.isPublic then answer == Rejected(403)
      else if b.id in firsts then answer == Duplicate(b.id)
      else if Outranked(firsts, b) then answer == Stale(b.id)
      else answer.Accepted? && answer.event.body == b
  {
    hide Run, Firsts, Normalize, StorageOk, FreshOnly, Without, Last;
    var s, firsts := Run(c, EMPTY, ops), Firsts(c, ops);
    var b := Normalize(c, input, s.head, now).body;
    RegisterIsJoin(c, ops);
    EveryRunKeepsStorage(c, EMPTY, ops);
    StoredUnderVersion(c, s, now, Target(b));
    OutrankedByVersion(s, firsts, b);
  }

  lemma OutrankedByVersion(s: State, firsts: map<string, Body>, b: Body)
    requires RegisterOk(s, firsts)
    ensures Outranked(firsts, b)
       <==> (Target(b) in s.versions && IsStale(Some(s.versions[Target(b)]), b.observedAt, Removal(b)))
  {
    if Target(b) in s.versions {
      assert s.versions[Target(b)].eventId in firsts;
    }
  }

  // ---------------------------------------------------------------- the object

  /** The durable object itself; each method is one atomic storage transaction. */
  class Room {
    const config: Config
    var seen: set<string>
    var events: seq<Event>
    var head: Option<string>
    var updatedAt: Option<int>
    var versions: map<string, Version>

    function Value(): State
      reads this
    {
      State(seen, events, head, updatedAt, versions)
    }

    constructor (c: Config)
      ensures Value() == EMPTY && config == c
    {
      config := c;
      seen, events, head, updatedAt, versions := {}, [], None, None, map[];
    }

    method Post(input: Input, now: int) returns (response: Response)
      modifies this
      ensures (Value(), response) == Ingest(config, old(Value()), input, now)
    {
      if !input.wellFormed {
        return Rejected(400);
      }
      var event := Normalize(config, input, head, now);
      if !input.isPublic {
        return Rejected(403);
      }
      if event.body.id in seen {
        return Duplicate(event.body.id);
      }
      var live := FreshOnly(config, events, now);
      var incident := Target(event.body);
      var removed := Removal(event.body);
      var current := if incident in versions then Some(versions[incident]) else
        match Visible(live, incident)
        case Some(e) => Some(Version(e.body.id, e.body.observedAt, false))
        case None => None;
      if IsStale(current, event.body.observedAt, removed) {
        seen := seen + {event.body.id};
        return Stale(event.body.id);
      }
      var rest := Without(live, incident);
      events := if removed then rest else Last(rest + [event], MAX_EVENTS);
      head := Some(event.hash);
      updatedAt := Some(now);
      seen := seen + {event.body.id};
      versions := versions[incident := Version(event.body.id, event.body.observedAt, removed)];
      return Accepted(event);
    }

    method LoadSnapshot(now: int) returns (shown: seq<Event>)
      modifies this`events
      ensures Value() == Snapshot(config, old(Value()), now) && shown == events
    {
      shown := FreshOnly(config, events, now);
      if |shown| != |events| {
        events := shown;
      } else {
        AllFresh(config, events, now);
      }
    }
  }

  lemma {:induction false} AllFresh(c: Config, events: seq<Event>, now: int)
    requires |FreshOnly(c, events, now)| == |events|
    ensures FreshOnly(c, events, now) == events
  {
    if events != [] {
      FreshOnlyKeeps(c, events[1..], now);
      AllFresh(c, events[1..], now);
    }
  }
}
