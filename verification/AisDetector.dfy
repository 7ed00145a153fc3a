/** The detector object: per-vessel tables, the emission cooldown, and the memory sweep. */
module AisDetector {
  import opened Options
  import opened AisTrack

  /** (mmsi, anomaly type). */
  type Key = (string, string)

  const COOLDOWN := 10800.0

  function KeyOf(mmsi: string, alert: Alert): Key {
    match alert
    case ImpossibleSpeed(_, _, _, _) => (mmsi, "impossible_speed")
    case DarkZoneEntry(_, _) => (mmsi, "dark_zone_entry")
    case SdnMatch(_, _) => (mmsi, "sdn_match")
  }

  /** The cooldown table and what was published: key and time. */
  datatype Feed = Feed(emitted: map<Key, real>, published: seq<(Key, real)>)

  function LastEmit(emitted: map<Key, real>, key: Key): real {
    if key in emitted then emitted[key] else 0.0
  }

  function Emit(feed: Feed, key: Key, now: real): Feed {
    if now - LastEmit(feed.emitted, key) < COOLDOWN then feed
    else Feed(feed.emitted[key := now], feed.published + [(key, now)])
  }

  function EmitAll(feed: Feed, mmsi: string, alerts: seq<Alert>, now: real): Feed {
    if alerts == [] then feed
    else Emit(EmitAll(feed, mmsi, alerts[..|alerts|-1], now), KeyOf(mmsi, alerts[|alerts|-1]), now)
  }

  lemma EmitAllSnoc(feed: Feed, mmsi: string, alerts: seq<Alert>, alert: Alert, now: real)
    ensures EmitAll(feed, mmsi, alerts + [alert], now)
         == Emit(EmitAll(feed, mmsi, alerts, now), KeyOf(mmsi, alert), now)
  {
    assert (alerts + [alert])[..|alerts|] == alerts;
  }

  lemma {:induction false} EmitAllAppend(feed: Feed, mmsi: string, a: seq<Alert>, b: seq<Alert>, now: real)
    ensures EmitAll(feed, mmsi, a + b, now) == EmitAll(EmitAll(feed, mmsi, a, now), mmsi, b, now)
    decreases |b|
  {
    hide Emit, KeyOf;
    if b == [] {
      assert a + b == a;
    } else {
      var init, last := b[..|b|-1], b[|b|-1];
      EmitAllAppend(feed, mmsi, a, init, now);
      assert a + b == (a + init) + [last];
      EmitAllSnoc(feed, mmsi, a + init, last, now);
    }
  }

  lemma EmitAllNothing(feed: Feed, mmsi: string, now: real)
    ensures EmitAll(feed, mmsi, [], now) == feed
  {
  }

  function Forget(feed: Feed, now: real): Feed {
    feed.(emitted := map k | k in feed.emitted && now - feed.emitted[k] < COOLDOWN * 2.0 :: feed.emitted[k])
  }

  // ---------------------------------------------------------------- cooldown

  datatype Op = Call(key: Key, now: real) | Tidy(now: real)

  function Apply(feed: Feed, op: Op): Feed {
    match op
    case Call(key, now) => Emit(feed, key, now)
    case Tidy(now) => Forget(feed, now)
  }

  function Feeds(ops: seq<Op>): Feed {
    if ops == [] then Feed(map[], []) else Apply(Feeds(ops[..|ops|-1]), ops[|ops|-1])
  }

  function CallsOnly(ops: seq<Op>): seq<Op> {
    if ops == [] then [] else CallsOnly(ops[..|ops|-1]) + if ops[|ops|-1].Call? then [ops[|ops|-1]] else []
  }

  /** The clock never goes back, and it counts from an epoch at least one cooldown ago. */
  ghost predicate Clocked(ops: seq<Op>) {
    && (forall i, j :: 0 <= i < j < |ops| ==> ops[i].now <= ops[j].now)
    && forall i :: 0 <= i < |ops| ==> ops[i].now >= COOLDOWN
  }

  /** From `now` on, both tables take the same decisions. */
  ghost predicate Agree(a: map<Key, real>, b: map<Key, real>, now: real) {
    forall k :: ((k in a <==> k in b) && (k in a ==> a[k] == b[k])) || (k in a && k !in b && now - a[k] >= COOLDOWN)
  }

  lemma {:induction false} TidyIsInvisible(ops: seq<Op>, now: real)
    requires Clocked(ops) && now >= COOLDOWN && forall i :: 0 <= i < |ops| ==> ops[i].now <= now
    ensures Feeds(ops).published == Feeds(CallsOnly(ops)).published
    ensures Agree(Feeds(CallsOnly(ops)).emitted, Feeds(ops).emitted, now)
  {
    if ops != [] {
      var before, op := ops[..|ops|-1], ops[|ops|-1];
      TidyIsInvisible(before, op.now);
      var calls := CallsOnly(before);
      if op.Call? {
        assert (calls + [op])[..|calls|] == calls;
      } else {
        assert calls + [] == calls;
      }
    }
  }

  lemma {:induction false} CallsOnlyAppend(a: seq<Op>, b: seq<Op>)
    ensures CallsOnly(a + b) == CallsOnly(a) + CallsOnly(b)
    decreases |b|
  {
    if b == [] {
      assert a + b == a;
    } else {
      CallsOnlyAppend(a, b[..|b|-1]);
      assert (a + b)[..|a+b|-1] == a + b[..|b|-1];
    }
  }

  lemma ClockedWithout(before: seq<Op>, op: Op, after: seq<Op>)
    requires Clocked(before + [op] + after)
    ensures Clocked(before + after)
    ensures forall x :: x in before + after ==> x in before + [op] + after
  {
    var all, rest := before + [op] + after, before + after;
    assert forall i :: 0 <= i < |rest| ==> rest[i] == all[if i < |before| then i else i + 1];
  }

  lemma LastInstant(ops: seq<Op>)
    requires Clocked(ops) && ops != []
    ensures ops[|ops|-1].now >= COOLDOWN && forall x :: x in ops ==> x.now <= ops[|ops|-1].now
  {
  }

  lemma SweepIsNoCall(before: seq<Op>, now: real, after: seq<Op>)
    ensures CallsOnly(before + [Tidy(now)] + after) == CallsOnly(before + after)
  {
    assert [Tidy(now)][..0] == [] && CallsOnly([Tidy(now)]) == [];
    CallsOnlyAppend(before, [Tidy(now)]);
    CallsOnlyAppend(before + [Tidy(now)], after);
    CallsOnlyAppend(before, after);
    hide CallsOnly;
  }

  /** Wherever a sweep falls in a run, the same alerts are published as without it. */
  lemma SweepIsInvisible(before: seq<Op>, now: real, after: seq<Op>)
    requires Clocked(before + [Tidy(now)] + after)
    ensures Feeds(before + [Tidy(now)] + after).published == Feeds(before + after).published
  {
    hide Feeds, CallsOnly, Clocked;
    var swept, plain := before + [Tidy(now)] + after, before + after;
    ClockedWithout(before, Tidy(now), after);
    SweepIsNoCall(before, now, after);
    LastInstant(swept);
    var last := swept[|swept|-1].now;
    assert forall i :: 0 <= i < |plain| ==> plain[i] in plain;
    TidyIsInvisible(swept, last);
    TidyIsInvisible(plain, last);
  }

  /** Every publication is the latest one of its key on record, or old enough to have been forgotten. */
  ghost predicate Spaced(feed: Feed, now: real) {
    && (forall i, j :: 0 <= i < j < |feed.published| && feed.published[i].0 == feed.published[j].0 ==>
          feed.published[j].1 - feed.published[i].1 >= COOLDOWN)
    && (forall i :: 0 <= i < |feed.published| ==>
          var (key, t) := feed.published[i];
          if key in feed.emitted then t <= feed.emitted[key] else now - t >= COOLDOWN)
  }

  /** Two publications under one key are at least three hours apart, sweeps or not. */
  lemma {:induction false} PublicationsAreSpaced(ops: seq<Op>, now: real)
    requires Clocked(ops) && forall i :: 0 <= i < |ops| ==> ops[i].now <= now
    ensures Spaced(Feeds(ops), now)
  {
    if ops != [] {
      PublicationsAreSpaced(ops[..|ops|-1], ops[|ops|-1].now);
    }
  }

  /** The key was published less than three hours ago. */
  ghost predicate Recent(published: seq<(Key, real)>, key: Key, now: real) {
    exists t :: (key, t) in published && now - t < COOLDOWN
  }

  /** The cooldown table lists publications, and the latest one of each key unless that is long past. */
  ghost predicate TableOk(feed: Feed) {
    forall k :: k in feed.emitted ==> (k, feed.emitted[k]) in feed.published
  }

  lemma {:induction false} EmittedWasPublished(ops: seq<Op>)
    ensures TableOk(Feeds(ops))
  {
    if ops != [] {
      EmittedWasPublished(ops[..|ops|-1]);
    }
  }

  lemma FeedsSnoc(ops: seq<Op>, op: Op)
    ensures Feeds(ops + [op]) == Apply(Feeds(ops), op)
  {
    assert (ops + [op])[..|ops|] == ops;
  }

  lemma ClockedPrefix(ops: seq<Op>, op: Op)
    requires Clocked(ops + [op])
    ensures Clocked(ops) && op.now >= COOLDOWN && forall i :: 0 <= i < |ops| ==> ops[i].now <= op.now
  {
    var all := ops + [op];
    assert all[|ops|] == op && forall i :: 0 <= i < |ops| ==> all[i] == ops[i];
  }

  /** After any run, sweeps included, a call is published exactly when its key was not in the last three hours. */
  lemma {:induction false} CallPublishesIff(ops: seq<Op>, key: Key, now: real)
    requires Clocked(ops + [Call(key, now)])
    ensures var published := Feeds(ops).published;
      Feeds(ops + [Call(key, now)]).published
      == if Recent(published, key, now) then published else published + [(key, now)]
  {
    ClockedPrefix(ops, Call(key, now));
    PublicationsAreSpaced(ops, now);
    EmittedWasPublished(ops);
    FeedsSnoc(ops, Call(key, now));
    var feed := Feeds(ops);
    if Recent(feed.published, key, now) {
      var t :| (key, t) in feed.published && now - t < COOLDOWN;
      var i :| 0 <= i < |feed.published| && feed.published[i] == (key, t);
    }
  }

  /** After a sweep the table holds exactly the keys published within the last six hours, at their latest time. */
  lemma SweptTableIff(ops: seq<Op>, now: real, key: Key)
    requires Clocked(ops + [Tidy(now)])
    ensures var feed := Feeds(ops + [Tidy(now)]);
      && (key in feed.emitted <==> exists t :: (key, t) in feed.published && now - t < 2.0 * COOLDOWN)
      && (key in feed.emitted ==> (key, feed.emitted[key]) in feed.published
                                  && forall t :: (key, t) in feed.published ==> t <= feed.emitted[key])
  {
    ClockedPrefix(ops, Tidy(now));
    PublicationsAreSpaced(ops, now);
    EmittedWasPublished(ops);
    FeedsSnoc(ops, Tidy(now));
    var feed := Feeds(ops);
    LatestIsKept(ops, key, now);
    if key in feed.emitted {
      assert (key, feed.emitted[key]) in feed.published;
    }
  }

  /** A forgotten key was published no later than two cooldowns ago. */
  lemma {:induction false} LatestIsKept(ops: seq<Op>, key: Key, now: real)
    requires Clocked(ops) && forall i :: 0 <= i < |ops| ==> ops[i].now <= now
    ensures var feed := Feeds(ops);
      forall t :: (key, t) in feed.published ==>
        if key in feed.emitted then t <= feed.emitted[key] else now - t >= 2.0 * COOLDOWN
  {
    if ops != [] {
      LatestIsKept(ops[..|ops|-1], key, ops[|ops|-1].now);
      TimesArePast(ops[..|ops|-1], ops[|ops|-1].now);
    }
  }

  lemma {:induction false} TimesArePast(ops: seq<Op>, now: real)
    requires forall i :: 0 <= i < |ops| ==> ops[i].now <= now
    ensures forall k: Key, t :: (k, t) in Feeds(ops).published ==> t <= now
  {
    if ops != [] {
      TimesArePast(ops[..|ops|-1], now);
    }
  }

  /** One cooldown per vessel and kind of alert. */
  lemma KeysTellApart(m: string, a: Alert, n: string, b: Alert)
    ensures KeyOf(m, a) == KeyOf(n, b) <==> m == n && SameKind(a, b)
  {
    assert "impossible_speed"[0] != "dark_zone_entry"[0] && "dark_zone_entry"[0] != "sdn_match"[0];
    assert "impossible_speed"[0] != "sdn_match"[0];
  }

  /** The calls for the alerts of one report. */
  function Calls(mmsi: string, alerts: seq<Alert>, now: real): seq<Op> {
    seq(|alerts|, k requires 0 <= k < |alerts| => Call(KeyOf(mmsi, alerts[k]), now))
  }

  lemma CallsSnoc(mmsi: string, alerts: seq<Alert>, alert: Alert, now: real)
    ensures Calls(mmsi, alerts + [alert], now) == Calls(mmsi, alerts, now) + [Call(KeyOf(mmsi, alert), now)]
  {
  }

  lemma {:induction false} EmitAllIsCalls(ops: seq<Op>, mmsi: string, alerts: seq<Alert>, now: real)
    ensures EmitAll(Feeds(ops), mmsi, alerts, now) == Feeds(ops + Calls(mmsi, alerts, now))
  {
    if alerts == [] {
      assert ops + Calls(mmsi, alerts, now) == ops;
    } else {
      var init, last := alerts[..|alerts|-1], alerts[|alerts|-1];
      EmitAllIsCalls(ops, mmsi, init, now);
      CallsSnoc(mmsi, init, last, now);
      assert alerts == init + [last];
      FeedsSnoc(ops + Calls(mmsi, init, now), Call(KeyOf(mmsi, last), now));
      assert ops + Calls(mmsi, alerts, now) == ops + Calls(mmsi, init, now) + [Call(KeyOf(mmsi, last), now)];
    }
  }

  /** From `was` to `after`, what a report at this time publishes: exactly its alerts whose keys were not recent. */
  ghost predicate Publishes(was: seq<(Key, real)>, after: seq<(Key, real)>, mmsi: string, alerts: seq<Alert>,
                            now: real) {
    && was <= after
    && (forall i :: |was| <= i < |after| ==>
          after[i].1 == now && !Recent(was, after[i].0, now) && exists a :: a in alerts && after[i].0 == KeyOf(mmsi, a))
    && (forall a :: a in alerts ==> Recent(after, KeyOf(mmsi, a), now))
    && (forall i, j :: |was| <= i < j < |after| ==> after[i].0 != after[j].0)
  }

  lemma PublishesSnoc(was: seq<(Key, real)>, after: seq<(Key, real)>, mmsi: string, alerts: seq<Alert>, alert: Alert,
                      now: real)
    requires Publishes(was, after, mmsi, alerts, now)
    ensures var key := KeyOf(mmsi, alert);
      Publishes(was, if Recent(after, key, now) then after else after + [(key, now)], mmsi, alerts + [alert], now)
  {
    hide KeyOf;
    var key := KeyOf(mmsi, alert);
    var next := if Recent(after, key, now) then after else after + [(key, now)];
    assert forall x :: x in after ==> x in next;
    assert forall k: Key, t :: (k, t) in was ==> (k, t) in after;
    assert !Recent(after, key, now) ==> (key, now) in next && !Recent(was, key, now);
    forall a | a in alerts + [alert] ensures Recent(next, KeyOf(mmsi, a), now) {
      if a in alerts {
        var t :| (KeyOf(mmsi, a), t) in after && now - t < COOLDOWN;
        assert (KeyOf(mmsi, a), t) in next;
      }
    }
    forall i | |was| <= i < |after| ensures after[i].0 != key || Recent(after, key, now) {
      assert after[i] in after;
    }
    assert forall a :: a in alerts ==> a in alerts + [alert];
    assert alert in alerts + [alert];
  }

  /** A report's alerts are each published unless their kind was for this vessel in the last three hours. */
  lemma {:induction false} ReportPublishes(ops: seq<Op>, mmsi: string, alerts: seq<Alert>, now: real)
    requires Clocked(ops) && now >= COOLDOWN && forall i :: 0 <= i < |ops| ==> ops[i].now <= now
    ensures Publishes(Feeds(ops).published, EmitAll(Feeds(ops), mmsi, alerts, now).published, mmsi, alerts, now)
  {
    hide KeyOf, Publishes, Emit;
    if alerts == [] {
      NothingToPublish(Feeds(ops).published, mmsi, now);
    } else {
      var init, last := alerts[..|alerts|-1], alerts[|alerts|-1];
      ReportPublishes(ops, mmsi, init, now);
      EmitAllIsCalls(ops, mmsi, init, now);
      EmitAllSnoc(Feeds(ops), mmsi, init, last, now);
      assert alerts == init + [last];
      var calls, key := ops + Calls(mmsi, init, now), KeyOf(mmsi, last);
      FeedsSnoc(calls, Call(key, now));
      CallPublishesIff(calls, key, now);
      PublishesSnoc(Feeds(ops).published, Feeds(calls).published, mmsi, init, last, now);
    }
  }

  lemma LoggedReportPublishes(ops: seq<Op>, mmsi: string, alerts: seq<Alert>, now: real)
    requires Clocked(ops + Calls(mmsi, alerts, now))
    ensures Publishes(Feeds(ops).published, EmitAll(Feeds(ops), mmsi, alerts, now).published, mmsi, alerts, now)
  {
    hide KeyOf, Publishes, Emit;
    if alerts == [] {
      NothingToPublish(Feeds(ops).published, mmsi, now);
    } else {
      var all := ops + Calls(mmsi, alerts, now);
      assert all[|ops|].now == now && forall i :: 0 <= i < |ops| ==> all[i] == ops[i];
      ReportPublishes(ops, mmsi, alerts, now);
    }
  }

  lemma NothingToPublish(was: seq<(Key, real)>, mmsi: string, now: real)
    ensures Publishes(was, was, mmsi, [], now)
  {
  }

  // ---------------------------------------------------------------- the object

  class Detector {
    const nm: Chart
    var lastSeen: map<string, Seen>
    var pendingJump: map<string, Jump>
    var positions: map<string, Pos>
    var sdn: set<string>
    var emitted: map<Key, real>
    var published: seq<(Key, real)>
    ghost var log: seq<Op>

    /** The cooldowns are those of the calls and sweeps so far. */
    ghost predicate Valid()
      reads this
    {
      Cooldowns() == Feeds(log)
    }

    constructor (nm: Chart, sdn: set<string>)
      ensures this.nm == nm && this.sdn == sdn && Valid() && log == [] && published == []
      ensures forall m :: VesselOf(m) == UNSEEN
    {
      this.nm, this.sdn := nm, sdn;
      lastSeen, pendingJump, positions, emitted, published := map[], map[], map[], map[], [];
      log := [];
    }

    function VesselOf(mmsi: string): Vessel
      reads this
    {
      Vessel(if mmsi in lastSeen then Some(lastSeen[mmsi]) else None,
             if mmsi in pendingJump then Some(pendingJump[mmsi]) else None,
             if mmsi in positions then Some(positions[mmsi]) else None)
    }

    function Cooldowns(): Feed
      reads this
    {
      Feed(emitted, published)
    }

    method EmitAlert(mmsi: string, alert: Alert, now: real)
      modifies this`emitted, this`published
      ensures Cooldowns() == Emit(old(Cooldowns()), KeyOf(mmsi, alert), now)
    {
      var key := KeyOf(mmsi, alert);
      if now - LastEmit(emitted, key) < COOLDOWN {
        return;
      }
      emitted := emitted[key := now];
      published := published + [(key, now)];
    }

    /** Settles a pending candidate against a newer fix: dropped, or confirmed and published. */
    method SettleCandidate(mmsi: string, f: Fix) returns (verdict: Verdict)
      requires !Ignored(VesselOf(mmsi), f)
      modifies this`pendingJump, this`emitted, this`published
      ensures verdict == Settle(nm, old(VesselOf(mmsi)), f)
      ensures VesselOf(mmsi)
           == if verdict == NoCandidate then old(VesselOf(mmsi)) else old(VesselOf(mmsi)).(pending := None)
      ensures Cooldowns() == if verdict != Confirmed then old(Cooldowns()) else
        Emit(old(Cooldowns()), KeyOf(mmsi, Confirmation(old(VesselOf(mmsi)).pending.value, f)), f.received)
      ensures forall m :: m != mmsi ==> VesselOf(m) == old(VesselOf(m))
    {
      hide Knots, MaxSpeed, InDarkZone, Emit, KeyOf;
      if mmsi !in lastSeen || mmsi !in pendingJump {
        return NoCandidate;
      }
      var jump := pendingJump[mmsi];
      var oldPath := Plausible(nm, LastPoint(lastSeen[mmsi]), f);
      var newPath := Plausible(nm, JumpPoint(jump), f);
      pendingJump := pendingJump - {mmsi};
      if oldPath {
        return Glitch;
      } else if newPath {
        EmitAlert(mmsi, Confirmation(jump, f), f.received);
        return Confirmed;
      }
      return Superseded;
    }

    /** The zone and sanctions alerts of an accepted fix. */
    method RaiseAlerts(mmsi: string, f: Fix, anchor: Option<(Point, string)>) returns (ghost alerts: seq<Alert>)
      modifies this`emitted, this`published
      ensures alerts == Raised(mmsi in sdn, f, anchor)
      ensures Cooldowns() == EmitAll(old(Cooldowns()), mmsi, alerts, f.received)
    {
      hide InDarkZone, Emit, KeyOf;
      alerts := [];
      if InDarkZone(f.pos) && (anchor.None? || !InDarkZone(anchor.value.0.pos)) {
        EmitAlert(mmsi, DarkZoneEntry(f.name, f.pos), f.received);
        EmitAllSnoc(old(Cooldowns()), mmsi, alerts, DarkZoneEntry(f.name, f.pos), f.received);
        alerts := alerts + [DarkZoneEntry(f.name, f.pos)];
      }
      if mmsi in sdn {
        EmitAlert(mmsi, SdnMatch(f.name, f.pos), f.received);
        EmitAllSnoc(old(Cooldowns()), mmsi, alerts, SdnMatch(f.name, f.pos), f.received);
        alerts := alerts + [SdnMatch(f.name, f.pos)];
      }
    }

    /** The accepted fix becomes the vessel's last point. */
    method Accept(mmsi: string, f: Fix)
      modifies this`lastSeen, this`positions
      ensures VesselOf(mmsi) == AcceptedVessel(old(VesselOf(mmsi)), f)
      ensures forall m :: m != mmsi ==> VesselOf(m) == old(VesselOf(m))
    {
      var name := Or(f.name, if mmsi in lastSeen then lastSeen[mmsi].name else "");
      lastSeen := lastSeen[mmsi := Seen(f.pos, f.ts, f.received, f.speed, f.kind, name, false)];
      positions := positions[mmsi := f.pos];
    }

    /** The fix waits for a confirmation; the receipt time goes to a last point that is still stored. */
    method Quarantine(mmsi: string, f: Fix, anchor: (Point, string), verdict: Verdict)
      requires verdict != Confirmed ==> VesselOf(mmsi).last.Some?
      modifies this`lastSeen, this`pendingJump
      ensures VesselOf(mmsi) == QuarantinedVessel(nm, old(VesselOf(mmsi)), f, anchor, verdict)
      ensures forall m :: m != mmsi ==> VesselOf(m) == old(VesselOf(m))
    {
      hide Knots, MaxSpeed, Or;
      pendingJump := pendingJump[mmsi := JumpFrom(nm, f, anchor)];
      if verdict != Confirmed {
        lastSeen := lastSeen[mmsi := lastSeen[mmsi].(received := f.received)];
      }
    }

    method Handle(mmsi: string, f: Fix)
      modifies this`lastSeen, this`pendingJump, this`positions, this`emitted, this`published
      ensures VesselOf(mmsi) == Step(nm, mmsi in sdn, old(VesselOf(mmsi)), f).0
      ensures Cooldowns()
           == EmitAll(old(Cooldowns()), mmsi, Step(nm, mmsi in sdn, old(VesselOf(mmsi)), f).1, f.received)
      ensures forall m :: m != mmsi ==> VesselOf(m) == old(VesselOf(m))
    {
      hide TooFast, Raised, Emit, EmitAll, KeyOf, QuarantinedVessel, AcceptedVessel, Plausible;
      ghost var v, feed := VesselOf(mmsi), Cooldowns();
      EmitAllNothing(feed, mmsi, f.received);
      if Ignored(VesselOf(mmsi), f) {
        return;
      }
      var candidate := VesselOf(mmsi).pending;
      var verdict := SettleCandidate(mmsi, f);
      var anchor := Anchor(VesselOf(mmsi).(pending := candidate), verdict);
      ghost var confirmed: seq<Alert> := [];
      if verdict == Confirmed {
        confirmed := [] + [Confirmation(v.pending.value, f)];
        EmitAllSnoc(feed, mmsi, [], Confirmation(v.pending.value, f), f.received);
      }
      if anchor.Some? && TooFast(nm, anchor.value.0, f) {
        Quarantine(mmsi, f, anchor.value, verdict);
        assert confirmed == Step(nm, mmsi in sdn, v, f).1;
        return;
      }
      ghost var rest := RaiseAlerts(mmsi, f, anchor);
      Accept(mmsi, f);
      EmitAllAppend(feed, mmsi, confirmed, rest, f.received);
      assert confirmed + rest == Step(nm, mmsi in sdn, v, f).1;
    }

    /** One position report. */
    method ProcessPosition(mmsi: string, f: Fix)
      requires Valid()
      modifies this
      ensures Valid() && sdn == old(sdn)
      ensures VesselOf(mmsi) == Step(nm, mmsi in sdn, old(VesselOf(mmsi)), f).0
      ensures forall m :: m != mmsi ==> VesselOf(m) == old(VesselOf(m))
      ensures log == old(log) + Calls(mmsi, Step(nm, mmsi in sdn, old(VesselOf(mmsi)), f).1, f.received)
      ensures Clocked(log) ==>
        Publishes(old(published), published, mmsi, Step(nm, mmsi in sdn, old(VesselOf(mmsi)), f).1, f.received)
    {
      hide Step, EmitAll, Publishes, Clocked, Calls;
      ghost var calls, alerts := log, Step(nm, mmsi in sdn, VesselOf(mmsi), f).1;
      Handle(mmsi, f);
      EmitAllIsCalls(calls, mmsi, alerts, f.received);
      log := calls + Calls(mmsi, alerts, f.received);
      if Clocked(log) {
        LoggedReportPublishes(calls, mmsi, alerts, f.received);
      }
    }

    /** The sweep's pruning: it forgets silent tracks and spent cooldowns, but no candidate. */
    method SweepMemory(now: real)
      requires Valid()
      modifies this`lastSeen, this`emitted, this`log
      ensures Valid() && log == old(log) + [Tidy(now)]
      ensures forall m :: VesselOf(m) == Sweep(old(VesselOf(m)), now)
    {
      hide Forget, Feeds;
      ghost var calls := log;
      Prune(now);
      FeedsSnoc(calls, Tidy(now));
      log := calls + [Tidy(now)];
    }

    method Prune(now: real)
      modifies this`lastSeen, this`emitted
      ensures forall m :: VesselOf(m) == Sweep(old(VesselOf(m)), now)
      ensures Cooldowns() == Forget(old(Cooldowns()), now)
    {
      lastSeen := map m | m in lastSeen && now - lastSeen[m].received < FORGET_AFTER :: lastSeen[m];
      emitted := map k | k in emitted && now - emitted[k] < COOLDOWN * 2.0 :: emitted[k];
    }
  }
}
