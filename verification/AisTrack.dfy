/** AIS jump quarantine: a lone impossible fix is held back until a newer fix confirms or refutes it. */
module AisTrack {
  import opened Options

  datatype Pos = Pos(lat: real, lon: real)

  /** A position report with its source time resolved, as `process_position` computes it. */
  datatype Fix = Fix(pos: Pos, ts: real, received: real, speed: real, kind: string, name: string)

  datatype Seen = Seen(pos: Pos, ts: real, received: real, speed: real, kind: string, name: string, gapEmitted: bool)

  datatype Jump = Jump(pos: Pos, ts: real, received: real, speed: real, kind: string, name: string,
                       computedKts: real, maxAllowed: real, gap: real)

  datatype Alert =
    | ImpossibleSpeed(name: string, pos: Pos, confidence: real, computedKts: real)
    | DarkZoneEntry(name: string, pos: Pos)
    | SdnMatch(name: string, pos: Pos)

  /** One vessel's rows of `_last_seen`, `_pending_jump` and `_positions`. */
  datatype Vessel = Vessel(last: Option<Seen>, pending: Option<Jump>, position: Option<Pos>)

  const UNSEEN := Vessel(None, None, None)

  /** Distance in nautical miles. */
  type Chart = (Pos, Pos) -> real

  datatype Point = Point(pos: Pos, ts: real)

  function MaxSpeed(kind: string): real {
    match kind
    case "cargo" => 30.0
    case "tanker" => 20.0
    case "passenger" => 35.0
    case "fishing" => 20.0
    case "tug" => 15.0
    case "sailing" => 18.0
    case _ => 50.0
  }

  const SPEED_FLOOR := 55.0

  /** Every vessel class shares one floor, because no class maximum reaches it. */
  function ImpossibleFloor(kind: string): (r: real)
    ensures r == SPEED_FLOOR
  {
    if MaxSpeed(kind) > SPEED_FLOOR then MaxSpeed(kind) else SPEED_FLOOR
  }

  function Knots(nm: Chart, a: Point, b: Point): real {
    var gap, dist := b.ts - a.ts, nm(a.pos, b.pos);
    if gap > 0.0 && dist > 0.0 then dist / (gap / 3600.0) else 0.0
  }

  /** Each zone is (lat0, lon0, lat1, lon1). */
  const DARK_ZONES: seq<(real, real, real, real)> := [(23.5, 37.0, 28.0, 42.0), (10.0, 30.0, 16.0, 36.0)]

  predicate InDarkZone(p: Pos) {
    exists z :: z in DARK_ZONES && z.0 <= p.lat <= z.2 && z.1 <= p.lon <= z.3
  }

  lemma DarkZonesAre(p: Pos)
    ensures InDarkZone(p)
       <==> (23.5 <= p.lat <= 28.0 && 37.0 <= p.lon <= 42.0) || (10.0 <= p.lat <= 16.0 && 30.0 <= p.lon <= 36.0)
  {
    assert DARK_ZONES[0] in DARK_ZONES && DARK_ZONES[1] in DARK_ZONES;
  }

  function Or(name: string, other: string): string {
    if name != "" then name else other
  }

  function Cap(r: real): real {
    if r < 0.9 then r else 0.9
  }

  function LastPoint(s: Seen): Point { Point(s.pos, s.ts) }

  function JumpPoint(j: Jump): Point { Point(j.pos, j.ts) }

  function FixPoint(f: Fix): Point { Point(f.pos, f.ts) }

  predicate Plausible(nm: Chart, a: Point, f: Fix) {
    f.ts - a.ts > 0.0 && Knots(nm, a, FixPoint(f)) <= ImpossibleFloor(f.kind)
  }

  /** How a pending candidate is settled by a newer fix. */
  datatype Verdict = NoCandidate | Glitch | Confirmed | Superseded

  function Settle(nm: Chart, v: Vessel, f: Fix): Verdict {
    if v.last.None? || v.pending.None? then NoCandidate
    else if Plausible(nm, LastPoint(v.last.value), f) then Glitch
    else if Plausible(nm, JumpPoint(v.pending.value), f) then Confirmed
    else Superseded
  }

  predicate Ignored(v: Vessel, f: Fix) {
    v.last.Some? && (f.ts <= v.last.value.ts || (v.pending.Some? && f.ts <= v.pending.value.ts))
  }

  function Confirmation(j: Jump, f: Fix): Alert {
    ImpossibleSpeed(Or(j.name, f.name), j.pos, Cap(0.5 + (j.computedKts - j.maxAllowed) / 100.0), j.computedKts)
  }

  /** The point the new leg starts from, with the name recorded there. */
  function Anchor(v: Vessel, verdict: Verdict): Option<(Point, string)> {
    if verdict == Confirmed && v.pending.Some? then Some((JumpPoint(v.pending.value), v.pending.value.name))
    else if v.last.Some? then Some((LastPoint(v.last.value), v.last.value.name))
    else None
  }

  predicate TooFast(nm: Chart, from: Point, f: Fix) {
    f.ts - from.ts > 0.0 && Knots(nm, from, FixPoint(f)) > ImpossibleFloor(f.kind)
  }

  predicate Quarantined(nm: Chart, v: Vessel, f: Fix) {
    var anchor := Anchor(v, Settle(nm, v, f));
    anchor.Some? && TooFast(nm, anchor.value.0, f)
  }

  function JumpFrom(nm: Chart, f: Fix, anchor: (Point, string)): Jump {
    Jump(f.pos, f.ts, f.received, f.speed, f.kind, Or(f.name, anchor.1), Knots(nm, anchor.0, FixPoint(f)),
         MaxSpeed(f.kind), f.ts - anchor.0.ts)
  }

  /** The rows with the fix as candidate. A confirmed candidate is no stored row, so its receipt time is dropped. */
  function QuarantinedVessel(nm: Chart, v: Vessel, f: Fix, anchor: (Point, string), verdict: Verdict): Vessel {
    var last := if verdict == Confirmed || v.last.None? then v.last else Some(v.last.value.(received := f.received));
    Vessel(last, Some(JumpFrom(nm, f, anchor)), v.position)
  }

  function AcceptedVessel(v: Vessel, f: Fix): Vessel {
    var name := Or(f.name, if v.last.Some? then v.last.value.name else "");
    Vessel(Some(Seen(f.pos, f.ts, f.received, f.speed, f.kind, name, false)), v.pending, Some(f.pos))
  }

  /** The zone and sanctions alerts of an accepted fix. */
  function Raised(sdn: bool, f: Fix, anchor: Option<(Point, string)>): seq<Alert> {
    var entered := InDarkZone(f.pos) && (anchor.None? || !InDarkZone(anchor.value.0.pos));
    (if entered then [DarkZoneEntry(f.name, f.pos)] else []) + if sdn then [SdnMatch(f.name, f.pos)] else []
  }

  /** `process_position` for one vessel: the new rows and the calls to `_emit`, in order. */
  function Step(nm: Chart, sdn: bool, v: Vessel, f: Fix): (Vessel, seq<Alert>) {
    if Ignored(v, f) then (v, []) else
    var verdict := Settle(nm, v, f);
    var confirmed := if verdict == Confirmed then [Confirmation(v.pending.value, f)] else [];
    var settled := if verdict == NoCandidate then v else v.(pending := None);
    var anchor := Anchor(v, verdict);
    if Quarantined(nm, v, f) then (QuarantinedVessel(nm, settled, f, anchor.value, verdict), confirmed)
    else (AcceptedVessel(settled, f), confirmed + Raised(sdn, f, anchor))
  }

  function Run(nm: Chart, sdn: bool, v: Vessel, fs: seq<Fix>): (Vessel, seq<Alert>) {
    if fs == [] then (v, []) else
    var (u, early) := Run(nm, sdn, v, fs[..|fs|-1]);
    var (w, late) := Step(nm, sdn, u, fs[|fs|-1]);
    (w, early + late)
  }

  // ---------------------------------------------------------------- the accepted track

  /** The points a fix adds to the accepted track. */
  function Accepts(nm: Chart, v: Vessel, f: Fix): seq<Point> {
    if Ignored(v, f) then [] else
    (if Settle(nm, v, f) == Confirmed then [JumpPoint(v.pending.value)] else [])
    + if Quarantined(nm, v, f) then [] else [FixPoint(f)]
  }

  function Track(nm: Chart, sdn: bool, fs: seq<Fix>): seq<Point> {
    if fs == [] then [] else
    Track(nm, sdn, fs[..|fs|-1]) + Accepts(nm, Run(nm, sdn, UNSEEN, fs[..|fs|-1]).0, fs[|fs|-1])
  }

  /** Where the legs of a track that exceed the floor end, in order. */
  function FastLegs(nm: Chart, track: seq<Point>): seq<Pos> {
    if |track| < 2 then [] else
    FastLegs(nm, track[..|track|-1])
    + if Knots(nm, track[|track|-2], track[|track|-1]) > SPEED_FLOOR then [track[|track|-1].pos] else []
  }

  function SpeedAlerts(alerts: seq<Alert>): seq<Pos> {
    if alerts == [] then [] else
    SpeedAlerts(alerts[..|alerts|-1]) + if alerts[|alerts|-1].ImpossibleSpeed? then [alerts[|alerts|-1].pos] else []
  }

  ghost predicate Rising(track: seq<Point>) {
    forall i, j :: 0 <= i < j < |track| ==> track[i].ts < track[j].ts
  }

  /** A candidate is newer than the accepted point and over the floor from it. */
  ghost predicate CandidateOk(nm: Chart, v: Vessel) {
    v.pending.Some? ==>
      && v.last.Some? && v.pending.value.ts > v.last.value.ts
      && v.pending.value.computedKts == Knots(nm, LastPoint(v.last.value), JumpPoint(v.pending.value)) > SPEED_FLOOR
  }

  ghost predicate TrackOk(nm: Chart, v: Vessel, track: seq<Point>, alerts: seq<Alert>) {
    && CandidateOk(nm, v) && Rising(track)
    && (v.last.Some? <==> track != []) && (track != [] ==> track[|track|-1] == LastPoint(v.last.value))
    && FastLegs(nm, track) == SpeedAlerts(alerts)
  }

  lemma {:induction false} SpeedAlertsAppend(a: seq<Alert>, b: seq<Alert>)
    ensures SpeedAlerts(a + b) == SpeedAlerts(a) + SpeedAlerts(b)
  {
    if b == [] {
      assert a + b == a;
    } else {
      assert (a + b)[..|a+b|-1] == a + b[..|b|-1];
      SpeedAlertsAppend(a, b[..|b|-1]);
    }
  }

  lemma FastLegsSnoc(nm: Chart, track: seq<Point>, p: Point)
    ensures FastLegs(nm, track + [p]) ==
      if track == [] then []
      else FastLegs(nm, track) + if Knots(nm, track[|track|-1], p) > SPEED_FLOOR then [p.pos] else []
    ensures FastLegs(nm, []) == []
  {
    assert (track + [p])[..|track|] == track;
  }

  lemma RisingSnoc(track: seq<Point>, p: Point)
    ensures Rising(track + [p]) <==> Rising(track) && (track != [] ==> track[|track|-1].ts < p.ts)
  {
    var more := track + [p];
    assert more[|track|] == p && forall k :: 0 <= k < |track| ==> more[k] == track[k];
    if Rising(more) {
      forall i, j | 0 <= i < j < |track| ensures track[i].ts < track[j].ts {
        assert more[i].ts < more[j].ts;
      }
    }
  }

  lemma {:induction false} OtherAlerts(alerts: seq<Alert>)
    requires forall k :: 0 <= k < |alerts| ==> !alerts[k].ImpossibleSpeed?
    ensures SpeedAlerts(alerts) == []
  {
    if alerts != [] {
      OtherAlerts(alerts[..|alerts|-1]);
    }
  }

  lemma OneSpeedAlert(alerts: seq<Alert>)
    requires |alerts| <= 1 && forall k :: 0 <= k < |alerts| ==> alerts[k].ImpossibleSpeed?
    ensures SpeedAlerts(alerts) == if alerts == [] then [] else [alerts[0].pos]
  {
    if alerts != [] {
      assert alerts[..0] == [];
    }
  }

  lemma StepSpeedAlerts(nm: Chart, sdn: bool, v: Vessel, f: Fix)
    ensures SpeedAlerts(Step(nm, sdn, v, f).1) ==
      if !Ignored(v, f) && Settle(nm, v, f) == Confirmed then [v.pending.value.pos] else []
  {
    hide Knots, MaxSpeed, InDarkZone, Plausible, SpeedAlerts;
    var alerts := Step(nm, sdn, v, f).1;
    var confirmed := if !Ignored(v, f) && Settle(nm, v, f) == Confirmed then [Confirmation(v.pending.value, f)] else [];
    var rest := alerts[|confirmed|..];
    assert alerts == confirmed + rest;
    SpeedAlertsAppend(confirmed, rest);
    OtherAlerts(rest);
    OneSpeedAlert(confirmed);
  }

  lemma StepKeepsTrack(nm: Chart, sdn: bool, v: Vessel, f: Fix, track: seq<Point>, alerts: seq<Alert>)
    requires TrackOk(nm, v, track, alerts)
    ensures TrackOk(nm, Step(nm, sdn, v, f).0, track + Accepts(nm, v, f), alerts + Step(nm, sdn, v, f).1)
  {
    hide Knots, FastLegs, SpeedAlerts, MaxSpeed, InDarkZone, Rising;
    StepSpeedAlerts(nm, sdn, v, f);
    SpeedAlertsAppend(alerts, Step(nm, sdn, v, f).1);
    if Ignored(v, f) {
      assert track + [] == track;
    } else if Settle(nm, v, f) == Confirmed {
      var j := JumpPoint(v.pending.value);
      FastLegsSnoc(nm, track, j);
      RisingSnoc(track, j);
      FastLegsSnoc(nm, track + [j], FixPoint(f));
      RisingSnoc(track + [j], FixPoint(f));
      assert track + Accepts(nm, v, f) == track + [j] + [FixPoint(f)];
    } else if Quarantined(nm, v, f) {
      assert track + [] == track;
    } else {
      FastLegsSnoc(nm, track, FixPoint(f));
      RisingSnoc(track, FixPoint(f));
      assert Accepts(nm, v, f) == [FixPoint(f)];
    }
  }

  /** Over every run: times rise, candidates are impossible legs, and alerts match accepted fast legs one for one. */
  lemma {:induction false} EveryRunKeepsTrack(nm: Chart, sdn: bool, fs: seq<Fix>)
    ensures TrackOk(nm, Run(nm, sdn, UNSEEN, fs).0, Track(nm, sdn, fs), Run(nm, sdn, UNSEEN, fs).1)
  {
    if fs != [] {
      var before := fs[..|fs|-1];
      var (v, alerts) := Run(nm, sdn, UNSEEN, before);
      EveryRunKeepsTrack(nm, sdn, before);
      StepKeepsTrack(nm, sdn, v, fs[|fs|-1], Track(nm, sdn, before), alerts);
    }
  }

  // ---------------------------------------------------------------- dark zones

  /** Where the track enters a zone: in one, and not from inside one. */
  function ZoneEntries(track: seq<Point>): seq<Pos> {
    if track == [] then [] else
    var before, p := track[..|track|-1], track[|track|-1].pos;
    ZoneEntries(before)
    + if InDarkZone(p) && (before == [] || !InDarkZone(before[|before|-1].pos)) then [p] else []
  }

  function ZoneAlerts(alerts: seq<Alert>): seq<Pos> {
    if alerts == [] then [] else
    ZoneAlerts(alerts[..|alerts|-1]) + if alerts[|alerts|-1].DarkZoneEntry? then [alerts[|alerts|-1].pos] else []
  }

  /** A candidate inside a zone is confirmed, and the track was outside before it. */
  predicate SlipsIn(nm: Chart, v: Vessel, f: Fix) {
    && !Ignored(v, f) && Settle(nm, v, f) == Confirmed
    && InDarkZone(v.pending.value.pos) && !InDarkZone(v.last.value.pos)
  }

  function SlipIns(nm: Chart, sdn: bool, fs: seq<Fix>): nat {
    if fs == [] then 0 else
    var before := fs[..|fs|-1];
    SlipIns(nm, sdn, before) + if SlipsIn(nm, Run(nm, sdn, UNSEEN, before).0, fs[|fs|-1]) then 1 else 0
  }

  lemma ZoneEntriesSnoc(track: seq<Point>, p: Point)
    ensures ZoneEntries(track + [p]) == ZoneEntries(track)
      + if InDarkZone(p.pos) && (track == [] || !InDarkZone(track[|track|-1].pos)) then [p.pos] else []
  {
    assert (track + [p])[..|track|] == track;
  }

  lemma {:induction false} ZoneAlertsAppend(a: seq<Alert>, b: seq<Alert>)
    ensures ZoneAlerts(a + b) == ZoneAlerts(a) + ZoneAlerts(b)
  {
    if b == [] {
      assert a + b == a;
    } else {
      assert (a + b)[..|a+b|-1] == a + b[..|b|-1];
      ZoneAlertsAppend(a, b[..|b|-1]);
    }
  }

  lemma ZoneAlertsOfOne(alert: Alert)
    ensures ZoneAlerts([]) == [] && ZoneAlerts([alert]) == if alert.DarkZoneEntry? then [alert.pos] else []
  {
    assert [alert][..0] == [];
  }

  lemma RaisedZoneAlerts(sdn: bool, f: Fix, anchor: Option<(Point, string)>)
    ensures ZoneAlerts(Raised(sdn, f, anchor)) ==
      if InDarkZone(f.pos) && (anchor.None? || !InDarkZone(anchor.value.0.pos)) then [f.pos] else []
  {
    hide InDarkZone;
    var entered := InDarkZone(f.pos) && (anchor.None? || !InDarkZone(anchor.value.0.pos));
    var first := if entered then [DarkZoneEntry(f.name, f.pos)] else [];
    var rest := if sdn then [SdnMatch(f.name, f.pos)] else [];
    ZoneAlertsAppend(first, rest);
    ZoneAlertsOfOne(DarkZoneEntry(f.name, f.pos));
    ZoneAlertsOfOne(SdnMatch(f.name, f.pos));
  }

  lemma StepZoneAlerts(nm: Chart, sdn: bool, v: Vessel, f: Fix)
    ensures var anchor := Anchor(v, Settle(nm, v, f));
      ZoneAlerts(Step(nm, sdn, v, f).1) ==
        if !Ignored(v, f) && !Quarantined(nm, v, f) && InDarkZone(f.pos)
           && (anchor.None? || !InDarkZone(anchor.value.0.pos))
        then [f.pos] else []
  {
    hide Knots, MaxSpeed, InDarkZone, Plausible, Raised, ZoneAlerts, TooFast;
    var anchor, verdict := Anchor(v, Settle(nm, v, f)), Settle(nm, v, f);
    var confirmed := if !Ignored(v, f) && verdict == Confirmed then [Confirmation(v.pending.value, f)] else [];
    if verdict == Confirmed {
      ZoneAlertsOfOne(Confirmation(v.pending.value, f));
    } else {
      ZoneAlertsOfOne(SdnMatch("", f.pos));
    }
    RaisedZoneAlerts(sdn, f, anchor);
    ZoneAlertsAppend(confirmed, Raised(sdn, f, anchor));
  }

  lemma TwoEntries(track: seq<Point>, p: Point, q: Point)
    ensures ZoneEntries(track + [p] + [q]) == ZoneEntries(track)
      + (if InDarkZone(p.pos) && (track == [] || !InDarkZone(track[|track|-1].pos)) then [p.pos] else [])
      + if InDarkZone(q.pos) && !InDarkZone(p.pos) then [q.pos] else []
  {
    hide InDarkZone, ZoneEntries;
    ZoneEntriesSnoc(track, p);
    ZoneEntriesSnoc(track + [p], q);
  }

  lemma ConfirmedAccepts(nm: Chart, v: Vessel, f: Fix, track: seq<Point>)
    requires !Ignored(v, f) && Settle(nm, v, f) == Confirmed
    ensures v.last.Some? && v.pending.Some? && !Quarantined(nm, v, f)
    ensures Anchor(v, Confirmed) == Some((JumpPoint(v.pending.value), v.pending.value.name))
    ensures track + Accepts(nm, v, f) == track + [JumpPoint(v.pending.value)] + [FixPoint(f)]
  {
    hide Knots, MaxSpeed, InDarkZone;
  }

  lemma UnconfirmedAccepts(nm: Chart, v: Vessel, f: Fix, track: seq<Point>)
    requires Ignored(v, f) || Settle(nm, v, f) != Confirmed
    ensures track + Accepts(nm, v, f) == if Ignored(v, f) || Quarantined(nm, v, f) then track else track + [FixPoint(f)]
    ensures Ignored(v, f) || Anchor(v, Settle(nm, v, f))
      == if v.last.Some? then Some((LastPoint(v.last.value), v.last.value.name)) else None
  {
    hide Knots, MaxSpeed, InDarkZone;
  }

  /** A step raises zone alerts for the entries it adds to the track, except one that a confirmed candidate makes. */
  lemma StepZones(nm: Chart, sdn: bool, v: Vessel, f: Fix, track: seq<Point>)
    requires v.last.Some? <==> track != []
    requires track != [] ==> track[|track|-1] == LastPoint(v.last.value)
    ensures ZoneEntries(track + Accepts(nm, v, f)) == ZoneEntries(track)
      + (if SlipsIn(nm, v, f) then [v.pending.value.pos] else []) + ZoneAlerts(Step(nm, sdn, v, f).1)
  {
    hide InDarkZone, ZoneEntries, ZoneAlerts, Step, Accepts, Settle, Ignored, Quarantined, Anchor;
    StepZoneAlerts(nm, sdn, v, f);
    if !Ignored(v, f) && Settle(nm, v, f) == Confirmed {
      ConfirmedAccepts(nm, v, f, track);
      TwoEntries(track, JumpPoint(v.pending.value), FixPoint(f));
    } else {
      UnconfirmedAccepts(nm, v, f, track);
      ZoneEntriesSnoc(track, FixPoint(f));
      assert ZoneEntries(track) + [] == ZoneEntries(track);
    }
  }

  lemma ConfirmedIsPlausible(nm: Chart, v: Vessel, f: Fix)
    ensures Settle(nm, v, f) == Confirmed ==> !Quarantined(nm, v, f)
  {
  }

  lemma TrackSnoc(nm: Chart, sdn: bool, fs: seq<Fix>)
    requires fs != []
    ensures var before, f := fs[..|fs|-1], fs[|fs|-1];
      var (v, alerts) := Run(nm, sdn, UNSEEN, before);
      && Track(nm, sdn, fs) == Track(nm, sdn, before) + Accepts(nm, v, f)
      && Run(nm, sdn, UNSEEN, fs).1 == alerts + Step(nm, sdn, v, f).1
  {
  }

  lemma {:induction false} MissedEntries(nm: Chart, sdn: bool, fs: seq<Fix>)
    ensures var entries, alerts := ZoneEntries(Track(nm, sdn, fs)), ZoneAlerts(Run(nm, sdn, UNSEEN, fs).1);
      && |entries| == |alerts| + SlipIns(nm, sdn, fs)
      && (SlipIns(nm, sdn, fs) == 0 ==> entries == alerts)
  {
    if fs == [] {
      assert Track(nm, sdn, fs) == [] && Run(nm, sdn, UNSEEN, fs).1 == [];
    } else {
      var before, f := fs[..|fs|-1], fs[|fs|-1];
      var (v, alerts) := Run(nm, sdn, UNSEEN, before);
      MissedEntries(nm, sdn, before);
      EveryRunKeepsTrack(nm, sdn, before);
      TrackEnds(nm, v, Track(nm, sdn, before), alerts);
      StepZones(nm, sdn, v, f, Track(nm, sdn, before));
      ZoneAlertsAppend(alerts, Step(nm, sdn, v, f).1);
      TrackSnoc(nm, sdn, fs);
      hide Run, Track, Step, Accepts, SlipsIn, InDarkZone, TrackOk, ZoneEntries, ZoneAlerts;
      assert SlipIns(nm, sdn, fs) == SlipIns(nm, sdn, before) + if SlipsIn(nm, v, f) then 1 else 0;
      Tally(ZoneEntries(Track(nm, sdn, before)), if SlipsIn(nm, v, f) then [v.pending.value.pos] else [],
            ZoneAlerts(Step(nm, sdn, v, f).1), ZoneAlerts(alerts), SlipIns(nm, sdn, before));
    }
  }

  lemma Tally(entries: seq<Pos>, slip: seq<Pos>, raised: seq<Pos>, alerts: seq<Pos>, n: nat)
    requires |entries| == |alerts| + n && (n == 0 ==> entries == alerts)
    ensures |entries + slip + raised| == |alerts + raised| + n + |slip|
    ensures n + |slip| == 0 ==> entries + slip + raised == alerts + raised
  {
    if |slip| == 0 {
      assert entries + slip == entries;
    }
  }

  lemma TrackEnds(nm: Chart, v: Vessel, track: seq<Point>, alerts: seq<Alert>)
    requires TrackOk(nm, v, track, alerts)
    ensures (v.last.Some? <==> track != []) && (track != [] ==> track[|track|-1] == LastPoint(v.last.value))
  {
  }

  lemma {:induction false} NoneSlipsInIff(nm: Chart, sdn: bool, fs: seq<Fix>)
    ensures SlipIns(nm, sdn, fs) == 0
       <==> forall k :: 0 <= k < |fs| ==> !SlipsIn(nm, Run(nm, sdn, UNSEEN, fs[..k]).0, fs[k])
  {
    hide SlipsIn, Run;
    if fs != [] {
      var before := fs[..|fs|-1];
      NoneSlipsInIff(nm, sdn, before);
      assert forall k :: 0 <= k < |before| ==> before[..k] == fs[..k] && before[k] == fs[k];
    }
  }

  /** Over every run the zone alerts are the entries of the accepted track, unless a confirmed candidate slips in. */
  lemma ZoneAlertsAreEntriesIff(nm: Chart, sdn: bool, fs: seq<Fix>)
    ensures ZoneAlerts(Run(nm, sdn, UNSEEN, fs).1) == ZoneEntries(Track(nm, sdn, fs))
       <==> forall k :: 0 <= k < |fs| ==> !SlipsIn(nm, Run(nm, sdn, UNSEEN, fs[..k]).0, fs[k])
  {
    MissedEntries(nm, sdn, fs);
    NoneSlipsInIff(nm, sdn, fs);
  }

  function Flat(a: Pos, b: Pos): real {
    if a == b then 0.0 else 1000.0
  }

  const OUTSIDE := Fix(Pos(0.0, 0.0), 0.0, 0.0, 10.0, "cargo", "A")
  const INSIDE := Fix(Pos(25.0, 40.0), 3600.0, 3600.0, 10.0, "cargo", "A")
  const STAYING := INSIDE.(ts := 7200.0, received := 7200.0)

  lemma RunOn(nm: Chart, sdn: bool, fs: seq<Fix>, f: Fix)
    ensures var (v, alerts) := Run(nm, sdn, UNSEEN, fs);
      && Run(nm, sdn, UNSEEN, fs + [f]) == (Step(nm, sdn, v, f).0, alerts + Step(nm, sdn, v, f).1)
      && Track(nm, sdn, fs + [f]) == Track(nm, sdn, fs) + Accepts(nm, v, f)
  {
    assert (fs + [f])[..|fs|] == fs;
  }

  lemma EntrySteps()
    ensures var v := AcceptedVessel(UNSEEN, OUTSIDE);
      var w := QuarantinedVessel(Flat, v, INSIDE, (FixPoint(OUTSIDE), "A"), NoCandidate);
      && Step(Flat, false, UNSEEN, OUTSIDE) == (v, []) && Accepts(Flat, UNSEEN, OUTSIDE) == [FixPoint(OUTSIDE)]
      && Step(Flat, false, v, INSIDE) == (w, []) && Accepts(Flat, v, INSIDE) == []
      && SlipsIn(Flat, w, STAYING) && Accepts(Flat, w, STAYING) == [FixPoint(INSIDE), FixPoint(STAYING)]
  {
    DarkZonesAre(OUTSIDE.pos);
    DarkZonesAre(INSIDE.pos);
    hide InDarkZone;
    assert Knots(Flat, FixPoint(OUTSIDE), FixPoint(INSIDE)) == 1000.0;
    assert Knots(Flat, FixPoint(OUTSIDE), FixPoint(STAYING)) == 500.0;
    var v := AcceptedVessel(UNSEEN, OUTSIDE);
    var w := QuarantinedVessel(Flat, v, INSIDE, (FixPoint(OUTSIDE), "A"), NoCandidate);
    assert Settle(Flat, UNSEEN, OUTSIDE) == NoCandidate && Anchor(UNSEEN, NoCandidate) == None;
    assert Raised(false, OUTSIDE, None) == [];
    assert TooFast(Flat, LastPoint(v.last.value), INSIDE);
    assert Settle(Flat, w, STAYING) == Confirmed;
    assert !TooFast(Flat, JumpPoint(w.pending.value), STAYING);
  }

  lemma EntrySlips(w: Vessel)
    requires Run(Flat, false, UNSEEN, [] + [OUTSIDE] + [INSIDE]).0 == w && SlipsIn(Flat, w, STAYING)
    ensures SlipIns(Flat, false, [] + [OUTSIDE] + [INSIDE] + [STAYING]) >= 1
  {
    hide SlipsIn, Run;
    var early, all := [] + [OUTSIDE] + [INSIDE], [] + [OUTSIDE] + [INSIDE] + [STAYING];
    assert all[..|all|-1] == early;
  }

  /** The exception occurs: a vessel jumps into a zone, a second fix confirms it there, and no entry is reported. */
  lemma ConfirmedEntryIsSilent()
    ensures var fs := [] + [OUTSIDE] + [INSIDE] + [STAYING];
      && ZoneEntries(Track(Flat, false, fs)) == [INSIDE.pos] && ZoneAlerts(Run(Flat, false, UNSEEN, fs).1) == []
  {
    EntrySteps();
    RunOn(Flat, false, [], OUTSIDE);
    RunOn(Flat, false, [] + [OUTSIDE], INSIDE);
    RunOn(Flat, false, [] + [OUTSIDE] + [INSIDE], STAYING);
    hide Step, Accepts, SlipsIn, InDarkZone, QuarantinedVessel, AcceptedVessel;
    assert Run(Flat, false, UNSEEN, []) == (UNSEEN, []) && Track(Flat, false, []) == [];
    var v := AcceptedVessel(UNSEEN, OUTSIDE);
    var w := QuarantinedVessel(Flat, v, INSIDE, (FixPoint(OUTSIDE), "A"), NoCandidate);
    var first, track := [FixPoint(OUTSIDE)], [FixPoint(OUTSIDE)] + [FixPoint(INSIDE)] + [FixPoint(STAYING)];
    assert [] + first == first && first + [] == first;
    assert first + [FixPoint(INSIDE), FixPoint(STAYING)] == track;
    ZoneEntriesSnoc([], FixPoint(OUTSIDE));
    ZoneEntriesSnoc(first, FixPoint(INSIDE));
    ZoneEntriesSnoc(first + [FixPoint(INSIDE)], FixPoint(STAYING));
    DarkZonesAre(OUTSIDE.pos);
    DarkZonesAre(INSIDE.pos);
    MissedEntries(Flat, false, [] + [OUTSIDE] + [INSIDE] + [STAYING]);
    EntrySlips(w);
  }

  // ---------------------------------------------------------------- one step

  predicate SameKind(a: Alert, b: Alert) {
    a.ImpossibleSpeed? == b.ImpossibleSpeed? && a.DarkZoneEntry? == b.DarkZoneEntry?
  }

  /** The report became the vessel's last point. */
  predicate Moved(v: Vessel, w: Vessel, f: Fix) {
    w.last.Some? && w.last.value.ts == f.ts && (v.last.None? || v.last.value.ts < f.ts)
  }

  lemma MovedIff(nm: Chart, sdn: bool, v: Vessel, f: Fix)
    ensures Moved(v, Step(nm, sdn, v, f).0, f) <==> !Ignored(v, f) && !Quarantined(nm, v, f)
  {
    hide Knots, MaxSpeed, InDarkZone, Raised;
    ConfirmedIsPlausible(nm, v, f);
  }

  /** The alert is about the candidate. */
  ghost predicate Accuses(v: Vessel, f: Fix, a: Alert) {
    && a.ImpossibleSpeed? && v.pending.Some? && a.pos == v.pending.value.pos
    && a.computedKts == v.pending.value.computedKts && a.confidence <= 0.9
    && a.name == (if v.pending.value.name != "" then v.pending.value.name else f.name)
  }

  /** Zone and sanctions alerts: at most one of each, and one for every listed vessel. */
  ghost predicate Warns(sdn: bool, f: Fix, alerts: seq<Alert>) {
    && ((exists a :: a in alerts && a.SdnMatch?) <==> sdn)
    && (forall a :: a in alerts ==> !a.ImpossibleSpeed? && a.name == f.name && a.pos == f.pos)
    && (forall i, j :: 0 <= i < j < |alerts| ==> !SameKind(alerts[i], alerts[j]))
  }

  lemma RaisedWarns(sdn: bool, f: Fix, anchor: Option<(Point, string)>)
    ensures Warns(sdn, f, Raised(sdn, f, anchor))
  {
    hide InDarkZone;
    if sdn {
      var alerts := Raised(sdn, f, anchor);
      assert alerts[|alerts|-1] == SdnMatch(f.name, f.pos);
    }
  }

  /**
   * A report raises an alert about its candidate, if it confirms one, and if it becomes the last point, its own alerts:
   * at most one for a zone, and one for every vessel on the list.
   */
  lemma StepAlerts(nm: Chart, sdn: bool, v: Vessel, f: Fix)
    ensures var (w, alerts) := Step(nm, sdn, v, f);
      exists confirmed: seq<Alert>, own: seq<Alert> ::
        && alerts == confirmed + own && |confirmed| <= 1 && (forall a :: a in confirmed ==> Accuses(v, f, a))
        && (confirmed != [] <==> !Ignored(v, f) && Settle(nm, v, f) == Confirmed)
        && if Moved(v, w, f) then Warns(sdn, f, own) else own == []
  {
    hide Knots, MaxSpeed, InDarkZone, Plausible, Raised, Warns, TooFast, Moved;
    MovedIff(nm, sdn, v, f);
    var anchor := Anchor(v, Settle(nm, v, f));
    RaisedWarns(sdn, f, anchor);
    var confirmed := if !Ignored(v, f) && Settle(nm, v, f) == Confirmed then [Confirmation(v.pending.value, f)] else [];
    var own := if !Ignored(v, f) && !Quarantined(nm, v, f) then Raised(sdn, f, anchor) else [];
    assert Step(nm, sdn, v, f).1 == confirmed + own;
  }

  /** The last point, or a candidate, reports what the fix reported. */
  ghost predicate Reports(f: Fix, pos: Pos, ts: real, speed: real, kind: string, name: string) {
    f.pos == pos && f.ts == ts && f.speed == speed && f.kind == kind && (f.name != "" ==> f.name == name)
  }

  /** Every stored row comes from a report; a candidate is the last report heard. */
  ghost predicate RowsOk(v: Vessel, fs: seq<Fix>) {
    && (v.last.Some? ==>
          var s := v.last.value;
          && (exists f :: f in fs && Reports(f, s.pos, s.ts, s.speed, s.kind, s.name))
          && (exists f :: f in fs && f.received == s.received)
          && v.position == Some(s.pos) && !s.gapEmitted)
    && (v.last.None? ==> v.position.None?)
    && (v.pending.Some? ==>
          var j := v.pending.value;
          && v.last.Some? && j.received == v.last.value.received
          && j.gap == j.ts - v.last.value.ts && j.maxAllowed == MaxSpeed(j.kind)
          && exists f :: f in fs && Reports(f, j.pos, j.ts, j.speed, j.kind, j.name) && f.received == j.received)
  }

  lemma StepKeepsRows(nm: Chart, sdn: bool, v: Vessel, fs: seq<Fix>, f: Fix)
    requires RowsOk(v, fs)
    ensures RowsOk(Step(nm, sdn, v, f).0, fs + [f])
  {
    hide Knots, MaxSpeed, InDarkZone, Raised, Reports;
    assert f in fs + [f] && forall x :: x in fs ==> x in fs + [f];
    forall name | f.name != "" ==> name == f.name ensures Reports(f, f.pos, f.ts, f.speed, f.kind, name) {
      OwnReport(f, name);
    }
    ConfirmedIsPlausible(nm, v, f);
  }

  lemma OwnReport(f: Fix, name: string)
    ensures (f.name != "" ==> name == f.name) ==> Reports(f, f.pos, f.ts, f.speed, f.kind, name)
  {
  }

  lemma {:induction false} EveryRunKeepsRows(nm: Chart, sdn: bool, fs: seq<Fix>)
    ensures RowsOk(Run(nm, sdn, UNSEEN, fs).0, fs)
  {
    if fs != [] {
      hide Step, RowsOk;
      var before, f := fs[..|fs|-1], fs[|fs|-1];
      EveryRunKeepsRows(nm, sdn, before);
      StepKeepsRows(nm, sdn, Run(nm, sdn, UNSEEN, before).0, before, f);
      assert before + [f] == fs;
    } else {
      NoRows();
    }
  }

  lemma NoRows()
    ensures RowsOk(UNSEEN, [])
  {
  }

  // ---------------------------------------------------------------- glitches leave no trace

  /** g is an isolated glitch before f: impossible from the accepted point, which f follows plausibly and later. */
  predicate IsGlitch(nm: Chart, v: Vessel, g: Fix, f: Fix) {
    && v.last.Some? && v.pending.None?
    && g.ts > v.last.value.ts && Knots(nm, LastPoint(v.last.value), FixPoint(g)) > SPEED_FLOOR
    && f.ts > g.ts && Knots(nm, LastPoint(v.last.value), FixPoint(f)) <= SPEED_FLOOR
  }

  lemma GlitchErased(nm: Chart, sdn: bool, v: Vessel, g: Fix, f: Fix)
    requires IsGlitch(nm, v, g, f)
    ensures Step(nm, sdn, v, g).1 == [] && Step(nm, sdn, Step(nm, sdn, v, g).0, f) == Step(nm, sdn, v, f)
  {
    hide Knots, MaxSpeed, InDarkZone;
  }

  /** Left-to-right processing, for arguments that look at the front of a stream. */
  function Process(nm: Chart, sdn: bool, v: Vessel, fs: seq<Fix>): (Vessel, seq<Alert>)
    decreases |fs|
  {
    if fs == [] then (v, []) else
    var (u, early) := Step(nm, sdn, v, fs[0]);
    var (w, late) := Process(nm, sdn, u, fs[1..]);
    (w, early + late)
  }

  lemma {:induction false} ProcessIsRun(nm: Chart, sdn: bool, v: Vessel, fs: seq<Fix>, rest: seq<Fix>)
    ensures Process(nm, sdn, v, fs + rest) ==
      var (u, early) := Run(nm, sdn, v, fs);
      var (w, late) := Process(nm, sdn, u, rest);
      (w, early + late)
    decreases |fs|
  {
    hide Step;
    if fs == [] {
      assert fs + rest == rest;
      assert [] + Process(nm, sdn, v, rest).1 == Process(nm, sdn, v, rest).1;
    } else {
      var init, last := fs[..|fs|-1], fs[|fs|-1];
      assert fs + rest == init + ([last] + rest);
      ProcessIsRun(nm, sdn, v, init, [last] + rest);
      var (u, early) := Run(nm, sdn, v, init);
      var (x, mid) := Step(nm, sdn, u, last);
      assert ([last] + rest)[1..] == rest;
      var (w, late) := Process(nm, sdn, x, rest);
      assert early + (mid + late) == (early + mid) + late;
    }
  }

  /** The stream without its isolated glitches. */
  function Scrub(nm: Chart, sdn: bool, v: Vessel, fs: seq<Fix>): seq<Fix>
    decreases |fs|
  {
    if |fs| < 2 then fs
    else if IsGlitch(nm, v, fs[0], fs[1]) then Scrub(nm, sdn, v, fs[1..])
    else [fs[0]] + Scrub(nm, sdn, Step(nm, sdn, v, fs[0]).0, fs[1..])
  }

  /** Deleting every isolated glitch changes neither the vessel's state nor any alert. */
  lemma {:induction false} ScrubChangesNothing(nm: Chart, sdn: bool, v: Vessel, fs: seq<Fix>)
    ensures Process(nm, sdn, v, Scrub(nm, sdn, v, fs)) == Process(nm, sdn, v, fs)
    decreases |fs|
  {
    hide Step, IsGlitch;
    if |fs| >= 2 {
      if IsGlitch(nm, v, fs[0], fs[1]) {
        ScrubChangesNothing(nm, sdn, v, fs[1..]);
        GlitchErased(nm, sdn, v, fs[0], fs[1]);
        var u := Step(nm, sdn, v, fs[0]).0;
        assert fs[1..][0] == fs[1];
        assert Process(nm, sdn, u, fs[1..]) == Process(nm, sdn, v, fs[1..]);
        assert [] + Process(nm, sdn, u, fs[1..]).1 == Process(nm, sdn, u, fs[1..]).1;
        assert Process(nm, sdn, v, fs) == Process(nm, sdn, u, fs[1..]);
      } else {
        var u := Step(nm, sdn, v, fs[0]).0;
        ScrubChangesNothing(nm, sdn, u, fs[1..]);
        assert ([fs[0]] + Scrub(nm, sdn, u, fs[1..]))[1..] == Scrub(nm, sdn, u, fs[1..]);
      }
    }
  }

  /** The same for the detector's own order of work: a vessel's whole history can be scrubbed first. */
  lemma HistoryCanBeScrubbed(nm: Chart, sdn: bool, v: Vessel, fs: seq<Fix>)
    ensures Run(nm, sdn, v, Scrub(nm, sdn, v, fs)) == Run(nm, sdn, v, fs)
  {
    ProcessIsRun(nm, sdn, v, fs, []);
    ProcessIsRun(nm, sdn, v, Scrub(nm, sdn, v, fs), []);
    ScrubChangesNothing(nm, sdn, v, fs);
    assert fs + [] == fs && Scrub(nm, sdn, v, fs) + [] == Scrub(nm, sdn, v, fs);
    assert forall alerts: seq<Alert> :: alerts + [] == alerts;
  }

  // ---------------------------------------------------------------- the silence sweep

  const FORGET_AFTER := 43200.0

  predicate Forgets(v: Vessel, now: real) {
    v.last.Some? && now - v.last.value.received >= FORGET_AFTER
  }

  /** The sweep forgets an accepted point not heard from for 12 hours; it does not look at candidates. */
  function Sweep(v: Vessel, now: real): Vessel {
    if Forgets(v, now) then v.(last := None) else v
  }

  /** What one vessel's rows go through: reports and sweeps, in any order. */
  datatype Event = Heard(fix: Fix) | Swept(now: real)

  function React(nm: Chart, sdn: bool, v: Vessel, e: Event): (Vessel, seq<Alert>) {
    match e
    case Heard(f) => Step(nm, sdn, v, f)
    case Swept(now) => (Sweep(v, now), [])
  }

  function Watch(nm: Chart, sdn: bool, es: seq<Event>): (Vessel, seq<Alert>) {
    if es == [] then (UNSEEN, []) else
    var (u, early) := Watch(nm, sdn, es[..|es|-1]);
    var (w, late) := React(nm, sdn, u, es[|es|-1]);
    (w, early + late)
  }

  /** A sweep that forgets the point a candidate was judged from. */
  predicate Orphans(v: Vessel, e: Event) {
    e.Swept? && Forgets(v, e.now) && v.pending.Some?
  }

  ghost predicate NeverOrphans(nm: Chart, sdn: bool, es: seq<Event>) {
    forall k :: 0 <= k < |es| ==> !Orphans(Watch(nm, sdn, es[..k]).0, es[k])
  }

  lemma OrphanIsInvalid(nm: Chart, sdn: bool, v: Vessel, e: Event)
    ensures Orphans(v, e) ==> !CandidateOk(nm, React(nm, sdn, v, e).0)
  {
    hide Knots, Step;
  }

  lemma ReactKeepsCandidate(nm: Chart, sdn: bool, v: Vessel, e: Event)
    ensures CandidateOk(nm, v) && !Orphans(v, e) ==> CandidateOk(nm, React(nm, sdn, v, e).0)
  {
    hide Knots, MaxSpeed, InDarkZone;
  }

  lemma NeverOrphansPrefix(nm: Chart, sdn: bool, es: seq<Event>, k: nat)
    requires NeverOrphans(nm, sdn, es) && k <= |es|
    ensures NeverOrphans(nm, sdn, es[..k])
    ensures k < |es| ==> !Orphans(Watch(nm, sdn, es[..k]).0, es[k])
  {
    hide Watch, Orphans;
    assert forall m :: 0 <= m < k ==> es[..k][..m] == es[..m] && es[..k][m] == es[m];
  }

  lemma {:induction false} CandidateSurvives(nm: Chart, sdn: bool, es: seq<Event>)
    requires NeverOrphans(nm, sdn, es)
    ensures CandidateOk(nm, Watch(nm, sdn, es).0)
  {
    hide CandidateOk, React, Orphans, NeverOrphans;
    if es == [] {
      UnseenIsOk(nm);
    } else {
      NeverOrphansPrefix(nm, sdn, es, |es| - 1);
      CandidateSurvives(nm, sdn, es[..|es|-1]);
      ReactKeepsCandidate(nm, sdn, Watch(nm, sdn, es[..|es|-1]).0, es[|es|-1]);
    }
  }

  lemma UnseenIsOk(nm: Chart)
    ensures CandidateOk(nm, UNSEEN)
  {
  }

  /**
   * With sweeps in between, a candidate stays a newer and impossible leg from the accepted point throughout a run
   * exactly when no sweep forgets a vessel that has a candidate.
   */
  lemma CandidatesSurviveIff(nm: Chart, sdn: bool, es: seq<Event>)
    ensures (forall k :: 0 <= k <= |es| ==> CandidateOk(nm, Watch(nm, sdn, es[..k]).0)) <==> NeverOrphans(nm, sdn, es)
  {
    hide CandidateOk, React, Orphans;
    if NeverOrphans(nm, sdn, es) {
      forall k | 0 <= k <= |es| ensures CandidateOk(nm, Watch(nm, sdn, es[..k]).0) {
        NeverOrphansPrefix(nm, sdn, es, k);
        CandidateSurvives(nm, sdn, es[..k]);
      }
    } else {
      var k :| 0 <= k < |es| && Orphans(Watch(nm, sdn, es[..k]).0, es[k]);
      OrphanIsInvalid(nm, sdn, Watch(nm, sdn, es[..k]).0, es[k]);
      assert es[..k+1][..k] == es[..k];
      assert !CandidateOk(nm, Watch(nm, sdn, es[..k+1]).0);
    }
  }

  // ---------------------------------------------------------------- the track, with sweeps

  /** The track accepted since a sweep last forgot the vessel, and the calls to `_emit` since then. */
  function Segment(nm: Chart, sdn: bool, es: seq<Event>): (seq<Point>, seq<Alert>) {
    if es == [] then ([], []) else
    var v, (track, alerts) := Watch(nm, sdn, es[..|es|-1]).0, Segment(nm, sdn, es[..|es|-1]);
    match es[|es|-1]
    case Heard(f) => (track + Accepts(nm, v, f), alerts + Step(nm, sdn, v, f).1)
    case Swept(now) => if Forgets(v, now) then ([], []) else (track, alerts)
  }

  /** Between two forgettings the track theorem holds as it does without sweeps. */
  lemma {:induction false} SegmentKeepsTrack(nm: Chart, sdn: bool, es: seq<Event>)
    requires NeverOrphans(nm, sdn, es)
    ensures TrackOk(nm, Watch(nm, sdn, es).0, Segment(nm, sdn, es).0, Segment(nm, sdn, es).1)
  {
    hide Step, Accepts, Orphans, NeverOrphans, TrackOk;
    if es == [] {
      NoTrackYet(nm, UNSEEN);
    } else {
      var before, e := es[..|es|-1], es[|es|-1];
      var v, segment := Watch(nm, sdn, before).0, Segment(nm, sdn, before);
      NeverOrphansPrefix(nm, sdn, es, |es| - 1);
      SegmentKeepsTrack(nm, sdn, before);
      if e.Heard? {
        StepKeepsTrack(nm, sdn, v, e.fix, segment.0, segment.1);
      } else if Forgets(v, e.now) {
        NothingLeft(v, e);
        NoTrackYet(nm, Sweep(v, e.now));
      }
    }
  }

  lemma NoTrackYet(nm: Chart, v: Vessel)
    ensures v.last.None? && v.pending.None? ==> TrackOk(nm, v, [], [])
  {
  }

  lemma NothingLeft(v: Vessel, e: Event)
    ensures e.Swept? && Forgets(v, e.now) && !Orphans(v, e) ==>
      Sweep(v, e.now).last.None? && Sweep(v, e.now).pending.None?
  {
  }

  /** Every point ever accepted, across sweeps. */
  function Life(nm: Chart, sdn: bool, es: seq<Event>): seq<Point> {
    if es == [] then [] else
    Life(nm, sdn, es[..|es|-1])
    + match es[|es|-1]
      case Heard(f) => Accepts(nm, Watch(nm, sdn, es[..|es|-1]).0, f)
      case Swept(_) => []
  }

  /** e is the first report of a vessel that was forgotten since its last accepted point. */
  predicate Resumes(v: Vessel, life: seq<Point>, e: Event) {
    e.Heard? && v.last.None? && life != []
  }

  predicate ResumesEarlier(v: Vessel, life: seq<Point>, e: Event) {
    Resumes(v, life, e) && e.fix.ts <= life[|life|-1].ts
  }

  predicate ResumesFar(nm: Chart, v: Vessel, life: seq<Point>, e: Event) {
    Resumes(v, life, e) && Knots(nm, life[|life|-1], FixPoint(e.fix)) > SPEED_FLOOR
  }

  /** e confirms the vessel's candidate. */
  predicate Confirms(nm: Chart, v: Vessel, e: Event) {
    e.Heard? && !Ignored(v, e.fix) && Settle(nm, v, e.fix) == Confirmed
  }

  predicate Backdates(nm: Chart, v: Vessel, e: Event) {
    Confirms(nm, v, e) && v.pending.value.ts <= v.last.value.ts
  }

  predicate ConfirmsSlow(nm: Chart, v: Vessel, e: Event) {
    Confirms(nm, v, e) && Knots(nm, LastPoint(v.last.value), JumpPoint(v.pending.value)) <= SPEED_FLOOR
  }

  /** The step accepts a point that is not newer than the one accepted before it. */
  predicate RunsBack(nm: Chart, v: Vessel, life: seq<Point>, e: Event) {
    ResumesEarlier(v, life, e) || Backdates(nm, v, e)
  }

  /** The step accepts a fast leg without an alert, or publishes an alert without a fast leg. */
  predicate Misreports(nm: Chart, v: Vessel, life: seq<Point>, e: Event) {
    ResumesFar(nm, v, life, e) || ConfirmsSlow(nm, v, e)
  }

  /** A valid candidate is confirmed in order and as a fast leg. */
  lemma ValidIsConfirmedFast(nm: Chart, v: Vessel, e: Event)
    ensures CandidateOk(nm, v) ==> !Backdates(nm, v, e) && !ConfirmsSlow(nm, v, e)
  {
    hide Knots, Plausible;
  }

  ghost predicate LifeOk(v: Vessel, life: seq<Point>) {
    v.last.Some? ==> life != [] && life[|life|-1] == LastPoint(v.last.value)
  }

  /** How one report extends the life track, the legs and the alerts. */
  lemma HeardExtendsLife(nm: Chart, sdn: bool, v: Vessel, f: Fix, life: seq<Point>)
    requires LifeOk(v, life)
    ensures var more, alerts := life + Accepts(nm, v, f), SpeedAlerts(Step(nm, sdn, v, f).1);
      && LifeOk(Step(nm, sdn, v, f).0, more)
      && (Rising(more) <==> Rising(life) && !RunsBack(nm, v, life, Heard(f)))
      && (ResumesFar(nm, v, life, Heard(f)) ==> FastLegs(nm, more) == FastLegs(nm, life) + [f.pos] && alerts == [])
      && (ConfirmsSlow(nm, v, Heard(f)) ==> FastLegs(nm, more) == FastLegs(nm, life) && |alerts| == 1)
      && (!Misreports(nm, v, life, Heard(f)) ==> FastLegs(nm, more) == FastLegs(nm, life) + alerts)
  {
    hide Knots, FastLegs, SpeedAlerts, MaxSpeed, InDarkZone, Rising;
    StepSpeedAlerts(nm, sdn, v, f);
    if Ignored(v, f) {
      assert life + [] == life;
    } else if Settle(nm, v, f) == Confirmed {
      var j := JumpPoint(v.pending.value);
      FastLegsSnoc(nm, life, j);
      RisingSnoc(life, j);
      FastLegsSnoc(nm, life + [j], FixPoint(f));
      RisingSnoc(life + [j], FixPoint(f));
      assert Accepts(nm, v, f) == [j] + if Quarantined(nm, v, f) then [] else [FixPoint(f)];
      assert life + ([j] + [FixPoint(f)]) == life + [j] + [FixPoint(f)];
    } else if Quarantined(nm, v, f) {
      assert life + [] == life;
    } else {
      FastLegsSnoc(nm, life, FixPoint(f));
      RisingSnoc(life, FixPoint(f));
      assert Accepts(nm, v, f) == [FixPoint(f)];
    }
  }

  lemma SweptKeepsLife(nm: Chart, sdn: bool, v: Vessel, e: Event, life: seq<Point>)
    requires LifeOk(v, life) && e.Swept?
    ensures LifeOk(React(nm, sdn, v, e).0, life) && SpeedAlerts(React(nm, sdn, v, e).1) == []
    ensures !RunsBack(nm, v, life, e) && !Misreports(nm, v, life, e)
  {
    hide Knots, Step;
  }

  /** Every step of the run is free of p, a predicate on the rows and the life track before it. */
  ghost predicate Never(nm: Chart, sdn: bool, es: seq<Event>, p: (Vessel, seq<Point>, Event) -> bool) {
    forall k :: 0 <= k < |es| ==> !p(Watch(nm, sdn, es[..k]).0, Life(nm, sdn, es[..k]), es[k])
  }

  lemma NeverSnoc(nm: Chart, sdn: bool, es: seq<Event>, p: (Vessel, seq<Point>, Event) -> bool)
    requires es != []
    ensures var before, e := es[..|es|-1], es[|es|-1];
      Never(nm, sdn, es, p)
      <==> Never(nm, sdn, before, p) && !p(Watch(nm, sdn, before).0, Life(nm, sdn, before), e)
  {
    hide Watch, Life;
    var before := es[..|es|-1];
    assert forall k :: 0 <= k < |before| ==> before[..k] == es[..k] && before[k] == es[k];
  }

  ghost function Back(nm: Chart): (Vessel, seq<Point>, Event) -> bool {
    (v, life, e) => RunsBack(nm, v, life, e)
  }

  ghost function Misreport(nm: Chart): (Vessel, seq<Point>, Event) -> bool {
    (v, life, e) => Misreports(nm, v, life, e)
  }

  ghost predicate LegsAreAlerts(nm: Chart, sdn: bool, es: seq<Event>) {
    FastLegs(nm, Life(nm, sdn, es)) == SpeedAlerts(Watch(nm, sdn, es).1)
  }

  /** One more event: the life track and the alerts it leads to. */
  lemma LifeStep(nm: Chart, sdn: bool, es: seq<Event>)
    requires es != [] && LifeOk(Watch(nm, sdn, es[..|es|-1]).0, Life(nm, sdn, es[..|es|-1]))
    ensures var before, e := es[..|es|-1], es[|es|-1];
      var v, life := Watch(nm, sdn, before).0, Life(nm, sdn, before);
      && LifeOk(Watch(nm, sdn, es).0, Life(nm, sdn, es))
      && (Rising(Life(nm, sdn, es)) <==> Rising(life) && !RunsBack(nm, v, life, e))
      && (LegsAreAlerts(nm, sdn, before) ==> (LegsAreAlerts(nm, sdn, es) <==> !Misreports(nm, v, life, e)))
      && (!ConfirmsSlow(nm, v, e) ==>
            LegsExcess(nm, sdn, es) == LegsExcess(nm, sdn, before) + if ResumesFar(nm, v, life, e) then 1 else 0)
  {
    hide *;
    var before, e := es[..|es|-1], es[|es|-1];
    var v, life := Watch(nm, sdn, before).0, Life(nm, sdn, before);
    LifeSnoc(nm, sdn, es);
    SpeedAlertsAppend(Watch(nm, sdn, before).1, React(nm, sdn, v, e).1);
    if e.Heard? {
      HeardExtendsLife(nm, sdn, v, e.fix, life);
    } else {
      SweptKeepsLife(nm, sdn, v, e, life);
    }
    Compared(nm, sdn, before);
    Compared(nm, sdn, es);
    MisreportsIs(nm, v, life, e);
  }

  /** How many more fast legs than alerts there are. */
  function LegsExcess(nm: Chart, sdn: bool, es: seq<Event>): int {
    |FastLegs(nm, Life(nm, sdn, es))| - |SpeedAlerts(Watch(nm, sdn, es).1)|
  }

  lemma Compared(nm: Chart, sdn: bool, es: seq<Event>)
    ensures LegsAreAlerts(nm, sdn, es) <==> FastLegs(nm, Life(nm, sdn, es)) == SpeedAlerts(Watch(nm, sdn, es).1)
    ensures LegsExcess(nm, sdn, es) == |FastLegs(nm, Life(nm, sdn, es))| - |SpeedAlerts(Watch(nm, sdn, es).1)|
  {
  }

  lemma MisreportsIs(nm: Chart, v: Vessel, life: seq<Point>, e: Event)
    ensures Misreports(nm, v, life, e) <==> ResumesFar(nm, v, life, e) || ConfirmsSlow(nm, v, e)
    ensures ResumesFar(nm, v, life, e) ==> !ConfirmsSlow(nm, v, e)
  {
  }

  lemma NoLifeYet(nm: Chart, sdn: bool)
    ensures LifeOk(Watch(nm, sdn, []).0, Life(nm, sdn, [])) && Rising(Life(nm, sdn, []))
    ensures LegsAreAlerts(nm, sdn, []) && LegsExcess(nm, sdn, []) == 0
    ensures forall p: (Vessel, seq<Point>, Event) -> bool :: Never(nm, sdn, [], p)
  {
  }

  lemma LifeSnoc(nm: Chart, sdn: bool, es: seq<Event>)
    requires es != []
    ensures var before, e := es[..|es|-1], es[|es|-1];
      var v, life := Watch(nm, sdn, before).0, Life(nm, sdn, before);
      && Watch(nm, sdn, es) == (React(nm, sdn, v, e).0, Watch(nm, sdn, before).1 + React(nm, sdn, v, e).1)
      && Life(nm, sdn, es) == (if e.Heard? then life + Accepts(nm, v, e.fix) else life)
      && (e.Heard? ==> React(nm, sdn, v, e) == Step(nm, sdn, v, e.fix) && e == Heard(e.fix))
      && (!e.Heard? ==> e.Swept?)
  {
    hide Step, Accepts;
    assert Life(nm, sdn, es[..|es|-1]) + [] == Life(nm, sdn, es[..|es|-1]);
  }

  lemma {:induction false} LifeFollows(nm: Chart, sdn: bool, es: seq<Event>)
    ensures LifeOk(Watch(nm, sdn, es).0, Life(nm, sdn, es))
    ensures Rising(Life(nm, sdn, es)) <==> Never(nm, sdn, es, Back(nm))
    ensures Never(nm, sdn, es, Misreport(nm)) ==> LegsAreAlerts(nm, sdn, es)
  {
    hide *;
    if es == [] {
      NoLifeYet(nm, sdn);
    } else {
      var before := es[..|es|-1];
      LifeFollows(nm, sdn, before);
      NeverSnoc(nm, sdn, es, Back(nm));
      NeverSnoc(nm, sdn, es, Misreport(nm));
      StepPredicates(nm, Watch(nm, sdn, before).0, Life(nm, sdn, before), es[|es|-1]);
      LifeStep(nm, sdn, es);
    }
  }

  lemma StepPredicates(nm: Chart, v: Vessel, life: seq<Point>, e: Event)
    ensures Back(nm)(v, life, e) == RunsBack(nm, v, life, e)
    ensures Misreport(nm)(v, life, e) == Misreports(nm, v, life, e)
  {
  }

  /**
   * Over every run of reports and sweeps: accepted times rise exactly when no step resumes a forgotten vessel at an
   * earlier time or confirms a candidate older than the accepted point; and the alerts are the accepted fast legs
   * throughout exactly when no step resumes too far away or confirms a candidate that is no fast leg.
   */
  lemma LifeIsOrderedIff(nm: Chart, sdn: bool, es: seq<Event>)
    ensures Rising(Life(nm, sdn, es)) <==> Never(nm, sdn, es, Back(nm))
    ensures (forall k :: 0 <= k <= |es| ==> LegsAreAlerts(nm, sdn, es[..k])) <==> Never(nm, sdn, es, Misreport(nm))
  {
    hide *;
    LifeFollows(nm, sdn, es);
    if Never(nm, sdn, es, Misreport(nm)) {
      forall k | 0 <= k <= |es| ensures LegsAreAlerts(nm, sdn, es[..k]) {
        NeverPrefix(nm, sdn, es, k, Misreport(nm));
        LifeFollows(nm, sdn, es[..k]);
      }
    } else {
      var k := WhereNot(nm, sdn, es, Misreport(nm));
      LifeFollows(nm, sdn, es[..k]);
      assert es[..k+1][..k] == es[..k];
      LifeStep(nm, sdn, es[..k+1]);
      StepPredicates(nm, Watch(nm, sdn, es[..k]).0, Life(nm, sdn, es[..k]), es[k]);
      assert !(LegsAreAlerts(nm, sdn, es[..k]) && LegsAreAlerts(nm, sdn, es[..k+1]));
    }
  }

  lemma NeverPrefix(nm: Chart, sdn: bool, es: seq<Event>, k: nat, p: (Vessel, seq<Point>, Event) -> bool)
    requires Never(nm, sdn, es, p) && k <= |es|
    ensures Never(nm, sdn, es[..k], p)
  {
    hide Watch, Life;
    assert forall m :: 0 <= m < k ==> es[..k][..m] == es[..m] && es[..k][m] == es[m];
  }

  lemma WhereNot(nm: Chart, sdn: bool, es: seq<Event>, p: (Vessel, seq<Point>, Event) -> bool) returns (k: nat)
    requires !Never(nm, sdn, es, p)
    ensures k < |es| && p(Watch(nm, sdn, es[..k]).0, Life(nm, sdn, es[..k]), es[k])
  {
    hide Watch, Life;
    k :| 0 <= k < |es| && p(Watch(nm, sdn, es[..k]).0, Life(nm, sdn, es[..k]), es[k]);
  }

  ghost function Earlier(): (Vessel, seq<Point>, Event) -> bool {
    (v, life, e) => ResumesEarlier(v, life, e)
  }

  ghost function Far(nm: Chart): (Vessel, seq<Point>, Event) -> bool {
    (v, life, e) => ResumesFar(nm, v, life, e)
  }

  lemma {:induction false} UnorphanedFollows(nm: Chart, sdn: bool, es: seq<Event>)
    requires NeverOrphans(nm, sdn, es)
    ensures Never(nm, sdn, es, Back(nm)) <==> Never(nm, sdn, es, Earlier())
    ensures Never(nm, sdn, es, Misreport(nm)) <==> Never(nm, sdn, es, Far(nm))
    ensures LegsExcess(nm, sdn, es) >= 0 && (LegsExcess(nm, sdn, es) == 0 <==> Never(nm, sdn, es, Far(nm)))
  {
    hide *;
    if es == [] {
      NoLifeYet(nm, sdn);
    } else {
      var before, e := es[..|es|-1], es[|es|-1];
      var v, life := Watch(nm, sdn, before).0, Life(nm, sdn, before);
      NeverOrphansPrefix(nm, sdn, es, |es| - 1);
      UnorphanedFollows(nm, sdn, before);
      NeverSnoc(nm, sdn, es, Back(nm));
      NeverSnoc(nm, sdn, es, Misreport(nm));
      NeverSnoc(nm, sdn, es, Earlier());
      NeverSnoc(nm, sdn, es, Far(nm));
      CandidateSurvives(nm, sdn, before);
      ValidSteps(nm, v, life, e);
      LifeFollows(nm, sdn, before);
      LifeStep(nm, sdn, es);
    }
  }

  lemma ValidSteps(nm: Chart, v: Vessel, life: seq<Point>, e: Event)
    requires CandidateOk(nm, v)
    ensures !ConfirmsSlow(nm, v, e)
    ensures Back(nm)(v, life, e) == Earlier()(v, life, e)
    ensures Misreport(nm)(v, life, e) == Far(nm)(v, life, e) == ResumesFar(nm, v, life, e)
  {
    hide CandidateOk, Knots, Confirms;
    ValidIsConfirmedFast(nm, v, e);
  }

  /** When no sweep orphans a candidate, only a resumed track can run back or misreport, and the final lists show it. */
  lemma UnorphanedLifeIff(nm: Chart, sdn: bool, es: seq<Event>)
    requires NeverOrphans(nm, sdn, es)
    ensures Rising(Life(nm, sdn, es)) <==> Never(nm, sdn, es, Earlier())
    ensures LegsAreAlerts(nm, sdn, es) <==> Never(nm, sdn, es, Far(nm))
  {
    hide *;
    LifeFollows(nm, sdn, es);
    UnorphanedFollows(nm, sdn, es);
    Compared(nm, sdn, es);
  }

  /** Sixty miles to a degree of latitude, on one meridian. */
  function Meridian(a: Pos, b: Pos): real {
    60.0 * if a.lat < b.lat then b.lat - a.lat else a.lat - b.lat
  }

  function At(lat: real, ts: real): Fix {
    Fix(Pos(lat, 0.0), ts, ts, 5.0, "cargo", "")
  }

  lemma Onward(nm: Chart, sdn: bool, es: seq<Event>, e: Event)
    ensures var (v, alerts) := Watch(nm, sdn, es);
      Watch(nm, sdn, es + [e]) == (React(nm, sdn, v, e).0, alerts + React(nm, sdn, v, e).1)
    ensures Life(nm, sdn, es + [e])
         == if e.Heard? then Life(nm, sdn, es) + Accepts(nm, Watch(nm, sdn, es).0, e.fix) else Life(nm, sdn, es)
  {
    hide React, Accepts;
    assert (es + [e])[..|es|] == es;
    assert Life(nm, sdn, es) + [] == Life(nm, sdn, es);
  }

  /** A vessel without accepted point accepts whatever comes, and keeps a candidate it may have. */
  lemma FirstIsAccepted(nm: Chart, v: Vessel, f: Fix)
    requires v.last.None?
    ensures Step(nm, false, v, f).0 == AcceptedVessel(v, f) && SpeedAlerts(Step(nm, false, v, f).1) == []
    ensures Accepts(nm, v, f) == [FixPoint(f)]
  {
    hide Knots, InDarkZone;
    StepSpeedAlerts(nm, false, v, f);
  }

  lemma StrayIsQuarantined(nm: Chart, v: Vessel, g: Fix)
    requires v.last.Some? && v.pending.None? && TooFast(nm, LastPoint(v.last.value), g)
    ensures var t := Step(nm, false, v, g).0;
      t.pending.Some? && JumpPoint(t.pending.value) == FixPoint(g)
      && t.last == Some(v.last.value.(received := g.received))
    ensures Step(nm, false, v, g).1 == []
  {
    hide Knots, InDarkZone, MaxSpeed;
  }

  const FIRST := At(50.0, 0.0)
  const STRAY := At(60.0, 60.0)
  const RETURN := At(50.0, 50010.0)
  const SECOND_STRAY := At(52.0, 50070.0)

  lemma DistancesRun()
    ensures TooFast(Meridian, FixPoint(FIRST), STRAY)
    ensures !Plausible(Meridian, FixPoint(RETURN), SECOND_STRAY)
    ensures Plausible(Meridian, FixPoint(STRAY), SECOND_STRAY)
    ensures Knots(Meridian, FixPoint(RETURN), FixPoint(STRAY)) == 0.0
  {
    assert Knots(Meridian, FixPoint(FIRST), FixPoint(STRAY)) == 36000.0;
    assert Knots(Meridian, FixPoint(RETURN), FixPoint(SECOND_STRAY)) == 7200.0;
    assert Knots(Meridian, FixPoint(STRAY), FixPoint(SECOND_STRAY)) == 480.0 / (50010.0 / 3600.0);
  }

  lemma SecondStrayConfirms(v: Vessel)
    requires v.last.Some? && LastPoint(v.last.value) == FixPoint(RETURN)
    requires v.pending.Some? && JumpPoint(v.pending.value) == FixPoint(STRAY)
    ensures Settle(Meridian, v, SECOND_STRAY) == Confirmed && !Ignored(v, SECOND_STRAY)
    ensures SpeedAlerts(Step(Meridian, false, v, SECOND_STRAY).1) == [STRAY.pos]
    ensures Backdates(Meridian, v, Heard(SECOND_STRAY)) && ConfirmsSlow(Meridian, v, Heard(SECOND_STRAY))
  {
    DistancesRun();
    hide Plausible, TooFast;
    StepSpeedAlerts(Meridian, false, v, SECOND_STRAY);
  }

  lemma AlertsOnward(nm: Chart, sdn: bool, es: seq<Event>, e: Event)
    ensures SpeedAlerts(Watch(nm, sdn, es + [e]).1)
         == SpeedAlerts(Watch(nm, sdn, es).1) + SpeedAlerts(React(nm, sdn, Watch(nm, sdn, es).0, e).1)
    ensures Watch(nm, sdn, es + [e]).0 == React(nm, sdn, Watch(nm, sdn, es).0, e).0
  {
    Onward(nm, sdn, es, e);
    hide Watch, React;
    SpeedAlertsAppend(Watch(nm, sdn, es).1, React(nm, sdn, Watch(nm, sdn, es).0, e).1);
  }

  /** A vessel's first report, and a stray one. */
  function Stray(first: Fix, stray: Fix): seq<Event> {
    [] + [Heard(first)] + [Heard(stray)]
  }

  lemma StrayWaits(nm: Chart, first: Fix, stray: Fix)
    requires TooFast(nm, FixPoint(first), stray)
    ensures var (v, alerts) := Watch(nm, false, Stray(first, stray));
      && SpeedAlerts(alerts) == [] && v.last.Some? && v.last.value.received == stray.received
      && v.pending.Some? && JumpPoint(v.pending.value) == FixPoint(stray)
  {
    AlertsOnward(nm, false, [], Heard(first));
    AlertsOnward(nm, false, [] + [Heard(first)], Heard(stray));
    FirstIsAccepted(nm, UNSEEN, first);
    hide Step, Knots, TooFast;
    assert Watch(nm, false, []) == (UNSEEN, []);
    StrayIsQuarantined(nm, AcceptedVessel(UNSEEN, first), stray);
  }

  /**
   * An orphaned candidate raises a false alarm: one stray frame, a night of silence, the vessel again where it was, and
   * a second stray frame are reported as a confirmed jump to the first one, which is neither newer nor a fast leg.
   */
  lemma OrphanRaisesFalseAlarm()
    ensures var night := Stray(FIRST, STRAY) + [Swept(50000.0)];
      var v := Watch(Meridian, false, night + [Heard(RETURN)]).0;
      && Backdates(Meridian, v, Heard(SECOND_STRAY)) && ConfirmsSlow(Meridian, v, Heard(SECOND_STRAY))
      && !CandidateOk(Meridian, Watch(Meridian, false, night).0) && SpeedAlerts(Watch(Meridian, false, night).1) == []
      && SpeedAlerts(Watch(Meridian, false, night + [Heard(RETURN)] + [Heard(SECOND_STRAY)]).1) == [STRAY.pos]
  {
    var evening := Stray(FIRST, STRAY);
    var night, v := evening + [Swept(50000.0)], Watch(Meridian, false, evening).0;
    DistancesRun();
    StrayWaits(Meridian, FIRST, STRAY);
    OrphanIsInvalid(Meridian, false, v, Swept(50000.0));
    AlertsOnward(Meridian, false, evening, Swept(50000.0));
    AlertsOnward(Meridian, false, night, Heard(RETURN));
    AlertsOnward(Meridian, false, night + [Heard(RETURN)], Heard(SECOND_STRAY));
    hide Watch, Step, CandidateOk, Stray, Knots, Plausible;
    FirstIsAccepted(Meridian, Sweep(v, 50000.0), RETURN);
    SecondStrayConfirms(AcceptedVessel(Sweep(v, 50000.0), RETURN));
  }

  lemma NeverOrphansSnoc(nm: Chart, sdn: bool, es: seq<Event>, e: Event)
    requires NeverOrphans(nm, sdn, es) && !Orphans(Watch(nm, sdn, es).0, e)
    ensures NeverOrphans(nm, sdn, es + [e])
  {
    hide Watch, Orphans;
    assert forall k :: 0 <= k < |es| ==> (es + [e])[..k] == es[..k];
    assert (es + [e])[..|es|] == es;
  }

  const SEEN := At(51.0, 100.0)
  const REPLAYED := At(50.0, 50.0).(received := 50010.0)

  function Silence(): seq<Event> {
    [] + [Heard(SEEN)] + [Swept(50000.0)]
  }

  lemma SilenceForgets()
    ensures NeverOrphans(Meridian, false, Silence()) && Life(Meridian, false, Silence()) == [FixPoint(SEEN)]
    ensures Watch(Meridian, false, Silence()).0 == AcceptedVessel(UNSEEN, SEEN).(last := None)
  {
    Onward(Meridian, false, [], Heard(SEEN));
    Onward(Meridian, false, [] + [Heard(SEEN)], Swept(50000.0));
    FirstIsAccepted(Meridian, UNSEEN, SEEN);
    hide Step, Accepts;
    assert Watch(Meridian, false, []).0 == UNSEEN && Life(Meridian, false, []) == [];
    assert [] + [FixPoint(SEEN)] == [FixPoint(SEEN)];
    NeverOrphansSnoc(Meridian, false, [], Heard(SEEN));
    NeverOrphansSnoc(Meridian, false, [] + [Heard(SEEN)], Swept(50000.0));
  }

  /** A frame replayed after a sweep has forgotten the vessel is accepted, though older than the last accepted one. */
  lemma ReplayRunsBack()
    ensures var es := Silence() + [Heard(REPLAYED)];
      && NeverOrphans(Meridian, false, es) && !Rising(Life(Meridian, false, es))
      && Life(Meridian, false, es) == [FixPoint(SEEN)] + [FixPoint(REPLAYED)]
  {
    SilenceForgets();
    Onward(Meridian, false, Silence(), Heard(REPLAYED));
    hide Step, Accepts, Watch, Life, Silence, NeverOrphans;
    FirstIsAccepted(Meridian, Watch(Meridian, false, Silence()).0, REPLAYED);
    NeverOrphansSnoc(Meridian, false, Silence(), Heard(REPLAYED));
    RisingSnoc([FixPoint(SEEN)], FixPoint(REPLAYED));
  }
}
