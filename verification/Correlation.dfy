/** The correlation engine: a 120-second window over sensor observations that empties itself when a threat fires. */
module Correlation {
  import opened Options

  const WINDOW := 120.0

  /** The sensor types behind the subscribed channels. The last two carry no weight. */
  datatype Sensor = Infrasound | Seismic | Hydrophone | Adsb | AisAnomaly | Ionospheric | GnssSpoof | Traffic | Weather
                  | Unknown

  datatype Observation = Observation(sensor: Sensor, at: real, data: string)

  datatype Thresholds = Thresholds(alert: real, urgent: real)

  datatype Classification = BallisticConfirmed | DroneAttackCandidate | VesselSpoofingConfirmed
                          | PhysicalThreatCandidate

  datatype Threat = Threat(classification: Classification, confidence: real, sources: set<Sensor>, urgent: bool,
                           evidence: seq<Observation>)

  function SensorOf(channel: string): Sensor {
    match channel
    case "infrasound:events" => Infrasound
    case "seismic:events" => Seismic
    case "hydro:events" => Hydrophone
    case "adsb:anomalies" => Adsb
    case "sdr:anomalies" => Adsb
    case "ais:anomalies" => AisAnomaly
    case "sensors:ionospheric" => Ionospheric
    case "ionosphere:anomalies" => Ionospheric
    case "gnss:anomalies" => GnssSpoof
    case "traffic:anomalies" => Traffic
    case "weather:alerts" => Weather
    case _ => Unknown
  }

  function Weight(s: Sensor): (w: real)
    ensures 0.0 <= w <= 0.28
  {
    match s
    case Infrasound => 0.28
    case Seismic => 0.22
    case Hydrophone => 0.12
    case Adsb => 0.10
    case AisAnomaly => 0.08
    case Ionospheric => 0.08
    case GnssSpoof => 0.07
    case Traffic => 0.05
    case _ => 0.0
  }

  function Part(seen: set<Sensor>, s: Sensor): real {
    if s in seen then Weight(s) else 0.0
  }

  /** The sum of the weights of the distinct sensor types seen. */
  function Score(seen: set<Sensor>): real {
    Part(seen, Infrasound) + Part(seen, Seismic) + Part(seen, Hydrophone) + Part(seen, Adsb) + Part(seen, AisAnomaly)
    + Part(seen, Ionospheric) + Part(seen, GnssSpoof) + Part(seen, Traffic)
  }

  function Sensors(recent: seq<Observation>): set<Sensor> {
    set o | o in recent :: o.sensor
  }

  function Classify(t: Thresholds, sources: set<Sensor>, confidence: real): Classification {
    if Ionospheric in sources && (Infrasound in sources || Seismic in sources) && confidence >= t.urgent then
      BallisticConfirmed
    else if Adsb in sources && Infrasound in sources && confidence >= t.alert then DroneAttackCandidate
    else if AisAnomaly in sources && GnssSpoof in sources && confidence >= t.alert then VesselSpoofingConfirmed
    else PhysicalThreatCandidate
  }

  function Newer(recent: seq<Observation>, now: real): seq<Observation> {
    if recent == [] then [] else
    Newer(recent[..|recent|-1], now) + if now - recent[|recent|-1].at < WINDOW then [recent[|recent|-1]] else []
  }

  function Report(t: Thresholds, recent: seq<Observation>): Threat {
    var seen := Sensors(recent);
    Threat(Classify(t, seen, Score(seen)), Score(seen), seen, Score(seen) >= t.urgent, recent)
  }

  /** `_process`: the window after the observation, and the threat if one fires. */
  function Process(t: Thresholds, recent: seq<Observation>, o: Observation): (seq<Observation>, Option<Threat>) {
    var window := Newer(recent + [o], o.at);
    if Score(Sensors(window)) >= t.alert then ([], Some(Report(t, window))) else (window, None)
  }

  class Engine {
    const thresholds: Thresholds
    var recent: seq<Observation>

    constructor (t: Thresholds)
      ensures thresholds == t && recent == []
    {
      thresholds, recent := t, [];
    }

    method Observe(channel: string, data: string, now: real) returns (threat: Option<Threat>)
      modifies this
      ensures (recent, threat) == Process(thresholds, old(recent), Observation(SensorOf(channel), now, data))
    {
      recent := recent + [Observation(SensorOf(channel), now, data)];
      recent := Newer(recent, now);
      var seen := Sensors(recent);
      if Score(seen) >= thresholds.alert {
        threat := Some(Report(thresholds, recent));
        recent := [];
      } else {
        threat := None;
      }
    }
  }

  // ---------------------------------------------------------------- the window is the history

  /** Everything observed, with the position after the last threat and the threats so far. */
  datatype History = History(recent: seq<Observation>, start: nat, threats: seq<(nat, nat, Threat)>)

  /** A threat is logged with the range of observations since the one before it. */
  function Run(t: Thresholds, os: seq<Observation>): (h: History)
    ensures h.start <= |os|
  {
    if os == [] then History([], 0, []) else
    var h := Run(t, os[..|os|-1]);
    var (recent, threat) := Process(t, h.recent, os[|os|-1]);
    match threat
    case Some(x) => History(recent, |os|, h.threats + [(h.start, |os|, x)])
    case None => h.(recent := recent)
  }

  ghost predicate Clocked(os: seq<Observation>) {
    forall i, j :: 0 <= i < j < |os| ==> os[i].at <= os[j].at
  }

  /** Since `start`, exactly the observations from position k on are younger than the window. */
  ghost predicate Youngest(os: seq<Observation>, start: nat, k: nat, now: real) {
    && start <= k <= |os|
    && (forall i :: start <= i < k ==> now - os[i].at >= WINDOW)
    && (forall i :: k <= i < |os| ==> now - os[i].at < WINDOW)
  }

  lemma NewerSnoc(os: seq<Observation>, o: Observation, now: real)
    ensures Newer(os + [o], now) == Newer(os, now) + if now - o.at < WINDOW then [o] else []
  {
    assert (os + [o])[..|os|] == os;
  }

  /** With a clock that never goes back, pruning cuts off the front. */
  lemma {:induction false} NewerIsSuffix(os: seq<Observation>, now: real) returns (k: nat)
    requires Clocked(os)
    ensures Youngest(os, 0, k, now) && Newer(os, now) == os[k..]
  {
    if os == [] {
      k := 0;
    } else {
      var init, last := os[..|os|-1], os[|os|-1];
      var m := NewerIsSuffix(init, now);
      assert init + [last] == os;
      NewerSnoc(init, last, now);
      k := if now - last.at < WINDOW then m else |os|;
    }
  }

  lemma YoungestSplits(os: seq<Observation>, start: nat, k: nat, now: real, i: nat)
    ensures Youngest(os, start, k, now) && start <= i < |os| ==> (i < k <==> now - os[i].at >= WINDOW)
    ensures Youngest(os, start, k, now) ==> start <= k <= |os|
  {
  }

  lemma YoungestIsUnique(os: seq<Observation>, start: nat, j: nat, k: nat, now: real)
    ensures Youngest(os, start, j, now) && Youngest(os, start, k, now) ==> j == k
  {
    hide Youngest;
    YoungestSplits(os, start, j, now, if j < k then j else k);
    YoungestSplits(os, start, k, now, if j < k then j else k);
  }

  /** What was too old before is too old now. */
  lemma YoungestMoves(os: seq<Observation>, start: nat, j: nat, m: nat, o: Observation)
    requires Clocked(os + [o]) && start <= j <= |os| && (os != [] ==> Youngest(os, start, j, os[|os|-1].at))
    requires Youngest((os + [o])[j..], 0, m, o.at)
    ensures Youngest(os + [o], start, j + m, o.at)
  {
    var all := os + [o];
    assert all[|os|] == o && forall i :: 0 <= i < |os| ==> all[i] == os[i];
    forall i | start <= i < j + m ensures o.at - all[i].at >= WINDOW {
      if i >= j {
        assert all[j..][i-j] == all[i];
      } else {
        assert os[|os|-1].at == all[|os|-1].at <= o.at;
      }
    }
    forall i | j + m <= i < |all| ensures o.at - all[i].at < WINDOW {
      assert all[j..][i-j] == all[i];
    }
  }

  lemma ClockedRest(os: seq<Observation>, j: nat)
    ensures Clocked(os) && j <= |os| ==> Clocked(os[j..])
  {
  }

  /** The window after one more observation is what is youngest of the history, if the one before was. */
  lemma WindowMoves(os: seq<Observation>, start: nat, j: nat, o: Observation) returns (k: nat)
    requires Clocked(os + [o]) && start <= j <= |os|
    requires os != [] ==> Youngest(os, start, j, os[|os|-1].at)
    ensures Youngest(os + [o], start, k, o.at) && Newer(os[j..] + [o], o.at) == (os + [o])[k..]
  {
    hide Clocked, Newer, Youngest;
    var all := os + [o];
    ClockedRest(all, j);
    var m := NewerIsSuffix(all[j..], o.at);
    YoungestMoves(os, start, j, m, o);
    YoungestSplits(all, start, j + m, o.at, 0);
    k := j + m;
    assert all[j..] == os[j..] + [o] && all[j..][m..] == all[k..];
  }

  /** The window holds the youngest observations since the last threat, and never an alert. */
  ghost predicate WindowOk(t: Thresholds, os: seq<Observation>, h: History, k: nat) {
    && h.start <= k <= |os| && h.recent == os[k..] && Score(Sensors(h.recent)) < t.alert
    && (os != [] ==> Youngest(os, h.start, k, os[|os|-1].at))
  }

  lemma ClockedInit(os: seq<Observation>)
    ensures os != [] && Clocked(os) ==> Clocked(os[..|os|-1]) && os[..|os|-1] + [os[|os|-1]] == os
  {
  }

  lemma RunSnoc(t: Thresholds, os: seq<Observation>, o: Observation)
    ensures var h := Run(t, os);
      var (recent, threat) := Process(t, h.recent, o);
      Run(t, os + [o]) ==
        match threat
        case Some(x) => History(recent, |os| + 1, h.threats + [(h.start, |os| + 1, x)])
        case None => h.(recent := recent)
  {
    assert (os + [o])[..|os|] == os;
  }

  /** The engine processes the next observation over the youngest part of the history since the last threat. */
  lemma WindowStep(t: Thresholds, os: seq<Observation>, h: History, j: nat, o: Observation) returns (k: nat)
    requires Clocked(os + [o]) && WindowOk(t, os, h, j)
    ensures h.start <= k <= |os| + 1 && Youngest(os + [o], h.start, k, o.at)
    ensures var window := (os + [o])[k..];
      Process(t, h.recent, o)
      == if Score(Sensors(window)) >= t.alert then ([], Some(Report(t, window))) else (window, None)
  {
    hide Score, Sensors, Newer, Youngest, Report, Clocked;
    k := WindowMoves(os, h.start, j, o);
    YoungestSplits(os + [o], h.start, k, o.at, 0);
  }

  lemma WindowOfNext(t: Thresholds, os: seq<Observation>, o: Observation, j: nat)
    requires Clocked(os + [o]) && t.alert > 0.0 && WindowOk(t, os, Run(t, os), j)
    ensures exists k: nat :: WindowOk(t, os + [o], Run(t, os + [o]), k)
  {
    hide Score, Report, Sensors, Youngest, Run, Process, Clocked;
    NothingScoresNothing();
    var k := WindowStep(t, os, Run(t, os), j, o);
    RunSnoc(t, os, o);
    NoneYounger(os + [o], o.at);
    assert (os + [o])[|os|] == o;
    assert WindowOk(t, os + [o], Run(t, os + [o]), if Process(t, Run(t, os).recent, o).1.Some? then |os| + 1 else k);
  }

  /** Over every run the window is the youngest part of the history since the last threat, below the alert threshold. */
  lemma {:induction false} WindowIsHistory(t: Thresholds, os: seq<Observation>)
    requires Clocked(os) && t.alert > 0.0
    ensures exists k: nat :: WindowOk(t, os, Run(t, os), k)
  {
    hide Score, Sensors, Run, Clocked;
    if os == [] {
      NothingScoresNothing();
      NothingRun(t);
      assert WindowOk(t, os, Run(t, os), 0);
    } else {
      hide WindowOk;
      var init, o := os[..|os|-1], os[|os|-1];
      ClockedInit(os);
      WindowIsHistory(t, init);
      var j: nat :| WindowOk(t, init, Run(t, init), j);
      WindowOfNext(t, init, o, j);
    }
  }

  lemma NothingRun(t: Thresholds)
    ensures Run(t, []) == History([], 0, [])
  {
  }

  lemma NoneYounger(os: seq<Observation>, now: real)
    ensures Youngest(os, |os|, |os|, now) && os[|os|..] == []
  {
  }

  lemma NothingScoresNothing()
    ensures Score({}) == 0.0 && Sensors([]) == {}
  {
  }

  /** A threat fires on exactly the observation that brings the last two minutes since the last one to the threshold. */
  lemma FiresIffReached(t: Thresholds, os: seq<Observation>, o: Observation, k: nat)
    requires Clocked(os + [o]) && t.alert > 0.0 && Youngest(os + [o], Run(t, os).start, k, o.at)
    ensures var threat := Process(t, Run(t, os).recent, o).1;
      && (threat.Some? <==> Score(Sensors((os + [o])[k..])) >= t.alert)
      && (threat.Some? ==> threat.value.evidence == (os + [o])[k..])
  {
    hide Score, Sensors, Youngest, Run, Classify, Process, Clocked;
    ClockedInit(os + [o]);
    assert (os + [o])[..|os|] == os;
    WindowIsHistory(t, os);
    var j: nat :| WindowOk(t, os, Run(t, os), j);
    var m := WindowStep(t, os, Run(t, os), j, o);
    YoungestIsUnique(os + [o], Run(t, os).start, m, k, o.at);
  }

  /** x fired on observation to - 1, from the youngest part of the stretch since `from`. */
  ghost predicate ThreatOk(t: Thresholds, os: seq<Observation>, from: nat, to: nat, x: Threat) {
    && from < to <= |os| && x.confidence >= t.alert
    && exists k: nat :: Youngest(os[..to], from, k, os[to-1].at) && Fired(t, os[..to][k..], x)
  }

  /** The threat reports these observations: their types, their score, and whether that is urgent. */
  ghost predicate Fired(t: Thresholds, recent: seq<Observation>, x: Threat) {
    && x.evidence == recent && x.confidence == Score(x.sources) && x.urgent == (x.confidence >= t.urgent)
    && (forall s :: s in x.sources <==> exists o :: o in recent && o.sensor == s)
    && (x.confidence >= t.alert ==> Labelled(x))
  }

  /** The label follows from the sensor types and the urgency; the alert threshold plays no part once a threat fires. */
  ghost predicate Labelled(x: Threat) {
    var ballistic := x.urgent && Ionospheric in x.sources && (Infrasound in x.sources || Seismic in x.sources);
    var drone := {Adsb, Infrasound} <= x.sources;
    && (x.classification == BallisticConfirmed <==> ballistic)
    && (x.classification == DroneAttackCandidate <==> drone && !ballistic)
    && (x.classification == VesselSpoofingConfirmed <==> {AisAnomaly, GnssSpoof} <= x.sources && !drone && !ballistic)
  }

  lemma ReportFired(t: Thresholds, recent: seq<Observation>)
    ensures Fired(t, recent, Report(t, recent))
  {
    hide Score;
  }

  lemma ThreatOkLater(t: Thresholds, os: seq<Observation>, o: Observation, from: nat, to: nat, x: Threat)
    requires ThreatOk(t, os, from, to, x)
    ensures ThreatOk(t, os + [o], from, to, x)
  {
    assert (os + [o])[..to] == os[..to];
  }

  lemma LastThreatOk(t: Thresholds, os: seq<Observation>, o: Observation)
    requires Clocked(os + [o]) && t.alert > 0.0 && Process(t, Run(t, os).recent, o).1.Some?
    ensures ThreatOk(t, os + [o], Run(t, os).start, |os| + 1, Process(t, Run(t, os).recent, o).1.value)
  {
    hide Score, Sensors, Youngest, Run, Fired, Process, ThreatOk, Clocked;
    ClockedInit(os + [o]);
    assert (os + [o])[..|os|] == os;
    WindowIsHistory(t, os);
    var j: nat :| WindowOk(t, os, Run(t, os), j);
    var k := WindowStep(t, os, Run(t, os), j, o);
    ReportFired(t, (os + [o])[k..]);
    FiredOk(t, os + [o], Run(t, os).start, k, Process(t, Run(t, os).recent, o).1.value);
  }

  lemma FiredOk(t: Thresholds, os: seq<Observation>, start: nat, k: nat, x: Threat)
    requires os != [] && start < |os| && Youngest(os, start, k, os[|os|-1].at) && Fired(t, os[k..], x)
    requires x.confidence >= t.alert
    ensures ThreatOk(t, os, start, |os|, x)
  {
    assert os[..|os|] == os;
  }

  /** Threats use disjoint stretches of the history, so no observation contributes to two. */
  lemma {:induction false} ThreatsAreDisjoint(t: Thresholds, os: seq<Observation>)
    requires Clocked(os) && t.alert > 0.0
    ensures var h := Run(t, os);
      && (forall i :: 0 <= i < |h.threats| ==> ThreatOk(t, os, h.threats[i].0, h.threats[i].1, h.threats[i].2))
      && (forall i :: 0 <= i < |h.threats| ==> h.threats[i].1 <= h.start)
      && (forall i, j :: 0 <= i < j < |h.threats| ==> h.threats[i].1 <= h.threats[j].0)
  {
    hide Run, Process, ThreatOk;
    if os == [] {
      NothingRun(t);
    } else {
      var init, o := os[..|os|-1], os[|os|-1];
      ClockedInit(os);
      ThreatsAreDisjoint(t, init);
      RunSnoc(t, init, o);
      var h := Run(t, init);
      forall i | 0 <= i < |h.threats| ensures ThreatOk(t, os, h.threats[i].0, h.threats[i].1, h.threats[i].2) {
        ThreatOkLater(t, init, o, h.threats[i].0, h.threats[i].1, h.threats[i].2);
      }
      if Process(t, h.recent, o).1.Some? {
        LastThreatOk(t, init, o);
      }
    }
  }

  // ---------------------------------------------------------------- weights

  /** Each type of sensor counts once, with its own weight. */
  lemma ScoreIsAdditive(seen: set<Sensor>, s: Sensor)
    ensures Score({}) == 0.0
    ensures Score(seen + {s}) == Score(seen) + if s in seen then 0.0 else Weight(s)
  {
    if s in seen {
      assert seen + {s} == seen;
    } else {
      assert forall x :: Part(seen + {s}, x) == if x == s then Weight(s) else Part(seen, x);
      assert Part(seen, s) == 0.0;
      hide Part;
      match s {
        case Weather => assert Weight(s) == 0.0;
        case Unknown => assert Weight(s) == 0.0;
        case _ => hide Weight;
      }
    }
  }

  /** What one observation on a channel is worth; other channels are worth nothing. */
  lemma ChannelWeights(channel: string)
    ensures Weight(SensorOf("infrasound:events")) == 0.28 && Weight(SensorOf("seismic:events")) == 0.22
    ensures Weight(SensorOf("hydro:events")) == 0.12 && Weight(SensorOf("gnss:anomalies")) == 0.07
    ensures SensorOf("adsb:anomalies") == SensorOf("sdr:anomalies") && Weight(SensorOf("sdr:anomalies")) == 0.10
    ensures SensorOf("sensors:ionospheric") == SensorOf("ionosphere:anomalies") == Ionospheric
    ensures SensorOf("ais:anomalies") == AisAnomaly && Weight(AisAnomaly) == Weight(Ionospheric) == 0.08
    ensures Weight(SensorOf("traffic:anomalies")) == 0.05 && SensorOf("weather:alerts") == Weather
    ensures SensorOf(channel) == Unknown <==>
      channel !in {"infrasound:events", "seismic:events", "hydro:events", "adsb:anomalies", "sdr:anomalies",
                   "ais:anomalies", "sensors:ionospheric", "ionosphere:anomalies", "gnss:anomalies",
                   "traffic:anomalies", "weather:alerts"}
  {
  }

  /** Three types of sensor reach 0.55 exactly when they are infrasound, seismic and a third that carries weight. */
  lemma ThreeSensorsReachIff(seen: set<Sensor>)
    requires |seen| == 3
    ensures Score(seen) >= 0.55 <==>
      Infrasound in seen && Seismic in seen && Weather !in seen && Unknown !in seen
  {
    var a :| a in seen;
    var two := seen - {a};
    assert |two| == 2;
    var b :| b in two;
    var one := two - {b};
    assert |one| == 1;
    var c :| c in one;
    assert |one - {c}| == 0;
    assert seen == {a, b, c};
    ScoreOfThree(a, b, c);
    hide Score, Weight;
    WeightsAreOrdered(a);
    WeightsAreOrdered(b);
    WeightsAreOrdered(c);
  }

  lemma ScoreOfThree(a: Sensor, b: Sensor, c: Sensor)
    ensures a != b && b != c && a != c ==> Score({a, b, c}) == Weight(a) + Weight(b) + Weight(c)
  {
    ScoreIsAdditive({}, a);
    ScoreIsAdditive({a}, b);
    ScoreIsAdditive({a, b}, c);
    assert {} + {a} == {a} && {a} + {b} == {a, b} && {a, b} + {c} == {a, b, c};
  }

  lemma WeightsAreOrdered(s: Sensor)
    ensures Weight(Infrasound) == 0.28 && Weight(Seismic) == 0.22
    ensures s in {Weather, Unknown} ==> Weight(s) == 0.0
    ensures s !in {Infrasound, Seismic, Weather, Unknown} ==> 0.05 <= Weight(s) <= 0.12
    ensures s !in {Infrasound, Seismic, Hydrophone} ==> Weight(s) <= 0.10
  {
  }

  /** At an alert threshold of 0.55 a threat needs infrasound or seismic evidence, and at least three sensor types. */
  lemma DefaultAlertNeedsThree(seen: set<Sensor>)
    requires Score(seen) >= 0.55
    ensures Infrasound in seen || Seismic in seen
    ensures |seen| >= 3
  {
    if |seen| < 3 {
      TwoSensorsScoreLess(seen);
    }
  }

  lemma TwoSensorsScoreLess(seen: set<Sensor>)
    requires |seen| <= 2
    ensures Score(seen) <= 0.50
  {
    if seen != {} {
      var a :| a in seen;
      var rest := seen - {a};
      if rest != {} {
        var b :| b in rest;
        assert |rest - {b}| == 0;
        assert seen == {a, b};
      } else {
        assert seen == {a};
      }
    }
  }
}
