/** Which reports the detector hears, how it judges them, and how sure its speed alerts are. */
module AisReports {
  import opened Options
  import opened AisTrack

  // ---------------------------------------------------------------- which reports are heard

  /** The time of the newest report heard: the candidate's, if there is one. */
  function Newest(v: Vessel): real
    requires v.last.Some?
  {
    if v.pending.Some? then v.pending.value.ts else v.last.value.ts
  }

  /** The newest report heard is the newest of all. */
  ghost predicate HeardNewest(v: Vessel, fs: seq<Fix>) {
    && (fs == [] ==> v == UNSEEN)
    && (fs != [] ==>
          && v.last.Some? && (v.pending.Some? ==> v.pending.value.ts > v.last.value.ts)
          && (forall f :: f in fs ==> f.ts <= Newest(v)) && exists f :: f in fs && f.ts == Newest(v))
  }

  /** A report that is heard becomes the newest. */
  lemma HeardIsNewest(nm: Chart, sdn: bool, v: Vessel, f: Fix)
    requires !Ignored(v, f)
    ensures var w := Step(nm, sdn, v, f).0;
      && w.last.Some? && (v.last.Some? || v.pending.None? ==> Newest(w) == f.ts)
      && (v.last.Some? && w.pending.Some? ==> w.pending.value.ts > w.last.value.ts)
      && w.last.value.received == f.received
  {
    hide Knots, MaxSpeed, InDarkZone, Raised;
    ConfirmedIsPlausible(nm, v, f);
  }

  lemma StepHearsNewest(nm: Chart, sdn: bool, v: Vessel, fs: seq<Fix>, f: Fix)
    requires HeardNewest(v, fs)
    ensures Ignored(v, f) <==> exists x :: x in fs && x.ts >= f.ts
    ensures HeardNewest(Step(nm, sdn, v, f).0, fs + [f])
  {
    assert f in fs + [f] && forall x :: x in fs + [f] <==> x in fs || x == f;
    if !Ignored(v, f) {
      HeardIsNewest(nm, sdn, v, f);
      FirstIsNoCandidate(nm, sdn, f);
      hide Step;
    }
  }

  lemma FirstIsNoCandidate(nm: Chart, sdn: bool, f: Fix)
    ensures Step(nm, sdn, UNSEEN, f).0.pending.None?
  {
    hide Raised;
  }

  lemma {:induction false} EveryRunHearsNewest(nm: Chart, sdn: bool, fs: seq<Fix>)
    ensures HeardNewest(Run(nm, sdn, UNSEEN, fs).0, fs)
  {
    if fs != [] {
      hide Step, HeardNewest, Ignored;
      var before := fs[..|fs|-1];
      EveryRunHearsNewest(nm, sdn, before);
      StepHearsNewest(nm, sdn, Run(nm, sdn, UNSEEN, before).0, before, fs[|fs|-1]);
      assert before + [fs[|fs|-1]] == fs;
    } else {
      NothingHeard();
    }
  }

  lemma NothingHeard()
    ensures HeardNewest(UNSEEN, [])
  {
  }

  /** Over every run a report is ignored exactly when it is not newer than every report before it. */
  lemma {:induction false} IgnoredIff(nm: Chart, sdn: bool, fs: seq<Fix>, f: Fix)
    ensures Ignored(Run(nm, sdn, UNSEEN, fs).0, f) <==> exists x :: x in fs && x.ts >= f.ts
  {
    EveryRunHearsNewest(nm, sdn, fs);
    StepHearsNewest(nm, sdn, Run(nm, sdn, UNSEEN, fs).0, fs, f);
  }

  // ---------------------------------------------------------------- how they are judged

  /** Speed is distance over time, in knots, and nought without either. */
  lemma KnotsIs(nm: Chart, a: Point, b: Point)
    ensures b.ts <= a.ts ==> Knots(nm, a, b) == 0.0
    ensures b.ts > a.ts && nm(a.pos, b.pos) >= 0.0 ==> Knots(nm, a, b) * (b.ts - a.ts) == 3600.0 * nm(a.pos, b.pos)
  {
    var gap, dist := b.ts - a.ts, nm(a.pos, b.pos);
    if gap > 0.0 && dist > 0.0 {
      assert (dist / (gap / 3600.0)) * (gap / 3600.0) == dist;
    }
  }

  /** Over every run, only speed decides on a candidate: the times of a report that is heard are always in order. */
  lemma SettleIff(nm: Chart, sdn: bool, fs: seq<Fix>, f: Fix)
    ensures var v := Run(nm, sdn, UNSEEN, fs).0;
      !Ignored(v, f) ==>
        match Settle(nm, v, f)
        case NoCandidate => v.pending.None?
        case Glitch => v.pending.Some? && Knots(nm, LastPoint(v.last.value), FixPoint(f)) <= SPEED_FLOOR
        case Confirmed => v.pending.Some? && Knots(nm, LastPoint(v.last.value), FixPoint(f)) > SPEED_FLOOR
                          && Knots(nm, JumpPoint(v.pending.value), FixPoint(f)) <= SPEED_FLOOR
        case Superseded => v.pending.Some? && Knots(nm, LastPoint(v.last.value), FixPoint(f)) > SPEED_FLOOR
                           && Knots(nm, JumpPoint(v.pending.value), FixPoint(f)) > SPEED_FLOOR
  {
    hide Knots;
  }

  // ---------------------------------------------------------------- glitches in context

  /** An isolated glitch anywhere in a history can be left out of it. */
  lemma GlitchCanBeLeftOut(nm: Chart, sdn: bool, before: seq<Fix>, g: Fix, f: Fix, after: seq<Fix>)
    requires IsGlitch(nm, Run(nm, sdn, UNSEEN, before).0, g, f)
    ensures Run(nm, sdn, UNSEEN, before + ([g] + ([f] + after))) == Run(nm, sdn, UNSEEN, before + ([f] + after))
  {
    hide Step, IsGlitch, Run;
    var rest, v := [f] + after, Run(nm, sdn, UNSEEN, before).0;
    GlitchErased(nm, sdn, v, g, f);
    ProcessIsRun(nm, sdn, UNSEEN, before, [g] + rest);
    ProcessIsRun(nm, sdn, UNSEEN, before, rest);
    assert ([g] + rest)[0] == g && ([g] + rest)[1..] == rest && rest[0] == f && rest[1..] == after;
    var u := Step(nm, sdn, v, g).0;
    assert Process(nm, sdn, u, rest) == Process(nm, sdn, v, rest);
    assert [] + Process(nm, sdn, u, rest).1 == Process(nm, sdn, u, rest).1;
    assert Process(nm, sdn, v, [g] + rest) == Process(nm, sdn, v, rest);
    ProcessAll(nm, sdn, before + ([g] + rest));
    ProcessAll(nm, sdn, before + rest);
  }

  lemma ProcessAll(nm: Chart, sdn: bool, fs: seq<Fix>)
    ensures Process(nm, sdn, UNSEEN, fs) == Run(nm, sdn, UNSEEN, fs)
  {
    hide Step, Run;
    ProcessIsRun(nm, sdn, UNSEEN, fs, []);
    assert fs + [] == fs;
    var (u, early) := Run(nm, sdn, UNSEEN, fs);
    assert early + [] == early;
  }

  /** A glitch, in the detector's own terms: quarantined, and settled as a glitch by the next report. */
  lemma GlitchIff(nm: Chart, sdn: bool, v: Vessel, g: Fix, f: Fix)
    ensures var w := Step(nm, sdn, v, g).0;
      v.pending.None? ==>
        (IsGlitch(nm, v, g, f)
         <==> (!Ignored(v, g) && Quarantined(nm, v, g) && !Ignored(w, f) && Settle(nm, w, f) == Glitch))
  {
    hide Knots, MaxSpeed, InDarkZone, Raised;
  }

  /** After every prefix, the next two reports are no isolated glitch and its successor. */
  ghost predicate GlitchFree(nm: Chart, sdn: bool, v: Vessel, fs: seq<Fix>)
    decreases |fs|
  {
    |fs| >= 2 ==> !IsGlitch(nm, v, fs[0], fs[1]) && GlitchFree(nm, sdn, Step(nm, sdn, v, fs[0]).0, fs[1..])
  }

  /** A report that is kept is either accepted, so that no later one makes it a glitch, or waits for the next one. */
  lemma KeptIsNoGlitch(nm: Chart, sdn: bool, v: Vessel, f: Fix, x: Fix, y: Fix)
    requires !IsGlitch(nm, v, f, x)
    ensures IsGlitch(nm, Step(nm, sdn, v, f).0, x, y) ==> !IsGlitch(nm, v, f, y)
  {
    hide Knots, MaxSpeed, InDarkZone, Raised;
  }

  lemma ScrubIsEmptyIff(nm: Chart, sdn: bool, v: Vessel, fs: seq<Fix>)
    ensures fs != [] ==> Scrub(nm, sdn, v, fs) != []
    decreases |fs|
  {
    if |fs| >= 2 && IsGlitch(nm, v, fs[0], fs[1]) {
      ScrubIsEmptyIff(nm, sdn, v, fs[1..]);
    }
  }

  /** The first report kept is the first one, or the first that follows a run of glitches. */
  lemma {:induction false} ScrubKeepsNoGlitch(nm: Chart, sdn: bool, v: Vessel, f: Fix, fs: seq<Fix>)
    requires fs != [] && !IsGlitch(nm, v, f, fs[0])
    ensures var u := Step(nm, sdn, v, f).0;
      var r := Scrub(nm, sdn, u, fs);
      r != [] && !IsGlitch(nm, v, f, r[0])
    decreases |fs|
  {
    hide Step, IsGlitch;
    var u := Step(nm, sdn, v, f).0;
    if |fs| >= 2 && IsGlitch(nm, u, fs[0], fs[1]) {
      KeptIsNoGlitch(nm, sdn, v, f, fs[0], fs[1]);
      ScrubKeepsNoGlitch(nm, sdn, v, f, fs[1..]);
    }
  }

  /** Scrubbing leaves no isolated glitch behind. */
  lemma {:induction false} ScrubLeavesNone(nm: Chart, sdn: bool, v: Vessel, fs: seq<Fix>)
    ensures GlitchFree(nm, sdn, v, Scrub(nm, sdn, v, fs))
    decreases |fs|
  {
    hide Step, IsGlitch;
    if |fs| >= 2 {
      if IsGlitch(nm, v, fs[0], fs[1]) {
        ScrubLeavesNone(nm, sdn, v, fs[1..]);
      } else {
        var u := Step(nm, sdn, v, fs[0]).0;
        var rest := Scrub(nm, sdn, u, fs[1..]);
        ScrubLeavesNone(nm, sdn, u, fs[1..]);
        ScrubKeepsNoGlitch(nm, sdn, v, fs[0], fs[1..]);
        assert ([fs[0]] + rest)[1..] == rest;
      }
    }
  }

  // ---------------------------------------------------------------- how sure an alert is

  /** The speed from which on an alert for a vessel class has full confidence. */
  function FullFrom(kind: string): real {
    if kind == "tug" then 55.0
    else if kind == "sailing" then 58.0
    else if kind == "tanker" || kind == "fishing" then 60.0
    else if kind == "cargo" then 70.0
    else if kind == "passenger" then 75.0
    else 90.0
  }

  /** Over the floor: confidence 0.9 from a speed that depends on the class, and below it 0.01 less for each knot. */
  lemma ConfidenceIs(j: Jump, f: Fix)
    requires j.maxAllowed == MaxSpeed(j.kind) && j.computedKts > SPEED_FLOOR
    ensures var c := Confirmation(j, f).confidence;
      && 0.55 < c <= 0.9 && (c == 0.9 <==> j.computedKts >= FullFrom(j.kind))
      && (j.computedKts < FullFrom(j.kind) ==> 100.0 * (0.9 - c) == FullFrom(j.kind) - j.computedKts)
  {
  }

  /** Over every run each published speed alert is at least that sure. */
  lemma {:induction false} SpeedAlertsAreSure(nm: Chart, sdn: bool, fs: seq<Fix>)
    ensures forall a :: a in Run(nm, sdn, UNSEEN, fs).1 && a.ImpossibleSpeed? ==>
      a.computedKts > SPEED_FLOOR && 0.55 < a.confidence <= 0.9
  {
    if fs != [] {
      var before, f := fs[..|fs|-1], fs[|fs|-1];
      SpeedAlertsAreSure(nm, sdn, before);
      EveryRunKeepsRows(nm, sdn, before);
      EveryRunKeepsTrack(nm, sdn, before);
      var (v, alerts) := Run(nm, sdn, UNSEEN, before);
      StepIsSure(nm, sdn, v, before, f, Track(nm, sdn, before), alerts);
      hide Step;
      assert Run(nm, sdn, UNSEEN, fs).1 == alerts + Step(nm, sdn, v, f).1;
    }
  }

  lemma StepIsSure(nm: Chart, sdn: bool, v: Vessel, fs: seq<Fix>, f: Fix, track: seq<Point>, alerts: seq<Alert>)
    requires RowsOk(v, fs) && TrackOk(nm, v, track, alerts)
    ensures forall a :: a in Step(nm, sdn, v, f).1 && a.ImpossibleSpeed? ==>
      a.computedKts > SPEED_FLOOR && 0.55 < a.confidence <= 0.9
  {
    hide Knots, InDarkZone, FastLegs, SpeedAlerts, MaxSpeed, Confirmation, Rising;
    if v.pending.Some? {
      ConfidenceIs(v.pending.value, f);
      ConfirmationSays(v.pending.value, f);
    }
  }

  lemma ConfirmationSays(j: Jump, f: Fix)
    ensures Confirmation(j, f).ImpossibleSpeed? && Confirmation(j, f).computedKts == j.computedKts
  {
  }

  // ---------------------------------------------------------------- names, and silence

  /** Once a vessel has been accepted it stays so, and its last point keeps its name until another is reported. */
  lemma NameIsKept(nm: Chart, sdn: bool, v: Vessel, f: Fix)
    requires v.last.Some?
    ensures var w := Step(nm, sdn, v, f).0;
      w.last.Some? && w.last.value.name == if Moved(v, w, f) && f.name != "" then f.name else v.last.value.name
  {
    hide Knots, MaxSpeed, InDarkZone, Raised;
  }

  /** The last report that the detector has heard. */
  ghost predicate LastHeard(nm: Chart, sdn: bool, es: seq<Event>, k: nat) {
    && k < |es| && es[k].Heard? && !Ignored(Watch(nm, sdn, es[..k]).0, es[k].fix)
    && forall j :: k < j < |es| ==> es[j].Swept? || Ignored(Watch(nm, sdn, es[..j]).0, es[j].fix)
  }

  lemma {:induction false} ReceivedLastHeard(nm: Chart, sdn: bool, es: seq<Event>, k: nat)
    requires LastHeard(nm, sdn, es, k) && Watch(nm, sdn, es).0.last.Some?
    ensures Watch(nm, sdn, es).0.last.value.received == es[k].fix.received
  {
    var before, e := es[..|es|-1], es[|es|-1];
    var v := Watch(nm, sdn, before).0;
    if k == |es| - 1 {
      HeardIsNewest(nm, sdn, v, e.fix);
    } else {
      assert es[..|es|-1] == before && (e.Swept? || Ignored(v, e.fix));
      assert forall j :: 0 <= j < |before| ==> before[..j] == es[..j];
      hide Ignored;
      assert LastHeard(nm, sdn, before, k);
      QuietKeepsReceived(nm, sdn, v, e);
      ReceivedLastHeard(nm, sdn, before, k);
    }
  }

  lemma QuietKeepsReceived(nm: Chart, sdn: bool, v: Vessel, e: Event)
    requires e.Swept? || Ignored(v, e.fix)
    ensures var w := React(nm, sdn, v, e).0;
      w.last.Some? ==> v.last.Some? && w.last.value.received == v.last.value.received
  {
  }

  /** Over every run a sweep forgets a vessel exactly when nothing was heard of it for twelve hours. */
  lemma ForgottenIff(nm: Chart, sdn: bool, es: seq<Event>, k: nat, now: real)
    requires LastHeard(nm, sdn, es, k) && Watch(nm, sdn, es).0.last.Some?
    ensures var v := Watch(nm, sdn, es).0;
      && (Sweep(v, now).last.None? <==> now - es[k].fix.received >= 12.0 * 3600.0)
      && (Sweep(v, now).last.Some? ==> Sweep(v, now) == v) && Sweep(v, now).(last := v.last) == v
  {
    ReceivedLastHeard(nm, sdn, es, k);
  }
}
