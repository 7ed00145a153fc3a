/** The sliding-window limiter, and the plain history it agrees with. Times are seconds on a nondecreasing clock. */
module RateLimit {

  const WINDOW := 60.0
  const MAX_TRACKED := 10000

  type Table = map<string, seq<real>>

  /** `Broken` is the index error of reading the oldest hit of an empty window, which a limit below one causes. */
  datatype Outcome = Admitted | Limited(retryIn: int) | Broken

  datatype Call = Call(key: string, limit: int, now: real)

  function Trim(w: seq<real>, now: real): seq<real> {
    if w != [] && now - w[0] > WINDOW then Trim(w[1..], now) else w
  }

  function HitsOf(t: Table, key: string): seq<real> {
    if key in t then t[key] else []
  }

  function Cleared(t: Table): Table {
    if |t| > MAX_TRACKED then map[] else t
  }

  function Decide(window: seq<real>, c: Call): Outcome {
    if |window| < c.limit then Admitted
    else if window == [] then Broken
    else Limited((WINDOW - (c.now - window[0])).Floor + 1)
  }

  function Serve(t: Table, c: Call): (Table, Outcome) {
    var kept := Cleared(t);
    var window := Trim(HitsOf(kept, c.key), c.now);
    var outcome := Decide(window, c);
    (kept[c.key := if outcome == Admitted then window + [c.now] else window], outcome)
  }

  class Limiter {
    var hits: Table

    constructor ()
      ensures hits == map[]
    {
      hits := map[];
    }

    method RateLimit(c: Call) returns (outcome: Outcome)
      modifies this
      ensures (hits, outcome) == Serve(old(hits), c)
    {
      if |hits| > MAX_TRACKED {
        hits := map[];
      }
      ghost var full := HitsOf(hits, c.key);
      var window := HitsOf(hits, c.key);
      while window != [] && c.now - window[0] > WINDOW
        invariant Trim(window, c.now) == Trim(full, c.now)
        decreases |window|
      {
        window := window[1..];
      }
      if |window| >= c.limit {
        hits := hits[c.key := window];
        if window == [] {
          return Broken;
        }
        return Limited((WINDOW - (c.now - window[0])).Floor + 1);
      }
      hits := hits[c.key := window + [c.now]];
      return Admitted;
    }
  }

  // ---------------------------------------------------------------- the history

  /** An admission: which key, and when. */
  datatype Hit = Hit(key: string, at: real)

  /** The table, next to the plain list of admissions since it was last cleared. */
  datatype State = State(table: Table, log: seq<Hit>)

  function Next(s: State, c: Call): (State, Outcome) {
    var (table, outcome) := Serve(s.table, c);
    var log := if |s.table| > MAX_TRACKED then [] else s.log;
    (State(table, if outcome == Admitted then log + [Hit(c.key, c.now)] else log), outcome)
  }

  function Run(calls: seq<Call>): State {
    if calls == [] then State(map[], []) else Next(Run(calls[..|calls|-1]), calls[|calls|-1]).0
  }

  /** How many admissions of key are at most 60 seconds old. */
  function Recent(log: seq<Hit>, key: string, now: real): nat {
    if log == [] then 0 else
    Recent(log[..|log|-1], key, now)
    + if log[|log|-1].key == key && now - log[|log|-1].at <= WINDOW then 1 else 0
  }

  function TimesOf(log: seq<Hit>, key: string): seq<real> {
    if log == [] then [] else
    TimesOf(log[..|log|-1], key) + if log[|log|-1].key == key then [log[|log|-1].at] else []
  }

  /** The nondecreasing clock. */
  ghost predicate Clocked(calls: seq<Call>) {
    forall i, j :: 0 <= i < j < |calls| ==> calls[i].now <= calls[j].now
  }

  ghost predicate Sorted(w: seq<real>) {
    forall i, j :: 0 <= i < j < |w| ==> w[i] <= w[j]
  }

  /** The hits kept for a key are its admissions, less some that were already too old at `now`. */
  ghost predicate Keeps(log: seq<Hit>, key: string, w: seq<real>, now: real) {
    var times := TimesOf(log, key);
    && Sorted(times) && (times != [] ==> times[|times|-1] <= now)
    && |w| <= |times| && w == times[|times|-|w|..]
    && forall i :: 0 <= i < |times| - |w| ==> now - times[i] > WINDOW
  }

  ghost predicate Refines(s: State, now: real) {
    forall key :: Keeps(s.log, key, HitsOf(s.table, key), now)
  }

  lemma {:induction false} TrimDropsOld(w: seq<real>, now: real)
    requires Sorted(w)
    ensures var r := Trim(w, now);
      && |r| <= |w| && r == w[|w|-|r|..]
      && (forall i :: 0 <= i < |w| - |r| ==> now - w[i] > WINDOW)
      && (forall i :: |w| - |r| <= i < |w| ==> now - w[i] <= WINDOW)
  {
    if w != [] && now - w[0] > WINDOW {
      TrimDropsOld(w[1..], now);
    }
  }

  function Within(w: seq<real>, now: real): nat {
    if w == [] then 0 else Within(w[..|w|-1], now) + if now - w[|w|-1] <= WINDOW then 1 else 0
  }

  lemma {:induction false} RecentIsWithin(log: seq<Hit>, key: string, now: real)
    ensures Recent(log, key, now) == Within(TimesOf(log, key), now)
  {
    if log != [] {
      RecentIsWithin(log[..|log|-1], key, now);
      var init := TimesOf(log[..|log|-1], key);
      assert (init + [log[|log|-1].at])[..|init|] == init;
      assert init + [] == init;
    }
  }

  lemma {:induction false} WithinCountsSuffix(w: seq<real>, now: real, cut: nat)
    requires cut <= |w|
    requires forall i :: 0 <= i < cut ==> now - w[i] > WINDOW
    requires forall i :: cut <= i < |w| ==> now - w[i] <= WINDOW
    ensures Within(w, now) == |w| - cut
    decreases |w|
  {
    if w != [] {
      if cut == |w| {
        WithinCountsSuffix(w[..|w|-1], now, cut - 1);
      } else {
        WithinCountsSuffix(w[..|w|-1], now, cut);
      }
    }
  }

  /** The trimmed window is exactly the recent admissions. */
  lemma WindowIsRecent(log: seq<Hit>, key: string, w: seq<real>, before: real, now: real)
    requires Keeps(log, key, w, before) && before <= now
    ensures |Trim(w, now)| == Recent(log, key, now) && Keeps(log, key, Trim(w, now), now)
  {
    hide TimesOf, Trim, Within, Recent;
    var times, r := TimesOf(log, key), Trim(w, now);
    var gone, cut := |times| - |w|, |times| - |r|;
    TrimDropsOld(w, now);
    RecentIsWithin(log, key, now);
    forall i | 0 <= i < |times|
      ensures (i < cut ==> now - times[i] > WINDOW) && (i >= cut ==> now - times[i] <= WINDOW)
    {
      if i >= gone {
        assert times[i] == w[i-gone];
      }
    }
    WithinCountsSuffix(times, now, cut);
    assert r == times[cut..];
  }

  lemma KeepsHit(log: seq<Hit>, key: string, w: seq<real>, hit: Hit)
    requires Keeps(log, key, w, hit.at)
    ensures Keeps(log + [hit], key, if hit.key == key then w + [hit.at] else w, hit.at)
  {
    assert (log + [hit])[..|log|] == log;
    assert TimesOf(log, key) + [] == TimesOf(log, key);
  }

  lemma KeepsLater(log: seq<Hit>, key: string, w: seq<real>, before: real, now: real)
    ensures Keeps(log, key, w, before) && before <= now ==> Keeps(log, key, w, now)
  {
  }

  /** The admissions the next call is judged by: those since the last clear, the clear it may itself cause included. */
  function Judged(s: State): seq<Hit> {
    if |s.table| > MAX_TRACKED then [] else s.log
  }

  lemma ServeKeeps(log: seq<Hit>, t: Table, c: Call, key: string, before: real)
    requires Keeps(log, key, HitsOf(t, key), before) && |t| <= MAX_TRACKED && before <= c.now
    ensures var (t', outcome) := Serve(t, c);
      Keeps(if outcome == Admitted then log + [Hit(c.key, c.now)] else log, key, HitsOf(t', key), c.now)
  {
    hide Keeps, Trim;
    var w := HitsOf(t, key);
    KeepsLater(log, key, w, before, c.now);
    WindowIsRecent(log, key, w, before, c.now);
    KeepsHit(log, key, if key == c.key then Trim(w, c.now) else w, Hit(c.key, c.now));
  }

  lemma ClearedKeeps(s: State, key: string, now: real)
    requires Refines(s, now)
    ensures Keeps(Judged(s), key, HitsOf(Cleared(s.table), key), now)
    ensures |Cleared(s.table)| <= MAX_TRACKED
  {
    assert Keeps(s.log, key, HitsOf(s.table, key), now);
  }

  lemma NextRefines(s: State, c: Call, before: real)
    requires Refines(s, before) && before <= c.now
    ensures Refines(Next(s, c).0, c.now)
  {
    var s' := Next(s, c).0;
    forall key ensures Keeps(s'.log, key, HitsOf(s'.table, key), c.now) {
      hide Keeps, Decide;
      ClearedKeeps(s, key, before);
      assert Serve(s.table, c) == Serve(Cleared(s.table), c);
      ServeKeeps(Judged(s), Cleared(s.table), c, key, before);
    }
  }

  lemma {:induction false} EveryRunRefines(calls: seq<Call>)
    requires Clocked(calls) && calls != []
    ensures Refines(Run(calls), calls[|calls|-1].now)
  {
    if |calls| == 1 {
      assert calls[..0] == [];
      NextRefines(State(map[], []), calls[0], calls[0].now);
    } else {
      var before := calls[..|calls|-1];
      EveryRunRefines(before);
      NextRefines(Run(before), calls[|calls|-1], before[|before|-1].now);
    }
  }

  lemma NextWindow(calls: seq<Call>, c: Call)
    requires Clocked(calls + [c])
    ensures var s := Run(calls);
      |Trim(HitsOf(Cleared(s.table), c.key), c.now)| == Recent(Judged(s), c.key, c.now)
  {
    var s := Run(calls);
    var before := if calls == [] then c.now else calls[|calls|-1].now;
    assert (calls + [c])[|calls|] == c;
    assert forall i :: 0 <= i < |calls| ==> (calls + [c])[i] == calls[i];
    if calls != [] {
      EveryRunRefines(calls);
    }
    ClearedKeeps(s, c.key, before);
    WindowIsRecent(Judged(s), c.key, HitsOf(Cleared(s.table), c.key), before, c.now);
  }

  /** The limiter is its history: a call is admitted exactly when fewer than `limit` of its key are in that minute. */
  lemma AdmittedIffRoom(calls: seq<Call>, c: Call)
    requires Clocked(calls + [c])
    ensures var s := Run(calls);
      Next(s, c).1 == Admitted <==> Recent(Judged(s), c.key, c.now) < c.limit
  {
    NextWindow(calls, c);
  }

  /** The refusal breaks exactly when the limit is below one and the key has no recent admission to date it by. */
  lemma RefusalBreaksIff(calls: seq<Call>, c: Call)
    requires Clocked(calls + [c])
    ensures var s := Run(calls);
      Next(s, c).1 == Broken <==> c.limit < 1 && Recent(Judged(s), c.key, c.now) == 0
  {
    NextWindow(calls, c);
  }

  // ---------------------------------------------------------------- a fixed limit per key

  type Limits = string -> int

  ghost predicate Fixed(calls: seq<Call>, limits: Limits) {
    forall i :: 0 <= i < |calls| ==> calls[i].limit == limits(calls[i].key) && calls[i].limit >= 1
  }

  /** At each admission the key was within its limit, so no minute of the history holds more. */
  ghost predicate Bounded(log: seq<Hit>, limits: Limits) {
    forall n :: 0 < n <= |log| ==> Recent(log[..n], log[n-1].key, log[n-1].at) <= limits(log[n-1].key)
  }

  lemma BoundedGrows(log: seq<Hit>, limits: Limits, hit: Hit)
    requires Bounded(log, limits) && Recent(log, hit.key, hit.at) < limits(hit.key)
    ensures Bounded(log + [hit], limits)
  {
    forall n | 0 < n <= |log| + 1
      ensures var last := (log + [hit])[n-1];
        Recent((log + [hit])[..n], last.key, last.at) <= limits(last.key)
    {
      if n <= |log| {
        assert (log + [hit])[..n] == log[..n];
      } else {
        assert (log + [hit])[..n] == log + [hit];
        assert (log + [hit])[..|log|] == log;
      }
    }
  }

  lemma ClockedPrefix(calls: seq<Call>)
    ensures Clocked(calls) && calls != [] ==> Clocked(calls[..|calls|-1])
    ensures calls != [] ==> calls == calls[..|calls|-1] + [calls[|calls|-1]]
  {
  }

  lemma {:induction false} EveryRunBounded(calls: seq<Call>, limits: Limits)
    requires Clocked(calls) && Fixed(calls, limits)
    ensures Bounded(Run(calls).log, limits)
  {
    if calls != [] {
      var before, c := calls[..|calls|-1], calls[|calls|-1];
      ClockedPrefix(calls);
      EveryRunBounded(before, limits);
      AdmittedIffRoom(before, c);
      assert Bounded(Judged(Run(before)), limits);
      if Next(Run(before), c).1 == Admitted {
        BoundedGrows(Judged(Run(before)), limits, Hit(c.key, c.now));
      }
    }
  }

  /** Admissions of key in the closed interval from `from` to `to`. */
  function InInterval(log: seq<Hit>, key: string, from: real, to: real): nat {
    if log == [] then 0 else
    InInterval(log[..|log|-1], key, from, to)
    + if log[|log|-1].key == key && from <= log[|log|-1].at <= to then 1 else 0
  }

  lemma {:induction false} IntervalIsRecent(log: seq<Hit>, key: string, from: real, to: real, now: real)
    requires now - from <= WINDOW
    ensures InInterval(log, key, from, to) <= Recent(log, key, now)
  {
    if log != [] {
      IntervalIsRecent(log[..|log|-1], key, from, to, now);
    }
  }

  lemma {:induction false} IntervalIsBounded(log: seq<Hit>, limits: Limits, key: string, from: real, to: real)
    requires Bounded(log, limits) && to - from <= WINDOW && limits(key) >= 1
    ensures InInterval(log, key, from, to) <= limits(key)
  {
    if log != [] {
      var init, hit := log[..|log|-1], log[|log|-1];
      forall n | 0 < n <= |init| ensures Recent(init[..n], init[n-1].key, init[n-1].at) <= limits(init[n-1].key) {
        assert init[..n] == log[..n];
      }
      if hit.key == key && from <= hit.at <= to {
        IntervalIsRecent(log, key, from, to, hit.at);
        assert log[..|log|] == log;
      } else {
        IntervalIsBounded(init, limits, key, from, to);
      }
    }
  }

  lemma {:induction false} IntervalCounts(log: seq<Hit>, key: string, from: real, to: real)
    ensures |set n: nat | n < |log| && log[n].key == key && from <= log[n].at <= to| == InInterval(log, key, from, to)
  {
    var hits := set n: nat | n < |log| && log[n].key == key && from <= log[n].at <= to;
    if log == [] {
      assert hits == {};
    } else {
      var init, last := log[..|log|-1], log[|log|-1];
      IntervalCounts(init, key, from, to);
      assert hits == (set n: nat | n < |init| && init[n].key == key && from <= init[n].at <= to)
                     + if last.key == key && from <= last.at <= to then {|init|} else {};
    }
  }

  /** Between clears, no interval of 60 seconds holds more admissions of a key than its limit. */
  lemma AnyMinuteIsBounded(calls: seq<Call>, limits: Limits, key: string, from: real)
    requires Clocked(calls) && Fixed(calls, limits) && limits(key) >= 1
    ensures var log := Run(calls).log;
      |set n: nat | n < |log| && log[n].key == key && from <= log[n].at <= from + WINDOW| <= limits(key)
  {
    hide InInterval;
    IntervalCounts(Run(calls).log, key, from, from + WINDOW);
    EveryRunBounded(calls, limits);
    IntervalIsBounded(Run(calls).log, limits, key, from, from + WINDOW);
  }

  /** The table never holds more than one key over its bound. */
  lemma {:induction false} TableIsBounded(calls: seq<Call>)
    ensures |Run(calls).table| <= MAX_TRACKED + 1
  {
    if calls != [] {
      TableIsBounded(calls[..|calls|-1]);
      var t, c := Cleared(Run(calls[..|calls|-1]).table), calls[|calls|-1];
      var t' := Run(calls).table;
      assert t'.Keys == t.Keys + {c.key};
      assert |t.Keys + {c.key}| <= |t.Keys| + 1;
    }
  }

  // ---------------------------------------------------------------- Retry-After

  /** No call of key is admitted while these are served. */
  ghost predicate NoneAdmitted(s: State, calls: seq<Call>, key: string)
    decreases |calls|
  {
    calls != [] ==>
      && (calls[0].key == key ==> Next(s, calls[0]).1 != Admitted)
      && NoneAdmitted(Next(s, calls[0]).0, calls[1..], key)
  }

  function Serving(s: State, calls: seq<Call>): State
    decreases |calls|
  {
    if calls == [] then s else Serving(Next(s, calls[0]).0, calls[1..])
  }

  lemma {:induction false} ServingIsRun(calls: seq<Call>, more: seq<Call>)
    ensures Serving(Run(calls), more) == Run(calls + more)
    decreases |more|
  {
    hide Next;
    if more == [] {
      assert calls + more == calls;
    } else {
      assert (calls + [more[0]])[..|calls|] == calls;
      ServingIsRun(calls + [more[0]], more[1..]);
      assert calls + [more[0]] + more[1..] == calls + more;
    }
  }

  /** Without admissions of key its admissions stay the same, unless a clear forgets them all. */
  lemma {:induction false} TimesUnchanged(s: State, calls: seq<Call>, key: string)
    requires NoneAdmitted(s, calls, key)
    ensures TimesOf(Serving(s, calls).log, key) == TimesOf(s.log, key) || TimesOf(Serving(s, calls).log, key) == []
    decreases |calls|
  {
    hide Serve;
    if calls != [] {
      var c, t := calls[0], Next(s, calls[0]).0;
      TimesUnchanged(t, calls[1..], key);
      var log := Judged(s);
      if Next(s, c).1 == Admitted {
        assert (log + [Hit(c.key, c.now)])[..|log|] == log;
        assert TimesOf(log, key) + [] == TimesOf(log, key);
      }
    }
  }

  /** The oldest recent admission decides when the next call fits. */
  lemma FullWindow(log: seq<Hit>, key: string, w: seq<real>, now: real, later: real)
    requires Keeps(log, key, w, now) && w != [] && now - w[0] <= WINDOW && now <= later
    ensures Recent(log, key, now) == |w|
    ensures later - w[0] > WINDOW ==> Recent(log, key, later) < |w|
    ensures later - w[0] <= WINDOW ==> Recent(log, key, later) == |w|
  {
    hide TimesOf, Within, Recent;
    assert Trim(w, now) == w;
    WindowIsRecent(log, key, w, now, now);
    WindowIsRecent(log, key, w, now, later);
    if later - w[0] > WINDOW {
      assert Trim(w, later) == Trim(w[1..], later);
      assert Sorted(w);
      TrimDropsOld(w[1..], later);
    }
  }

  lemma SameTimesSameRecent(log: seq<Hit>, log': seq<Hit>, key: string, now: real)
    requires TimesOf(log, key) == TimesOf(log', key)
    ensures Recent(log, key, now) == Recent(log', key, now)
  {
    RecentIsWithin(log, key, now);
    RecentIsWithin(log', key, now);
  }

  lemma {:induction false} RecentShrinks(log: seq<Hit>, key: string, now: real, later: real)
    requires now <= later
    ensures Recent(log, key, later) <= Recent(log, key, now)
  {
    if log != [] {
      RecentShrinks(log[..|log|-1], key, now, later);
    }
  }

  lemma {:induction false} RecentAtMostLimit(log: seq<Hit>, limits: Limits, key: string, now: real)
    requires Bounded(log, limits) && limits(key) >= 1
    requires var times := TimesOf(log, key); times != [] ==> times[|times|-1] <= now
    ensures Recent(log, key, now) <= limits(key)
  {
    if log != [] {
      var init, hit := log[..|log|-1], log[|log|-1];
      if hit.key == key {
        RecentShrinks(log, key, hit.at, now);
        assert log[..|log|] == log;
      } else {
        assert TimesOf(init, key) + [] == TimesOf(init, key);
        assert forall n :: 0 < n <= |init| ==> init[..n] == log[..n];
        RecentAtMostLimit(init, limits, key, now);
      }
    }
  }

  /** What a refusal knew: the window it saw is full, and it is the key's last minute. */
  lemma RefusalSawFullWindow(calls: seq<Call>, c: Call, limits: Limits) returns (w: seq<real>)
    requires Clocked(calls + [c]) && Fixed(calls + [c], limits) && Next(Run(calls), c).1.Limited?
    ensures var s := Next(Run(calls), c);
      && w != [] && c.now - w[0] <= WINDOW && |w| == c.limit
      && Keeps(s.0.log, c.key, w, c.now)
      && s.1 == Limited((WINDOW - (c.now - w[0])).Floor + 1)
  {
    hide Keeps, Recent, Trim, Bounded;
    var s := Run(calls);
    var before := if calls == [] then c.now else calls[|calls|-1].now;
    assert (calls + [c])[|calls|] == c;
    assert forall i :: 0 <= i < |calls| ==> (calls + [c])[i] == calls[i];
    assert Refines(s, before) by {
      if calls == [] {
        StartRefines(c.now);
      } else {
        EveryRunRefines(calls);
      }
    }
    ClearedKeeps(s, c.key, before);
    var full := HitsOf(Cleared(s.table), c.key);
    w := Trim(full, c.now);
    WindowIsRecent(Judged(s), c.key, full, before, c.now);
    TrimmedIsYoung(full, c.now);
    EveryRunBounded(calls, limits);
    assert Bounded(Judged(s), limits) by { EmptyIsBounded(limits); }
    KeepsIsPast(Judged(s), c.key, w, c.now);
    RecentAtMostLimit(Judged(s), limits, c.key, c.now);
  }

  lemma StartRefines(now: real)
    ensures Refines(Run([]), now)
  {
  }

  lemma EmptyIsBounded(limits: Limits)
    ensures Bounded([], limits)
  {
  }

  lemma KeepsIsPast(log: seq<Hit>, key: string, w: seq<real>, now: real)
    ensures var times := TimesOf(log, key); Keeps(log, key, w, now) && times != [] ==> times[|times|-1] <= now
  {
  }

  lemma {:induction false} TrimmedIsYoung(w: seq<real>, now: real)
    ensures var r := Trim(w, now); r != [] ==> now - r[0] <= WINDOW
  {
    if w != [] && now - w[0] > WINDOW {
      TrimmedIsYoung(w[1..], now);
    }
  }

  /**
   * Waiting out Retry-After is enough, and a second less is not: after a refusal, while no call of the key is
   * admitted, a later call fits once the advertised wait has passed, and one that comes a second early does not
   * (unless the table was cleared meanwhile).
   */
  lemma RetryAfterIsExact(calls: seq<Call>, c: Call, more: seq<Call>, d: Call, limits: Limits)
    requires Clocked(calls + [c] + more + [d]) && Fixed(calls + [c] + more + [d], limits)
    requires Next(Run(calls), c).1.Limited? && d.key == c.key
    requires NoneAdmitted(Run(calls + [c]), more, c.key)
    ensures var wait := Next(Run(calls), c).1.retryIn as real;
      var s := Run(calls + [c] + more);
      && (d.now >= c.now + wait ==> Next(s, d).1 == Admitted)
      && (d.now <= c.now + wait - 1.0 ==> Next(s, d).1 != Admitted || TimesOf(Judged(s), c.key) == [])
  {
    hide Recent, Keeps, TimesOf, Serve, NoneAdmitted;
    var all := calls + [c] + more + [d];
    assert forall i :: 0 <= i <= |calls| ==> (calls + [c])[i] == all[i];
    assert all[|calls|] == c && all[|all|-1] == d;
    var w := RefusalSawFullWindow(calls, c, limits);
    var r := Run(calls + [c]);
    assert (calls + [c])[..|calls|] == calls;
    var s := Run(calls + [c] + more);
    ServingIsRun(calls + [c], more);
    TimesUnchanged(r, more, c.key);
    AdmittedIffRoom(calls + [c] + more, d);
    FullWindow(r.log, c.key, w, c.now, d.now);
    assert d.limit == c.limit;
    NoTimesNoRecent(Judged(s), c.key, d.now);
    if TimesOf(Judged(s), c.key) != [] {
      assert Judged(s) == s.log by { assert TimesOf([], c.key) == [] by { NoTimesNoRecent([], c.key, d.now); } }
      SameTimesSameRecent(r.log, s.log, c.key, d.now);
    }
  }

  lemma NoTimesNoRecent(log: seq<Hit>, key: string, now: real)
    ensures TimesOf(log, key) == [] ==> Recent(log, key, now) == 0
    ensures TimesOf([], key) == []
  {
    RecentIsWithin(log, key, now);
  }
}
