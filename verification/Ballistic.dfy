/** The terminal-phase Euler integrator: when it is stable, and why it then reaches the ground. */
module Ballistic {
  import opened Numbers

  const G := 9.81
  const DT := 0.01
  const MAX_RANGE := 500000.0

  datatype State = State(x: real, y: real, vx: real, vy: real)

  /** k is half the drag coefficient times density times area over mass, wx the wind along the track. */
  datatype Air = Air(k: real, wx: real, root: real -> real)

  ghost predicate IsRoot(root: real -> real) {
    forall r :: r >= 0.0 ==> root(r) >= 0.0 && root(r) * root(r) == r
  }

  ghost predicate Physical(a: Air) {
    a.k >= 0.0 && IsRoot(a.root)
  }

  function Square(r: real): (s: real)
    ensures s >= 0.0
  {
    r * r
  }

  /** Speed relative to the air. */
  function Speed(a: Air, s: State): real {
    a.root(Square(s.vx - a.wx) + Square(s.vy))
  }

  function Step(a: Air, s: State): State {
    var v := Speed(a, s);
    var vx := s.vx + (-a.k * v * (s.vx - a.wx)) * DT;
    var vy := s.vy + (-G - a.k * v * s.vy) * DT;
    State(s.x + vx * DT, s.y + vy * DT, vx, vy)
  }

  /** The fraction of the relative speed that one step of drag removes. */
  function Drag(a: Air, s: State): real {
    a.k * Speed(a, s) * DT
  }

  predicate Stable(a: Air, s: State) {
    Drag(a, s) <= 1.0
  }

  /** Light enough air for the step size: k * g * dt^2 <= 3/4. */
  predicate SmallSteps(a: Air) {
    4.0 * a.k * G * DT * DT <= 3.0
  }

  /** What gravity alone adds to the drag of the next step. */
  function Pull(a: Air): real {
    a.k * (G * DT) * DT
  }

  /** A bound on drag that steps respect, between 1 and 2. In air as light as it usually is, almost 2 will do. */
  predicate Keeps(a: Air, limit: real) {
    1.0 <= limit <= 2.0 && 0.25 + Pull(a) <= limit && (limit - 1.0) * limit + Pull(a) <= limit
  }

  /** Drag scales the relative velocity, gravity then adds to its fall. */
  lemma StepShrinks(a: Air, s: State)
    ensures var c := Drag(a, s);
      Step(a, s).vx - a.wx == (1.0 - c) * (s.vx - a.wx) && Step(a, s).vy == (1.0 - c) * s.vy - G * DT
    ensures Step(a, s).y == s.y + Step(a, s).vy * DT
  {
  }

  lemma SquareOrder(p: real, q: real)
    requires q >= 0.0 && p * p <= q * q
    ensures -q <= p <= q
  {
    assert (p - q) * (p + q) == p * p - q * q;
    if p > q {
      Positive(p - q, p + q);
    } else if -p > q {
      Positive(-p - q, -p + q);
    }
  }

  lemma SpeedFacts(a: Air, s: State)
    requires Physical(a)
    ensures Speed(a, s) >= 0.0 && Speed(a, s) * Speed(a, s) == Square(s.vx - a.wx) + Square(s.vy)
    ensures -Speed(a, s) <= s.vy <= Speed(a, s)
    ensures Drag(a, s) >= 0.0
  {
    var v := Speed(a, s);
    assert v >= 0.0 && v * v == Square(s.vx - a.wx) + Square(s.vy);
    SquareOrder(s.vy, v);
    Scale(a.k, 0.0, v);
  }

  lemma Mirrored(d: real, v: real, w: real)
    requires v >= 0.0 && -v <= w <= v
    ensures -(Abs(d) * v) <= d * w && 0.0 <= Abs(d) * v
  {
    NonNegative(Abs(d), v);
    if d >= 0.0 {
      NonNegative(d, w + v);
    } else {
      NonNegative(-d, v - w);
    }
  }

  lemma Triangle(d: real, v: real, u: real, w: real)
    requires v >= 0.0 && v * v == Square(u) + Square(w) && -v <= w <= v
    ensures var p := Abs(d) * v + G * DT;
      p >= 0.0 && Square(d * u) + Square(d * w - G * DT) <= p * p
  {
    var m := Abs(d);
    var dv, du, dw := m * v, d * u, d * w;
    Mirrored(d, v, w);
    assert du * du == (d * d) * Square(u) && dw * dw == (d * d) * Square(w) && dv * dv == (m * m) * (v * v);
    assert m * m == d * d;
    Expand(dw, dv, du * du, G * DT);
  }

  lemma Expand(dw: real, dv: real, rest: real, e: real)
    requires e >= 0.0 && -dv <= dw && rest + dw * dw == dv * dv
    ensures rest + Square(dw - e) <= (dv + e) * (dv + e)
  {
    Scale(e, -dv, dw);
    assert Square(dw - e) == dw * dw - 2.0 * (e * dw) + e * e;
    assert (dv + e) * (dv + e) == dv * dv + 2.0 * (e * dv) + e * e;
    assert e * (-dv) == -(e * dv);
  }

  lemma Slowed(d: real, v: real, u: real, w: real, v': real, u': real, w': real)
    requires v >= 0.0 && v * v == Square(u) + Square(w) && -v <= w <= v
    requires u' == d * u && w' == d * w - G * DT && v' * v' == Square(u') + Square(w')
    ensures v' <= Abs(d) * v + G * DT
  {
    hide Square, Abs;
    Triangle(d, v, u, w);
    SquareOrder(v', Abs(d) * v + G * DT);
  }

  lemma SpeedGrowth(a: Air, s: State)
    requires Physical(a)
    ensures Speed(a, Step(a, s)) <= Abs(1.0 - Drag(a, s)) * Speed(a, s) + G * DT
  {
    hide Step, Drag, Speed, Square, Physical, Abs;
    var d, v, t := 1.0 - Drag(a, s), Speed(a, s), Step(a, s);
    SpeedFacts(a, s);
    SpeedFacts(a, t);
    StepShrinks(a, s);
    Slowed(d, v, s.vx - a.wx, s.vy, Speed(a, t), t.vx - a.wx, t.vy);
  }

  lemma Weighted(k: real, v': real, f: real, v: real, e: real, c: real, c': real, q: real)
    requires k >= 0.0 && v' <= f * v + e
    requires c == k * v * DT && c' == k * v' * DT && q == k * e * DT
    ensures c' <= f * c + q
  {
    var fv := f * v;
    Scale(k, v', fv + e);
    assert k * fv == f * (k * v);
    assert k * (fv + e) == k * fv + k * e;
  }

  lemma GrowthOfDrag(a: Air, s: State)
    requires Physical(a)
    ensures Drag(a, Step(a, s)) <= Abs(1.0 - Drag(a, s)) * Drag(a, s) + Pull(a)
  {
    hide Step, Speed, Abs, Square, IsRoot;
    var f, t := Abs(1.0 - Drag(a, s)), Step(a, s);
    SpeedGrowth(a, s);
    Weighted(a.k, Speed(a, t), f, Speed(a, s), G * DT, Drag(a, s), Drag(a, t), Pull(a));
  }

  lemma StaysBelow(c: real, c': real, limit: real, q: real)
    requires 0.0 <= c <= limit && 1.0 <= limit && c' <= Abs(1.0 - c) * c + q
    requires 0.25 + q <= limit && (limit - 1.0) * limit + q <= limit
    ensures c' <= limit
  {
    if c <= 1.0 {
      assert Square(c - 0.5) == c * c - c + 0.25;
    } else {
      Scale(c, c - 1.0, limit - 1.0);
      Scale(limit - 1.0, c, limit);
    }
  }

  lemma BoundIsKept(a: Air, s: State, limit: real)
    requires Physical(a) && Keeps(a, limit) && Drag(a, s) <= limit
    ensures Drag(a, Step(a, s)) <= limit
  {
    GrowthOfDrag(a, s);
    SpeedFacts(a, s);
    hide Step, Drag, Pull, Physical;
    StaysBelow(Drag(a, s), Drag(a, Step(a, s)), limit, Pull(a));
  }

  // ---------------------------------------------------------------- when the scheme is stable

  /** A falling body keeps falling, by a gravity increment at least, exactly when drag takes at most all its speed. */
  lemma FallsOnIffStable(a: Air, s: State)
    requires s.vy < 0.0
    ensures Step(a, s).vy <= -G * DT <==> Stable(a, s)
  {
    StepShrinks(a, s);
    var c := Drag(a, s);
    hide Step, Drag;
    if c > 1.0 {
      Positive(c - 1.0, -s.vy);
      assert (1.0 - c) * s.vy == (c - 1.0) * (-s.vy);
    } else {
      Scale(1.0 - c, s.vy, 0.0);
    }
  }

  /** A 100-gram fragment of 0.05 m^2 coming straight down at 800 m/s through still air is thrown back up. */
  lemma FragmentIsThrownUp(root: real -> real)
    requires IsRoot(root)
    ensures var a, s := Air(0.5 * 0.47 * 1.225 * 0.05 / 0.1, 0.0, root), State(0.0, 10000.0, 0.0, -800.0);
      Physical(a) && Drag(a, s) > 1.0 && Step(a, s).vy > 100.0 && Step(a, s).y > s.y
  {
    var a, s := Air(0.5 * 0.47 * 1.225 * 0.05 / 0.1, 0.0, root), State(0.0, 10000.0, 0.0, -800.0);
    assert a.k == 0.1439375;
    VerticalSpeed(a, 0.0, 10000.0, -800.0);
    StepShrinks(a, s);
    hide Step, Speed;
    assert Drag(a, s) == 1.1515;
  }

  lemma RootIsUnique(root: real -> real, m: real)
    requires IsRoot(root) && m >= 0.0
    ensures root(m * m) == m
  {
    var r := root(m * m);
    assert r * r == m * m by { assert m * m >= 0.0; }
    SquareOrder(r, m);
    SquareOrder(m, r);
  }

  /** Every state whose drag is within the bound steps to another exactly when the bound is one that steps respect. */
  lemma BoundIsKeptIff(a: Air, limit: real)
    requires Physical(a) && 1.0 <= limit <= 2.0
    ensures (forall s :: Drag(a, s) <= limit ==> Drag(a, Step(a, s)) <= limit) <==> Keeps(a, limit)
  {
    hide Step, Drag, Physical, Pull;
    if Keeps(a, limit) {
      forall s | Drag(a, s) <= limit ensures Drag(a, Step(a, s)) <= limit {
        BoundIsKept(a, s, limit);
      }
    } else {
      VacuumKeeps(a, limit);
      if 0.25 + Pull(a) > limit {
        var s := WorstStep(a, 0.5, -1.0);
      } else {
        var s := WorstStep(a, limit, 1.0);
      }
    }
  }

  lemma VacuumKeeps(a: Air, limit: real)
    requires Physical(a) && 1.0 <= limit <= 2.0
    ensures a.k == 0.0 ==> Keeps(a, limit)
    ensures a.k >= 0.0
  {
    if a.k == 0.0 {
      assert Pull(a) == 0.0;
      NonNegative(2.0 - limit, limit);
      assert (limit - 1.0) * limit == limit - (2.0 - limit) * limit;
    }
  }

  /** Vertical motion is the worst case: falling at drag c <= 1, or rising at drag c >= 1. */
  lemma WorstStep(a: Air, c: real, up: real) returns (s: State)
    requires Physical(a) && a.k > 0.0
    requires (up == -1.0 && 0.0 < c <= 1.0) || (up == 1.0 && c >= 1.0)
    ensures Drag(a, s) == c && Drag(a, Step(a, s)) == Abs(1.0 - c) * c + Pull(a)
  {
    hide Step, Speed;
    var f := SpeedFor(a.k, c);
    s := State(0.0, 0.0, a.wx, up * f);
    VerticalSpeed(a, 0.0, 0.0, up * f);
    assert Drag(a, s) == c;
    StepShrinks(a, s);
    var t, w := Step(a, s), Abs(1.0 - c) * f + G * DT;
    Scale(Abs(1.0 - c), 0.0, f);
    assert (1.0 - c) * (up * f) == -(Abs(1.0 - c) * f);
    assert t == State(t.x, t.y, a.wx, -w);
    VerticalSpeed(a, t.x, t.y, -w);
    assert a.k * w == Abs(1.0 - c) * (a.k * f) + a.k * (G * DT);
    assert Abs(1.0 - c) * (a.k * f) * DT == Abs(1.0 - c) * (a.k * f * DT);
  }

  /** The speed v with k * v * dt == c. */
  function SpeedFor(k: real, c: real): (v: real)
    requires k > 0.0 && c > 0.0
    ensures v > 0.0 && k * v * DT == c
  {
    assert c * 100.0 / k > 0.0;
    c * 100.0 / k
  }

  /** For the bound 1, that is when the steps are small for the air. */
  lemma StabilityIsKeptIff(a: Air)
    requires Physical(a)
    ensures (forall s :: Stable(a, s) ==> Stable(a, Step(a, s))) <==> SmallSteps(a)
  {
    hide Step, Drag, Physical;
    BoundIsKeptIff(a, 1.0);
  }

  lemma VerticalSpeed(a: Air, x: real, y: real, vy: real)
    requires Physical(a)
    ensures Speed(a, State(x, y, a.wx, vy)) == if vy < 0.0 then -vy else vy
  {
    var m := if vy < 0.0 then -vy else vy;
    RootIsUnique(a.root, m);
    assert Square(a.wx - a.wx) == 0.0;
    assert m * m == Square(vy);
  }

  // ---------------------------------------------------------------- descent

  /** Half the square of gravity's increment. */
  const SHED := 0.5 * (G * DT) * (G * DT)

  /** Height in units of speed squared, plus vertical kinetic energy per unit mass. */
  function Energy(s: State): real {
    G * s.y + 0.5 * Square(s.vy)
  }

  /** What one step costs, exactly: a fixed amount, and what drag takes of the vertical motion. */
  lemma EnergyIsShed(a: Air, s: State)
    ensures var d := 1.0 - Drag(a, s);
      Energy(Step(a, s)) == Energy(s) - SHED - 0.5 * ((1.0 - d * d) * Square(s.vy))
  {
    StepShrinks(a, s);
    hide Step, Drag;
    var d, w, e, t := 1.0 - Drag(a, s), s.vy, G * DT, Step(a, s);
    assert G * t.y == G * s.y + e * t.vy;
    assert Square(t.vy) == (d * w) * (d * w) - 2.0 * (e * (d * w)) + e * e;
    assert e * t.vy == e * (d * w) - e * e;
    assert (d * w) * (d * w) == (d * d) * Square(w);
  }

  lemma DampedIff(c: real, w2: real)
    requires c >= 0.0 && w2 > 0.0
    ensures (1.0 - (1.0 - c) * (1.0 - c)) * w2 >= 0.0 <==> c <= 2.0
  {
    assert 1.0 - (1.0 - c) * (1.0 - c) == c * (2.0 - c);
    if c <= 2.0 {
      NonNegative(c, 2.0 - c);
      NonNegative(c * (2.0 - c), w2);
    } else {
      Positive(c, c - 2.0);
      Positive(c * (c - 2.0), w2);
      assert c * (2.0 - c) == -(c * (c - 2.0));
      assert (c * (2.0 - c)) * w2 == -((c * (c - 2.0)) * w2);
    }
  }

  /** A step of a vertically moving body sheds energy at gravity's rate exactly when drag does not exceed 2. */
  lemma ShedsIffDamped(a: Air, s: State)
    requires Physical(a) && Square(s.vy) > 0.0
    ensures Energy(Step(a, s)) <= Energy(s) - SHED <==> Drag(a, s) <= 2.0
  {
    EnergyIsShed(a, s);
    SpeedFacts(a, s);
    hide Step, Drag, Energy, Physical, Square, Speed;
    DampedIff(Drag(a, s), Square(s.vy));
  }

  lemma Shrunk(c: real, u: real)
    requires 0.0 <= c <= 2.0
    ensures Abs((1.0 - c) * u) <= Abs(u)
  {
    if u >= 0.0 {
      Scale(u, 0.0, c);
      Scale(u, c, 2.0);
    } else {
      Scale(-u, 0.0, c);
      Scale(-u, c, 2.0);
    }
  }

  lemma DraggedAlong(a: Air, s: State)
    requires Physical(a) && Drag(a, s) <= 2.0
    ensures Abs(Step(a, s).vx - a.wx) <= Abs(s.vx - a.wx)
  {
    hide Step, Drag, Speed, Physical, Abs;
    StepShrinks(a, s);
    SpeedFacts(a, s);
    Shrunk(Drag(a, s), s.vx - a.wx);
  }

  /** What one damped step does: the wind drags it along, and its energy drops by a fixed amount. */
  lemma StepDescends(a: Air, s: State)
    requires Physical(a) && Drag(a, s) <= 2.0
    ensures Abs(Step(a, s).vx - a.wx) <= Abs(s.vx - a.wx)
    ensures Energy(Step(a, s)) <= Energy(s) - SHED
  {
    hide Step, Drag, Speed, Energy, Physical, Square, Abs;
    DraggedAlong(a, s);
    if Square(s.vy) == 0.0 {
      EnergyIsShed(a, s);
    } else {
      ShedsIffDamped(a, s);
    }
  }

  function After(a: Air, s: State, n: nat): State {
    if n == 0 then s else Step(a, After(a, s, n - 1))
  }

  predicate Flying(s: State) {
    s.y > 0.0 && s.x < MAX_RANGE
  }

  lemma LimitIsDamped(a: Air, s: State, limit: real)
    ensures Keeps(a, limit) && Drag(a, s) <= limit ==> Drag(a, s) <= 2.0
  {
  }

  /** What holds at every step of a flight that starts within the bound. */
  lemma {:induction false} FlightFacts(a: Air, s: State, limit: real, n: nat)
    requires Physical(a) && Keeps(a, limit) && Drag(a, s) <= limit
    ensures var t := After(a, s, n);
      && Drag(a, t) <= limit && Abs(t.vx - a.wx) <= Abs(s.vx - a.wx)
      && Energy(t) <= Energy(s) - n as real * SHED
  {
    hide Step, Drag, Energy, Square, Physical, Keeps, Abs;
    if n == 0 {
      NoneYet(SHED);
    } else {
      FlightFacts(a, s, limit, n - 1);
      LimitIsDamped(a, After(a, s, n - 1), limit);
      StepDescends(a, After(a, s, n - 1));
      BoundIsKept(a, After(a, s, n - 1), limit);
      OneMore(n, SHED);
    }
  }

  lemma NoneYet(r: real)
    ensures 0 as real * r == 0.0
  {
  }

  lemma OneMore(n: nat, r: real)
    ensures n > 0 ==> n as real * r == (n - 1) as real * r + r
  {
  }

  /** A stable body that does not rise at entry falls faster than one gravity increment from then on. */
  lemma {:induction false} FallFacts(a: Air, s: State, n: nat)
    requires Physical(a) && SmallSteps(a) && Stable(a, s) && s.vy <= 0.0
    ensures n > 0 ==> After(a, s, n).vy <= -G * DT
    ensures Stable(a, After(a, s, n)) && After(a, s, n).vy <= 0.0
    ensures After(a, s, n).y <= s.y - n as real * (G * DT * DT)
  {
    if n > 0 {
      FallFacts(a, s, n - 1);
      var before := After(a, s, n - 1);
      StillFalls(a, before);
      StepShrinks(a, before);
      BoundIsKept(a, before, 1.0);
      hide Step, Drag;
      OneMore(n, G * DT * DT);
    }
  }

  lemma StillFalls(a: Air, s: State)
    requires Physical(a) && Stable(a, s) && s.vy <= 0.0
    ensures Step(a, s).vy <= -G * DT
  {
    if s.vy < 0.0 {
      FallsOnIffStable(a, s);
    } else {
      StepShrinks(a, s);
    }
  }

  lemma AloftHasEnergy(s: State)
    requires s.y > 0.0
    ensures Energy(s) > 0.0
  {
    Positive(G, s.y);
  }
}
