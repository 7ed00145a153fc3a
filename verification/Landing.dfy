/** Why the integration loop ends from every entry, even where drag makes the scheme unstable. */
module Landing {
  import opened Ballistic
  import opened Numbers

  /** Air that light covers, with the default drag, everything up to 170 square metres per kilogram. */
  predicate LightAir(a: Air) {
    Pull(a) <= 0.05
  }

  ghost predicate Ends(a: Air, s: State) {
    exists n: nat :: !Flying(After(a, s, n))
  }

  lemma {:induction false} AfterAfter(a: Air, s: State, m: nat, n: nat)
    ensures After(a, After(a, s, m), n) == After(a, s, m + n)
  {
    hide Step;
    if n > 0 {
      AfterAfter(a, s, m, n - 1);
    }
  }

  lemma EndsLater(a: Air, s: State, m: nat)
    requires Ends(a, After(a, s, m))
    ensures Ends(a, s)
  {
    hide After, Flying;
    var n: nat :| !Flying(After(a, After(a, s, m), n));
    AfterAfter(a, s, m, n);
  }

  // ---------------------------------------------------------------- sequences that sink

  lemma {:induction false} SinksBy(f: nat -> real, eps: real, n: nat)
    requires forall m: nat :: f(m + 1) <= f(m) - eps
    ensures f(n) <= f(0) - n as real * eps
  {
    if n == 0 {
      NoneYet(eps);
    } else {
      SinksBy(f, eps, n - 1);
      OneMore(n, eps);
      assert f((n - 1) + 1) <= f(n - 1) - eps;
    }
  }

  lemma Sinks(f: nat -> real, eps: real) returns (n: nat)
    requires eps > 0.0 && forall m: nat :: f(m + 1) <= f(m) - eps
    ensures f(n) <= 0.0
  {
    if f(0) <= 0.0 {
      n := 0;
    } else {
      n := Enough(f(0), eps);
      SinksBy(f, eps, n);
    }
  }

  lemma Enough(total: real, eps: real) returns (n: nat)
    requires total > 0.0 && eps > 0.0
    ensures n as real * eps >= total
  {
    var q := total / eps;
    assert q * eps == total;
    Quotient(total, eps);
    n := q.Floor + 1;
    var excess := n as real - q;
    NonNegative(excess, eps);
    assert excess * eps == n as real * eps - q * eps;
  }

  // ---------------------------------------------------------------- coordinates in units of drag

  function Unit(a: Air): real {
    a.k * DT
  }

  function Rise(a: Air, s: State): real {
    Unit(a) * s.vy
  }

  function Slide(a: Air, s: State): real {
    Unit(a) * (s.vx - a.wx)
  }

  function Height(a: Air, s: State): real {
    Unit(a) * s.y
  }

  function Wind(a: Air): real {
    Unit(a) * a.wx
  }

  function Reach(a: Air, s: State): real {
    Unit(a) * (MAX_RANGE - s.x)
  }

  /** c is the length of (z, p). */
  predicate IsNorm(c: real, z: real, p: real) {
    c >= 0.0 && c * c == z * z + p * p
  }

  /** One step at drag c, under gravity q, takes the relative speed (z, p) to (z', p'). */
  predicate Moves(c: real, z: real, p: real, q: real, z': real, p': real) {
    z' == (1.0 - c) * z - q && p' == (1.0 - c) * p
  }

  lemma InUnits(a: Air, s: State)
    requires Physical(a)
    ensures IsNorm(Drag(a, s), Rise(a, s), Slide(a, s))
  {
    SpeedFacts(a, s);
    hide Speed, Physical;
    var h, v, w, u := Unit(a), Speed(a, s), s.vy, s.vx - a.wx;
    assert Drag(a, s) == h * v;
    assert (h * v) * (h * v) == (h * h) * (v * v);
    assert (h * w) * (h * w) == (h * h) * (w * w) && (h * u) * (h * u) == (h * h) * (u * u);
  }

  lemma MotionInUnits(a: Air, s: State)
    ensures Moves(Drag(a, s), Rise(a, s), Slide(a, s), Pull(a), Rise(a, Step(a, s)), Slide(a, Step(a, s)))
  {
    StepShrinks(a, s);
    hide Speed, Drag, Step;
    var c, h := Drag(a, s), Unit(a);
    assert h * ((1.0 - c) * s.vy) == (1.0 - c) * (h * s.vy);
    assert h * ((1.0 - c) * (s.vx - a.wx)) == (1.0 - c) * (h * (s.vx - a.wx));
  }

  lemma PlaceInUnits(a: Air, s: State)
    ensures Height(a, Step(a, s)) == Height(a, s) + DT * Rise(a, Step(a, s))
    ensures Reach(a, Step(a, s)) == Reach(a, s) - DT * (Slide(a, Step(a, s)) + Wind(a))
  {
    var t := Step(a, s);
    assert t.x == s.x + t.vx * DT && t.y == s.y + t.vy * DT;
    hide Step;
    Moved(Unit(a), s.y, t.vy);
    Moved(Unit(a), s.x, t.vx);
    var h := Unit(a);
    assert h * (MAX_RANGE - t.x) == h * MAX_RANGE - h * t.x && h * (MAX_RANGE - s.x) == h * MAX_RANGE - h * s.x;
    assert h * (t.vx - a.wx) == h * t.vx - h * a.wx;
  }

  lemma Moved(h: real, x: real, v: real)
    ensures h * (x + v * DT) == h * x + DT * (h * v)
  {
  }

  /** The square of the next drag, with b = (c - 1) c and t = q f. */
  ghost predicate NextSquared(c': real, b: real, t: real, q: real) {
    c' * c' == b * b + 2.0 * (b * t) + q * q
  }

  lemma NextSquare(c: real, z: real, p: real, q: real, c': real, z': real, p': real, f: real)
    requires IsNorm(c, z, p) && Moves(c, z, p, q, z', p') && IsNorm(c', z', p') && Times(f, c) == z
    ensures NextSquared(c', Times(c - 1.0, c), Times(q, f), q)
  {
    var d := 1.0 - c;
    var dz, dp, b := d * z, d * p, Times(c - 1.0, c);
    assert z' * z' == dz * dz - 2.0 * (dz * q) + q * q;
    assert dz * dz == (d * d) * (z * z) && dp * dp == (d * d) * (p * p);
    assert b * b == (d * d) * (c * c);
    assert (d * d) * (z * z) + (d * d) * (p * p) == (d * d) * (c * c);
    CrossTerm(c, z, q, f);
  }

  lemma CrossTerm(c: real, z: real, q: real, f: real)
    requires Times(f, c) == z
    ensures ((1.0 - c) * z) * q == -(Times(c - 1.0, c) * Times(q, f))
  {
    var b, t := (c - 1.0) * c, q * f;
    assert ((1.0 - c) * (f * c)) * q == -(b * t);
  }

  lemma ShareBound(c: real, z: real, p: real, f: real)
    requires c >= 1.0 && IsNorm(c, z, p) && Times(f, c) == z
    ensures -1.0 <= f <= 1.0
  {
    assert z * z <= c * c by { assert p * p >= 0.0; }
    SquareOrder(z, c);
    if f > 1.0 {
      Positive(f - 1.0, c);
    } else if f < -1.0 {
      Positive(-1.0 - f, c);
    }
  }

  lemma LowerRoot(b: real, t: real, q: real, c': real, f: real)
    requires t == Times(q, f) && -1.0 <= f <= 1.0 && c' >= 0.0 && q >= 0.0 && NextSquared(c', b, t, q)
    ensures c' >= b + t
  {
    NonNegative(1.0 - f, 1.0 + f);
    NonNegative(q * q, (1.0 - f) * (1.0 + f));
    assert t * t == (q * q) * (f * f);
    assert (1.0 - f) * (1.0 + f) == 1.0 - f * f;
    assert (q * q) * (1.0 - f * f) == q * q - (q * q) * (f * f);
    assert (b + t) * (b + t) == b * b + 2.0 * (b * t) + t * t;
    SquareOrder(b + t, c');
  }

  lemma UpperRoot(b: real, t: real, q: real, c': real, f: real)
    requires t == Times(q, f) && -1.0 <= f <= 1.0 && c' >= 0.0 && 0.0 <= q <= 0.05 && b >= 1.0
    requires NextSquared(c', b, t, q)
    ensures c' <= b + t + 0.5 * Times(q, q)
  {
    var s := Square(q);
    var r := t + 0.5 * s;
    NonNegative(q, 1.0 + f);
    NonNegative(b - 1.0, s);
    UpperSquare(b, t, s, r);
    SquareOrder(c', b + r);
  }

  lemma UpperSquare(b: real, t: real, s: real, r: real)
    requires r == t + 0.5 * s && (b - 1.0) * s >= 0.0
    ensures (b + r) * (b + r) >= b * b + 2.0 * (b * t) + s
  {
    assert (b + r) * (b + r) == b * b + 2.0 * (b * t) + b * s + Square(r);
    assert (b - 1.0) * s == b * s - s;
  }

  /** f is the share of the vertical in c: the next drag is between (c - 1) c + q f and that plus q q / 2. */
  predicate Follows(c: real, z: real, q: real, c': real, f: real) {
    && Times(f, c) == z && -1.0 <= f <= 1.0 && c' >= Times(c - 1.0, c) + Times(q, f)
    && (Times(c - 1.0, c) >= 1.0 ==> c' <= Times(c - 1.0, c) + Times(q, f) + 0.5 * Times(q, q))
  }

  lemma StepBounds(c: real, z: real, p: real, q: real, c': real, z': real, p': real, f: real)
    requires c >= 1.0 && IsNorm(c, z, p) && Moves(c, z, p, q, z', p') && IsNorm(c', z', p')
    requires 0.0 <= q <= 0.05 && Times(f, c) == z
    ensures Follows(c, z, q, c', f)
  {
    NextSquare(c, z, p, q, c', z', p', f);
    ShareBound(c, z, p, f);
    assert c' >= 0.0;
    hide Times, IsNorm, Moves, NextSquared;
    var b, t := Times(c - 1.0, c), Times(q, f);
    LowerRoot(b, t, q, c', f);
    if b >= 1.0 {
      UpperRoot(b, t, q, c', f);
    }
  }

  lemma Share(z: real, c: real) returns (f: real)
    requires c >= 1.0
    ensures Times(f, c) == z
  {
    f := z / c;
  }

  lemma NextDrag(a: Air, s: State) returns (f: real)
    requires Physical(a) && LightAir(a) && Drag(a, s) >= 1.0
    ensures Follows(Drag(a, s), Rise(a, s), Pull(a), Drag(a, Step(a, s)), f)
  {
    PullIsPositive(a);
    hide Step, Rise, Slide, Drag, Height, Reach, Unit, Physical, Pull, IsNorm, Moves, Follows, Times;
    var c, t := Drag(a, s), Step(a, s);
    f := Share(Rise(a, s), c);
    InUnits(a, s);
    InUnits(a, t);
    MotionInUnits(a, s);
    StepBounds(c, Rise(a, s), Slide(a, s), Pull(a), Drag(a, t), Rise(a, t), Slide(a, t), f);
  }

  lemma PullIsPositive(a: Air)
    ensures (Physical(a) ==> Pull(a) >= 0.0) && (a.k > 0.0 ==> Pull(a) > 0.0 && Unit(a) > 0.0)
    ensures Pull(a) == Unit(a) * (G * DT)
  {
  }

  // ---------------------------------------------------------------- low drag: energy runs out

  lemma LowEnds(a: Air, s: State, limit: real)
    requires Physical(a) && Keeps(a, limit) && Drag(a, s) <= limit
    ensures Ends(a, s)
  {
    hide Step, Drag, Energy, Physical, Keeps;
    if !Ends(a, s) {
      var f: nat -> real := (n: nat) => Energy(After(a, s, n));
      forall m: nat ensures f(m + 1) <= f(m) - SHED {
        FlightFacts(a, s, limit, m);
        LimitIsDamped(a, After(a, s, m), limit);
        StepDescends(a, After(a, s, m));
      }
      var n := Sinks(f, SHED);
      assert Flying(After(a, s, n));
      AloftHasEnergy(After(a, s, n));
      assert false;
    }
  }

  lemma LowDragEnds(a: Air, s: State)
    requires Physical(a) && LightAir(a) && Drag(a, s) <= 2.0 - Pull(a)
    ensures Ends(a, s)
  {
    PullIsPositive(a);
    var q := Pull(a);
    NonNegative(q, 1.0 - q);
    assert (1.0 - q) * (2.0 - q) == 2.0 - 3.0 * q + q * q;
    assert q * (1.0 - q) == q - q * q;
    LowEnds(a, s, 2.0 - q);
  }

  // ---------------------------------------------------------------- high drag: the scheme explodes

  lemma AtLeastLinear(c: real)
    ensures Times(c - 1.0, c) >= 2.0 + 3.0 * (c - 2.0)
  {
    assert (c - 1.0) * c == 2.0 + 3.0 * (c - 2.0) + Square(c - 2.0);
  }

  lemma AtMostDown(q: real, f: real)
    ensures q >= 0.0 && f >= -1.0 ==> Times(q, f) >= -q
  {
    if q >= 0.0 && f >= -1.0 {
      NonNegative(q, f + 1.0);
    }
  }

  lemma NextAtLeast(a: Air, s: State)
    requires Physical(a) && LightAir(a) && Drag(a, s) >= 1.0
    ensures Drag(a, Step(a, s)) >= 2.0 + 3.0 * (Drag(a, s) - 2.0) - Pull(a)
  {
    PullIsPositive(a);
    hide Step, Drag, Pull, Rise, Times;
    var f := NextDrag(a, s);
    AtMostDown(Pull(a), f);
    AtLeastLinear(Drag(a, s));
  }

  lemma {:induction false} HighStays(a: Air, s: State, n: nat)
    requires Physical(a) && LightAir(a) && a.k > 0.0 && Drag(a, s) >= 2.0 + Pull(a)
    ensures Drag(a, After(a, s, n)) >= Drag(a, s)
    ensures Drag(a, After(a, s, n + 1)) >= Drag(a, After(a, s, n)) + (Drag(a, s) - 2.0)
  {
    hide Step, Drag, Pull;
    PullIsPositive(a);
    if n > 0 {
      HighStays(a, s, n - 1);
    }
    NextAtLeast(a, After(a, s, n));
  }

  lemma HighExplodes(a: Air, s: State) returns (n: nat)
    requires Physical(a) && LightAir(a) && a.k > 0.0 && Drag(a, s) >= 2.0 + Pull(a)
    ensures Drag(a, After(a, s, n)) >= 4.0
  {
    hide After, Step, Drag, Pull;
    PullIsPositive(a);
    var f: nat -> real := (n: nat) => 4.0 - Drag(a, After(a, s, n));
    forall m: nat ensures f(m + 1) <= f(m) - (Drag(a, s) - 2.0) {
      HighStays(a, s, m);
    }
    n := Sinks(f, Drag(a, s) - 2.0);
  }

  /** From drag 4 on, each step more than triples the relative speed and turns it round. */
  lemma WildStep(a: Air, s: State)
    requires Physical(a) && LightAir(a) && Drag(a, s) >= 4.0
    ensures Drag(a, Step(a, s)) >= 4.0
  {
    hide Step, Drag, Pull;
    NextAtLeast(a, s);
  }

  lemma {:induction false} WildStays(a: Air, s: State, n: nat)
    requires Physical(a) && LightAir(a) && Drag(a, s) >= 4.0
    ensures Drag(a, After(a, s, n)) >= 4.0
  {
    hide Step, Drag, LightAir;
    if n > 0 {
      WildStays(a, s, n - 1);
      WildStep(a, After(a, s, n - 1));
    }
  }

  lemma Swing(c: real, u: real, v: real)
    requires c >= 4.0 && v == (1.0 - c) * u
    ensures (u > 0.0 ==> v <= -3.0 * u) && (u < 0.0 ==> v >= -3.0 * u)
  {
    if u > 0.0 {
      NonNegative(c - 4.0, u);
      assert v == -3.0 * u - (c - 4.0) * u;
    } else {
      NonNegative(c - 4.0, -u);
      assert v == -3.0 * u + (c - 4.0) * -u;
    }
  }

  lemma SlideStep(a: Air, s: State)
    requires Physical(a) && LightAir(a) && Drag(a, s) >= 4.0
    ensures Drag(a, Step(a, s)) >= 4.0
    ensures Slide(a, s) > 0.0 ==> Slide(a, Step(a, s)) <= -3.0 * Slide(a, s)
    ensures Slide(a, s) < 0.0 ==> Slide(a, Step(a, s)) >= -3.0 * Slide(a, s)
  {
    WildStep(a, s);
    MotionInUnits(a, s);
    hide Step, Drag, Pull, Rise, Slide, LightAir, Physical;
    Swing(Drag(a, s), Slide(a, s), Slide(a, Step(a, s)));
  }

  /** Two steps of a body sliding forward: it slides forward nine times as fast, and has advanced. */
  lemma SlidesOn(a: Air, s: State)
    requires Physical(a) && LightAir(a) && Drag(a, s) >= 4.0 && Slide(a, s) > 0.0
    ensures var t := Step(a, Step(a, s));
      && Slide(a, t) >= 9.0 * Slide(a, s)
      && Reach(a, t) <= Reach(a, s) - DT * (6.0 * Slide(a, s) + 2.0 * Wind(a))
  {
    hide Step, Drag, Pull, Rise, Slide, Reach, Height, Wind, LightAir;
    SlideStep(a, s);
    SlideStep(a, Step(a, s));
    PlaceInUnits(a, s);
    PlaceInUnits(a, Step(a, s));
  }

  lemma Twice(a: Air, s: State, j: nat)
    ensures After(a, s, 2 * (j + 1)) == Step(a, Step(a, After(a, s, 2 * j)))
  {
    hide Step;
    assert After(a, s, 2 * j + 2) == Step(a, After(a, s, 2 * j + 1));
  }

  lemma {:induction false} SlideGrows(a: Air, s: State, j: nat)
    requires Physical(a) && LightAir(a) && Drag(a, s) >= 4.0 && Slide(a, s) > 0.0
    ensures Slide(a, After(a, s, 2 * j)) >= Slide(a, s)
    ensures Slide(a, After(a, s, 2 * (j + 1))) >= Slide(a, After(a, s, 2 * j)) + Slide(a, s)
    ensures Reach(a, After(a, s, 2 * (j + 1)))
         <= Reach(a, After(a, s, 2 * j)) - DT * (6.0 * Slide(a, After(a, s, 2 * j)) + 2.0 * Wind(a))
  {
    hide Step, Drag, Slide, Reach, Unit, LightAir;
    if j > 0 {
      SlideGrows(a, s, j - 1);
    } else {
      assert After(a, s, 2 * j) == s;
    }
    WildStays(a, s, 2 * j);
    Twice(a, s, j);
    SlidesOn(a, After(a, s, 2 * j));
  }

  /** Against any wind, the swings of an exploding body take it out of range. */
  lemma ForwardEnds(a: Air, s: State)
    requires Physical(a) && LightAir(a) && a.k > 0.0 && Drag(a, s) >= 4.0 && Slide(a, s) > 0.0
    ensures Ends(a, s)
  {
    hide After, Step, Drag, Slide, LightAir;
    var w := Wind(a);
    var f: nat -> real := (j: nat) => 1.0 - 2.0 * w - 6.0 * Slide(a, After(a, s, 2 * j));
    forall m: nat ensures f(m + 1) <= f(m) - 6.0 * Slide(a, s) {
      SlideGrows(a, s, m);
    }
    var m := Sinks(f, 6.0 * Slide(a, s));
    var t := After(a, s, 2 * m);
    SlideGrows(a, s, m);
    WildStays(a, s, 2 * m);
    var g: nat -> real := (j: nat) => Reach(a, After(a, t, 2 * j));
    forall j: nat ensures g(j + 1) <= g(j) - DT {
      SlideGrows(a, t, j);
    }
    var j := Sinks(g, DT);
    OutOfRange(a, After(a, t, 2 * j));
    EndsLater(a, s, 2 * m);
  }

  lemma OutOfRange(a: Air, s: State)
    requires a.k > 0.0 && Reach(a, s) <= 0.0
    ensures !Flying(s)
  {
    if s.x < MAX_RANGE {
      Positive(Unit(a), MAX_RANGE - s.x);
    }
  }

  lemma Grounded(a: Air, s: State)
    requires a.k > 0.0 && Height(a, s) <= 0.0
    ensures !Flying(s)
  {
    if s.y > 0.0 {
      Positive(Unit(a), s.y);
    }
  }

  lemma OwnSquare(z: real, c: real)
    requires c >= 0.0 && c * c == z * z
    ensures z == c || z == -c
  {
    assert (c - z) * (c + z) == 0.0;
  }

  lemma Tumble(c: real, z: real, q: real, z': real, p': real)
    requires c >= 4.0 && IsNorm(c, z, 0.0) && Moves(c, z, 0.0, q, z', p') && 0.0 <= q <= 0.05
    ensures p' == 0.0
    ensures if z < 0.0 then z' >= 3.0 * c - 4.1 else z' <= -3.0 * c + 4.0
  {
    OwnSquare(z, c);
    AtLeastLinear(c);
    if z < 0.0 {
      assert (1.0 - c) * -c == (c - 1.0) * c;
    } else {
      assert (1.0 - c) * c == -((c - 1.0) * c);
    }
  }

  lemma Upright(d: real, y: real)
    requires IsNorm(d, y, 0.0) && y >= 0.0
    ensures y == d
  {
    OwnSquare(y, d);
  }

  /** A vertical fall: after two steps it falls again, and lower. */
  lemma FallsOn(a: Air, s: State)
    requires Physical(a) && LightAir(a) && Drag(a, s) >= 4.0 && Slide(a, s) == 0.0 && Rise(a, s) < 0.0
    ensures var t := Step(a, Step(a, s));
      Slide(a, t) == 0.0 && Rise(a, t) < 0.0 && Height(a, t) <= Height(a, s) - 8.0 * DT
  {
    var r := Step(a, s);
    VerticalStep(a, s);
    WildStep(a, s);
    VerticalStep(a, r);
    InUnits(a, r);
    PlaceInUnits(a, s);
    PlaceInUnits(a, r);
    hide Step, Drag, Pull, Rise, Slide, Reach, Height, Unit, Physical, IsNorm, LightAir;
    Upright(Drag(a, r), Rise(a, r));
  }

  lemma VerticalStep(a: Air, s: State)
    requires Physical(a) && LightAir(a) && Drag(a, s) >= 4.0 && Slide(a, s) == 0.0
    ensures Slide(a, Step(a, s)) == 0.0
    ensures var c, z := Drag(a, s), Rise(a, Step(a, s));
      if Rise(a, s) < 0.0 then z >= 3.0 * c - 4.1 else z <= -3.0 * c + 4.0
  {
    PullIsPositive(a);
    hide Step, Drag, Pull, Rise, Slide, Unit, Height, Reach, Physical, IsNorm, Moves;
    InUnits(a, s);
    MotionInUnits(a, s);
    Tumble(Drag(a, s), Rise(a, s), Pull(a), Rise(a, Step(a, s)), Slide(a, Step(a, s)));
  }

  lemma {:induction false} FallStays(a: Air, s: State, j: nat)
    requires Physical(a) && LightAir(a) && Drag(a, s) >= 4.0 && Slide(a, s) == 0.0 && Rise(a, s) < 0.0
    ensures Slide(a, After(a, s, 2 * j)) == 0.0 && Rise(a, After(a, s, 2 * j)) < 0.0
    ensures Height(a, After(a, s, 2 * (j + 1))) <= Height(a, After(a, s, 2 * j)) - 8.0 * DT
  {
    hide Step, Drag, Slide, Rise, Height, LightAir;
    if j > 0 {
      FallStays(a, s, j - 1);
      WildStays(a, s, 2 * (j - 1));
      Twice(a, s, j - 1);
      FallsOn(a, After(a, s, 2 * (j - 1)));
    } else {
      assert After(a, s, 2 * j) == s;
    }
    WildStays(a, s, 2 * j);
    Twice(a, s, j);
    FallsOn(a, After(a, s, 2 * j));
  }

  lemma VerticalEnds(a: Air, s: State)
    requires Physical(a) && LightAir(a) && a.k > 0.0
    requires Drag(a, s) >= 4.0 && Slide(a, s) == 0.0 && Rise(a, s) < 0.0
    ensures Ends(a, s)
  {
    hide After, Step, Drag, Slide, Rise, LightAir;
    var f: nat -> real := (j: nat) => Height(a, After(a, s, 2 * j));
    forall m: nat ensures f(m + 1) <= f(m) - 8.0 * DT {
      FallStays(a, s, m);
    }
    var j := Sinks(f, 8.0 * DT);
    Grounded(a, After(a, s, 2 * j));
  }

  lemma WildEnds(a: Air, s: State)
    requires Physical(a) && LightAir(a) && a.k > 0.0 && Drag(a, s) >= 4.0
    ensures Ends(a, s)
  {
    hide Drag, Slide, Rise, LightAir, Step, Ends;
    assert After(a, s, 1) == Step(a, After(a, s, 0)) == Step(a, s);
    if Slide(a, s) > 0.0 {
      ForwardEnds(a, s);
    } else if Slide(a, s) < 0.0 {
      SlideStep(a, s);
      ForwardEnds(a, Step(a, s));
      EndsLater(a, s, 1);
    } else if Rise(a, s) < 0.0 {
      VerticalEnds(a, s);
    } else {
      WildStep(a, s);
      VerticalStep(a, s);
      VerticalEnds(a, Step(a, s));
      EndsLater(a, s, 1);
    }
  }

  lemma HighEnds(a: Air, s: State)
    requires Physical(a) && LightAir(a) && a.k > 0.0 && Drag(a, s) >= 2.0 + Pull(a)
    ensures Ends(a, s)
  {
    hide Drag, LightAir, Pull, Ends, After;
    var n := HighExplodes(a, s);
    WildEnds(a, After(a, s, n));
    EndsLater(a, s, n);
  }

  // ---------------------------------------------------------------- near drag 2: gravity wins on average

  lemma ProductBound(f: real, g: real, m: real, q: real)
    requires -m <= f <= m && -q <= g <= q
    ensures -(m * q) <= f * g <= m * q
  {
    if f >= 0.0 {
      NonNegative(f, q - g);
      NonNegative(f, q + g);
      NonNegative(m - f, q);
    } else {
      NonNegative(-f, q - g);
      NonNegative(-f, q + g);
      NonNegative(m + f, q);
    }
  }

  lemma NearSquare(c: real, q: real)
    requires 0.0 <= q && -q <= c - 2.0 <= q
    ensures 2.0 + 3.0 * (c - 2.0) <= Times(c - 1.0, c) <= 2.0 + 3.0 * (c - 2.0) + Times(q, q)
  {
    ProductBound(c - 2.0, c - 2.0, q, q);
    AtLeastLinear(c);
    assert (c - 1.0) * c == 2.0 + 3.0 * (c - 2.0) + (c - 2.0) * (c - 2.0);
  }

  lemma NearShare(c: real, z: real, f: real, q: real)
    requires 0.0 <= q <= 0.05 && -q <= c - 2.0 <= q && Times(f, c) == z && -1.0 <= f <= 1.0
    ensures -0.5 * Times(q, q) <= Times(q, f) - 0.5 * Times(q, z) <= 0.5 * Times(q, q) && -2.05 <= z <= 2.05
  {
    var g := f * (c - 2.0);
    ProductBound(f, c - 2.0, 1.0, q);
    assert z == 2.0 * f + g;
    ProductBound(q, g, q, q);
    assert q * z == 2.0 * (q * f) + q * g;
  }

  lemma NearTurn(c: real, z: real, p: real, q: real, z': real, p': real)
    requires -q <= c - 2.0 <= q && -2.05 <= z <= 2.05 && Moves(c, z, p, q, z', p')
    ensures z' == -z - Times(c - 2.0, z) - q && -2.05 * q - q <= z + z' <= 2.05 * q - q
  {
    ProductBound(z, c - 2.0, 2.05, q);
    assert (1.0 - c) * z == -z - (c - 2.0) * z;
  }

  lemma SquareBound(q: real)
    requires 0.0 < q <= 0.05
    ensures 0.0 <= Times(q, q) <= 0.05 * q
  {
    NonNegative(q, 0.05 - q);
    Positive(q, q);
    assert q * (0.05 - q) == 0.05 * q - q * q;
    assert Times(q, q) == Square(q);
  }

  lemma DropBound(q: real, d: real, z: real)
    requires 0.0 < q && -2.05 <= z <= 2.05
    requires z <= 0.0 ==> d <= 0.37 * q
    requires z >= 0.0 ==> -d <= 0.394 * q
    ensures -Times(d, z) <= 0.81 * q
  {
    if z <= 0.0 {
      NonNegative(0.37 * q - d, -z);
      NonNegative(q, 2.05 + z);
      assert (0.37 * q - d) * -z == d * z - 0.37 * (q * z);
    } else {
      NonNegative(0.394 * q + d, z);
      NonNegative(q, 2.05 - z);
      assert (0.394 * q + d) * z == 0.394 * (q * z) + d * z;
    }
  }

  lemma SumBound(q: real, z0: real, z1: real)
    requires 0.0 < q && -2.05 * q - q <= z0 + z1 <= 2.05 * q - q
    ensures -3.05 * Times(q, q) <= Times(q, z0) + Times(q, z1) <= 1.05 * Times(q, q)
  {
    NonNegative(q, 1.05 * q - (z0 + z1));
    NonNegative(q, z0 + z1 + 3.05 * q);
    assert q * (1.05 * q - (z0 + z1)) == 1.05 * (q * q) - q * z0 - q * z1;
    assert q * (z0 + z1 + 3.05 * q) == q * z0 + q * z1 + 3.05 * (q * q);
  }

  lemma ScaledBound(q: real, z: real)
    requires 0.0 < q && -2.05 <= z <= 2.05
    ensures -2.05 * q <= Times(q, z) <= 2.05 * q
    ensures (z <= 0.0 ==> Times(q, z) <= 0.0) && (z >= 0.0 ==> Times(q, z) >= 0.0)
  {
    NonNegative(q, 2.05 - z);
    NonNegative(q, 2.05 + z);
    if z <= 0.0 {
      NonNegative(q, -z);
    } else {
      NonNegative(q, z);
    }
  }

  /** What a step near drag 2 does to the drag c and the vertical z. */
  predicate Wobbles(c: real, z: real, q: real, c': real, z': real) {
    && 3.0 * (c - 2.0) + 0.5 * Times(q, z) - 0.5 * Times(q, q) <= c' - 2.0
    && c' - 2.0 <= 3.0 * (c - 2.0) + 0.5 * Times(q, z) + 2.0 * Times(q, q)
    && -2.05 <= z <= 2.05 && z' == -z - Times(c - 2.0, z) - q && -2.05 * q - q <= z + z' <= 2.05 * q - q
  }

  lemma NearWobbles(c: real, z: real, p: real, q: real, c': real, z': real, p': real, f: real)
    requires 0.0 < q <= 0.05 && -q <= c - 2.0 <= q && Follows(c, z, q, c', f) && Moves(c, z, p, q, z', p')
    ensures Wobbles(c, z, q, c', z')
  {
    hide Times, Moves;
    AtLeastLinear(c);
    SquareBound(q);
    NearSquare(c, q);
    NearShare(c, z, f, q);
    NearTurn(c, z, p, q, z', p');
  }

  /** In two steps near drag 2 a body loses height, if the third state is near 2 as well. */
  lemma WindowPair(q: real, c0: real, z0: real, c1: real, z1: real, c2: real, z2: real)
    requires 0.0 < q <= 0.05 && -q <= c2 - 2.0 <= q && Wobbles(c0, z0, q, c1, z1) && Wobbles(c1, z1, q, c2, z2)
    ensures z0 + z1 <= -0.19 * q
  {
    hide Times;
    SumBound(q, z0, z1);
    SquareBound(q);
    ScaledBound(q, z0);
    DropBound(q, c0 - 2.0, z0);
  }

  ghost predicate Near(a: Air, s: State) {
    -Pull(a) <= Drag(a, s) - 2.0 <= Pull(a)
  }

  lemma NearStep(a: Air, s: State)
    requires Physical(a) && LightAir(a) && a.k > 0.0 && Near(a, s)
    ensures Wobbles(Drag(a, s), Rise(a, s), Pull(a), Drag(a, Step(a, s)), Rise(a, Step(a, s)))
  {
    PullIsPositive(a);
    assert 0.0 < Pull(a) <= 0.05 && Drag(a, s) >= 1.9;
    hide Step, Drag, Pull, Rise, Slide, Unit, Physical, LightAir, Wobbles, Follows, Moves;
    var f := NextDrag(a, s);
    MotionInUnits(a, s);
    NearWobbles(Drag(a, s), Rise(a, s), Slide(a, s), Pull(a), Drag(a, Step(a, s)), Rise(a, Step(a, s)),
                Slide(a, Step(a, s)), f);
  }

  lemma NearSinks(a: Air, s: State)
    requires Physical(a) && LightAir(a) && a.k > 0.0
    requires Near(a, Step(a, s)) && Near(a, Step(a, Step(a, s))) && Near(a, Step(a, Step(a, Step(a, s))))
    ensures Height(a, Step(a, Step(a, s))) <= Height(a, s) - 0.19 * DT * Pull(a)
  {
    PullIsPositive(a);
    PlaceInUnits(a, s);
    PlaceInUnits(a, Step(a, s));
    hide Step, Drag, Rise, Slide, Unit, Physical, Height, Reach, Wobbles;
    var r, t := Step(a, s), Step(a, Step(a, s));
    NearStep(a, r);
    NearStep(a, t);
    WindowPair(Pull(a), Drag(a, r), Rise(a, r), Drag(a, t), Rise(a, t), Drag(a, Step(a, t)), Rise(a, Step(a, t)));
  }

  lemma WindowEnds(a: Air, s: State)
    requires Physical(a) && LightAir(a) && a.k > 0.0 && forall n: nat :: Near(a, After(a, s, n))
    ensures Ends(a, s)
  {
    hide Step, Near, LightAir, Physical, Height, Drag, Flying;
    var f: nat -> real := (j: nat) => Height(a, After(a, s, 2 * j));
    PullIsPositive(a);
    hide Pull;
    forall j: nat ensures f(j + 1) <= f(j) - 0.19 * DT * Pull(a) {
      Twice(a, s, j);
      var r := After(a, s, 2 * j);
      assert After(a, s, 2 * j + 1) == Step(a, r) && After(a, s, 2 * j + 2) == Step(a, Step(a, r));
      assert After(a, s, 2 * j + 3) == Step(a, Step(a, Step(a, r)));
      NearSinks(a, r);
    }
    var j := Sinks(f, 0.19 * DT * Pull(a));
    Grounded(a, After(a, s, 2 * j));
  }

  /** Whatever the entry, the body comes down or leaves the range. */
  lemma EveryEntryEnds(a: Air, s: State)
    requires Physical(a) && LightAir(a)
    ensures exists n: nat :: After(a, s, n).y <= 0.0 || After(a, s, n).x >= MAX_RANGE
  {
    AnyEntryEnds(a, s);
    hide After;
    var n: nat :| !Flying(After(a, s, n));
  }

  lemma AnyEntryEnds(a: Air, s: State)
    requires Physical(a) && LightAir(a)
    ensures Ends(a, s)
  {
    hide Drag, LightAir, Step, Ends, Pull, After;
    if n: nat :| Drag(a, After(a, s, n)) <= 2.0 - Pull(a) {
      LowDragEnds(a, After(a, s, n));
      EndsLater(a, s, n);
    } else if n: nat :| Drag(a, After(a, s, n)) >= 2.0 + Pull(a) {
      SomeAir(a, After(a, s, 0));
      HighEnds(a, After(a, s, n));
      EndsLater(a, s, n);
    } else {
      SomeAir(a, After(a, s, 0));
      forall n: nat ensures Near(a, After(a, s, n)) {
        assert !(Drag(a, After(a, s, n)) <= 2.0 - Pull(a)) && !(Drag(a, After(a, s, n)) >= 2.0 + Pull(a));
      }
      WindowEnds(a, s);
    }
  }

  lemma SomeAir(a: Air, s: State)
    requires Physical(a)
    ensures Drag(a, s) > 2.0 - Pull(a) ==> a.k > 0.0
  {
    assert a.k == 0.0 ==> Drag(a, s) == 0.0 && Pull(a) == 0.0;
  }

  /**
   * The loop ends, on the ground or out of range: from every entry in light air, and in any air from every entry whose
   * drag is within a bound that steps respect. In the second case the number of steps is bounded.
   */
  method Solve(a: Air, start: State, ghost limit: real) returns (end: State, ghost steps: nat)
    requires Physical(a) && (LightAir(a) || (Keeps(a, limit) && Drag(a, start) <= limit))
    ensures end == After(a, start, steps) && (end.y <= 0.0 || end.x >= MAX_RANGE)
    ensures forall n: nat :: n < steps ==> After(a, start, n).y > 0.0 && After(a, start, n).x < MAX_RANGE
    ensures steps > 0 && Keeps(a, limit) && Drag(a, start) <= limit ==> (steps - 1) as real * SHED < Energy(start)
    ensures Stable(a, start) && SmallSteps(a) && start.vy <= 0.0 ==>
      end.y <= start.y - steps as real * (G * DT * DT)
  {
    hide Step, Drag, Energy, Physical, Keeps, SmallSteps, Stable, LightAir;
    if LightAir(a) {
      AnyEntryEnds(a, start);
    } else {
      LowEnds(a, start, limit);
    }
    ghost var last: nat :| !Flying(After(a, start, last));
    end, steps := start, 0;
    while Flying(end)
      invariant end == After(a, start, steps) && steps <= last
      invariant forall n: nat :: n < steps ==> Flying(After(a, start, n))
      decreases last - steps
    {
      end := Step(a, end);
      steps := steps + 1;
    }
    if steps > 0 && Keeps(a, limit) && Drag(a, start) <= limit {
      FlightFacts(a, start, limit, steps - 1);
      AloftHasEnergy(After(a, start, steps - 1));
    }
    if Stable(a, start) && SmallSteps(a) && start.vy <= 0.0 {
      FallFacts(a, start, steps);
    }
  }
}
