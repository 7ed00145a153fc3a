/** Andrew's monotone chain, as used for the particle cloud polygon, over exact coordinates. */
module ConvexHull {
  import opened Numbers
  import opened Sorting
  import opened Sublists

  datatype Point = Point(x: real, y: real)

  /** Twice the signed area of o, a, b: positive when o -> a -> b turns left. */
  function Cross(o: Point, a: Point, b: Point): real {
    (a.x - o.x) * (b.y - o.y) - (a.y - o.y) * (b.x - o.x)
  }

  /** The tuple order that `sorted` uses. */
  predicate Less(a: Point, b: Point) {
    a.x < b.x || (a.x == b.x && a.y < b.y)
  }

  /** Sweep order: left to right for the lower chain, right to left for the upper one. */
  predicate Ahead(rightward: bool, a: Point, b: Point) {
    if rightward then Less(a, b) else Less(b, a)
  }

  ghost predicate Sweeps(rightward: bool, c: seq<Point>) {
    forall i, j :: 0 <= i < j < |c| ==> Ahead(rightward, c[i], c[j])
  }

  ghost predicate TurnsLeft(c: seq<Point>) {
    forall i :: 0 <= i < |c| - 2 ==> Cross(c[i], c[i+1], c[i+2]) > 0.0
  }

  /** q is on or to the left of every edge of c. */
  ghost predicate Supports(c: seq<Point>, q: Point) {
    forall i :: 0 <= i < |c| - 1 ==> Cross(c[i], c[i+1], q) >= 0.0
  }

  ghost predicate Members(c: seq<Point>, ps: seq<Point>) {
    forall i :: 0 <= i < |c| ==> c[i] in ps
  }

  /** c is the left-turning chain that bounds ps from one side. */
  ghost predicate IsChain(rightward: bool, c: seq<Point>, ps: seq<Point>) {
    && |c| >= 1 && |ps| >= 1
    && c[0] == ps[0] && c[|c|-1] == ps[|ps|-1]
    && (|ps| > 1 ==> |c| > 1)
    && Sweeps(rightward, c) && Members(c, ps) && TurnsLeft(c)
    && forall k :: 0 <= k < |ps| ==> Supports(c, ps[k])
  }

  // ---------------------------------------------------------------- geometry

  function Minus(a: Point, b: Point): Point {
    Point(a.x - b.x, a.y - b.y)
  }

  function Turn(u: Point, v: Point): real {
    u.x * v.y - u.y * v.x
  }

  predicate RightHalf(u: Point) {
    u.x > 0.0 || (u.x == 0.0 && u.y > 0.0)
  }

  /** Directions of one half-plane are ordered by the turn between them. */
  lemma TurnTransitive(u: Point, v: Point, w: Point)
    requires RightHalf(u) && RightHalf(v) && RightHalf(w)
    requires Turn(u, v) >= 0.0 && Turn(v, w) >= 0.0
    ensures Turn(u, w) >= 0.0
    ensures Turn(u, v) > 0.0 && Turn(v, w) > 0.0 ==> Turn(u, w) > 0.0
  {
    assert Turn(u, w) * v.x == Turn(u, v) * w.x + Turn(v, w) * u.x;
  }

  lemma CrossFlips(o: Point, a: Point, b: Point)
    ensures Cross(o, a, b) == Turn(Minus(a, o), Minus(b, o)) == Turn(Minus(o, a), Minus(o, b))
  {
  }

  /** Turns around a shared corner compose, in either sweep direction. */
  lemma FanTransitive(rightward: bool, o: Point, a: Point, b: Point, c: Point)
    requires Ahead(rightward, o, a) && Ahead(rightward, o, b) && Ahead(rightward, o, c)
    requires Cross(o, a, b) >= 0.0 && Cross(o, b, c) >= 0.0
    ensures Cross(o, a, c) >= 0.0
    ensures Cross(o, a, b) > 0.0 && Cross(o, b, c) > 0.0 ==> Cross(o, a, c) > 0.0
  {
    CrossFlips(o, a, b);
    CrossFlips(o, b, c);
    CrossFlips(o, a, c);
    if rightward {
      TurnTransitive(Minus(a, o), Minus(b, o), Minus(c, o));
    } else {
      TurnTransitive(Minus(o, a), Minus(o, b), Minus(o, c));
    }
  }

  lemma CrossCycles(o: Point, a: Point, b: Point)
    ensures Cross(o, a, b) == Cross(a, b, o) == Cross(b, o, a)
    ensures Cross(o, b, a) == -Cross(o, a, b)
    ensures Cross(o, a, o) == Cross(o, a, a) == 0.0
  {
  }

  /** A left turn at b after a, then at c, is a left turn seen from a. */
  lemma ChainTransitive(rightward: bool, a: Point, b: Point, c: Point, p: Point)
    requires Ahead(rightward, a, b) && Ahead(rightward, b, c) && Ahead(rightward, c, p)
    requires Cross(a, b, c) > 0.0 && Cross(b, c, p) > 0.0
    ensures Cross(a, b, p) > 0.0
  {
  }

  /** q behind the corner a stays left of the new edge a -> p when both are left of c -> a. */
  lemma BehindStaysLeft(rightward: bool, c: Point, a: Point, p: Point, q: Point)
    requires Ahead(rightward, c, a) && Ahead(rightward, a, p) && Ahead(rightward, q, a)
    requires Cross(c, a, p) >= 0.0 && Cross(c, a, q) >= 0.0
    ensures Cross(a, p, q) >= 0.0
  {
  }

  // ---------------------------------------------------------------- one push

  /** What the pop loop leaves: c is a prefix of c0, cut where the turn towards p is left. */
  ghost predicate Popped(c0: seq<Point>, c: seq<Point>, p: Point) {
    && 1 <= |c| <= |c0| && c == c0[..|c|]
    && (|c| < |c0| ==> Cross(c[|c|-1], c0[|c|], p) <= 0.0)
  }

  lemma {:induction false} OldEdgesSupportNew(rightward: bool, c: seq<Point>, p: Point, i: nat)
    requires Sweeps(rightward, c) && TurnsLeft(c) && i + 1 < |c|
    requires Ahead(rightward, c[|c|-1], p)
    requires Cross(c[|c|-2], c[|c|-1], p) > 0.0
    ensures Cross(c[i], c[i+1], p) > 0.0
    decreases |c| - i
  {
    if i + 2 < |c| {
      OldEdgesSupportNew(rightward, c, p, i + 1);
      assert Ahead(rightward, c[i+2], p) by {
        assert i + 2 == |c| - 1 || Ahead(rightward, c[i+2], c[|c|-1]);
      }
      ChainTransitive(rightward, c[i], c[i+1], c[i+2], p);
    }
  }

  lemma NewEdgeSupportsOld(rightward: bool, c0: seq<Point>, c: seq<Point>, ps: seq<Point>, m: nat, k: nat)
    requires k < m < |ps| && Sweeps(rightward, ps) && IsChain(rightward, c0, ps[..m])
    requires Popped(c0, c, ps[m])
    requires |c| >= 2 ==> Cross(c[|c|-2], c[|c|-1], ps[m]) > 0.0
    ensures Cross(c[|c|-1], ps[m], ps[k]) >= 0.0
  {
    hide Cross;
    var t, p, q := c[|c|-1], ps[m], ps[k];
    assert Supports(c0, ps[..m][k]);
    assert c0[|c|-1] in ps[..m];
    var j :| 0 <= j < m && ps[j] == t;
    if q == t {
      CrossCycles(t, p, q);
    } else if k < j {
      if |c| == 1 {
        assert false;
      } else {
        assert Ahead(rightward, c0[|c|-2], c0[|c|-1]);
        assert Cross(c0[|c|-2], c0[|c|-1], q) >= 0.0;
        BehindStaysLeft(rightward, c[|c|-2], t, p, q);
      }
    } else {
      if |c| == |c0| {
        assert false;
      } else {
        var b := c0[|c|];
        assert Ahead(rightward, c0[|c|-1], c0[|c|]);
        assert Cross(c0[|c|-1], c0[|c|], q) >= 0.0;
        CrossCycles(t, b, p);
        FanTransitive(rightward, t, p, b, q);
      }
    }
  }

  lemma OldEdgeSupportsOld(rightward: bool, c0: seq<Point>, ps: seq<Point>, m: nat, i: nat, k: nat)
    requires k < m <= |ps| && i + 1 < |c0| && IsChain(rightward, c0, ps[..m])
    ensures Cross(c0[i], c0[i+1], ps[k]) >= 0.0
  {
    hide Cross, Sweeps, TurnsLeft, Members;
    assert Supports(c0, ps[..m][k]);
  }

  lemma CutChain(rightward: bool, c0: seq<Point>, c: seq<Point>, ps: seq<Point>, m: nat)
    requires 0 < m < |ps| && Sweeps(rightward, ps) && IsChain(rightward, c0, ps[..m]) && Popped(c0, c, ps[m])
    ensures Sweeps(rightward, c) && TurnsLeft(c) && Ahead(rightward, c[|c|-1], ps[m])
  {
    hide Cross, Supports;
    assert c0[|c|-1] in ps[..m];
  }

  lemma PushSupports(rightward: bool, c0: seq<Point>, c: seq<Point>, ps: seq<Point>, m: nat, k: nat)
    requires 0 < m < |ps| && k <= m && Sweeps(rightward, ps) && IsChain(rightward, c0, ps[..m])
    requires Popped(c0, c, ps[m])
    requires |c| >= 2 ==> Cross(c[|c|-2], c[|c|-1], ps[m]) > 0.0
    ensures Supports(c + [ps[m]], ps[k])
  {
    hide Cross, IsChain, Sweeps, TurnsLeft;
    var p, d := ps[m], c + [ps[m]];
    CutChain(rightward, c0, c, ps, m);
    forall i | 0 <= i < |c| ensures Cross(d[i], d[i+1], ps[k]) >= 0.0 {
      if i == |c| - 1 {
        if k == m {
          CrossCycles(d[i], p, p);
        } else {
          NewEdgeSupportsOld(rightward, c0, c, ps, m, k);
        }
      } else if k == m {
        OldEdgesSupportNew(rightward, c, p, i);
      } else {
        OldEdgeSupportsOld(rightward, c0, ps, m, i, k);
      }
    }
  }

  lemma PushSweeps(rightward: bool, c0: seq<Point>, c: seq<Point>, ps: seq<Point>, m: nat)
    requires 0 < m < |ps| && Sweeps(rightward, ps) && IsChain(rightward, c0, ps[..m]) && Popped(c0, c, ps[m])
    ensures Sweeps(rightward, c + [ps[m]]) && Members(c + [ps[m]], ps[..m+1])
  {
    hide Cross, Supports, TurnsLeft;
    forall i | 0 <= i < |c| ensures Ahead(rightward, c[i], ps[m]) && c[i] in ps[..m+1] {
      assert c0[i] in ps[..m];
    }
  }

  lemma PushTurnsLeft(rightward: bool, c0: seq<Point>, c: seq<Point>, ps: seq<Point>, m: nat)
    requires 0 < m < |ps| && Sweeps(rightward, ps) && IsChain(rightward, c0, ps[..m]) && Popped(c0, c, ps[m])
    requires |c| >= 2 ==> Cross(c[|c|-2], c[|c|-1], ps[m]) > 0.0
    ensures TurnsLeft(c + [ps[m]])
  {
    CutChain(rightward, c0, c, ps, m);
    hide Cross, IsChain, Sweeps, Popped;
    var d := c + [ps[m]];
    forall i | 0 <= i < |d| - 2 ensures Cross(d[i], d[i+1], d[i+2]) > 0.0 {
      if i < |c| - 2 {
        assert Cross(c[i], c[i+1], c[i+2]) > 0.0;
      }
    }
  }

  lemma PushKeepsChain(rightward: bool, c0: seq<Point>, c: seq<Point>, ps: seq<Point>, m: nat)
    requires 0 < m < |ps| && Sweeps(rightward, ps) && IsChain(rightward, c0, ps[..m])
    requires Popped(c0, c, ps[m])
    requires |c| >= 2 ==> Cross(c[|c|-2], c[|c|-1], ps[m]) > 0.0
    ensures IsChain(rightward, c + [ps[m]], ps[..m+1])
  {
    hide Cross, Supports;
    var d, qs := c + [ps[m]], ps[..m+1];
    PushSweeps(rightward, c0, c, ps, m);
    PushTurnsLeft(rightward, c0, c, ps, m);
    hide Sweeps, TurnsLeft, Members, Popped;
    forall k | 0 <= k < |qs| ensures Supports(d, qs[k]) {
      PushSupports(rightward, c0, c, ps, m, k);
      assert qs[k] == ps[k];
    }
  }

  lemma SingletonChain(rightward: bool, ps: seq<Point>)
    ensures |ps| >= 1 ==> IsChain(rightward, [ps[0]], ps[..1])
  {
  }

  /** One monotone chain: swept rightward it is the lower hull, leftward the upper. */
  method Chain(rightward: bool, ps: seq<Point>) returns (chain: seq<Point>)
    requires |ps| >= 1 && Sweeps(rightward, ps)
    ensures |chain| >= 1 && IsChain(rightward, chain, ps)
  {
    hide Cross, IsChain;
    chain := [];
    for m := 0 to |ps|
      invariant m == 0 ==> chain == []
      invariant m > 0 ==> |chain| >= 1 && IsChain(rightward, chain, ps[..m])
    {
      var p := ps[m];
      ghost var before := chain;
      while |chain| >= 2 && Cross(chain[|chain|-2], chain[|chain|-1], p) <= 0.0
        invariant m == 0 ==> chain == []
        invariant m > 0 ==> Popped(before, chain, p)
      {
        chain := chain[..|chain|-1];
      }
      if m > 0 {
        PushKeepsChain(rightward, before, chain, ps, m);
      } else {
        SingletonChain(rightward, ps);
        assert [] + [p] == [ps[0]];
      }
      chain := chain + [p];
    }
    assert ps[..|ps|] == ps;
  }

  // ---------------------------------------------------------------- joining the chains

  ghost predicate Collinear(ps: seq<Point>) {
    forall a, b, c :: a in ps && b in ps && c in ps ==> Cross(a, b, c) == 0.0
  }

  /** A strictly convex counter-clockwise cycle of points of ps that encloses ps. */
  ghost predicate IsConvexCycle(h: seq<Point>, ps: seq<Point>) {
    && |h| >= 3 && Distinct(h) && Members(h, ps)
    && TurnsLeft(h + h[..2])
    && forall p :: p in ps ==> Supports(h + h[..1], p)
  }

  lemma Outweighs(p: real, q: real, a: real, b: real)
    requires p >= 0.0 && q <= 0.0 && a > 0.0 && b > 0.0 && q * a == p * b
    ensures p == 0.0
  {
    NonNegative(-q, a);
    if p > 0.0 {
      Positive(p, b);
    }
  }

  /** Two parallel directions of one half-plane see a point on the same side. */
  lemma SameDirection(d: Point, f: Point, w: Point)
    requires RightHalf(d) && RightHalf(f) && Turn(d, f) == 0.0 && Turn(d, w) >= 0.0 && Turn(f, w) <= 0.0
    ensures Turn(d, w) == 0.0
  {
    assert Turn(f, w) * d.x == Turn(d, w) * f.x - Turn(d, f) * w.x;
    assert Turn(f, w) * d.y == Turn(d, w) * f.y - Turn(d, f) * w.y;
    if d.x > 0.0 {
      if f.x > 0.0 {
        Outweighs(Turn(d, w), Turn(f, w), d.x, f.x);
      } else {
        Positive(d.x, f.y);
      }
    } else {
      if f.x > 0.0 {
        Positive(d.y, f.x);
      } else {
        Outweighs(Turn(d, w), Turn(f, w), d.y, f.y);
      }
    }
  }

  /** The turn at a corner m, between the directions into it and out of it. */
  lemma CornerTurns(l: Point, m: Point, q: Point)
    ensures Cross(l, m, q) == Turn(Minus(m, l), Minus(q, m)) == Turn(Minus(l, m), Minus(m, q))
    ensures Turn(Minus(m, l), Minus(m, q)) == Turn(Minus(l, m), Minus(q, m)) == -Cross(l, m, q)
  {
  }

  lemma TurnReverses(u: Point, m: Point, q: Point)
    ensures Turn(Minus(m, u), Minus(q, m)) == Turn(Minus(u, m), Minus(m, q)) == -Turn(Minus(u, m), Minus(q, m))
  {
  }

  /** If the two chains are straight where they join, every point is on one line. */
  lemma StraightJoin(rightward: bool, l: Point, m: Point, u: Point, q: Point)
    requires Ahead(rightward, l, m) && Ahead(rightward, u, m)
    requires Cross(l, m, u) == 0.0 && Cross(l, m, q) >= 0.0 && Cross(m, u, q) >= 0.0
    ensures Cross(l, m, q) == 0.0
  {
    CornerTurns(l, m, u);
    CornerTurns(l, m, q);
    CrossFlips(m, u, q);
    TurnReverses(u, m, q);
    hide Cross, Turn;
    if rightward {
      SameDirection(Minus(m, l), Minus(m, u), Minus(q, m));
    } else {
      SameDirection(Minus(l, m), Minus(u, m), Minus(m, q));
    }
  }

  lemma OnOneLine(l: Point, m: Point, a: Point, b: Point, c: Point)
    requires l != m && Cross(l, m, a) == 0.0 && Cross(l, m, b) == 0.0 && Cross(l, m, c) == 0.0
    ensures Cross(a, b, c) == 0.0
  {
  }

  ghost predicate SameMembers(ps: seq<Point>, qs: seq<Point>) {
    forall p :: p in ps <==> p in qs
  }

  lemma JoinTurnsLeft(rightward: bool, c: seq<Point>, d: seq<Point>, ps: seq<Point>, qs: seq<Point>)
    requires IsChain(rightward, c, ps) && IsChain(!rightward, d, qs) && SameMembers(ps, qs)
    requires |c| > 1 && |d| > 1 && c[|c|-1] == d[0]
    requires !Collinear(ps)
    ensures Cross(c[|c|-2], d[0], d[1]) > 0.0
  {
    hide Cross;
    var l, m, u := c[|c|-2], d[0], d[1];
    assert d[1] in qs;
    assert c[|c|-2] in ps;
    assert Ahead(rightward, l, c[|c|-1]) && Ahead(rightward, u, m);
    assert forall q :: q in ps ==> Cross(l, c[|c|-1], q) >= 0.0 by {
      forall q | q in ps ensures Cross(l, c[|c|-1], q) >= 0.0 {
        var k :| 0 <= k < |ps| && ps[k] == q;
        assert Supports(c, ps[k]);
      }
    }
    if Cross(l, m, u) == 0.0 {
      forall q | q in ps ensures Cross(l, m, q) == 0.0 {
        assert q in qs;
        var k :| 0 <= k < |qs| && qs[k] == q;
        assert Supports(d, qs[k]);
        assert Cross(d[0], d[1], q) >= 0.0;
        StraightJoin(rightward, l, m, u, q);
      }
      forall x, y, z | x in ps && y in ps && z in ps ensures Cross(x, y, z) == 0.0 {
        OnOneLine(l, m, x, y, z);
      }
      assert false;
    }
  }

  /** A point strictly inside both chains would be a straight corner of one of them. */
  lemma NoSharedCorner(a: Point, q: Point, b: Point, c: Point)
    requires Less(a, q) && Less(q, b) && Less(q, c)
    requires Cross(a, q, b) > 0.0 && Cross(a, q, c) >= 0.0
    requires Cross(c, q, a) >= 0.0
    ensures Cross(c, q, b) < 0.0
  {
  }

  lemma ChainsMeetOnlyAtEnds(c: seq<Point>, d: seq<Point>, ps: seq<Point>, qs: seq<Point>, i: nat, j: nat)
    requires IsChain(true, c, ps) && IsChain(false, d, qs) && SameMembers(ps, qs)
    requires 0 < i < |c| - 1 && 0 < j < |d| - 1
    ensures c[i] != d[j]
  {
    hide Cross;
    if c[i] == d[j] {
      SupportsMember(true, c, ps, d[j-1], i - 1);
      SupportsMember(false, d, qs, c[i-1], j - 1);
      SupportsMember(false, d, qs, c[i+1], j - 1);
      assert Less(c[i-1], c[i]) && Less(c[i], c[i+1]) && Less(d[j], d[j-1]);
      assert Cross(c[i-1], c[i], c[i+1]) > 0.0;
      NoSharedCorner(c[i-1], c[i], c[i+1], d[j-1]);
      assert false;
    }
  }

  lemma SupportsMember(rightward: bool, c: seq<Point>, ps: seq<Point>, q: Point, i: nat)
    ensures IsChain(rightward, c, ps) && q in ps && i < |c| - 1 ==> Cross(c[i], c[i+1], q) >= 0.0
  {
  }

  lemma JoinedDistinct(c: seq<Point>, d: seq<Point>, ps: seq<Point>, qs: seq<Point>)
    requires IsChain(true, c, ps) && IsChain(false, d, qs) && SameMembers(ps, qs)
    requires |c| > 1 && |d| > 1 && c[0] == d[|d|-1] && c[|c|-1] == d[0]
    ensures Distinct(c[..|c|-1] + d[..|d|-1])
  {
    hide Cross;
    var h, n := c[..|c|-1] + d[..|d|-1], |c| - 1;
    forall i, j | 0 <= i < j < |h| ensures h[i] != h[j] {
      if j < n {
        assert Ahead(true, c[i], c[j]);
      } else if i >= n {
        assert Ahead(false, d[i-n], d[j-n]);
      } else if i == 0 {
        assert Ahead(false, d[j-n], d[|d|-1]);
      } else if j == n {
        assert Ahead(true, c[i], c[|c|-1]);
      } else {
        ChainsMeetOnlyAtEnds(c, d, ps, qs, i, j - n);
      }
    }
  }

  lemma JoinedSupports(c: seq<Point>, d: seq<Point>, ps: seq<Point>, qs: seq<Point>, p: Point)
    requires IsChain(true, c, ps) && IsChain(false, d, qs) && SameMembers(ps, qs) && p in ps
    requires |c| > 1 && |d| > 1 && c[0] == d[|d|-1] && c[|c|-1] == d[0]
    ensures var h := c[..|c|-1] + d[..|d|-1]; Supports(h + h[..1], p)
  {
  }

  lemma SameCollinearity(ps: seq<Point>, qs: seq<Point>)
    requires SameMembers(ps, qs)
    ensures SameMembers(qs, ps) && (Collinear(ps) <==> Collinear(qs))
  {
    hide Cross;
  }

  lemma JoinedTurn(c: seq<Point>, d: seq<Point>, ps: seq<Point>, qs: seq<Point>, i: nat)
    requires IsChain(true, c, ps) && IsChain(false, d, qs) && SameMembers(ps, qs) && !Collinear(ps)
    requires |c| > 1 && |d| > 1 && c[0] == d[|d|-1] && c[|c|-1] == d[0]
    requires i < |c| + |d| - 2
    ensures var z := c + d[1..] + c[1..2]; Cross(z[i], z[i+1], z[i+2]) > 0.0
  {
    hide Cross, Collinear, SameMembers, Sweeps, Members, Supports;
    var n := |c| - 1;
    if i + 2 <= n {
      assert Cross(c[i], c[i+1], c[i+2]) > 0.0;
    } else if i + 1 == n {
      JoinTurnsLeft(true, c, d, ps, qs);
    } else if i + 2 < n + |d| {
      assert Cross(d[i-n], d[i-n+1], d[i-n+2]) > 0.0;
    } else {
      SameCollinearity(ps, qs);
      JoinTurnsLeft(false, d, c, qs, ps);
    }
  }

  /** The cycle with its first two corners again is the one chain, the rest of the other, and the first edge again. */
  lemma WrapsAround(c: seq<Point>, d: seq<Point>)
    requires |c| > 1 && |d| > 1 && c[0] == d[|d|-1] && c[|c|-1] == d[0] && |c| + |d| >= 5
    ensures var h := c[..|c|-1] + d[..|d|-1]; h + h[..2] == c + d[1..] + c[1..2]
  {
    var h, z := c[..|c|-1] + d[..|d|-1], c + d[1..] + c[1..2];
    assert c == c[..|c|-1] + [d[0]] && d == [d[0]] + d[1..] && d == d[..|d|-1] + [c[0]];
    assert c + d[1..] == c[..|c|-1] + d == h + [c[0]];
    assert h[0] == c[0] && h[1] == c[1];
    assert h[..2] == [c[0]] + c[1..2];
  }

  lemma JoinedTurns(c: seq<Point>, d: seq<Point>, ps: seq<Point>, qs: seq<Point>)
    requires IsChain(true, c, ps) && IsChain(false, d, qs) && SameMembers(ps, qs) && !Collinear(ps)
    requires |c| > 1 && |d| > 1 && c[0] == d[|d|-1] && c[|c|-1] == d[0]
    ensures var h := c[..|c|-1] + d[..|d|-1]; |h| >= 3 && TurnsLeft(h + h[..2])
  {
    hide Cross, IsChain, Collinear, SameMembers;
    var h := c[..|c|-1] + d[..|d|-1];
    var z := c + d[1..] + c[1..2];
    if |h| < 3 {
      JoinedTurn(c, d, ps, qs, 0);
      CrossCycles(c[0], c[1], c[0]);
    } else {
      WrapsAround(c, d);
      forall i | 0 <= i < |z| - 2 ensures Cross(z[i], z[i+1], z[i+2]) > 0.0 {
        JoinedTurn(c, d, ps, qs, i);
      }
    }
  }

  /** The joined chains enclose the points. */
  lemma JoinedCycle(c: seq<Point>, d: seq<Point>, ps: seq<Point>, qs: seq<Point>)
    requires IsChain(true, c, ps) && IsChain(false, d, qs) && SameMembers(ps, qs) && !Collinear(ps)
    requires |c| > 1 && |d| > 1 && c[0] == d[|d|-1] && c[|c|-1] == d[0]
    ensures IsConvexCycle(c[..|c|-1] + d[..|d|-1], ps)
  {
    hide Cross;
    JoinedDistinct(c, d, ps, qs);
    JoinedTurns(c, d, ps, qs);
    var h := c[..|c|-1] + d[..|d|-1];
    forall p | p in ps ensures Supports(h + h[..1], p) {
      JoinedSupports(c, d, ps, qs, p);
    }
    forall i | 0 <= i < |h| ensures h[i] in ps {
      if i < |c| - 1 {
        assert c[i] in ps;
      } else {
        assert d[i-|c|+1] in qs;
      }
    }
  }

  lemma LongChainBends(rightward: bool, c: seq<Point>, ps: seq<Point>)
    requires IsChain(rightward, c, ps) && |c| > 2
    ensures !Collinear(ps)
  {
    hide Cross;
    assert Cross(c[0], c[1], c[2]) > 0.0;
    assert c[0] in ps && c[1] in ps && c[2] in ps;
  }

  // ---------------------------------------------------------------- the hull

  /** `sorted(set(points))`. */
  function SortedSet(points: seq<Point>): (r: seq<Point>)
    ensures Sweeps(true, r) && SameMembers(r, points)
  {
    assert StrictTotal(Less);
    Sorting.SortedSet(points, Less)
  }

  function Reversed(s: seq<Point>): (r: seq<Point>)
    ensures |r| == |s| && forall k :: 0 <= k < |s| ==> r[k] == s[|s|-1-k]
    ensures SameMembers(r, s)
  {
    if s == [] then []
    else
      assert forall q :: q in s <==> q == s[0] || q in s[1..];
      Reversed(s[1..]) + [s[0]]
  }

  /** What the hull of points is, in all three shapes the code returns. */
  ghost predicate IsHull(hull: seq<Point>, points: seq<Point>) {
    var unique := SortedSet(points);
    if |unique| <= 1 then hull == unique
    else if Collinear(points) then hull == [unique[0], unique[|unique|-1]]
    else IsConvexCycle(hull, points)
  }

  lemma SameEnclosure(h: seq<Point>, ps: seq<Point>, qs: seq<Point>)
    ensures SameMembers(ps, qs) && IsConvexCycle(h, ps) ==> IsConvexCycle(h, qs)
  {
    hide Supports, TurnsLeft;
  }

  lemma ChainsMakeHull(points: seq<Point>, unique: seq<Point>, reversed: seq<Point>, c: seq<Point>, d: seq<Point>)
    requires unique == SortedSet(points) && |unique| > 1 && reversed == Reversed(unique)
    requires IsChain(true, c, unique) && IsChain(false, d, reversed)
    ensures IsHull(c[..|c|-1] + d[..|d|-1], points)
  {
    hide Cross, IsConvexCycle, Collinear, SortedSet, Supports, Sweeps, TurnsLeft, Members;
    SameCollinearity(unique, points);
    SameCollinearity(unique, reversed);
    if |c| > 2 {
      LongChainBends(true, c, unique);
    }
    if |d| > 2 {
      LongChainBends(false, d, reversed);
    }
    if !Collinear(points) {
      JoinedCycle(c, d, unique, reversed);
      SameEnclosure(c[..|c|-1] + d[..|d|-1], unique, points);
    }
  }

  method Hull(points: seq<Point>) returns (hull: seq<Point>)
    ensures IsHull(hull, points)
  {
    hide IsConvexCycle, Collinear, IsChain;
    var unique := SortedSet(points);
    if |unique| <= 1 {
      return unique;
    }
    var reversed := Reversed(unique);
    var lower := Chain(true, unique);
    var upper := Chain(false, reversed);
    hull := lower[..|lower|-1] + upper[..|upper|-1];
    ChainsMakeHull(points, unique, reversed, lower, upper);
  }
}
