/** The gridded forcing reader: bilinear in space, linear in time, clamped at the edges. Exact arithmetic. */
module Forcing {
  import opened Numbers
  import opened Options

  /** values[t][i][j] is the sample at hour t, latitude i, longitude j. */
  datatype Grid = Grid(lats: seq<real>, lons: seq<real>, values: seq<seq<seq<real>>>)

  predicate Ascending(a: seq<real>) {
    forall i, j :: 0 <= i < j < |a| ==> a[i] < a[j]
  }

  predicate Plane(p: seq<seq<real>>, rows: nat, columns: nat) {
    |p| == rows && forall i :: 0 <= i < rows ==> |p[i]| == columns
  }

  /** What `_fetch_grid` builds: at least two distinct lines each way, and at least one hour. */
  predicate Valid(g: Grid) {
    && |g.lats| >= 2 && |g.lons| >= 2 && Ascending(g.lats) && Ascending(g.lons) && |g.values| >= 1
    && forall t :: 0 <= t < |g.values| ==> Plane(g.values[t], |g.lats|, |g.lons|)
  }

  /** numpy's left searchsorted. */
  function SearchSorted(a: seq<real>, x: real): (r: nat)
    ensures r <= |a| && (forall k :: 0 <= k < r ==> a[k] < x) && (r < |a| ==> a[r] >= x)
  {
    if a == [] || a[0] >= x then 0 else 1 + SearchSorted(a[1..], x)
  }

  function Cell(a: seq<real>, x: real): (c: nat)
    requires |a| >= 2
    ensures c + 1 < |a|
  {
    Max(0, Min(SearchSorted(a, x) - 1, |a| - 2))
  }

  function Clip(r: real): (f: real)
    ensures 0.0 <= f <= 1.0
  {
    if r < 0.0 then 0.0 else if r > 1.0 then 1.0 else r
  }

  /** How far x is across cell c. A zero width is replaced by a tiny one. */
  function Fraction(a: seq<real>, c: nat, x: real): (f: real)
    requires c + 1 < |a|
    ensures 0.0 <= f <= 1.0
  {
    var width := if a[c+1] - a[c] != 0.0 then a[c+1] - a[c] else 0.000000001;
    Clip((x - a[c]) / width)
  }

  function Bilinear(v00: real, v01: real, v10: real, v11: real, lf: real, nf: real): real {
    v00 * (1.0 - lf) * (1.0 - nf) + v01 * (1.0 - lf) * nf + v10 * lf * (1.0 - nf) + v11 * lf * nf
  }

  /** The plane's value by cell (li, ni). */
  function CellValue(g: Grid, t: nat, li: nat, ni: nat, lat: real, lon: real): real
    requires Valid(g) && t < |g.values| && li + 1 < |g.lats| && ni + 1 < |g.lons|
  {
    var p := g.values[t];
    Bilinear(p[li][ni], p[li][ni+1], p[li+1][ni], p[li+1][ni+1], Fraction(g.lats, li, lat), Fraction(g.lons, ni, lon))
  }

  function PlaneValue(g: Grid, t: nat, lat: real, lon: real): real
    requires Valid(g) && t < |g.values|
  {
    CellValue(g, t, Cell(g.lats, lat), Cell(g.lons, lon), lat, lon)
  }

  function Hour0(g: Grid, hours: real): nat
    requires Valid(g) && hours >= 0.0
  {
    Min(hours.Floor, |g.values| - 1)
  }

  function Hour1(g: Grid, hours: real): nat
    requires Valid(g) && hours >= 0.0
  {
    Min(Hour0(g, hours) + 1, |g.values| - 1)
  }

  function NotNegative(r: real): (n: real)
    ensures n >= 0.0
  {
    if r < 0.0 then 0.0 else r
  }

  /** One variable of `get_variables`, at a position and a time in hours since the start. */
  function Value(g: Grid, lat: real, lon: real, hours: real): real
    requires Valid(g)
  {
    var h := NotNegative(hours);
    var f := h - h.Floor as real;
    PlaneValue(g, Hour0(g, h), lat, lon) * (1.0 - f) + PlaneValue(g, Hour1(g, h), lat, lon) * f
  }

  // ---------------------------------------------------------------- between the samples

  function Lerp(a: real, b: real, f: real): real {
    a * (1.0 - f) + b * f
  }

  lemma BilinearIsLerps(v00: real, v01: real, v10: real, v11: real, lf: real, nf: real)
    ensures Bilinear(v00, v01, v10, v11, lf, nf) == Lerp(Lerp(v00, v01, nf), Lerp(v10, v11, nf), lf)
  {
    assert Lerp(v00, v01, nf) * (1.0 - lf) == v00 * (1.0 - lf) * (1.0 - nf) + v01 * (1.0 - lf) * nf;
    assert Lerp(v10, v11, nf) * lf == v10 * lf * (1.0 - nf) + v11 * lf * nf;
  }

  lemma LerpBelow(a: real, b: real, f: real, hi: real)
    requires 0.0 <= f <= 1.0 && a <= hi && b <= hi
    ensures Lerp(a, b, f) <= hi
  {
    var p, q := (hi - a) * (1.0 - f), (hi - b) * f;
    assert p >= 0.0 && q >= 0.0;
    assert p + q == hi - Lerp(a, b, f);
  }

  lemma LerpAbove(a: real, b: real, f: real, lo: real)
    requires 0.0 <= f <= 1.0 && lo <= a && lo <= b
    ensures lo <= Lerp(a, b, f)
  {
    var p, q := (a - lo) * (1.0 - f), (b - lo) * f;
    assert p >= 0.0 && q >= 0.0;
    assert p + q == Lerp(a, b, f) - lo;
  }

  lemma LerpBetween(a: real, b: real, f: real, lo: real, hi: real)
    requires 0.0 <= f <= 1.0 && lo <= a <= hi && lo <= b <= hi
    ensures lo <= Lerp(a, b, f) <= hi
  {
    hide Lerp;
    LerpBelow(a, b, f, hi);
    LerpAbove(a, b, f, lo);
  }

  /** The samples a value is blended from: the corners of its cell at the two hours around it. */
  ghost predicate CornersWithin(g: Grid, t: nat, lat: real, lon: real, lo: real, hi: real)
    requires Valid(g) && t < |g.values|
  {
    forall i, j ::
      Cell(g.lats, lat) <= i <= Cell(g.lats, lat) + 1 && Cell(g.lons, lon) <= j <= Cell(g.lons, lon) + 1 ==>
      lo <= g.values[t][i][j] <= hi
  }

  lemma PlaneBetween(g: Grid, t: nat, lat: real, lon: real, lo: real, hi: real)
    requires Valid(g) && t < |g.values| && CornersWithin(g, t, lat, lon, lo, hi)
    ensures lo <= PlaneValue(g, t, lat, lon) <= hi
  {
    hide Lerp, Bilinear, Fraction;
    var li, ni, p := Cell(g.lats, lat), Cell(g.lons, lon), g.values[t];
    var lf, nf := Fraction(g.lats, li, lat), Fraction(g.lons, ni, lon);
    var v00, v01, v10, v11 := p[li][ni], p[li][ni+1], p[li+1][ni], p[li+1][ni+1];
    BilinearIsLerps(v00, v01, v10, v11, lf, nf);
    LerpBetween(v00, v01, nf, lo, hi);
    LerpBetween(v10, v11, nf, lo, hi);
    LerpBetween(Lerp(v00, v01, nf), Lerp(v10, v11, nf), lf, lo, hi);
  }

  /** Everywhere, inside or outside the grid, the forcing stays within the range of the samples it blends. */
  lemma ValueBetween(g: Grid, lat: real, lon: real, hours: real, lo: real, hi: real)
    requires Valid(g)
    requires var h := NotNegative(hours);
      CornersWithin(g, Hour0(g, h), lat, lon, lo, hi) && CornersWithin(g, Hour1(g, h), lat, lon, lo, hi)
    ensures lo <= Value(g, lat, lon, hours) <= hi
  {
    hide PlaneValue, CornersWithin;
    var h := NotNegative(hours);
    PlaneBetween(g, Hour0(g, h), lat, lon, lo, hi);
    PlaneBetween(g, Hour1(g, h), lat, lon, lo, hi);
    var early, late := PlaneValue(g, Hour0(g, h), lat, lon), PlaneValue(g, Hour1(g, h), lat, lon);
    LerpBetween(early, late, h - h.Floor as real, lo, hi);
  }

  // ---------------------------------------------------------------- on the samples

  /** At a grid line the fraction is an end of its cell. */
  lemma LineFraction(a: seq<real>, c: nat, i: nat)
    requires Ascending(a) && c + 1 < |a| && (i == c || i == c + 1)
    ensures Fraction(a, c, a[i]) == if i == c then 0.0 else 1.0
  {
    var width := a[c+1] - a[c];
    assert width > 0.0;
    assert 0.0 / width == 0.0 && width / width == 1.0;
  }

  lemma LineCell(a: seq<real>, i: nat)
    requires Ascending(a) && |a| >= 2 && i < |a|
    ensures Cell(a, a[i]) == if i == 0 then 0 else i - 1
  {
  }

  /** On a grid node at a whole hour the value is the sample; past the last hour it is the last sample. */
  lemma NodeIsExact(g: Grid, i: nat, j: nat, hour: nat)
    requires Valid(g) && i < |g.lats| && j < |g.lons|
    ensures Value(g, g.lats[i], g.lons[j], hour as real) == g.values[Min(hour, |g.values| - 1)][i][j]
  {
    LineCell(g.lats, i);
    LineCell(g.lons, j);
    LineFraction(g.lats, Cell(g.lats, g.lats[i]), i);
    LineFraction(g.lons, Cell(g.lons, g.lons[j]), j);
    var t := Min(hour, |g.values| - 1);
    assert (hour as real).Floor == hour;
    assert Hour0(g, hour as real) == t;
    assert PlaneValue(g, t, g.lats[i], g.lons[j]) == g.values[t][i][j];
  }

  /** Between two whole hours the value moves linearly from one to the other; before the first hour it does not move. */
  lemma TimeIsLinear(g: Grid, lat: real, lon: real, hour: nat, f: real)
    requires Valid(g) && 0.0 <= f <= 1.0
    ensures Value(g, lat, lon, hour as real + f)
         == Lerp(Value(g, lat, lon, hour as real), Value(g, lat, lon, (hour + 1) as real), f)
    ensures Value(g, lat, lon, -f) == Value(g, lat, lon, 0.0)
  {
    hide PlaneValue, Valid;
    var h, n := hour as real, |g.values| - 1;
    assert h.Floor == hour && (h + 1.0).Floor == hour + 1 && (hour + 1) as real == h + 1.0;
    if f < 1.0 {
      assert (h + f).Floor == hour;
    } else {
      assert (h + f).Floor == hour + 1;
    }
    WholeHour(g, lat, lon, hour);
    WholeHour(g, lat, lon, hour + 1);
  }

  lemma WholeHour(g: Grid, lat: real, lon: real, hour: nat)
    requires Valid(g)
    ensures Value(g, lat, lon, hour as real) == PlaneValue(g, Min(hour, |g.values| - 1), lat, lon)
  {
    hide PlaneValue;
    assert (hour as real).Floor == hour;
  }

  /** Neighbouring cells give the same value on the grid line they share. */
  lemma SharedLatitudeAgrees(g: Grid, t: nat, li: nat, ni: nat, lon: real)
    requires Valid(g) && t < |g.values| && li + 2 < |g.lats| && ni + 1 < |g.lons|
    ensures CellValue(g, t, li, ni, g.lats[li+1], lon) == CellValue(g, t, li + 1, ni, g.lats[li+1], lon)
  {
    LineFraction(g.lats, li, li + 1);
    LineFraction(g.lats, li + 1, li + 1);
  }

  lemma SharedLongitudeAgrees(g: Grid, t: nat, li: nat, ni: nat, lat: real)
    requires Valid(g) && t < |g.values| && li + 1 < |g.lats| && ni + 2 < |g.lons|
    ensures CellValue(g, t, li, ni, lat, g.lons[ni+1]) == CellValue(g, t, li, ni + 1, lat, g.lons[ni+1])
  {
    LineFraction(g.lons, ni, ni + 1);
    LineFraction(g.lons, ni + 1, ni + 1);
  }

  // ---------------------------------------------------------------- smooth fields come back unchanged

  function Clamp(a: seq<real>, x: real): real
    requires |a| >= 1
  {
    if x < a[0] then a[0] else if x > a[|a|-1] then a[|a|-1] else x
  }

  /** Blending the two lines of a cell by its fraction gives back the position, clamped to the grid. */
  lemma FractionIsPosition(a: seq<real>, x: real)
    requires Ascending(a) && |a| >= 2
    ensures var c := Cell(a, x); Lerp(a[c], a[c+1], Fraction(a, c, x)) == Clamp(a, x)
  {
    var c, r := Cell(a, x), SearchSorted(a, x);
    var lo, hi := a[c], a[c+1];
    var width := hi - lo;
    assert width > 0.0;
    var q := (x - lo) / width;
    Quotient(x - lo, width);
    if r == 0 {
      assert c == 0 && x <= lo;
      assert q <= 0.0;
    } else if r == |a| {
      assert c == |a| - 2 && a[|a|-1] < x;
      assert q >= 1.0;
    } else {
      assert c == r - 1 && lo < x <= hi;
      assert 0.0 <= q <= 1.0;
      assert a[0] <= lo && hi <= a[|a|-1];
    }
  }

  /** A field a + b * lat + c * lon + d * lat * lon. */
  datatype Surface = Surface(a: real, b: real, c: real, d: real)

  function At(s: Surface, lat: real, lon: real): real {
    s.a + s.b * lat + (s.c + s.d * lat) * lon
  }

  ghost predicate Samples(g: Grid, s: Surface)
    requires Valid(g)
  {
    forall t, i, j :: 0 <= t < |g.values| && 0 <= i < |g.lats| && 0 <= j < |g.lons| ==>
      g.values[t][i][j] == At(s, g.lats[i], g.lons[j])
  }

  lemma LerpLongitude(s: Surface, lat: real, lon0: real, lon1: real, f: real)
    ensures Lerp(At(s, lat, lon0), At(s, lat, lon1), f) == At(s, lat, Lerp(lon0, lon1, f))
  {
    var m, n := s.a + s.b * lat, s.c + s.d * lat;
    assert Lerp(m + n * lon0, m + n * lon1, f) == m + n * Lerp(lon0, lon1, f);
  }

  lemma LerpLatitude(s: Surface, lat0: real, lat1: real, lon: real, f: real)
    ensures Lerp(At(s, lat0, lon), At(s, lat1, lon), f) == At(s, Lerp(lat0, lat1, f), lon)
  {
    var m, n := s.a + s.c * lon, s.b + s.d * lon;
    forall lat ensures At(s, lat, lon) == m + n * lat {
      assert (s.c + s.d * lat) * lon == s.c * lon + s.d * lon * lat;
    }
    assert Lerp(m + n * lat0, m + n * lat1, f) == m + n * Lerp(lat0, lat1, f);
  }

  lemma PlaneReproduces(g: Grid, s: Surface, t: nat, lat: real, lon: real)
    requires Valid(g) && t < |g.values| && Samples(g, s)
    ensures PlaneValue(g, t, lat, lon) == At(s, Clamp(g.lats, lat), Clamp(g.lons, lon))
  {
    hide Lerp, Bilinear, Fraction, At, Clamp;
    var li, ni, p := Cell(g.lats, lat), Cell(g.lons, lon), g.values[t];
    var lf, nf := Fraction(g.lats, li, lat), Fraction(g.lons, ni, lon);
    BilinearIsLerps(p[li][ni], p[li][ni+1], p[li+1][ni], p[li+1][ni+1], lf, nf);
    LerpLongitude(s, g.lats[li], g.lons[ni], g.lons[ni+1], nf);
    LerpLongitude(s, g.lats[li+1], g.lons[ni], g.lons[ni+1], nf);
    LerpLatitude(s, g.lats[li], g.lats[li+1], Lerp(g.lons[ni], g.lons[ni+1], nf), lf);
    FractionIsPosition(g.lats, lat);
    FractionIsPosition(g.lons, lon);
  }

  /** Samples of a bilinear surface are interpolated exactly everywhere; outside the grid, at the nearest edge. */
  lemma SurfaceIsReproduced(g: Grid, s: Surface, lat: real, lon: real, hours: real)
    requires Valid(g) && Samples(g, s)
    ensures Value(g, lat, lon, hours) == At(s, Clamp(g.lats, lat), Clamp(g.lons, lon))
  {
    hide PlaneValue, At, Samples;
    var h := NotNegative(hours);
    PlaneReproduces(g, s, Hour0(g, h), lat, lon);
    PlaneReproduces(g, s, Hour1(g, h), lat, lon);
    var v, f := At(s, Clamp(g.lats, lat), Clamp(g.lons, lon)), h - h.Floor as real;
    assert v * (1.0 - f) + v * f == v;
  }

  // ---------------------------------------------------------------- filling what could not be fetched

  /** A missing sample is that hour's centre sample, or the fallback when that is missing too. */
  function Filled(sample: Option<real>, centre: Option<real>, fallback: real): (r: real)
    ensures sample.Some? ==> r == sample.value
    ensures sample.None? && centre.Some? ==> r == centre.value
    ensures sample.None? && centre.None? ==> r == fallback
  {
    match sample
    case Some(v) => v
    case None => match centre case Some(v) => v case None => fallback
  }

  method FillMissing(samples: array3<Option<real>>, fallback: real)
    requires samples.Length1 == samples.Length2 > 0
    modifies samples
    ensures forall t, i, j :: 0 <= t < samples.Length0 && 0 <= i < samples.Length1 && 0 <= j < samples.Length2 ==>
      samples[t, i, j]
      == Some(Filled(old(samples[t, i, j]), old(samples[t, samples.Length1 / 2, samples.Length1 / 2]), fallback))
  {
    var hours, n, ci := samples.Length0, samples.Length1, samples.Length1 / 2;
    var centre := new Option<real>[hours];
    forall t | 0 <= t < hours {
      centre[t] := samples[t, ci, ci];
    }
    for i := 0 to n
      invariant forall t :: 0 <= t < hours ==> centre[t] == old(samples[t, ci, ci])
      invariant forall t, k, j :: 0 <= t < hours && 0 <= k < i && 0 <= j < n ==>
        samples[t, k, j] == if old(samples[t, k, j]).Some? then old(samples[t, k, j]) else centre[t]
      invariant forall t, k, j :: 0 <= t < hours && i <= k < n && 0 <= j < n ==>
        samples[t, k, j] == old(samples[t, k, j])
    {
      for j := 0 to n
        invariant forall t :: 0 <= t < hours ==> centre[t] == old(samples[t, ci, ci])
        invariant forall t, k, m :: 0 <= t < hours && 0 <= k < n && 0 <= m < n && (k < i || (k == i && m < j)) ==>
          samples[t, k, m] == if old(samples[t, k, m]).Some? then old(samples[t, k, m]) else centre[t]
        invariant forall t, k, m :: 0 <= t < hours && 0 <= k < n && 0 <= m < n && (k > i || (k == i && m >= j)) ==>
          samples[t, k, m] == old(samples[t, k, m])
      {
        forall t | 0 <= t < hours && samples[t, i, j].None? {
          samples[t, i, j] := centre[t];
        }
      }
    }
    forall t, i, j | 0 <= t < hours && 0 <= i < n && 0 <= j < n && samples[t, i, j].None? {
      samples[t, i, j] := Some(fallback);
    }
  }
}
