/** What the four angular vector widgets share: the low-speed scaling of an
    angle, the re-centring of an azimuth, the projection of an angle onto a
    clamped grid coordinate, the one-cell flicker write, and the u8 frame
    counter. */
module Projection {
  import opened Grid
  import opened Arith
  import Aspect

  /** The frame counters of the vector widgets are `u8`. */
  const COUNTER_LIMIT: nat := 256

  /** The counter after one frame: one more, wrapping at 256 (the release
      build's `u8` addition). Every frame flips its parity, through the wrap
      too, because 256 is even. */
  function NextCounter(c: nat): (n: nat)
    requires c < COUNTER_LIMIT
    ensures n < COUNTER_LIMIT
    ensures n % 2 != c % 2
    ensures n == 0 || n == c + 1
  {
    (c + 1) % COUNTER_LIMIT
  }

  /** `with_ratio`: below 5 units of speed an angle is scaled by
      (speed / 5)^2, truncating; at 5 and above it is kept. The result never
      exceeds the angle in magnitude and never changes its sign. */
  function WithRatio(speed: nat, degree: int): (r: int)
    ensures speed >= 5 ==> r == degree
    ensures speed == 0 ==> r == 0
    ensures Abs(r) <= Abs(degree)
    ensures r > 0 ==> degree > 0
    ensures r < 0 ==> degree < 0
  {
    if speed >= 5 then
      degree
    else
      ScaledBound(speed, degree);
      TDiv(TDiv(degree * speed * speed, 5), 5)
  }

  lemma ScaledBound(speed: nat, degree: int)
    requires speed < 5
    ensures Abs(TDiv(TDiv(degree * speed * speed, 5), 5)) <= Abs(degree)
    ensures speed == 0 ==> TDiv(TDiv(degree * speed * speed, 5), 5) == 0
  {
    var x := degree * speed * speed;
    AbsMul(degree * speed, speed);
    AbsMul(degree, speed);
    var sq := speed * speed;
    assert Abs(x) == Abs(degree) * sq by {
      assert Abs(x) == Abs(degree) * speed * speed;
    }
    assert sq <= 25 by {
      MulMonotone(speed, 4, speed);
      MulMonotone(speed, 4, 4);
    }
    MulMonotone(sq, 25, Abs(degree));
    NegLeft(sq, Abs(degree));
    NegLeft(25, Abs(degree));
    NatDivTwice(Abs(x), 5, 5);
    NatDivMonotone(Abs(x), Abs(degree) * 25, 25);
    DivUnique(Abs(degree) * 25, 25, Abs(degree), 0);
    if speed == 0 {
      assert x == 0;
    }
  }

  /** The two truncating divisions by 5 are one truncating division by 25. */
  lemma WithRatioIsOneDivision(speed: nat, degree: int)
    requires speed < 5
    ensures WithRatio(speed, degree) == TDiv(degree * speed * speed, 25)
  {
    TDivTwice(degree * speed * speed, 5, 5);
  }

  /** Scaling commutes with negation, so the vertical axis (which negates
      the elevation) is the mirror image of the horizontal one. */
  lemma WithRatioOdd(speed: nat, degree: int)
    ensures WithRatio(speed, -degree) == -WithRatio(speed, degree)
  {
    if speed < 5 {
      NegLeft(degree, speed);
      NegLeft(degree * speed, speed);
      assert (-degree) * speed * speed == -(degree * speed * speed);
      TDivNeg(degree * speed * speed, 5);
      TDivNeg(TDiv(degree * speed * speed, 5), 5);
    }
  }

  /** An azimuth above 180 degrees is read as a bearing to the left: the
      same direction, as a signed angle in (-180, 180] for a bearing of at
      most 360 degrees. */
  function Recentre(theta: nat): (a: int)
    ensures a % 360 == theta % 360
    ensures theta <= 360 ==> -180 < a <= 180
    ensures a < 0 <==> 180 < theta < 360
  {
    if theta > 180 then theta - 360 else theta
  }

  /** The cell an angle falls on along an axis of `cells` cells spanning
      `fov` degrees: `degree * cells / fov` cells off the centre cell
      `cells / 2`, clamped to the axis. */
  function Axis(degree: int, cells: nat, fov: nat): (p: nat)
    requires cells >= 1 && fov >= 1
    ensures p < cells
    ensures degree == 0 ==> p == cells / 2
    ensures degree >= 0 ==> p >= cells / 2
    ensures degree <= 0 ==> p <= cells / 2
  {
    MulSign(degree, cells);
    Clamp(TDiv(degree * cells, fov) + cells / 2, cells)
  }

  /** A larger angle never lands on an earlier cell. */
  lemma AxisMonotone(d1: int, d2: int, cells: nat, fov: nat)
    requires cells >= 1 && fov >= 1 && d1 <= d2
    ensures Axis(d1, cells, fov) <= Axis(d2, cells, fov)
  {
    MulMonotone(d1, d2, cells);
    TDivMonotone(d1 * cells, d2 * cells, fov);
    ClampMonotone(TDiv(d1 * cells, fov) + cells / 2, TDiv(d2 * cells, fov) + cells / 2, cells);
  }

  /** An angle at or beyond the field of view saturates at the edge cell. */
  lemma AxisSaturates(degree: int, cells: nat, fov: nat)
    requires cells >= 1 && fov >= 1
    ensures degree >= fov ==> Axis(degree, cells, fov) == cells - 1
    ensures degree + fov <= 0 ==> Axis(degree, cells, fov) == 0
  {
    if degree >= fov {
      MulMonotone(fov, degree, cells);
      NegLeft(fov, cells);
      TDivMonotone(cells * fov, degree * cells, fov);
      TDivNonNeg(cells * fov, fov);
      DivUnique(cells * fov, fov, cells, 0);
    } else if degree + fov <= 0 {
      var nf: int := -(fov as int);
      MulMonotone(degree, nf, cells);
      NegLeft(fov, cells);
      NegLeft(nf, cells);
      TDivMonotone(degree * cells, -(cells * fov), fov);
      TDivNeg(cells * fov, fov);
      TDivNonNeg(cells * fov, fov);
      DivUnique(cells * fov, fov, cells, 0);
    }
  }

  /** The flicker rule: the glyph is written over a transparent or blank
      cell, and over anything else only on frames of the widget's parity
      (`oddWins`: odd counters, otherwise even ones). */
  predicate MayWrite(cell: Byte, counter: nat, oddWins: bool) {
    cell == TRANSPARENT || cell == SPACE || counter % 2 == (if oddWins then 1 else 0)
  }

  /** Writes `glyph` at (`r`, `c`) when the flicker rule allows it. */
  function Plot(g: Grid, r: nat, c: nat, glyph: Byte, counter: nat, oddWins: bool): (h: Grid)
    requires r < |g| && c < |g[r]|
    ensures |h| == |g|
    ensures forall i | 0 <= i < |g| :: |h[i]| == |g[i]|
    ensures h[r][c] == (if MayWrite(g[r][c], counter, oddWins) then glyph else g[r][c])
    ensures forall i, j | 0 <= i < |g| && 0 <= j < |g[i]| && (i, j) != (r, c) :: h[i][j] == g[i][j]
  {
    if MayWrite(g[r][c], counter, oddWins) then SetCell(g, r, c, glyph) else g
  }

  /** A cell holding another widget's glyph shows this glyph on exactly one
      of any two consecutive frames and keeps the other glyph on the second,
      whichever parity the widget uses. */
  lemma PlotAlternates(g: Grid, r: nat, c: nat, glyph: Byte, counter: nat, oddWins: bool)
    requires r < |g| && c < |g[r]| && counter < COUNTER_LIMIT
    requires g[r][c] != TRANSPARENT && g[r][c] != SPACE && g[r][c] != glyph
    ensures var now := Plot(g, r, c, glyph, counter, oddWins)[r][c];
            var next := Plot(g, r, c, glyph, NextCounter(counter), oddWins)[r][c];
            (now == glyph && next == g[r][c]) || (now == g[r][c] && next == glyph)
  {
  }

  /** A vector widget's state: its glyph, the field of view it projects, and
      its frame counter. */
  datatype Vector = Vector(glyph: Byte, fovWidth: nat, fovHeight: nat, counter: nat)

  /** What the projection divides by, and the counter's width. */
  predicate Valid(v: Vector) {
    v.fovWidth >= 1 && v.fovHeight >= 1 && v.counter < COUNTER_LIMIT
  }

  /** The constructor: a fresh counter and the spans of a diagonal field of
      view of at most 255 degrees. The widget can draw exactly when the
      vertical span is not zero. */
  function New(glyph: Byte, fov: nat, ratio: Aspect.AspectRatio): (v: Vector)
    requires fov < 256
    ensures v.glyph == glyph && v.counter == 0
    ensures v.fovWidth == Aspect.DiagonalToWidth(ratio, fov) < 256
    ensures v.fovHeight == Aspect.DiagonalToHeight(ratio, fov)
    ensures Valid(v) <==> if ratio == Aspect.Wide then fov >= 3 else fov >= 2
  {
    Aspect.HeightZero(fov);
    Vector(glyph, Aspect.DiagonalToWidth(ratio, fov), Aspect.DiagonalToHeight(ratio, fov), 0)
  }

  /** One drawn frame: the grid, the widget with its counter advanced, and
      the number of rows consumed. */
  datatype Frame = Frame(grid: Grid, widget: Vector, lines: nat)

  /** The row an elevation `phi` (already scaled) projects to: at or above
      the centre row for an elevation above the horizon, at or below it for
      one below. */
  function RowOf(v: Vector, g: Grid, phi: int): (r: nat)
    requires Valid(v) && |g| >= 1
    ensures r < |g|
    ensures phi >= 0 ==> r <= |g| / 2
    ensures phi <= 0 ==> r >= |g| / 2
  {
    Axis(-phi, |g|, v.fovHeight)
  }

  /** One frame of a vector widget at elevation `phi` and azimuth `theta`
      (both already scaled and re-centred as the widget does): the glyph at
      the projected cell under the flicker rule, nothing else changed, the
      counter advanced and no rows consumed. */
  function DrawAt(v: Vector, g: Grid, phi: int, theta: int, oddWins: bool): (out: Frame)
    requires Valid(v) && |g| >= 1 && |g[RowOf(v, g, phi)]| >= 1
    ensures Valid(out.widget)
    ensures Drawn(v, g, RowOf(v, g, phi), Axis(theta, |g[RowOf(v, g, phi)]|, v.fovWidth), oddWins, out)
  {
    var r := RowOf(v, g, phi);
    var c := Axis(theta, |g[r]|, v.fovWidth);
    Frame(Plot(g, r, c, v.glyph, v.counter, oddWins), v.(counter := NextCounter(v.counter)), 0)
  }

  /** `out` is the frame that puts the widget's glyph on (`r`, `c`) under the
      flicker rule, changes no other cell, advances the counter and consumes
      no rows. */
  predicate Drawn(v: Vector, g: Grid, r: nat, c: nat, oddWins: bool, out: Frame)
    requires Valid(v)
  {
    && r < |g| && c < |g[r]|
    && out.lines == 0
    && out.widget == v.(counter := NextCounter(v.counter))
    && |out.grid| == |g|
    && (forall i | 0 <= i < |g| :: |out.grid[i]| == |g[i]|)
    && out.grid[r][c] == (if MayWrite(g[r][c], v.counter, oddWins) then v.glyph else g[r][c])
    && forall i, j | 0 <= i < |g| && 0 <= j < |g[i]| && (i, j) != (r, c) :: out.grid[i][j] == g[i][j]
  }

  /** Two consecutive frames of a widget, each drawn on the same screen and
      the same cell (`r`, `c`) that another widget holds: one shows this
      widget's glyph and the other keeps the other glyph. Every vector
      widget's `Draw` ensures `Drawn`, so this holds for each of them. */
  lemma DrawnAlternates(v: Vector, g: Grid, r: nat, c: nat, oddWins: bool, now: Frame, next: Frame)
    requires Valid(v) && r < |g| && c < |g[r]|
    requires g[r][c] != TRANSPARENT && g[r][c] != SPACE && g[r][c] != v.glyph
    requires Drawn(v, g, r, c, oddWins, now) && Drawn(now.widget, g, r, c, oddWins, next)
    ensures (now.grid[r][c] == v.glyph && next.grid[r][c] == g[r][c])
         || (now.grid[r][c] == g[r][c] && next.grid[r][c] == v.glyph)
  {
  }

  /** The widget the source's tests build: an 18-degree 16:9 field of view
      and a fresh counter. */
  function TestWidget(glyph: Byte): (v: Vector)
    ensures Valid(v) && v == Vector(glyph, 15, 8, 0)
  {
    Aspect.Fov18Wide();
    New(glyph, 18, Aspect.Wide)
  }

  /** The 9 x 32 transparent screen the widget tests draw on. */
  function TestScreen(): (g: Grid)
    ensures |g| == 9 && forall i | 0 <= i < 9 :: g[i] == Blank(32)
  {
    seq(9, _ => Blank(32))
  }

  /** The glyph lands on (`r`, `c`) of the test screen and nowhere else. */
  predicate OnlyAt(g: Grid, r: nat, c: nat, glyph: Byte) {
    && |g| == 9
    && (forall i | 0 <= i < 9 :: |g[i]| == 32)
    && r < 9 && c < 32 && g[r][c] == glyph
    && forall i, j | 0 <= i < 9 && 0 <= j < 32 && (i, j) != (r, c) :: g[i][j] == TRANSPARENT
  }

  /** On the transparent test screen a frame shows the glyph alone. */
  lemma DrawnOnBlank(v: Vector, r: nat, c: nat, oddWins: bool, out: Frame)
    requires Valid(v) && Drawn(v, TestScreen(), r, c, oddWins, out)
    ensures OnlyAt(out.grid, r, c, v.glyph)
  {
  }

  /** Rust's unary minus on an `i16` as a release build computes it: the
      negation of -32768 wraps back to -32768 (a debug build panics). */
  function WrappingNegI16(x: int): (r: int)
    requires -32768 <= x < 32768
    ensures -32768 <= r < 32768
    ensures x != -32768 ==> r == -x
    ensures x == -32768 ==> r == x
  {
    if x == -32768 then x else -x
  }

  /** The row of an `i16` elevation as the waypoint and steerpoint markers
      compute it: negated in 16 bits, then widened and projected. */
  function RowAsWritten(v: Vector, g: Grid, phi: int): (r: nat)
    requires Valid(v) && |g| >= 1 && -32768 <= phi < 32768
    ensures r < |g|
  {
    Axis(WrappingNegI16(phi), |g|, v.fovHeight)
  }

  /** The lowest `i16` elevation is drawn on the top row as written, where
      widening before negating puts it on the bottom row. */
  lemma NegationWraps(v: Vector, g: Grid)
    requires Valid(v) && |g| >= 2 && v.fovHeight <= 32768
    ensures RowAsWritten(v, g, -32768) == 0
    ensures RowOf(v, g, -32768) == |g| - 1
  {
    AxisSaturates(-32768, |g|, v.fovHeight);
    AxisSaturates(32768, |g|, v.fovHeight);
  }

  /** Every other elevation lands on the same row either way. */
  lemma RowAsWrittenAgrees(v: Vector, g: Grid, phi: int)
    requires Valid(v) && |g| >= 1 && -32768 < phi < 32768
    ensures RowAsWritten(v, g, phi) == RowOf(v, g, phi)
  {
  }
}
