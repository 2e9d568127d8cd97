/** The steerpoint marker: the azimuth and elevation of the steerpoint
    projected onto the screen, the azimuth used as given. The steerpoint is
    an input of its own, not a field of the telemetry snapshot. */
module SteerpointVector {
  import opened Grid
  import opened Arith
  import opened Projection
  import Telemetry
  import Aspect
  import Symbols

  /** The marker's glyph in the default table. */
  const MARKER: Byte := Symbols.Code(Symbols.Square)

  /** The projected cell's column, from the raw azimuth: never left of the
      centre column. */
  function Column(v: Vector, c: Telemetry.SphericalCoordinate, cells: nat): (x: nat)
    requires Valid(v) && cells >= 1
    ensures cells / 2 <= x < cells
    ensures c.theta >= v.fovWidth ==> x == cells - 1
  {
    AxisSaturates(c.theta, cells, v.fovWidth);
    Axis(c.theta, cells, v.fovWidth)
  }

  /** One frame: the marker written at the steerpoint's cell when the cell
      is transparent, blank, or the counter is odd. */
  function Draw(v: Vector, c: Telemetry.SphericalCoordinate, g: Grid): (out: Frame)
    requires Valid(v) && |g| >= 1 && |g[RowOf(v, g, c.phi)]| >= 1
    ensures Valid(out.widget)
    ensures Drawn(v, g, RowOf(v, g, c.phi), Column(v, c, |g[RowOf(v, g, c.phi)]|), true, out)
  {
    DrawAt(v, g, c.phi, c.theta, true)
  }

  /** The distance to the steerpoint does not move the marker. */
  lemma IgnoresDistance(v: Vector, c: Telemetry.SphericalCoordinate, rho: nat, g: Grid)
    requires Valid(v) && |g| >= 1 && |g[RowOf(v, g, c.phi)]| >= 1
    ensures Draw(v, c.(rho := rho), g) == Draw(v, c, g)
  {
  }

  /** 1 degree right, 1 below: row 5, column 18. */
  lemma TestBelow()
    ensures OnlyAt(Draw(TestWidget(MARKER), Telemetry.SphericalCoordinate(0, 1, -1), TestScreen()).grid, 5, 18, 7)
  {
    TestFrame(1, -1, 5, 18);
  }

  /** 1 degree right, 1 above: row 3. */
  lemma TestAbove()
    ensures OnlyAt(Draw(TestWidget(MARKER), Telemetry.SphericalCoordinate(0, 1, 1), TestScreen()).grid, 3, 18, 7)
  {
    TestFrame(1, 1, 3, 18);
  }

  /** 45 degrees right and 45 below saturates at the bottom-right cell. */
  lemma TestSaturates()
    ensures OnlyAt(Draw(TestWidget(MARKER), Telemetry.SphericalCoordinate(0, 45, -45), TestScreen()).grid, 8, 31, 7)
  {
    TestFrame(45, -45, 8, 31);
  }

  lemma TestFrame(theta: nat, phi: int, r: nat, x: nat)
    requires RowOf(TestWidget(MARKER), TestScreen(), phi) == r
    requires Column(TestWidget(MARKER), Telemetry.SphericalCoordinate(0, theta, phi), 32) == x
    ensures OnlyAt(Draw(TestWidget(MARKER), Telemetry.SphericalCoordinate(0, theta, phi), TestScreen()).grid, r, x, 7)
  {
    var v := TestWidget(MARKER);
    DrawnOnBlank(v, r, x, true, Draw(v, Telemetry.SphericalCoordinate(0, theta, phi), TestScreen()));
  }
}
