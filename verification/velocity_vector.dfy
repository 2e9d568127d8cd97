/** The velocity-vector marker: the direction of flight projected onto the
    screen, pulled towards the centre at low speed. */
module VelocityVector {
  import opened Grid
  import opened Arith
  import opened Projection
  import Telemetry
  import Aspect
  import Symbols

  /** The marker's glyph in the default table. */
  const MARKER: Byte := Symbols.Code(Symbols.VeclocityVector)

  /** Elevation of the marker, scaled by the ground speed. */
  function Elevation(t: Telemetry.Telemetry): int {
    WithRatio(Telemetry.Speed(t), t.velocityVector.phi)
  }

  /** Azimuth of the marker: re-centred, then scaled by the ground speed. */
  function Azimuth(t: Telemetry.Telemetry): int {
    WithRatio(Telemetry.Speed(t), Recentre(t.velocityVector.theta))
  }

  /** The projected cell's row: a higher elevation is a smaller row. */
  function Row(v: Vector, t: Telemetry.Telemetry, g: Grid): (r: nat)
    requires Valid(v) && |g| >= 1
    ensures r < |g|
    ensures Elevation(t) >= 0 ==> r <= |g| / 2
    ensures Elevation(t) <= 0 ==> r >= |g| / 2
  {
    RowOf(v, g, Elevation(t))
  }

  /** One frame: the marker written at its projected cell when the cell is
      transparent, blank, or the counter is odd. */
  function Draw(v: Vector, t: Telemetry.Telemetry, g: Grid): (out: Frame)
    requires Valid(v) && |g| >= 1 && |g[Row(v, t, g)]| >= 1
    ensures Valid(out.widget)
    ensures Drawn(v, g, Row(v, t, g), Axis(Azimuth(t), |g[Row(v, t, g)]|, v.fovWidth), true, out)
  {
    DrawAt(v, g, Elevation(t), Azimuth(t), true)
  }

  /** Standing still, the marker sits on the centre cell whatever the
      direction of the velocity vector. */
  lemma CentredWhenStill(v: Vector, t: Telemetry.Telemetry, g: Grid)
    requires Valid(v) && |g| >= 1 && Telemetry.Speed(t) == 0
    ensures Row(v, t, g) == |g| / 2
    ensures |g[|g| / 2]| >= 1 ==> Axis(Azimuth(t), |g[|g| / 2]|, v.fovWidth) == |g[|g| / 2]| / 2
  {
  }

  /** A bearing in the left half of the compass (181 to 359 degrees) puts
      the marker at or left of the centre column, one in the right half at or
      right of it. */
  lemma BearingSide(v: Vector, t: Telemetry.Telemetry, cells: nat)
    requires Valid(v) && cells >= 1 && t.velocityVector.theta <= 360
    ensures 180 < t.velocityVector.theta < 360 ==> Axis(Azimuth(t), cells, v.fovWidth) <= cells / 2
    ensures t.velocityVector.theta <= 180 ==> Axis(Azimuth(t), cells, v.fovWidth) >= cells / 2
  {
  }

  /** Default telemetry with the velocity vector replaced. */
  function Flying(rho: nat, theta: nat, phi: int): (t: Telemetry.Telemetry)
    ensures t.velocityVector == Telemetry.SphericalCoordinate(rho, theta, phi)
    ensures Telemetry.Speed(t) == rho
  {
    Telemetry.Default().(velocityVector := Telemetry.SphericalCoordinate(rho, theta, phi))
  }

  /** At rest, 1 degree right and 1 below: the centre cell (4, 16). */
  lemma TestAtRest()
    ensures OnlyAt(Draw(TestWidget(MARKER), Flying(0, 1, -1), TestScreen()).grid, 4, 16, 5)
  {
    TestFrame(0, 1, -1, 4, 16);
  }

  /** At speed 5, 1 degree right and 1 below: row 5, column 18. */
  lemma TestMoving()
    ensures OnlyAt(Draw(TestWidget(MARKER), Flying(5, 1, -1), TestScreen()).grid, 5, 18, 5)
  {
    TestFrame(5, 1, -1, 5, 18);
  }

  /** 45 degrees right and 45 below saturates at the bottom-right cell. */
  lemma TestSaturates()
    ensures OnlyAt(Draw(TestWidget(MARKER), Flying(5, 45, -45), TestScreen()).grid, 8, 31, 5)
  {
    TestFrame(5, 45, -45, 8, 31);
  }

  lemma TestFrame(rho: nat, theta: nat, phi: int, r: nat, c: nat)
    requires Row(TestWidget(MARKER), Flying(rho, theta, phi), TestScreen()) == r
    requires Axis(Azimuth(Flying(rho, theta, phi)), 32, 15) == c
    ensures OnlyAt(Draw(TestWidget(MARKER), Flying(rho, theta, phi), TestScreen()).grid, r, c, 5)
  {
    var v := TestWidget(MARKER);
    var t := Flying(rho, theta, phi);
    DrawnOnBlank(v, r, c, true, Draw(v, t, TestScreen()));
  }
}
