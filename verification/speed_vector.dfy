/** The speed-vector marker: like the velocity vector, but its direction is
    a separate vector whose azimuth is used as given, and it wins contended
    cells on even frames. */
module SpeedVector {
  import opened Grid
  import opened Arith
  import opened Projection
  import Telemetry
  import Aspect
  import Symbols

  /** The marker's glyph in the default table. */
  const MARKER: Byte := Symbols.Code(Symbols.VeclocityVector)

  /** Elevation of the marker, scaled by the ground speed. */
  function Elevation(t: Telemetry.Telemetry, sv: Telemetry.SphericalCoordinate): int {
    WithRatio(Telemetry.Speed(t), sv.phi)
  }

  /** Azimuth of the marker, scaled by the ground speed and not re-centred. */
  function Azimuth(t: Telemetry.Telemetry, sv: Telemetry.SphericalCoordinate): int {
    WithRatio(Telemetry.Speed(t), sv.theta)
  }

  /** The projected cell's row: a higher elevation is a smaller row. */
  function Row(v: Vector, t: Telemetry.Telemetry, sv: Telemetry.SphericalCoordinate, g: Grid): (r: nat)
    requires Valid(v) && |g| >= 1
    ensures r < |g|
    ensures Elevation(t, sv) >= 0 ==> r <= |g| / 2
    ensures Elevation(t, sv) <= 0 ==> r >= |g| / 2
  {
    RowOf(v, g, Elevation(t, sv))
  }

  /** One frame: the marker written at its projected cell when the cell is
      transparent, blank, or the counter is even. */
  function Draw(v: Vector, t: Telemetry.Telemetry, sv: Telemetry.SphericalCoordinate, g: Grid): (out: Frame)
    requires Valid(v) && |g| >= 1 && |g[Row(v, t, sv, g)]| >= 1
    ensures Valid(out.widget)
    ensures Drawn(v, g, Row(v, t, sv, g), Axis(Azimuth(t, sv), |g[Row(v, t, sv, g)]|, v.fovWidth), false, out)
  {
    DrawAt(v, g, Elevation(t, sv), Azimuth(t, sv), false)
  }

  /** Standing still, the marker sits on the centre cell. */
  lemma CentredWhenStill(v: Vector, t: Telemetry.Telemetry, sv: Telemetry.SphericalCoordinate, g: Grid)
    requires Valid(v) && |g| >= 1 && Telemetry.Speed(t) == 0
    ensures Row(v, t, sv, g) == |g| / 2
    ensures |g[|g| / 2]| >= 1 ==> Axis(Azimuth(t, sv), |g[|g| / 2]|, v.fovWidth) == |g[|g| / 2]| / 2
  {
  }

  /** The azimuth is not re-centred: at speed, any azimuth at or beyond the
      horizontal field of view, 359 degrees included, lands on the right
      edge. */
  lemma RawAzimuth(v: Vector, t: Telemetry.Telemetry, sv: Telemetry.SphericalCoordinate, cells: nat)
    requires Valid(v) && cells >= 1 && Telemetry.Speed(t) >= 5 && sv.theta >= v.fovWidth
    ensures Axis(Azimuth(t, sv), cells, v.fovWidth) == cells - 1
  {
    AxisSaturates(sv.theta, cells, v.fovWidth);
  }

  /** Default telemetry moving at `speed`. */
  function Moving(speed: nat): (t: Telemetry.Telemetry)
    ensures Telemetry.Speed(t) == speed
  {
    Telemetry.Default().(velocityVector := Telemetry.SphericalCoordinate(speed, 0, 0))
  }

  /** At rest, 1 degree right and 1 below: the centre cell (4, 16). */
  lemma TestAtRest()
    ensures OnlyAt(Draw(TestWidget(MARKER), Moving(0), Telemetry.SphericalCoordinate(0, 1, -1), TestScreen()).grid, 4, 16, 5)
  {
    TestFrame(0, 1, -1, 4, 16);
  }

  /** At speed 5, 1 degree right and 1 below: row 5, column 18. */
  lemma TestMoving()
    ensures OnlyAt(Draw(TestWidget(MARKER), Moving(5), Telemetry.SphericalCoordinate(5, 1, -1), TestScreen()).grid, 5, 18, 5)
  {
    TestFrame(5, 1, -1, 5, 18);
  }

  /** 45 degrees right and 45 below saturates at the bottom-right cell. */
  lemma TestSaturates()
    ensures OnlyAt(Draw(TestWidget(MARKER), Moving(5), Telemetry.SphericalCoordinate(5, 45, -45), TestScreen()).grid, 8, 31, 5)
  {
    TestFrame(5, 45, -45, 8, 31);
  }

  lemma TestFrame(speed: nat, theta: nat, phi: int, r: nat, c: nat)
    requires Row(TestWidget(MARKER), Moving(speed), Telemetry.SphericalCoordinate(speed, theta, phi), TestScreen()) == r
    requires Axis(Azimuth(Moving(speed), Telemetry.SphericalCoordinate(speed, theta, phi)), 32, 15) == c
    ensures OnlyAt(Draw(TestWidget(MARKER), Moving(speed), Telemetry.SphericalCoordinate(speed, theta, phi), TestScreen()).grid, r, c, 5)
  {
    var v := TestWidget(MARKER);
    var sv := Telemetry.SphericalCoordinate(speed, theta, phi);
    DrawnOnBlank(v, r, c, false, Draw(v, Moving(speed), sv, TestScreen()));
  }
}
