/** The waypoint marker: the bearing and elevation of the active waypoint
    projected onto the screen, at any speed and any distance. */
module WaypointVector {
  import opened Grid
  import opened Arith
  import opened Projection
  import Telemetry
  import Aspect
  import Symbols

  /** The marker's glyph in the default table. */
  const MARKER: Byte := Symbols.Code(Symbols.Square)

  /** The projected cell's column, from the re-centred bearing. */
  function Column(v: Vector, c: Telemetry.SphericalCoordinate, cells: nat): (x: nat)
    requires Valid(v) && cells >= 1
    ensures x < cells
    ensures 180 < c.theta < 360 ==> x <= cells / 2
    ensures c.theta <= 180 ==> x >= cells / 2
  {
    Axis(Recentre(c.theta), cells, v.fovWidth)
  }

  /** One frame: the marker written at the waypoint's cell when the cell is
      transparent, blank, or the counter is odd. */
  function Draw(v: Vector, t: Telemetry.Telemetry, g: Grid): (out: Frame)
    requires Valid(v) && |g| >= 1 && |g[RowOf(v, g, t.waypoint.coordinate.phi)]| >= 1
    ensures Valid(out.widget)
    ensures var c := t.waypoint.coordinate;
            Drawn(v, g, RowOf(v, g, c.phi), Column(v, c, |g[RowOf(v, g, c.phi)]|), true, out)
  {
    var c := t.waypoint.coordinate;
    DrawAt(v, g, c.phi, Recentre(c.theta), true)
  }

  /** The distance to the waypoint does not move the marker. */
  lemma IgnoresDistance(v: Vector, t: Telemetry.Telemetry, rho: nat, g: Grid)
    requires Valid(v) && |g| >= 1 && |g[RowOf(v, g, t.waypoint.coordinate.phi)]| >= 1
    ensures var c := t.waypoint.coordinate;
            var t' := t.(waypoint := t.waypoint.(coordinate := c.(rho := rho)));
            Draw(v, t', g) == Draw(v, t, g)
  {
  }

  /** Default telemetry with the waypoint at bearing `theta` and
      elevation `phi`. */
  function Toward(theta: nat, phi: int): (t: Telemetry.Telemetry)
    ensures t.waypoint.coordinate == Telemetry.SphericalCoordinate(0, theta, phi)
  {
    var d := Telemetry.Default();
    d.(waypoint := d.waypoint.(coordinate := Telemetry.SphericalCoordinate(0, theta, phi)))
  }

  /** 1 degree right, 1 below: row 5, column 18. */
  lemma TestBelow()
    ensures OnlyAt(Draw(TestWidget(MARKER), Toward(1, -1), TestScreen()).grid, 5, 18, 7)
  {
    TestFrame(1, -1, 5, 18);
  }

  /** 1 degree right, 1 above: row 3, because -9 / 8 truncates to -1. */
  lemma TestAbove()
    ensures OnlyAt(Draw(TestWidget(MARKER), Toward(1, 1), TestScreen()).grid, 3, 18, 7)
  {
    TestFrame(1, 1, 3, 18);
  }

  /** 45 degrees right and 45 below saturates at the bottom-right cell. */
  lemma TestSaturates()
    ensures OnlyAt(Draw(TestWidget(MARKER), Toward(45, -45), TestScreen()).grid, 8, 31, 7)
  {
    TestFrame(45, -45, 8, 31);
  }

  lemma TestFrame(theta: nat, phi: int, r: nat, x: nat)
    requires RowOf(TestWidget(MARKER), TestScreen(), phi) == r
    requires Column(TestWidget(MARKER), Telemetry.SphericalCoordinate(0, theta, phi), 32) == x
    ensures OnlyAt(Draw(TestWidget(MARKER), Toward(theta, phi), TestScreen()).grid, r, x, 7)
  {
    var v := TestWidget(MARKER);
    DrawnOnBlank(v, r, x, true, Draw(v, Toward(theta, phi), TestScreen()));
  }
}
