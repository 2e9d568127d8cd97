/** The pitch ladder: a horizon line rasterised with Bresenham's walk in a
    vertically subsampled space, where each grid row holds `n` sub-rows and
    the sub-row picks one of `n` line glyphs. The slope comes from a
    floating-point tangent of the roll, which this model takes as an input. */
module PitchLadder {
  import opened Grid
  import opened Arith

  datatype Point = Point(x: int, y: int)

  /** Index of the small-square glyph in the ladder's nine symbols. */
  const SMALL_BLACK_SQUARE: nat := 7
  /** Index of the vertical-line glyph in the ladder's nine symbols. */
  const VERTICAL_LINE: nat := 8

  /** How a sub-row is read back into a cell. `Truncated` is the code as
      written: the row is the truncating quotient of the sub-row, and the
      glyph is picked by the sub-row cast to a `usize`, 64 bits wide when
      `wide` and 32 bits otherwise. `Floored` is the evidently intended
      reading: the flooring quotient and remainder, so a sub-row above the
      grid lies in a row above the grid. */
  datatype Reading = Floored | Truncated(wide: bool)

  /** One more than the largest `usize` of the chosen width. */
  function UsizeLimit(wide: bool): (limit: nat)
    ensures limit == if wide then 0x1_0000_0000_0000_0000 else 0x1_0000_0000
  {
    if wide then 0x1_0000_0000_0000_0000 else 0x1_0000_0000
  }

  /** The grid row sub-row `y` belongs to, with `n` sub-rows per row. */
  function RowOfSub(y: int, n: nat, rd: Reading): (row: int)
    requires n >= 1
    ensures y >= 0 ==> row == y / n
    ensures y < 0 && rd == Floored ==> row < 0
    ensures y < 0 && rd != Floored ==> row <= 0 && (row == 0 <==> y + n > 0)
  {
    if rd.Floored? then y / n
    else if y >= 0 then TDivNonNeg(y, n); TDiv(y, n)
    else TDiv(y, n)
  }

  /** The glyph index sub-row `y` picks among `n` glyphs. As written, the
      `isize` sub-row is cast to a `usize`, which wraps a negative one
      around the width. */
  function GlyphOfSub(y: int, n: nat, rd: Reading): (k: nat)
    requires n >= 1
    ensures k < n
    ensures y >= 0 ==> k == y % n
  {
    if rd.Floored? then y % n
    else (if y >= 0 then y else y + UsizeLimit(rd.wide)) % n
  }

  /** Point `p` of a walk with `n` sub-rows per row lands on a cell of `g`:
      its sub-row lies in a row of the grid and its column in the grid. */
  predicate Hits(g: Grid, p: Point, n: nat, rd: Reading)
    requires Rectangular(g) && n >= 1
  {
    0 <= RowOfSub(p.y, n, rd) < |g| && 0 <= p.x < |g[0]|
  }

  /** Paints one point: the cell of its row gets the glyph of its sub-row;
      a point off the grid changes nothing. */
  function PaintPoint(g: Grid, p: Point, pal: seq<Byte>, rd: Reading): (h: Grid)
    requires Rectangular(g) && |pal| >= 1
    ensures Rectangular(h) && |h| == |g| && |h[0]| == |g[0]|
    ensures Hits(g, p, |pal|, rd) ==> h[RowOfSub(p.y, |pal|, rd)][p.x] == pal[GlyphOfSub(p.y, |pal|, rd)]
    ensures forall r, c | 0 <= r < |g| && 0 <= c < |g[0]|
              && !(Hits(g, p, |pal|, rd) && r == RowOfSub(p.y, |pal|, rd) && c == p.x) ::
              h[r][c] == g[r][c]
    ensures !Hits(g, p, |pal|, rd) ==> h == g
  {
    if Hits(g, p, |pal|, rd) then SetCell(g, RowOfSub(p.y, |pal|, rd), p.x, pal[GlyphOfSub(p.y, |pal|, rd)]) else g
  }

  /** Paints the points of a walk in order. */
  function Paint(g: Grid, pts: seq<Point>, pal: seq<Byte>, rd: Reading): (h: Grid)
    requires Rectangular(g) && |pal| >= 1
    ensures Rectangular(h) && |h| == |g| && |h[0]| == |g[0]|
    decreases |pts|
  {
    if |pts| == 0 then g else PaintPoint(Paint(g, pts[..|pts| - 1], pal, rd), pts[|pts| - 1], pal, rd)
  }

  /** A cell that no point of the walk hits keeps its value. */
  lemma {:induction false} PaintUnchanged(g: Grid, pts: seq<Point>, pal: seq<Byte>, rd: Reading, r: nat, c: nat)
    requires Rectangular(g) && |pal| >= 1 && r < |g| && c < |g[0]|
    requires forall k | 0 <= k < |pts| ::
               !(Hits(g, pts[k], |pal|, rd) && RowOfSub(pts[k].y, |pal|, rd) == r && pts[k].x == c)
    ensures Paint(g, pts, pal, rd)[r][c] == g[r][c]
    decreases |pts|
  {
    if |pts| > 0 {
      var init := pts[..|pts| - 1];
      PaintUnchanged(g, init, pal, rd, r, c);
    }
  }

  /** A walk none of whose points lands on the grid leaves the grid as it
      was. */
  lemma {:induction false} PaintMisses(g: Grid, pts: seq<Point>, pal: seq<Byte>, rd: Reading)
    requires Rectangular(g) && |pal| >= 1
    requires forall k | 0 <= k < |pts| :: !Hits(g, pts[k], |pal|, rd)
    ensures Paint(g, pts, pal, rd) == g
    decreases |pts|
  {
    if |pts| > 0 {
      PaintMisses(g, pts[..|pts| - 1], pal, rd);
    }
  }

  /** A cell shows the glyph of the last point of the walk that hits it. */
  lemma {:induction false} PaintLastHit(g: Grid, pts: seq<Point>, pal: seq<Byte>, rd: Reading, k: nat)
    requires Rectangular(g) && |pal| >= 1 && k < |pts| && Hits(g, pts[k], |pal|, rd)
    requires forall m | k < m < |pts| ::
               !(Hits(g, pts[m], |pal|, rd) && RowOfSub(pts[m].y, |pal|, rd) == RowOfSub(pts[k].y, |pal|, rd)
                 && pts[m].x == pts[k].x)
    ensures Paint(g, pts, pal, rd)[RowOfSub(pts[k].y, |pal|, rd)][pts[k].x] == pal[GlyphOfSub(pts[k].y, |pal|, rd)]
    decreases |pts|
  {
    var init := pts[..|pts| - 1];
    if k < |pts| - 1 {
      PaintLastHit(g, init, pal, rd, k);
    }
  }

  /** One step of the walk: it moves, by at most one unit on each axis, and
      never away from the target on either axis. */
  predicate StepToward(a: Point, b: Point, target: Point) {
    && a != b
    && Abs(b.x - a.x) <= 1 && Abs(b.y - a.y) <= 1
    && Abs(target.x - b.x) <= Abs(target.x - a.x)
    && Abs(target.y - b.y) <= Abs(target.y - a.y)
  }

  /** A walk from `p0` that ends on `p1`, each step a step toward `p1`. */
  predicate Walk(pts: seq<Point>, p0: Point, p1: Point) {
    && |pts| >= 1 && pts[0] == p0 && pts[|pts| - 1] == p1
    && forall k | 0 <= k < |pts| - 1 :: StepToward(pts[k], pts[k + 1], p1)
  }

  /** The cross product of the offset (`i`, `j`) of a point from the start
      with the line's extent (`dx`, `dy`): zero on the ideal line. */
  function Deviation(i: int, j: int, dx: int, dy: int): int {
    j * dx - i * dy
  }

  /** Point `p` lies within the Bresenham band of the ideal line from `p0`
      to `p1`: twice the cross product of its offset with the extent is at
      most the extent's taxicab length. That keeps it within about one cell
      of the line, not necessarily on the nearest cell. */
  predicate Near(p: Point, p0: Point, p1: Point) {
    var dx := Abs(p1.x - p0.x);
    var dy := Abs(p1.y - p0.y);
    2 * Abs(Deviation(Abs(p.x - p0.x), Abs(p.y - p0.y), dx, dy)) <= dx + dy
  }

  /** The coordinate `k` units from `a` in the direction of `b`. */
  function Along(a: int, b: int, k: int): int {
    if a < b then a + k else a - k
  }

  /** The point `i` columns and `j` sub-rows into the walk from `p0` to
      `p1`. */
  function At(p0: Point, p1: Point, i: int, j: int): Point {
    Point(Along(p0.x, p1.x, i), Along(p0.y, p1.y, j))
  }

  /** `draw_line`: Bresenham's walk from `p0` to `p1`, painting every point
      it visits. It ends on `p1`, steps toward it one unit at a time, and
      stays within the Bresenham band of the ideal line. */
  method DrawLine(g: Grid, p0: Point, p1: Point, pal: seq<Byte>, rd: Reading) returns (out: Grid, pts: seq<Point>)
    requires Rectangular(g) && |pal| >= 1
    ensures Walk(pts, p0, p1)
    ensures out == Paint(g, pts, pal, rd)
    ensures forall k | 0 <= k < |pts| :: Near(pts[k], p0, p1)
  {
    var err := Abs(p1.x - p0.x) - Abs(p1.y - p0.y);
    var x, y := p0.x, p0.y;
    ghost var i: int, j: int := 0, 0;
    out := PaintPoint(g, Point(x, y), pal, rd);
    pts := [Point(x, y)];
    assert Paint(g, pts, pal, rd) == out by {
      assert pts[..0] == [];
    }
    assert Near(p0, p0, p1);
    assert Walking(pts, p0, p1, p0);
    while !(x == p1.x && y == p1.y)
      invariant State(p0, p1, i, j, err)
      invariant Point(x, y) == At(p0, p1, i, j)
      invariant Walking(pts, p0, p1, Point(x, y))
      invariant out == Paint(g, pts, pal, rd)
      decreases Abs(p1.x - p0.x) - i + Abs(p1.y - p0.y) - j
    {
      ghost var before := pts;
      ghost var cur := Point(x, y);
      x, y, err, i, j := WalkStep(p0, p1, x, y, err, i, j);
      out := PaintPoint(out, Point(x, y), pal, rd);
      pts := pts + [Point(x, y)];
      Extend(g, before, p0, p1, Point(x, y), pal, rd);
    }
  }

  /** One iteration of `draw_line` short of the end point: the doubled error
      term is tested against both extents, stepping the column, the sub-row
      or both. The new point is a step toward `p1`, near the ideal line, and
      the walk has advanced. */
  method WalkStep(p0: Point, p1: Point, x: int, y: int, err: int, ghost i: int, ghost j: int)
    returns (x': int, y': int, err': int, ghost i': int, ghost j': int)
    requires State(p0, p1, i, j, err) && Point(x, y) == At(p0, p1, i, j) && Point(x, y) != p1
    ensures State(p0, p1, i', j', err') && Point(x', y') == At(p0, p1, i', j')
    ensures i' + j' > i + j
    ensures StepToward(Point(x, y), Point(x', y'), p1) && Near(Point(x', y'), p0, p1)
  {
    var dx := Abs(p1.x - p0.x);
    var sx := if p0.x < p1.x then 1 else -1;
    var dy: int := -(Abs(p1.y - p0.y) as int);
    var sy := if p0.y < p1.y then 1 else -1;
    AtOffsets(p0, p1, i, j);
    x', y', err', i', j' := x, y, err, i, j;
    var e2 := err * 2;
    if e2 >= dy {
      err' := err' + dy;
      x' := x' + sx;
      i' := i' + 1;
    }
    if e2 <= dx {
      err' := err' + dx;
      y' := y' + sy;
      j' := j' + 1;
    }
    Band(i, j, dx, -dy, err, i', j', err');
    assert Point(x', y') == At(p0, p1, i', j');
    NearAt(p0, p1, i', j');
    StepGeometry(p0, p1, i, j, i', j');
  }

  /** The walk so far: from `p0` to the current point `cur`, every step
      toward `p1`, every point near the ideal line. */
  predicate Walking(pts: seq<Point>, p0: Point, p1: Point, cur: Point) {
    && |pts| >= 1 && pts[0] == p0 && pts[|pts| - 1] == cur
    && (forall k | 0 <= k < |pts| - 1 :: StepToward(pts[k], pts[k + 1], p1))
    && forall k | 0 <= k < |pts| :: Near(pts[k], p0, p1)
  }

  /** Appending a step near the line extends the walk, and painting the
      longer walk is painting the new point over the shorter one. */
  lemma Extend(g: Grid, pts: seq<Point>, p0: Point, p1: Point, next: Point, pal: seq<Byte>, rd: Reading)
    requires Rectangular(g) && |pal| >= 1 && |pts| >= 1
    requires Walking(pts, p0, p1, pts[|pts| - 1])
    requires StepToward(pts[|pts| - 1], next, p1) && Near(next, p0, p1)
    ensures Walking(pts + [next], p0, p1, next)
    ensures Paint(g, pts + [next], pal, rd) == PaintPoint(Paint(g, pts, pal, rd), next, pal, rd)
  {
    assert (pts + [next])[..|pts|] == pts;
  }

  /** The state of the walk after `i` column steps and `j` sub-row steps:
      neither axis overshot, and the deviation within the Bresenham band. */
  predicate Progress(p0: Point, p1: Point, i: int, j: int) {
    var dx := Abs(p1.x - p0.x);
    var dy := Abs(p1.y - p0.y);
    && 0 <= i <= dx && 0 <= j <= dy
    && -(dx + dy) <= 2 * Deviation(i, j, dx, dy) <= dx + dy
  }

  /** The walk's state after `i` column steps and `j` sub-row steps: the
      progress made and the error term the source keeps. */
  predicate State(p0: Point, p1: Point, i: int, j: int, err: int) {
    && Progress(p0, p1, i, j)
    && err == Deviation(i, j, Abs(p1.x - p0.x), Abs(p1.y - p0.y)) + Abs(p1.x - p0.x) - Abs(p1.y - p0.y)
  }

  /** Column `i` and sub-row `j` of the walk lie `i` and `j` units from the
      start; at `i == dx` and `j == dy` the walk is on its end point. */
  lemma AtOffsets(p0: Point, p1: Point, i: int, j: int)
    requires 0 <= i && 0 <= j
    ensures Abs(At(p0, p1, i, j).x - p0.x) == i
    ensures Abs(At(p0, p1, i, j).y - p0.y) == j
    ensures At(p0, p1, i, j) == p1 <==> i == Abs(p1.x - p0.x) && j == Abs(p1.y - p0.y)
  {
  }

  /** The arithmetic of one iteration on the step counts alone: from a
      state short of the end, the error term's two tests step at least one
      axis, never past its end, keep the deviation in the band and keep the
      error term in step with it. */
  lemma Band(i: int, j: int, dx: int, dy: int, err: int, i': int, j': int, err': int)
    requires 0 <= i <= dx && 0 <= j <= dy && !(i == dx && j == dy)
    requires -(dx + dy) <= 2 * Deviation(i, j, dx, dy) <= dx + dy
    requires err == Deviation(i, j, dx, dy) + dx - dy
    requires i' == (if 2 * err + dy >= 0 then i + 1 else i)
    requires j' == (if 2 * err <= dx then j + 1 else j)
    requires err' == err - (if i' > i then dy else 0) + (if j' > j then dx else 0)
    ensures 0 <= i' <= dx && 0 <= j' <= dy && (i' > i || j' > j)
    ensures -(dx + dy) <= 2 * Deviation(i', j', dx, dy) <= dx + dy
    ensures err' == Deviation(i', j', dx, dy) + dx - dy
  {
    WalkBounds(i, j, dx, dy);
    DeviationStep(i, j, dx, dy);
  }

  /** A point whose step counts keep the deviation within the band is near
      the ideal line. */
  lemma NearAt(p0: Point, p1: Point, i: int, j: int)
    requires 0 <= i && 0 <= j
    requires var dx := Abs(p1.x - p0.x);
             var dy := Abs(p1.y - p0.y);
             -(dx + dy) <= 2 * Deviation(i, j, dx, dy) <= dx + dy
    ensures Near(At(p0, p1, i, j), p0, p1)
  {
    AtOffsets(p0, p1, i, j);
  }

  /** Moving from step counts (`i`, `j`) to (`i'`, `j'`), each at most one
      more and at least one of them more, with neither past the end, is a
      step toward `p1`. */
  lemma StepGeometry(p0: Point, p1: Point, i: int, j: int, i': int, j': int)
    requires 0 <= i <= i' <= i + 1 && 0 <= j <= j' <= j + 1 && (i' > i || j' > j)
    requires i' <= Abs(p1.x - p0.x) && j' <= Abs(p1.y - p0.y)
    ensures StepToward(At(p0, p1, i, j), At(p0, p1, i', j'), p1)
  {
  }

  /** The facts the walk needs at each iteration: it never steps an axis it
      has finished. */
  lemma WalkBounds(i: int, j: int, dx: int, dy: int)
    requires 0 <= i <= dx && 0 <= j <= dy && !(i == dx && j == dy)
    ensures i == dx ==> 2 * (Deviation(i, j, dx, dy) + dx - dy) + dy < 0
    ensures j == dy ==> 2 * (Deviation(i, j, dx, dy) + dx - dy) > dx
  {
    if i == dx {
      MulMonotone(j + 1, dy, dx);
      NegLeft(dy, dx);
      MulLeft(j + 1, 1, dx);
    }
    if j == dy {
      MulMonotone(i + 1, dx, dy);
      NegLeft(dx, dy);
      MulLeft(i + 1, 1, dy);
    }
  }

  lemma DeviationStep(i: int, j: int, dx: int, dy: int)
    ensures Deviation(i + 1, j, dx, dy) == Deviation(i, j, dx, dy) - dy
    ensures Deviation(i, j + 1, dx, dy) == Deviation(i, j, dx, dy) + dx
    ensures Deviation(i + 1, j + 1, dx, dy) == Deviation(i, j, dx, dy) + dx - dy
  {
  }

  /** A walk along one sub-row, left to right, visits every column once, in
      order. */
  lemma {:induction false} LevelWalk(pts: seq<Point>, p0: Point, p1: Point, k: nat)
    requires Walk(pts, p0, p1) && p0.y == p1.y && p0.x <= p1.x && k < |pts|
    ensures pts[k] == Point(p0.x + k, p0.y) && p0.x + k <= p1.x
    decreases k
  {
    if k > 0 {
      LevelWalk(pts, p0, p1, k - 1);
      assert StepToward(pts[k - 1], pts[k], p1);
    }
  }

  /** The length of a level walk. */
  lemma LevelWalkLength(pts: seq<Point>, p0: Point, p1: Point)
    requires Walk(pts, p0, p1) && p0.y == p1.y && p0.x <= p1.x
    ensures |pts| == p1.x - p0.x + 1
  {
    LevelWalk(pts, p0, p1, |pts| - 1);
  }

  /** Painting a level walk across the grid at sub-row `y` fills the row
      `y` is read into with the glyph it picks and leaves every other row
      alone; when that row is off the grid nothing changes. */
  lemma LevelLine(g: Grid, pts: seq<Point>, pal: seq<Byte>, rd: Reading, y: int)
    requires Rectangular(g) && |pal| >= 1
    requires Walk(pts, Point(0, y), Point(|g[0]|, y))
    ensures var row := RowOfSub(y, |pal|, rd);
            && (0 <= row < |g| ==>
                  && (forall x | 0 <= x < |g[0]| :: Paint(g, pts, pal, rd)[row][x] == pal[GlyphOfSub(y, |pal|, rd)])
                  && forall r, x | 0 <= r < |g| && r != row && 0 <= x < |g[0]| :: Paint(g, pts, pal, rd)[r][x] == g[r][x])
            && (!(0 <= row < |g|) ==> Paint(g, pts, pal, rd) == g)
  {
    var p0, p1 := Point(0, y), Point(|g[0]|, y);
    var row := RowOfSub(y, |pal|, rd);
    LevelWalkLength(pts, p0, p1);
    forall k | 0 <= k < |pts|
      ensures pts[k] == Point(k, y)
    {
      LevelWalk(pts, p0, p1, k);
    }
    if 0 <= row < |g| {
      forall x | 0 <= x < |g[0]|
        ensures Paint(g, pts, pal, rd)[row][x] == pal[GlyphOfSub(y, |pal|, rd)]
      {
        PaintLastHit(g, pts, pal, rd, x);
      }
      forall r, x | 0 <= r < |g| && r != row && 0 <= x < |g[0]|
        ensures Paint(g, pts, pal, rd)[r][x] == g[r][x]
      {
        PaintUnchanged(g, pts, pal, rd, r, x);
      }
    } else {
      PaintMisses(g, pts, pal, rd);
    }
  }

  /** `roll % 91` with Rust's truncating remainder: the identity on the
      documented range (-90, 90], and beyond it (as an `i8` can be) a shift
      by 91 toward zero rather than a fold into the range. */
  function FoldRoll(roll: int): (r: int)
    ensures -90 <= r <= 90
    ensures -90 <= roll <= 90 ==> r == roll
    ensures 91 <= roll < 182 ==> r == roll - 91
    ensures -182 < roll <= -91 ==> r == roll + 91
  {
    TRem(roll, 91)
  }

  /** The glyphs the ladder draws with for a folded roll: the vertical line
      at 90 degrees, the small square from 60 degrees either way, and the
      seven line glyphs (top to bottom sub-row) otherwise. */
  function Palette(roll: int, symbols: seq<Byte>): (pal: seq<Byte>)
    requires |symbols| == 9
    ensures roll == 90 ==> pal == [symbols[VERTICAL_LINE]]
    ensures roll != 90 && (roll >= 60 || roll <= -60) ==> pal == [symbols[SMALL_BLACK_SQUARE]]
    ensures -60 < roll < 60 ==> pal == symbols[..SMALL_BLACK_SQUARE]
  {
    if roll == 90 then symbols[VERTICAL_LINE..VERTICAL_LINE + 1]
    else if roll >= 60 || roll <= -60 then symbols[SMALL_BLACK_SQUARE..SMALL_BLACK_SQUARE + 1]
    else symbols[..SMALL_BLACK_SQUARE]
  }

  /** An `i8` roll past 90 degrees is drawn with the level-flight glyphs:
      100 degrees reads as 9. */
  lemma SteepRollDrawnLevel(symbols: seq<Byte>)
    requires |symbols| == 9
    ensures FoldRoll(100) == 9
    ensures Palette(FoldRoll(100), symbols) == symbols[..SMALL_BLACK_SQUARE]
  {
  }

  /** A pitch ladder: its nine glyphs (seven line glyphs, the small square,
      the vertical line) and the vertical span of the field of view. */
  datatype Ladder = Ladder(symbols: seq<Byte>, fovHeight: nat)

  /** The grid row of the horizon: the middle row shifted by
      `pitch * rows / fovHeight` rows, truncating. */
  function Level(l: Ladder, pitch: int, rows: nat): (row: int)
    requires l.fovHeight >= 1
    ensures pitch == 0 ==> row == rows / 2
    ensures pitch >= 0 ==> row >= rows / 2
    ensures pitch <= 0 ==> row <= rows / 2
  {
    MulSign(pitch, rows);
    rows / 2 + TDiv(pitch * rows, l.fovHeight)
  }

  /** The sub-row of the horizon's centre: the middle sub-row of the level
      row. */
  function MidSubRow(level: int, n: nat): (y: int)
    requires n >= 1
    ensures level >= 0 ==> y >= 0 && y / n == level && y % n == n / 2
    ensures level < 0 ==> y < 0
  {
    SubRowOfLevel(level, n);
    level * n + n / 2
  }

  lemma SubRowOfLevel(level: int, n: nat)
    requires n >= 1
    ensures var y := level * n + n / 2;
            && (level >= 0 ==> y >= 0 && y / n == level && y % n == n / 2)
            && (level < 0 ==> y < 0)
  {
    if level >= 0 {
      MulSign(level, n);
      DivUnique(level * n + n / 2, n, level, n / 2);
    } else {
      MulMonotone(level, -1, n);
    }
  }

  /** One frame of the ladder under reading `rd`: fold the roll, choose the
      glyphs, and walk from the left edge to one past the right edge
      through the horizon's centre, `slope` sub-rows up on the left and
      down on the right. With no slope the row the centre sub-row is read
      into fills with the glyph it picks and nothing else changes, or
      nothing changes at all when that row is off the grid; a level row on
      the grid fills with the middle glyph under either reading. No rows
      are consumed. */
  method Draw(l: Ladder, pitch: int, roll: int, slope: int, g: Grid, rd: Reading)
    returns (out: Grid, pts: seq<Point>, lines: nat)
    requires Rectangular(g) && |l.symbols| == 9 && l.fovHeight >= 1
    ensures lines == 0
    ensures Rectangular(out) && |out| == |g| && |out[0]| == |g[0]|
    ensures var pal := Palette(FoldRoll(roll), l.symbols);
            var mid := MidSubRow(Level(l, pitch, |g|), |pal|);
            && Walk(pts, Point(0, mid - slope), Point(|g[0]|, mid + slope))
            && out == Paint(g, pts, pal, rd)
            && forall k | 0 <= k < |pts| :: Near(pts[k], Point(0, mid - slope), Point(|g[0]|, mid + slope))
    ensures var pal := Palette(FoldRoll(roll), l.symbols);
            var mid := MidSubRow(Level(l, pitch, |g|), |pal|);
            var row := RowOfSub(mid, |pal|, rd);
            slope == 0 ==>
              && (0 <= row < |g| ==>
                    && (forall x | 0 <= x < |g[0]| :: out[row][x] == pal[GlyphOfSub(mid, |pal|, rd)])
                    && forall r, x | 0 <= r < |g| && r != row && 0 <= x < |g[0]| :: out[r][x] == g[r][x])
              && (!(0 <= row < |g|) ==> out == g)
    ensures var pal := Palette(FoldRoll(roll), l.symbols);
            var level := Level(l, pitch, |g|);
            slope == 0 && 0 <= level < |g| ==>
              && (forall x | 0 <= x < |g[0]| :: out[level][x] == pal[|pal| / 2])
              && forall r, x | 0 <= r < |g| && r != level && 0 <= x < |g[0]| :: out[r][x] == g[r][x]
  {
    var height := |g|;
    var width := |g[0]|;
    var folded := FoldRoll(roll);
    var symbols := Palette(folded, l.symbols);
    var n := |symbols|;
    var level := Level(l, pitch, height);
    var y0 := -slope + MidSubRow(level, n);
    var y1 := slope + MidSubRow(level, n);
    out, pts := DrawLine(g, Point(0, y0), Point(width, y1), symbols, rd);
    if slope == 0 {
      LevelLine(g, pts, symbols, rd, y0);
    }
    lines := 0;
  }

  /** Under the flooring reading a point above the grid changes nothing,
      whatever its column and however many glyphs there are. */
  lemma FlooredSkipsAbove(g: Grid, p: Point, pal: seq<Byte>)
    requires Rectangular(g) && |pal| >= 1 && p.y < 0
    ensures PaintPoint(g, p, pal, Floored) == g
  {
  }

  /** As written, the sub-row just above the grid is drawn on the top row,
      with glyph 1 of seven on a 64-bit target and glyph 3 on a 32-bit one,
      where the flooring reading leaves the grid alone. */
  lemma SubRowAboveGrid(g: Grid, pal: seq<Byte>, wide: bool)
    requires Rectangular(g) && |g[0]| >= 1 && |pal| == 7
    ensures PaintPoint(g, Point(0, -1), pal, Truncated(wide))[0][0] == pal[if wide then 1 else 3]
    ensures PaintPoint(g, Point(0, -1), pal, Floored) == g
  {
    assert TDiv(-1, 7) == 0;
    assert (0x1_0000_0000_0000_0000 - 1) % 7 == 1;
    assert (0x1_0000_0000 - 1) % 7 == 3;
  }

  /** On and below the grid's first sub-row, and for one-glyph palettes, the
      two readings agree, whatever the `usize` width. */
  lemma AsWrittenAgrees(g: Grid, p: Point, pal: seq<Byte>, wide: bool)
    requires Rectangular(g) && |pal| >= 1
    requires p.y >= 0 || |pal| == 1
    ensures PaintPoint(g, p, pal, Truncated(wide)) == PaintPoint(g, p, pal, Floored)
  {
  }

  /** The 9 x 32 transparent screen of the source's test and the glyph
      codes the test substitutes for the ladder's nine symbols. */
  function TestScreen(): (g: Grid)
    ensures Rectangular(g) && |g| == 9 && |g[0]| == 32
    ensures forall r | 0 <= r < 9 :: g[r] == Blank(32)
  {
    seq(9, _ => Blank(32))
  }

  /** The level frame the default telemetry gives on a 9 x 32 screen with
      an 18-degree 16:9 field of view, under either reading: the middle row
      all middle line glyph. */
  method TestLevel(square: Byte, vertical: Byte, rd: Reading) returns (out: Grid)
    ensures Rectangular(out) && |out| == 9 && |out[0]| == 32
    ensures forall x | 0 <= x < 32 :: out[4][x] == 11
    ensures forall r, x | 0 <= r < 9 && r != 4 && 0 <= x < 32 :: out[r][x] == TRANSPARENT
  {
    var screen := TestScreen();
    var symbols: seq<Byte> := [8, 9, 10, 11, 12, 13, 14, square, vertical];
    var l := Ladder(symbols, 8);
    assert FoldRoll(0) == 0;
    var pal := Palette(0, symbols);
    assert |pal| / 2 == 3 && pal[3] == 11;
    assert Level(l, 0, 9) == 4;
    var pts, lines;
    out, pts, lines := Draw(l, 0, 0, 0, screen, rd);
  }

  /** Five degrees nose down with an 8-degree vertical span on nine rows:
      the level row is -1 and the centre sub-row -4, just above the grid.
      As written the top row fills with glyph 5 of the line glyphs on a
      64-bit target and glyph 0 on a 32-bit one; under the flooring reading
      the screen stays clear. */
  method TestNoseDown(square: Byte, vertical: Byte, wide: bool) returns (asWritten: Grid, floored: Grid)
    ensures Rectangular(asWritten) && |asWritten| == 9 && |asWritten[0]| == 32
    ensures forall x | 0 <= x < 32 :: asWritten[0][x] == if wide then 13 else 8
    ensures forall r, x | 1 <= r < 9 && 0 <= x < 32 :: asWritten[r][x] == TRANSPARENT
    ensures floored == TestScreen()
  {
    var screen := TestScreen();
    var symbols: seq<Byte> := [8, 9, 10, 11, 12, 13, 14, square, vertical];
    var l := Ladder(symbols, 8);
    assert FoldRoll(0) == 0;
    var pal := Palette(0, symbols);
    assert TDiv(-5 * 9, 8) == -5;
    assert Level(l, -5, 9) == -1;
    assert MidSubRow(-1, 7) == -4;
    assert RowOfSub(-4, 7, Truncated(wide)) == 0;
    assert GlyphOfSub(-4, 7, Truncated(wide)) == if wide then 5 else 0 by {
      assert (0x1_0000_0000_0000_0000 - 4) % 7 == 5;
      assert (0x1_0000_0000 - 4) % 7 == 0;
    }
    var pts, lines;
    asWritten, pts, lines := Draw(l, -5, 0, 0, screen, Truncated(wide));
    floored, pts, lines := Draw(l, -5, 0, 0, screen, Floored);
  }
}
