/** The heading tape: a 15-cell ruler of decade labels around the current
    heading, and below (or above) it a pointer row holding the yaw caret and
    the waypoint glyph. */
module HeadingTape {
  import opened Grid
  import opened Decimal
  import Arith

  /** Cells of the visible ruler, e.g. "350 . 000 . 010". */
  const TAPE_WIDTH: nat := 15
  /** Cells on each side of the centre cell. */
  const MAX_OFFSET: nat := 7
  /** Scratch width: the ruler plus two hidden cells on each side, where
      labels that are only partly visible are drawn. */
  const BUFFER_WIDTH: nat := 19

  const CARET: Byte := 94
  const DOT: Byte := 46

  /** Degrees to tape cells, 3/5 of a cell per degree. */
  function DegreeToOffset(degree: nat): (o: nat)
    ensures o <= degree
    ensures o * 5 <= degree * 3 < (o + 1) * 5
  {
    degree * 3 / 5
  }

  /** Cell of a bearing on the 15-cell tape: the centre for 0, the right half
      for bearings below 180, the left half for the rest, saturating at the
      edges. */
  function ThetaToOffset(theta: nat): (o: nat)
    requires theta <= 360
    ensures o <= 2 * MAX_OFFSET
    ensures theta == 0 || theta == 360 ==> o == MAX_OFFSET
    ensures theta < 180 ==> MAX_OFFSET <= o
    ensures 180 <= theta ==> o <= MAX_OFFSET
    ensures theta < 180 ==> (o == 2 * MAX_OFFSET <==> theta >= 12)
    ensures 180 <= theta ==> (o == 0 <==> theta <= 348)
  {
    if theta < 180 then
      MAX_OFFSET + Min(DegreeToOffset(theta), MAX_OFFSET)
    else
      MAX_OFFSET - Min(DegreeToOffset(360 - theta), MAX_OFFSET)
  }

  function Min(a: nat, b: nat): nat {
    if a <= b then a else b
  }

  /** A bearing and its mirror image across north land symmetrically about
      the centre cell. */
  lemma OffsetMirror(theta: nat)
    requires 1 <= theta <= 179
    ensures ThetaToOffset(theta) + ThetaToOffset(360 - theta) == 2 * MAX_OFFSET
  {
  }

  /** Within each half the tape position grows with the bearing. */
  lemma OffsetMonotone(t1: nat, t2: nat)
    requires t1 <= t2 <= 360
    requires t2 < 180 || 180 <= t1
    ensures ThetaToOffset(t1) <= ThetaToOffset(t2)
  {
    if t2 < 180 {
      Arith.NatDivMonotone(t1 * 3, t2 * 3, 5);
    } else {
      Arith.NatDivMonotone((360 - t2) * 3, (360 - t1) * 3, 5);
    }
  }

  /** First cell of the ruler in a row: the ruler is centred on `|row| / 2`. */
  function TapeStart(row: Row): nat
    requires |row| >= TAPE_WIDTH
  {
    |row| / 2 - MAX_OFFSET
  }

  /** The pointer row. The yaw caret and the waypoint glyph go to their tape
      cells; when they share a cell, an even counter shows the caret and an
      odd one the waypoint glyph. No other cell changes. */
  function DrawIndicator(theta: nat, wpTheta: nat, glyph: Byte, counter: nat, row: Row): (r: Row)
    requires theta <= 360 && wpTheta <= 360
    requires |row| >= TAPE_WIDTH
    ensures |r| == |row|
    ensures var at := TapeStart(row) + ThetaToOffset(theta);
            var wp := TapeStart(row) + ThetaToOffset(wpTheta);
            && (at != wp ==> r[at] == CARET && r[wp] == glyph)
            && (at == wp ==> r[at] == if counter % 2 == 0 then CARET else glyph)
            && forall i | 0 <= i < |row| && i != at && i != wp :: r[i] == row[i]
  {
    var at := TapeStart(row) + ThetaToOffset(theta);
    var wp := TapeStart(row) + ThetaToOffset(wpTheta);
    var r1 := if counter % 2 == 0 || at != wp then row[at := CARET] else row;
    if counter % 2 == 1 || at != wp then r1[wp := glyph] else r1
  }

  /** Over two consecutive frames a contended pointer cell shows both glyphs,
      one per frame. */
  lemma IndicatorAlternates(theta: nat, wpTheta: nat, glyph: Byte, counter: nat, row: Row)
    requires theta <= 360 && wpTheta <= 360 && |row| >= TAPE_WIDTH
    requires ThetaToOffset(theta) == ThetaToOffset(wpTheta)
    requires glyph != CARET
    ensures var at := TapeStart(row) + ThetaToOffset(theta);
            {DrawIndicator(theta, wpTheta, glyph, counter, row)[at],
             DrawIndicator(theta, wpTheta, glyph, counter + 1, row)[at]} == {CARET, glyph}
  {
  }

  /** `draw_heading`: "000" then the number's digits right-aligned over it,
      which is the three-digit zero-padded field of the number. */
  method DrawHeading(buffer: Row, at: nat, n: nat) returns (r: Row)
    requires n < 1000 && at + 3 <= |buffer|
    ensures |r| == |buffer|
    ensures forall i | at <= i < at + 3 :: r[i] == ZeroPadded(n, 3)[i - at]
    ensures forall i | 0 <= i < |buffer| && !(at <= i < at + 3) :: r[i] == buffer[i]
  {
    NumToAOverZeros(n, 3);
    assert Ascii("000") == seq(3, _ => ZERO);
    r := Blit(buffer, at, NumToA(Ascii("000"), 3, n));
    assert forall i | at <= i < at + 3 :: r[i] == r[at..at + 3][i - at];
  }

  /** The decade below the heading. */
  function Lower(heading: nat): nat {
    heading / 10 * 10
  }

  /** Scratch column of the first digit of the lower label: the label's
      middle digit sits `DegreeToOffset(heading % 10)` cells left of the
      scratch centre 9. */
  function LowerIndex(heading: nat): (li: nat)
    ensures 3 <= li <= 8
  {
    var delta := DegreeToOffset(heading - Lower(heading));
    BUFFER_WIDTH / 2 - 1 - delta
  }

  /** The labels of the ruler on the zeroed scratch buffer, before the dot
      separators: the lower decade label at scratch column `li`, the upper one
      six columns right, and the decade beyond each when it fits. Every
      column but the three separator columns holds its layout. */
  method Labels(lower: nat, li: nat) returns (b: Row)
    requires lower < 1000 && 3 <= li <= 8
    ensures |b| == BUFFER_WIDTH
    ensures forall k | 0 <= k < BUFFER_WIDTH && k + 2 != li && k != li + 4 && k != li + 10 ::
              b[k] == LayoutOf(lower, li, k)
  {
    var upper := lower + 10;
    var ui := li + 6;
    var b1 := DrawHeading(Blank(BUFFER_WIDTH), li, lower);
    var b2 := DrawHeading(b1, ui, upper % 360);
    assert (lower + 360 - 10) % 360 == (lower + 350) % 360;
    assert (upper + 10) % 360 == (lower + 20) % 360;
    var b3 := b2;
    if li >= 6 {
      b3 := DrawHeading(b2, li - 6, (lower + 360 - 10) % 360);
    }
    b := b3;
    if ui + 6 < 2 + TAPE_WIDTH {
      b := DrawHeading(b3, ui + 6, (upper + 10) % 360);
    }
  }

  /** Scratch buffer of the ruler, written as the source writes it: the
      labels, then three dot separators. Every column holds its layout. */
  method TapeBuffer(heading: nat) returns (b: Row)
    requires heading < 1000
    ensures |b| == BUFFER_WIDTH
    ensures forall k | 0 <= k < BUFFER_WIDTH :: b[k] == Layout(heading, k)
  {
    var li := LowerIndex(heading);
    b := Labels(Lower(heading), li);
    b := b[li - 2 := DOT][li + 4 := DOT][li + 10 := DOT];
  }

  /** What scratch column `k` of the ruler holds, stated label by label, for
      a lower decade `lower` whose label starts at scratch column `li`. */
  function LayoutOf(lower: nat, li: nat, k: nat): Byte {
    if li <= k < li + 3 then ZeroPadded(lower, 3)[k - li]
    else if li + 6 <= k < li + 9 then ZeroPadded((lower + 10) % 360, 3)[k - li - 6]
    else if li >= 6 && li - 6 <= k < li - 3 then ZeroPadded((lower + 350) % 360, 3)[k - (li - 6)]
    else if li < 5 && li + 12 <= k < li + 15 then ZeroPadded((lower + 20) % 360, 3)[k - (li + 12)]
    else if k + 2 == li || k == li + 4 || k == li + 10 then DOT
    else TRANSPARENT
  }

  function Layout(heading: nat, k: nat): Byte {
    LayoutOf(Lower(heading), LowerIndex(heading), k)
  }

  /** Row `r` is `row` with the ruler for `heading` centred on it: the
      visible scratch columns 2 to 16 of the layout over the 15 centre cells,
      every other cell kept. */
  predicate ShowsTape(r: Row, row: Row, heading: nat)
    requires |row| >= TAPE_WIDTH
  {
    && |r| == |row|
    && (forall i | 0 <= i < TapeStart(row) :: r[i] == row[i])
    && (forall i | TapeStart(row) + TAPE_WIDTH <= i < |row| :: r[i] == row[i])
    && Ruler(r, TapeStart(row), Lower(heading), LowerIndex(heading))
  }

  /** The 15 cells of `r` from column `s` are scratch columns 2 to 16 of the
      layout for the decade `lower` labelled at scratch column `li`. */
  predicate Ruler(r: Row, s: nat, lower: nat, li: nat) {
    && s + TAPE_WIDTH <= |r|
    && forall i | s <= i < s + TAPE_WIDTH :: r[i] == LayoutOf(lower, li, i - s + 2)
  }

  /** `draw_tape`: copies the visible 15 scratch cells onto the row, centred;
      every other cell of the row is kept. */
  method DrawTape(heading: nat, row: Row) returns (r: Row)
    requires heading < 1000 && |row| >= TAPE_WIDTH
    ensures ShowsTape(r, row, heading)
  {
    var b := TapeBuffer(heading);
    r := Blit(row, TapeStart(row), b[2..2 + TAPE_WIDTH]);
    assert forall i | TapeStart(row) <= i < TapeStart(row) + TAPE_WIDTH ::
      r[i] == r[TapeStart(row)..TapeStart(row) + TAPE_WIDTH][i - TapeStart(row)];
  }

  /** The decade and the scratch column of its label, in terms of the
      heading's last digit. */
  lemma LowerFacts(heading: nat)
    ensures Lower(heading) == heading - heading % 10
    ensures Lower(heading) % 10 == 0
    ensures LowerIndex(heading) == 8 - DegreeToOffset(heading % 10)
  {
  }

  /** Reading the ruler back: on a row showing the tape, the label whose
      middle digit sits `DegreeToOffset(heading % 10)` cells left of the
      row's centre is the heading's decade, and the one six cells to its
      right is the next decade modulo 360. */
  lemma TapeDecodes(heading: nat, row: Row, r: Row)
    requires heading < 360 && |row| >= TAPE_WIDTH && ShowsTape(r, row, heading)
    ensures var p := |row| / 2 - 1 - DegreeToOffset(heading % 10);
            && AllDigits(r[p..p + 3]) && Value(r[p..p + 3]) == heading - heading % 10
            && AllDigits(r[p + 6..p + 9]) && Value(r[p + 6..p + 9]) == (heading - heading % 10 + 10) % 360
            && r[p + 4] == DOT
  {
    LowerFacts(heading);
    assert |row| / 2 - 1 - DegreeToOffset(heading % 10) == TapeStart(row) + LowerIndex(heading) - 2;
    RulerReads(r, TapeStart(row), LowerIndex(heading), Lower(heading));
  }

  /** The labels and separator of a ruler placed at column `s` read back as
      the lower decade, the dot and the next decade. */
  lemma RulerReads(r: Row, s: nat, li: nat, lower: nat)
    requires 3 <= li <= 8 && lower < 360 && Ruler(r, s, lower, li)
    ensures var p := s + li - 2;
            && AllDigits(r[p..p + 3]) && Value(r[p..p + 3]) == lower
            && AllDigits(r[p + 6..p + 9]) && Value(r[p + 6..p + 9]) == (lower + 10) % 360
            && r[p + 4] == DOT
  {
    LowerLabelReads(r, s, li, lower);
    UpperLabelReads(r, s, li, lower);
    SeparatorReads(r, s, li, lower);
    ValueOfZeroPadded(lower, 3);
    ValueOfZeroPadded((lower + 10) % 360, 3);
  }

  /** The ruler cell between the two labels is a dot. */
  lemma SeparatorReads(r: Row, s: nat, li: nat, lower: nat)
    requires 3 <= li <= 8 && Ruler(r, s, lower, li)
    ensures r[s + li + 2] == DOT
  {
    assert r[s + li + 2] == LayoutOf(lower, li, li + 4);
  }

  /** The ruler cells of the lower label hold its zero-padded decade. */
  lemma LowerLabelReads(r: Row, s: nat, li: nat, lower: nat)
    requires 3 <= li <= 8 && Ruler(r, s, lower, li)
    ensures r[s + li - 2..s + li + 1] == ZeroPadded(lower, 3)
  {
    var q := s + li - 2;
    var f := ZeroPadded(lower, 3);
    assert r[q] == LayoutOf(lower, li, li) == f[0];
    assert r[q + 1] == LayoutOf(lower, li, li + 1) == f[1];
    assert r[q + 2] == LayoutOf(lower, li, li + 2) == f[2];
  }

  /** The ruler cells of the upper label hold the next decade modulo 360. */
  lemma UpperLabelReads(r: Row, s: nat, li: nat, lower: nat)
    requires 3 <= li <= 8 && Ruler(r, s, lower, li)
    ensures r[s + li + 4..s + li + 7] == ZeroPadded((lower + 10) % 360, 3)
  {
    var q := s + li + 4;
    var f := ZeroPadded((lower + 10) % 360, 3);
    assert r[q] == LayoutOf(lower, li, li + 6) == f[0];
    assert r[q + 1] == LayoutOf(lower, li, li + 7) == f[1];
    assert r[q + 2] == LayoutOf(lower, li, li + 8) == f[2];
  }

  /** A heading tape widget: its layout slot, its position in the slot, the
      waypoint glyph, and the frame counter. */
  datatype Tape = Tape(align: Align, sequence: nat, indicator: Byte, counter: nat)

  /** Row of the ruler: `sequence` from the top, or from the bottom when
      bottom-aligned. */
  function TapeRow(t: Tape, rows: nat): int {
    if t.align == Bottom then rows - 1 - t.sequence else t.sequence
  }

  /** Row of the pointer: below the ruler when top-aligned, above it
      otherwise. */
  function IndicatorRow(t: Tape, rows: nat): int {
    if t.align == Top then TapeRow(t, rows) + 1 else TapeRow(t, rows) - 1
  }

  /** The rows the source indexes exist and are wide enough for the tape. */
  predicate Fits(t: Tape, g: Grid) {
    && 0 <= TapeRow(t, |g|) < |g|
    && 0 <= IndicatorRow(t, |g|) < |g|
    && |g[TapeRow(t, |g|)]| >= TAPE_WIDTH
    && |g[IndicatorRow(t, |g|)]| >= TAPE_WIDTH
  }

  /** One frame: the ruler for `heading`, the pointer row for the yaw and the
      waypoint bearing, and the counter advanced once. */
  method Draw(t: Tape, heading: nat, yaw: nat, wpTheta: nat, g: Grid) returns (out: Grid, next: Tape)
    requires heading < 1000 && yaw <= 360 && wpTheta <= 360
    requires Fits(t, g)
    ensures next == t.(counter := t.counter + 1)
    ensures |out| == |g|
    ensures ShowsTape(out[TapeRow(t, |g|)], g[TapeRow(t, |g|)], heading)
    ensures out[IndicatorRow(t, |g|)] == DrawIndicator(yaw, wpTheta, t.indicator, t.counter, g[IndicatorRow(t, |g|)])
    ensures forall i | 0 <= i < |g| && i != TapeRow(t, |g|) && i != IndicatorRow(t, |g|) :: out[i] == g[i]
  {
    var tr := TapeRow(t, |g|);
    var ir := IndicatorRow(t, |g|);
    var tape := DrawTape(heading, g[tr]);
    out := g[tr := tape];
    out := out[ir := DrawIndicator(yaw, wpTheta, t.indicator, t.counter, out[ir])];
    next := t.(counter := t.counter + 1);
  }

  /** Two consecutive frames with the caret and the waypoint glyph on the same
      cell show the caret in one and the waypoint glyph in the other. */
  method TwoFrames(t: Tape, heading: nat, yaw: nat, wpTheta: nat, g: Grid) returns (f1: Grid, f2: Grid)
    requires heading < 1000 && yaw <= 360 && wpTheta <= 360
    requires Fits(t, g) && t.indicator != CARET
    requires ThetaToOffset(yaw) == ThetaToOffset(wpTheta)
    ensures |f1| == |f2| == |g|
    ensures var ir := IndicatorRow(t, |g|);
            var at := TapeStart(g[ir]) + ThetaToOffset(yaw);
            |f1[ir]| == |f2[ir]| == |g[ir]| && {f1[ir][at], f2[ir][at]} == {CARET, t.indicator}
  {
    var t1;
    f1, t1 := Draw(t, heading, yaw, wpTheta, g);
    assert Fits(t1, f1);
    var t2;
    f2, t2 := Draw(t1, heading, yaw, wpTheta, f1);
    var ir := IndicatorRow(t, |g|);
    IndicatorAlternates(yaw, wpTheta, t.indicator, t.counter, g[ir]);
    IndicatorAlternates(yaw, wpTheta, t.indicator, t.counter, f1[ir]);
  }

  /** A 17-cell row shows exactly `expected` when its two outer cells are
      transparent and its ruler cells are the layout's visible columns. */
  lemma TapeMatches(heading: nat, lower: nat, li: nat, expected: seq<Byte>, r: Row)
    requires heading < 1000 && Lower(heading) == lower && LowerIndex(heading) == li
    requires ShowsTape(r, Blank(17), heading)
    requires |expected| == 17 && expected[0] == TRANSPARENT && expected[16] == TRANSPARENT
    requires forall i | 1 <= i < 16 :: expected[i] == LayoutOf(lower, li, i + 1)
    ensures r == expected
  {
    assert TapeStart(Blank(17)) == 1;
    forall i | 0 <= i < 17
      ensures r[i] == expected[i]
    {
    }
  }

  /** The default-telemetry frame on a 17-cell row: " 350 . 000 . 010 ". */
  method TapeAtNorth() returns (r: Row)
    ensures r == [0, 51, 53, 48, 0, DOT, 0, 48, 48, 48, 0, DOT, 0, 48, 49, 48, 0]
  {
    r := DrawTape(0, Blank(17));
    var lower, li := 0, 8;
    assert ZeroPadded(0, 3) == [48, 48, 48];
    assert ZeroPadded(350, 3) == [51, 53, 48] && (lower + 350) % 360 == 350;
    assert ZeroPadded(10, 3) == [48, 49, 48] && (lower + 10) % 360 == 10;
    TapeMatches(0, lower, li, [0, 51, 53, 48, 0, DOT, 0, 48, 48, 48, 0, DOT, 0, 48, 49, 48, 0], r);
  }

  /** Heading 356 scrolls the ruler three cells: "  . 350 . 000 .  ". */
  method TapeAt356() returns (r: Row)
    ensures r == [0, 0, DOT, 0, 51, 53, 48, 0, DOT, 0, 48, 48, 48, 0, DOT, 0, 0]
  {
    r := DrawTape(356, Blank(17));
    var lower, li := 350, 5;
    assert ZeroPadded(350, 3) == [51, 53, 48];
    assert ZeroPadded(0, 3) == [48, 48, 48] && (lower + 10) % 360 == 0;
    TapeMatches(356, lower, li, [0, 0, DOT, 0, 51, 53, 48, 0, DOT, 0, 48, 48, 48, 0, DOT, 0, 0], r);
  }
}
