# ascii-osd-hud geometry and layout, in Dafny

A model of the integer core of `ascii-osd-hud`, a `no_std` Rust library that
draws a head-up display into a grid of bytes for an analogue on-screen-display
chip. Each widget gets a slice of rows (a *grid*) and overwrites some cells.
The byte 0 is transparent and lets the video show through. Other bytes are
ASCII characters or glyph codes from the symbol table.

The model covers these parts of the library:

- **Grid** (`grid.dfy`): cells are bytes and a grid is a sequence of rows.
  `Overlaid`/`RightAligned` say that a row equals an old row with a run of
  bytes copied over it and every other cell kept. Every widget's contract
  below is stated with these two predicates.
- **Arith** (`arith.dfy`): Rust's truncating `/` and `%` on signed integers
  (`TDiv`, `TRem`), clamping, and the monotonicity facts the projections
  need.
- **Decimal** (`decimal.dfy`): what `numtoa` and `write!("{}")` produce.
  It covers right-aligned placement ending at a column, the `{:02}`
  zero-filled field, and signed spellings. Each comes with a reading-back
  function (`Value`) and round-trip lemmas.
- **Aspect** (`aspect.dfy`): the diagonal field of view split into
  horizontal and vertical spans.
- **Symbols** (`symbol.dfy`): the default glyph-code table, its inverse, and
  the dotted-digit range.
- **Telemetry** (`telemetry.dfy`): the snapshot, its defaults, speed,
  heading and time to go.
- **Projection** (`projection.dfy`): what the four vector markers share:
  - low-speed scaling (`with_ratio`);
  - re-centring of an azimuth;
  - the clamped angle-to-cell projection;
  - the one-cell flicker rule;
  - the `u8` frame counter.
- **VelocityVector, SpeedVector, WaypointVector, SteerpointVector**: the
  four markers. Each is drawn from the inputs it actually reads.
- **HeadingTape** (`heading_tape.dfy`): the ruler of decade labels and the
  pointer row holding the yaw caret and the waypoint glyph.
- **PitchLadder** (`pitch_ladder.dfy`): Bresenham's walk in a vertically
  subsampled space. It covers palette choice from the roll and the pitch
  offset. How a sub-row is read back into a cell is a parameter: as
  written (truncating, with a 32- or 64-bit `usize` cast), or flooring, as
  evidently intended (see Findings).
- **Waypoint** and **Steerpoint** (`waypoint.dfy`, `steerpoint.dfy`): the
  three-row panel of number/name, distance in tenths with a dotted digit,
  and time to go as hh:mm:ss. The waypoint panel writes with `numtoa`. The
  steerpoint panel uses formatted writes into an 8-byte `heapless::String`
  (`Steerpoint.Capped`).
- **Note** (`note.dfy`): free text split at line feeds, each line aligned
  into its row.
- **Height** (`height.dfy`): a signed height centred in one row, skipped
  for the "no height" sentinel.

Widget state the source keeps in a `Cell` (the frame counters) is an explicit
value that is passed in and returned.

## Model

| member | source | states |
|---|---|---|
| Grid.Blit | src/note.rs:13 | `copy_from_slice` onto `row[at..at+len]`: those cells hold the bytes in order and every other cell keeps its value |
| Decimal.Digits | src/heading_tape.rs:87 | the decimal spelling is at least one digit, all ASCII digits, with no leading zero unless it is "0" |
| Decimal.ValueOfDigits | src/heading_tape.rs:87 | reading the spelling of `n` back as a number gives `n` |
| Decimal.DigitsFit | src/heading_tape.rs:87-89 | the spelling of `n` is at most `k` digits exactly when `n < 10^k` (both directions) |
| Decimal.NumToA | src/waypoint.rs:36-38 | `numtoa` into `buffer[..end]` leaves the digits ending at column `end` and changes no other cell |
| Decimal.ValueOfZeroPadded | src/heading_tape.rs:85-90 | a zero-padded field of width `w` reads back as `n` whenever `n < 10^w` |
| Decimal.NumToAOverZeros | src/heading_tape.rs:88-89 | "000" followed by `numtoa` of `n`, and Rust's `{:03}`, both give the same zero-padded 3-digit field |
| Decimal.NumToAOverZeroField | src/waypoint.rs:35-38 | `numtoa` over a run of '0' cells turns that run into the zero-padded value, whatever the rest of the row holds |
| Decimal.SignedDigits | src/height.rs:27 | a negative value spells as '-' followed by digits, and a non-negative one as digits only |
| Decimal.SignedDigitsRoundTrip | src/height.rs:27-28 | reading the signed spelling back gives the value, with the sign taken from the leading '-' |
| Decimal.SignedDigitsOfI16 | src/height.rs:27 | every `i16`, `i16::MIN` included, spells in at most the 6 bytes of `String<6>` |
| Aspect.DiagonalToWidth | src/lib.rs:10-15 | the horizontal span of a diagonal field of view is never wider than the diagonal |
| Aspect.DiagonalToHeight | src/lib.rs:17-22 | the vertical span is never larger than the horizontal span, for both aspect ratios |
| Aspect.Monotone | src/lib.rs:10-22 | a wider diagonal never gives a narrower or shorter span |
| Aspect.HeightZero | src/lib.rs:17-22 | the vertical span (a divisor in every marker) is zero exactly for diagonals below 3 (16:9) or below 2 (4:3) |
| Aspect.Fov18Wide | src/lib.rs:10-22 | an 18-degree 16:9 field of view is 15 degrees wide and 8 high |
| Symbols.Code | src/symbol.rs:31-60 | every default code is at most 28 and below printable ASCII, and only `Space` maps to the transparent byte |
| Symbols.CodeRoundTrip | src/symbol.rs:34-58 | the table and its reading-back are inverse on both sides |
| Symbols.CodesDistinct | src/symbol.rs:34-58 | two symbols share a code exactly when they are the same symbol |
| Symbols.LineSymbol | src/symbol.rs:43-49 | the seven line glyphs, top to bottom, are consecutive in both enum order and code, starting at `LineTop` (8) |
| Symbols.DottedDigitsFree | src/symbol.rs:51-52 | codes 17 to 26, the digits 1 to 9 with a trailing dot after code 16, are used by no symbol |
| Symbols.ToNumberWithDot | src/waypoint.rs:45 | a digit cell becomes that digit's dotted glyph, counted from zero-with-dot, and an untouched cell becomes zero-with-dot |
| Telemetry.Default | src/telemetry.rs:69-85 | the default snapshot is in range for its field types, with level attitude, still vectors, battery 100, mode "MAN " and waypoint 0/"HOME" in "NM" |
| Telemetry.Speed | src/telemetry.rs:88-90 | the speed is the velocity vector's magnitude and fits a `u16` |
| Telemetry.Heading | src/telemetry.rs:92-94 | the heading is the attitude's yaw and fits a `u16` |
| Telemetry.TimeToGoOf | src/telemetry.rs:96-103 | 0 when the distance or the speed is 0; otherwise the whole seconds `s` with `s*speed <= rho*360 < (s+1)*speed` (tenths of a unit at units per hour) |
| Telemetry.TimeToGoOfIs | src/telemetry.rs:96-103 | those bounds determine the time to go uniquely |
| Telemetry.TimeToGo | src/telemetry.rs:96-103 | the same property for a snapshot's waypoint distance and ground speed |
| Telemetry.TimeToGoFitsU32 | src/telemetry.rs:97-100 | for a `u16` distance, `rho * 3600` and the result both fit a `u32`, so nothing wraps |
| Projection.NextCounter | src/velocity_vector.rs:66 | the `u8` counter advanced by one, wrapping at 256, so its parity flips on every frame, the wrap included |
| Projection.WithRatio | src/velocity_vector.rs:26-31 | identity from speed 5 on, 0 at speed 0, never larger in magnitude than the angle and never of the other sign |
| Projection.WithRatioIsOneDivision | src/velocity_vector.rs:30 | the two truncating divisions by 5 equal one truncating division by 25 |
| Projection.WithRatioOdd | src/velocity_vector.rs:26-31 | scaling commutes with negation, so the vertical axis mirrors the horizontal one |
| Projection.Recentre | src/velocity_vector.rs:51-54 | the re-centred azimuth is the same direction mod 360; for bearings up to 360 it lies in (-180, 180] and is negative exactly for 181..359 |
| Projection.Axis | src/velocity_vector.rs:56-61 | the cell always lies on the axis; angle 0 gives the centre cell, and the angle's sign gives the side of the centre |
| Projection.AxisMonotone | src/velocity_vector.rs:56-61 | a larger angle never lands on an earlier cell |
| Projection.AxisSaturates | src/velocity_vector.rs:56-61 | an angle at or beyond the field of view lands on the edge cell on its side |
| Projection.Plot | src/velocity_vector.rs:62-65 | the cell takes the glyph when it was transparent or blank or the frame has the widget's parity; otherwise it keeps the byte it held. No other cell changes |
| Projection.PlotAlternates | src/velocity_vector.rs:62-66 | a cell held by another widget's glyph shows the marker on one of any two consecutive frames and keeps the other glyph on the other |
| Projection.New | src/velocity_vector.rs:16-23 | a fresh widget has counter 0 and the aspect spans, which fit a `u8`; it can project exactly when its vertical span is not zero |
| Projection.RowOf | src/waypoint_vector.rs:33-40 | the marker's row is always a row of the grid, at or above the centre row for an elevation above the horizon and at or below it for one below |
| Projection.DrawAt | src/velocity_vector.rs:38-67 | one frame puts the glyph on the projected cell under the flicker rule, or keeps the cell's byte when the rule refuses the write. It changes nothing else, advances the counter and consumes no rows |
| Projection.DrawnAlternates | src/velocity_vector.rs:62-66 | two consecutive frames of any vector widget on a cell another widget holds: one shows the marker and the other keeps the other widget's glyph |
| Projection.DrawnOnBlank | src/velocity_vector.rs:83-88 | on a transparent screen a frame shows the glyph on its cell and nowhere else |
| Projection.WrappingNegI16 | src/waypoint_vector.rs:33 | `i16` negation as written: the negation of every value but -32768, which wraps to itself |
| Projection.RowAsWritten | src/waypoint_vector.rs:33-40 | the marker row with the elevation negated in 16 bits is still a row of the grid |
| Projection.NegationWraps | src/waypoint_vector.rs:33-40 | elevation -32768 is drawn on the top row as written, where widening before negating puts it on the bottom row |
| Projection.RowAsWrittenAgrees | src/waypoint_vector.rs:33-40 | for every other `i16` elevation both readings give the same row |
| VelocityVector.Row | src/velocity_vector.rs:39-47 | the marker's row lies in the grid, at or above the centre row for a scaled elevation >= 0 and at or below it for one <= 0 |
| VelocityVector.Draw | src/velocity_vector.rs:38-67 | one frame draws the marker at (row, projected re-centred scaled azimuth) with odd counters winning contended cells; nothing else changes; counter advanced; 0 rows |
| VelocityVector.CentredWhenStill | src/velocity_vector.rs:39-57 | at speed 0 the marker is on the centre cell whatever the vector's direction |
| VelocityVector.BearingSide | src/velocity_vector.rs:51-61 | bearings 181..359 land at or left of the centre column, and bearings up to 180 at or right of it |
| VelocityVector.TestAtRest | src/velocity_vector.rs:82-99 | at rest, 1 degree right and 1 below: only the centre cell (4, 16) holds the glyph |
| VelocityVector.TestMoving | src/velocity_vector.rs:101-114 | at speed 5, 1 right and 1 below: only cell (5, 18) holds the glyph |
| VelocityVector.TestSaturates | src/velocity_vector.rs:116-130 | 45 degrees right and 45 below: only the bottom-right cell holds the glyph |
| SpeedVector.Row | src/speed_vector.rs:39-47 | the row lies in the grid, on the side of the centre row given by the sign of the scaled elevation |
| SpeedVector.Draw | src/speed_vector.rs:38-65 | one frame draws the marker at the projected raw azimuth with even counters winning contended cells; nothing else changes; counter advanced; 0 rows |
| SpeedVector.CentredWhenStill | src/speed_vector.rs:39-58 | at speed 0 the marker is on the centre cell |
| SpeedVector.RawAzimuth | src/speed_vector.rs:51-58 | the azimuth is not re-centred: at speed, any azimuth at or beyond the field of view, 359 included, lands on the right edge |
| SpeedVector.TestAtRest | src/speed_vector.rs:79-96 | at rest: only the centre cell (4, 16) holds the glyph |
| SpeedVector.TestMoving | src/speed_vector.rs:98-111 | at speed 5, 1 right and 1 below: only cell (5, 18) holds the glyph |
| SpeedVector.TestSaturates | src/speed_vector.rs:113-127 | 45 right and 45 below: only the bottom-right cell holds the glyph |
| WaypointVector.Column | src/waypoint_vector.rs:44-53 | bearings 181..359 land at or left of the centre column, and bearings up to 180 at or right of it |
| WaypointVector.Draw | src/waypoint_vector.rs:31-60 | one frame draws the square at (row, column) with odd counters winning contended cells; nothing else changes; counter advanced; 0 rows |
| WaypointVector.IgnoresDistance | src/waypoint_vector.rs:31-48 | the waypoint's distance does not affect the frame |
| WaypointVector.TestBelow | src/waypoint_vector.rs:78-91 | 1 right and 1 below: only cell (5, 18) holds the square |
| WaypointVector.TestAbove | src/waypoint_vector.rs:93-106 | 1 right and 1 above: only cell (3, 18) holds the square (truncating division) |
| WaypointVector.TestSaturates | src/waypoint_vector.rs:108-122 | 45 right and 45 below: only the bottom-right cell holds the square |
| SteerpointVector.Column | src/steerpoint_vector.rs:44-50 | the raw azimuth never lands left of the centre column and saturates at the right edge from the field of view on |
| SteerpointVector.Draw | src/steerpoint_vector.rs:31-57 | one frame draws the square at (row, column) with odd counters winning; nothing else changes; counter advanced; 0 rows |
| SteerpointVector.IgnoresDistance | src/steerpoint_vector.rs:32-45 | the steerpoint's distance does not affect the frame |
| SteerpointVector.TestBelow | src/steerpoint_vector.rs:76-89 | 1 right and 1 below: only cell (5, 18) holds the square |
| SteerpointVector.TestAbove | src/steerpoint_vector.rs:91-104 | 1 right and 1 above: only cell (3, 18) holds the square |
| SteerpointVector.TestSaturates | src/steerpoint_vector.rs:106-120 | 45 right and 45 below: only the bottom-right cell holds the square |
| HeadingTape.DegreeToOffset | src/heading_tape.rs:13-16 | the offset is the floor of 3/5 of the degrees: `o*5 <= d*3 < (o+1)*5` |
| HeadingTape.ThetaToOffset | src/heading_tape.rs:18-26 | the tape cell lies in [0, 14] and is 7 for north. Bearings below 180 land at or right of centre, saturating exactly from 12 degrees; the rest land at or left, saturating exactly up to 348 |
| HeadingTape.OffsetMirror | src/heading_tape.rs:18-26 | a bearing and its mirror across north land symmetrically about the centre cell |
| HeadingTape.OffsetMonotone | src/heading_tape.rs:18-26 | within each half of the compass the tape cell grows with the bearing |
| HeadingTape.DrawIndicator | src/heading_tape.rs:45-55 | distinct cells get the caret and the waypoint glyph; a shared cell gets the caret on even counters and the glyph on odd ones; nothing else changes |
| HeadingTape.IndicatorAlternates | src/heading_tape.rs:49-53 | over two consecutive frames a shared cell shows both the caret and the waypoint glyph |
| HeadingTape.DrawHeading | src/heading_tape.rs:85-90 | exactly 3 cells change, and they hold the zero-padded 3-digit number |
| HeadingTape.LowerIndex | src/heading_tape.rs:96-98 | the lower label starts between scratch columns 3 and 8 |
| HeadingTape.Labels | src/heading_tape.rs:93-111 | the scratch buffer holds the lower decade, the next one 6 columns right, and the decades beyond each only when they fit, all mod 360 |
| HeadingTape.TapeBuffer | src/heading_tape.rs:92-114 | every scratch column holds the label layout for the heading, separators included |
| HeadingTape.DrawTape | src/heading_tape.rs:92-117 | the row shows scratch columns 2..16 over its 15 centre cells and keeps every other cell |
| HeadingTape.LowerFacts | src/heading_tape.rs:94-98 | the lower decade is the heading less its last digit, and the label column moves left 3/5 of a cell per degree |
| HeadingTape.TapeDecodes | src/heading_tape.rs:92-117 | reading a drawn ruler back gives the heading's decade, a dot, and the next decade mod 360, at the cells the heading's last digit determines |
| HeadingTape.RulerReads | src/heading_tape.rs:100-114 | the ruler's labels read back as the lower decade and the next decade mod 360, with a dot between |
| HeadingTape.Draw | src/heading_tape.rs:67-82 | the tape goes on row `sequence` (or `len-1-sequence` when bottom-aligned) and the pointer on the next row (or the one above). No other row changes and the counter advances once |
| HeadingTape.TwoFrames | src/heading_tape.rs:128-137 | two consecutive frames with a shared pointer cell show the caret in one and the waypoint glyph in the other |
| HeadingTape.TapeAtNorth | src/heading_tape.rs:129-134 | heading 0 on a 17-cell row reads " 350 . 000 . 010 " |
| HeadingTape.TapeAt356 | src/heading_tape.rs:151-153 | heading 356 reads "  . 350 . 000 .  " |
| PitchLadder.RowOfSub | src/pitch_ladder.rs:43-44 | the row of a sub-row: its quotient by `n` from 0 up under both readings. Below 0 the flooring reading gives a row above the grid, and the truncating one gives row 0 for the `n - 1` sub-rows just above it |
| PitchLadder.GlyphOfSub | src/pitch_ladder.rs:45 | the glyph index is below `n`, and is the sub-row's remainder from 0 up under both readings; as written a negative sub-row is first cast to a `usize` of the chosen width |
| PitchLadder.PaintPoint | src/pitch_ladder.rs:43-47 | a point on the grid sets the cell of its row to its sub-row's glyph. A point off the grid changes nothing and raises no error |
| PitchLadder.PaintUnchanged | src/pitch_ladder.rs:42-47 | a cell no point of the walk hits keeps its value |
| PitchLadder.PaintMisses | src/pitch_ladder.rs:42-47 | a walk with no point on the grid leaves the grid as it was |
| PitchLadder.PaintLastHit | src/pitch_ladder.rs:42-47 | a cell shows the glyph of the sub-row of the last point that hits it |
| PitchLadder.DrawLine | src/pitch_ladder.rs:31-61 | the walk starts at `p0` and ends at `p1`. Each step moves at most one unit per axis and never away from `p1`. Every visited point lies within the Bresenham band: twice its cross product with the extent is at most the extent's taxicab length. The grid is the walk painted in order |
| PitchLadder.WalkStep | src/pitch_ladder.rs:51-59 | one iteration steps toward the end point, keeps the error term in step with the deviation, and makes progress |
| PitchLadder.Band | src/pitch_ladder.rs:51-59 | the doubled-error tests keep the deviation from the ideal line within half the extents |
| PitchLadder.LevelWalk | src/pitch_ladder.rs:36-60 | a level walk visits every column from left to right, one at a time |
| PitchLadder.LevelLine | src/pitch_ladder.rs:42-60 | a level walk across the grid fills the row its sub-row is read into with the glyph it picks, and leaves the other rows alone. When that row is off the grid, nothing changes |
| PitchLadder.FoldRoll | src/pitch_ladder.rs:73 | `roll % 91` truncating: the identity on [-90, 90], and 91 toward zero beyond it |
| PitchLadder.Palette | src/pitch_ladder.rs:77-83 | the vertical line alone at 90, the small square alone from 60 degrees either way, otherwise the seven line glyphs |
| PitchLadder.SteepRollDrawnLevel | src/pitch_ladder.rs:73-83 | an `i8` roll of 100 folds to 9 and is drawn with the level-flight glyphs |
| PitchLadder.Level | src/pitch_ladder.rs:75 | the horizon row is the middle row at pitch 0, and at or below / at or above it for positive / negative pitch |
| PitchLadder.MidSubRow | src/pitch_ladder.rs:87-88 | the centre sub-row lies in the level row at its middle glyph, and above the grid for a level above it |
| PitchLadder.Draw | src/pitch_ladder.rs:69-91 | the walk runs from the left edge to one past the right through the horizon's centre, offset by the slope, and is painted under the given reading. With no slope, the centre sub-row's row fills with its glyph, or nothing changes when that row is off the grid. A level row on the grid fills with the middle glyph. 0 rows |
| PitchLadder.FlooredSkipsAbove | src/pitch_ladder.rs:43-47 | under the flooring reading a point above the grid never changes it |
| PitchLadder.SubRowAboveGrid | src/pitch_ladder.rs:43-47 | as written, sub-row -1 of seven is painted on the top row, with glyph 1 for a 64-bit `usize` and glyph 3 for a 32-bit one; the flooring reading leaves the grid alone |
| PitchLadder.AsWrittenAgrees | src/pitch_ladder.rs:43-47 | on and below the first sub-row, and for one-glyph palettes, both readings paint the same cell, whatever the `usize` width |
| PitchLadder.TestLevel | src/pitch_ladder.rs:105-120 | default telemetry on 9 x 32, under either reading: row 4 is all the centre line glyph and every other cell stays transparent |
| PitchLadder.TestNoseDown | src/pitch_ladder.rs:69-91 | pitch -5 with an 8-degree span on 9 rows. As written the top row fills with line glyph 5 (64-bit) or 0 (32-bit) and the other rows stay clear. Under the flooring reading the screen stays clear |
| Waypoint.Clock | src/waypoint.rs:32-34 | hours (narrowed to `u8`), minutes and seconds are in range and recombine to the time below 256 hours |
| Waypoint.ClockOf | src/waypoint.rs:32-34 | splitting a recombined h:m:s gives it back |
| Waypoint.ClockBytes | src/waypoint.rs:35-38 | below 100 hours the row ends with the "hh:mm:ss" field; from 100 hours the 3 hour digits spill one cell left of it |
| Waypoint.DrawClock | src/waypoint.rs:28-38 | the clock row is the old row with the clock bytes over its last cells |
| Waypoint.ClockReads | src/waypoint.rs:32-38 | below 100 hours the three drawn fields read back to the time to go |
| Waypoint.DistanceBytes | src/waypoint.rs:42-49 | below 10 tenths: the dotted old cell, then the digit. From 10 to 99: the dotted tens digit, then the units. From 100: the whole units `rho/10`. The 2-byte unit comes last in every case |
| Waypoint.DrawDistance | src/waypoint.rs:40-49 | the distance row is the old row with the distance bytes over its last cells |
| Waypoint.DistanceReads | src/waypoint.rs:42-49 | on a cleared cell the dotted digit and the digit after it spell `rho` in tenths, and from 100 on the digits before the unit spell `rho/10` |
| Waypoint.NameBytes | src/waypoint.rs:52-55 | the row ends with the number's digits, a slash, and the name |
| Waypoint.DrawName | src/waypoint.rs:51-55 | the name row is the old row with number, '/' and the 4-byte name over its last cells |
| Waypoint.NameReads | src/waypoint.rs:52-55 | the name row reads back as the number, the slash and the name |
| Waypoint.Draw | src/waypoint.rs:24-57 | the clock goes on the last row, the distance above it, and the name above that. No other row changes and 3 rows are used |
| Waypoint.TestHome | src/waypoint.rs:70-75 | the default frame reads "    0/HOME", "      ₀0NM", "  00:00:00" |
| Waypoint.TestNinePointNine | src/waypoint.rs:92-95 | 9.9 units at speed 61 reads "      ⒐9NM" and "  00:09:44" |
| Steerpoint.Capped | src/steerpoint.rs:38-39 | formatting into an 8-byte string never yields more than 8 bytes |
| Steerpoint.CappedFits | src/steerpoint.rs:38-39 | when the whole text fits, nothing is lost |
| Steerpoint.CappedOverflows | src/steerpoint.rs:38-39 | when it does not fit, the string is shorter than the text |
| Steerpoint.Pad2Field | src/steerpoint.rs:39 | the pieces `{:02}` writes (a separate '0' fill below 10, then the digits) join to the two-digit field below 100 |
| Steerpoint.SecondsInOneByte | src/steerpoint.rs:39 | with one byte of room left, `{:02}` of the seconds keeps only its '0' fill below 10 seconds and writes nothing from 10 |
| Steerpoint.ClockTextIsField | src/steerpoint.rs:35-40 | below 100 hours `{:02}:{:02}:{:02}` is the waypoint panel's clock field. From 100 hours it is "hhh:mm:0" below 10 seconds and "hhh:mm:" from 10; the text fills the 8-cell copy exactly when under 100 hours or under 10 seconds |
| Steerpoint.ClockTextOfTime | src/steerpoint.rs:34-40 | wherever the copy succeeds, the formatted clock is the waypoint panel's clock bytes cut to 8: the whole field below 100 hours, the seconds' last digit cut off from there |
| Steerpoint.DistanceTextFits | src/steerpoint.rs:44-54 | for a `u16` distance and a 2-byte unit the formatted distance is whole: the tenths below 100, the whole units from 100 |
| Steerpoint.NameTextPadded | src/steerpoint.rs:59-61 | a `u8` number and a name of up to 4 bytes come out whole, padded with spaces to 4; with a 4-byte name that is the waypoint panel's name row |
| Steerpoint.DrawClock | src/steerpoint.rs:31-40 | the clock row ends with the waypoint panel's clock bytes cut to 8 cells |
| Steerpoint.DrawDistance | src/steerpoint.rs:42-55 | the distance row ends with the same bytes as the waypoint panel's distance row |
| Steerpoint.DrawName | src/steerpoint.rs:57-62 | the name row ends with the formatted number/name |
| Steerpoint.Draw | src/steerpoint.rs:27-64 | clock, distance and name rows as above; no other row changes; 3 rows |
| Steerpoint.TestHundredHours | src/steerpoint.rs:34-40 | 100.1 units at speed 1 is 100:06:00 to go, and the clock row reads "  100:06:0" |
| Steerpoint.TestHome | src/steerpoint.rs:78-82 | the default frame reads "    0/HOME", "      ₀0NM", "  00:00:00" |
| Steerpoint.TestSixty | src/steerpoint.rs:84-87 | distance 600 tenths reads "      60NM" |
| Steerpoint.TestOneHour | src/steerpoint.rs:89-92 | 600 tenths at speed 60 reads "  01:00:00" |
| Steerpoint.TestFiftyNine | src/steerpoint.rs:94-97 | 600 tenths at speed 61 reads "  00:59:00" |
| Steerpoint.TestNinePointNine | src/steerpoint.rs:99-102 | 99 tenths at speed 61 reads "      ⒐9NM" and "  00:09:44" |
| Steerpoint.TestNinePointEight | src/steerpoint.rs:104-107 | 98 tenths at speed 61 reads "      ⒐8NM" and "  00:09:38" |
| Note.Split | src/note.rs:6 | splitting at '\n' gives one more line than there are line feeds, none containing a line feed |
| Note.JoinSplit | src/note.rs:6 | joining the split lines with line feeds restores the text |
| Note.SplitJoin | src/note.rs:6 | splitting joined feed-free lines gives the lines back |
| Note.Offset | src/note.rs:8-12 | the line fits its row, flush right for `Right`, at column 0 for every alignment but `Center` and `Right` |
| Note.CenterBalanced | src/note.rs:9 | a centred line's margins differ by at most one cell, and the right margin is wider exactly when the row is odd and the line even |
| Note.Draw | src/note.rs:4-17 | the returned count is the number of lines. Line `i` is copied into row `i` at its offset; other cells and rows past the count are unchanged |
| Note.Reads | src/note.rs:4-17 | reading each row back at its offset and joining the pieces restores the text |
| Height.Default | src/height.rs:8-12 | a fresh height widget is bottom-aligned |
| Height.RowIndex | src/height.rs:23-26 | the last row when bottom-aligned, otherwise the first |
| Height.Draw | src/height.rs:19-32 | for `i16::MIN`, nothing changes and 0 rows are used. Otherwise one row gets the signed spelling at `len/2 - digits/2`, the rest is unchanged, and 1 row is used |
| Height.Reads | src/height.rs:27-30 | the written cells read back as the height, and the two margins differ by at most one cell |
| Height.TestNinetyEight | src/height.rs:44-50 | 98 in a 7-cell row reads "  98   " |
| Height.TestNoHeight | src/height.rs:52-55 | the sentinel leaves the row blank |

## Left out

- **Other modules.**
  - The compositor in `src/hud.rs` is not modelled: its `dump` body is commented out.
  - The thin widgets over unseen formatters are not modelled either: altitude, aoa, battery, flight mode, g-force, rssi, speed, vario, velocity and vertical speed.
  - `src/data_source.rs` and `src/drawable.rs` are type declarations only. `Align` is kept as a datatype.
  - `src/test_utils.rs` is test-only rendering (bytes to characters) and is not modelled.
- **Pitch-ladder slope.** The floating-point slope of the pitch ladder (`tan` of the roll, `src/pitch_ladder.rs:74,86`) is an input, `slope`. The model has no floating point.
- **Frame counters.** They are plain values passed in and returned. The `Cell` interior mutability and the `TelemetrySource` trait are not modelled.
- Projection.NextCounter: wraps at 256 as a release build does. A debug build panics on the 256th frame instead.
- HeadingTape.Draw: the counter is a `usize` and is modelled as unbounded.
- **Widgets whose fields are missing from `src/telemetry.rs`.** Several widgets read fields that `src/telemetry.rs` does not declare. Each of these is a plain input:
  - the tape's `heading`;
  - `speed_vector`;
  - `steerpoint`;
  - `unit.distance()`, as a 2-byte unit.

  The steerpoint tests change `speed_vector.rho` and expect the time to go to follow. So the steerpoint panel takes the speed as an input and uses `TimeToGoOf(steerpoint distance, speed)`.
- **Height's type.** `telemetry.height` is a `u16` in `src/telemetry.rs`, but `src/height.rs` compares it with `i16::MIN`. The height is modelled as an `i16`.
- **Glyph helpers missing from `src/symbol.rs`.**
  - `to_number_with_dot` is not defined in `src/symbol.rs` at this revision. Symbols.ToNumberWithDot keeps only what the two panels' tests rely on: a digit becomes that digit with a dot, and an untouched cell becomes zero-with-dot.
  - The `VerticalLine` symbol and `SymbolTable` used by the ladder and the markers are also missing. The ladder takes its nine glyphs as an input.
- **Panics modelled as preconditions.** Inputs for which the source panics are excluded by a `requires`:
  - HeadingTape.Draw: needs heading < 1000 and yaw and waypoint bearing <= 360. `draw_heading` underflows `3 - len` for a 4-digit label, and `theta_to_offset` underflows `360 - theta`.
  - Steerpoint.Draw: needs under 100 hours to go, or under 10 seconds past the minute. From 100 hours with 10 seconds or more the text is 7 bytes, and copying it into 8 cells panics. Steerpoint.ClockTextIsField proves both lengths.
  - Waypoint.Draw, Steerpoint.Draw and Note.Draw: need the rows their slices index to exist and be wide enough.
  - Height.Draw: needs the rows its slices index to exist and be wide enough.
- PitchLadder.FoldRoll: the documented roll range is (-90, 90]. The code's `roll % 91` maps 91..127 to 0..36 rather than folding them, and the model follows the code.
- Steerpoint.NameText: the name is modelled as bytes padded one space per missing byte, which is how `{:4}` pads an ASCII name. Wide Unicode names are not modelled.
- **Glyph codes in the tests.** The waypoint, steerpoint, vector and ladder test members use the codes of `Symbols::default` in `src/symbol.rs`: 16 and 25 for the dotted digits, 5 and 7 for the markers, 8 to 14 for the line glyphs. The source tests render through `default_symbol_table()`, which `src/test_utils.rs` decodes with other codes (markers 1 to 6, line glyphs from 128, dotted digits from 144). The cell positions and the digits are the same.
- Waypoint.TestHome and Waypoint.TestNinePointNine: only two of the waypoint test's six frames are restated as lemmas. The other four are instances of Waypoint.TestFrame of the same form as the steerpoint ones.

## Findings

| source | as written | input that shows it | evidently intended | confidence | as-written member | corrected member |
|---|---|---|---|---|---|---|
| src/pitch_ladder.rs:43-45 | the row of sub-row `y` is `y / n` truncating, and the glyph is `symbols[y as usize % n]` | sub-row `y = -1` with 7 glyphs: truncation gives row 0, and the cast picks glyph 1 with a 64-bit `usize` (`(2^64 - 1) % 7 = 1`) or glyph 3 with a 32-bit one. A whole frame: pitch -5 with an 8-degree vertical span on 9 rows puts the horizon's centre on sub-row -4, and the top row fills | sub-rows above the grid (`y < 0`) are off the grid and skipped, like every other out-of-grid point | not executed | PitchLadder.SubRowAboveGrid | PitchLadder.FlooredSkipsAbove |
| src/waypoint_vector.rs:33 | `-waypoint.phi as isize` negates the `i16` before widening it (the same at `src/steerpoint_vector.rs:33`) | `phi = -32768`: the negation overflows. A release build wraps it back to -32768 and draws on the top row; a debug build panics | widen, then negate: the lowest elevation is drawn on the bottom row | not executed | Projection.NegationWraps | Projection.RowOf |
