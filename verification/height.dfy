/** The height readout: the signed height centred on the bottom row (or
    the top row for any other alignment), skipped when the source reports
    the i16 minimum as "no height". */
module Height {
  import opened Grid
  import opened Decimal
  import Telemetry
  import Note

  /** The value that stands for "no height available". */
  const NO_HEIGHT: int := -32768

  /** The widget's alignment; a fresh widget sits at the bottom. */
  datatype Widget = Widget(align: Align)

  function Default(): (w: Widget)
    ensures w.align == Bottom
  {
    Widget(Bottom)
  }

  /** The row the readout goes to. */
  function RowIndex(w: Widget, g: Grid): (k: nat)
    requires |g| >= 1
    ensures k < |g|
    ensures w.align == Bottom ==> k == |g| - 1
    ensures w.align != Bottom ==> k == 0
  {
    if w.align == Bottom then |g| - 1 else 0
  }

  /** One frame: nothing and no rows for the sentinel; otherwise the
      height's decimal spelling centred in the chosen row, one row used. */
  method Draw(w: Widget, height: int, g: Grid) returns (out: Grid, lines: nat)
    requires Telemetry.InI16(height) && |g| >= 1
    requires height != NO_HEIGHT ==> |SignedDigits(height)| <= |g[RowIndex(w, g)]|
    ensures height == NO_HEIGHT ==> out == g && lines == 0
    ensures height != NO_HEIGHT ==> lines == 1 && |out| == |g|
    ensures height != NO_HEIGHT ==>
      var k := RowIndex(w, g);
      var s := SignedDigits(height);
      Overlaid(out[k], g[k], Note.Offset(Center, |g[k]|, |s|), s)
    ensures forall i | 0 <= i < |g| && (height == NO_HEIGHT || i != RowIndex(w, g)) :: out[i] == g[i]
  {
    if height == NO_HEIGHT {
      return g, 0;
    }
    var k := RowIndex(w, g);
    var row := g[k];
    var s := SignedDigits(height);
    var at := |row| / 2 - |s| / 2;
    out := g[k := Blit(row, at, s)];
    lines := 1;
  }

  /** Reading the written cells back gives the height, and they sit centred
      with margins at most one cell apart. */
  lemma Reads(w: Widget, height: int, g: Grid, out: Grid)
    requires Telemetry.InI16(height) && height != NO_HEIGHT && |g| >= 1
    requires |SignedDigits(height)| <= |g[RowIndex(w, g)]|
    requires var k := RowIndex(w, g);
             var s := SignedDigits(height);
             |out| == |g| && Overlaid(out[k], g[k], Note.Offset(Center, |g[k]|, |s|), s)
    ensures var k := RowIndex(w, g);
            var s := SignedDigits(height);
            var at := Note.Offset(Center, |g[k]|, |s|);
            && (height >= 0 ==> AllDigits(out[k][at..at + |s|]) && Value(out[k][at..at + |s|]) == height)
            && (height < 0 ==> out[k][at] == MINUS && AllDigits(out[k][at + 1..at + |s|])
                               && Value(out[k][at + 1..at + |s|]) == -height)
            && at <= |g[k]| - at - |s| + 1 && |g[k]| - at - |s| <= at + 1
  {
    var k := RowIndex(w, g);
    var s := SignedDigits(height);
    var at := Note.Offset(Center, |g[k]|, |s|);
    assert out[k][at..at + |s|] == s;
    assert out[k][at + 1..at + |s|] == s[1..];
    SignedDigitsRoundTrip(height);
    Note.CenterBalanced(|g[k]|, |s|);
  }

  /** 98 in a seven-cell row: "  98   ". */
  method TestNinetyEight() returns (out: Grid, lines: nat)
    ensures lines == 1 && out == [[0, 0, 57, 56, 0, 0, 0]]
  {
    var g := [Blank(7)];
    assert SignedDigits(98) == [57, 56];
    out, lines := Draw(Default(), 98, g);
    assert Note.Offset(Center, 7, 2) == 2;
    assert out[0] == [0, 0, 57, 56, 0, 0, 0];
  }

  /** The sentinel leaves the row blank and uses no row. */
  method TestNoHeight() returns (out: Grid, lines: nat)
    ensures lines == 0 && out == [Blank(7)]
  {
    out, lines := Draw(Default(), NO_HEIGHT, [Blank(7)]);
  }
}
