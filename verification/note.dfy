/** Free text on the screen: the text is split at line feeds and line `i`
    is copied into row `i` at an offset the alignment picks. */
module Note {
  import opened Grid

  const NEWLINE: Byte := 10

  predicate NoNewline(line: seq<Byte>) {
    forall i | 0 <= i < |line| :: line[i] != NEWLINE
  }

  /** Number of line feeds in `text`. */
  function Newlines(text: seq<Byte>): nat
    decreases |text|
  {
    if |text| == 0 then 0
    else (if text[0] == NEWLINE then 1 else 0) + Newlines(text[1..])
  }

  /** `str::split('\n')`: the maximal runs between line feeds, including
      the empty ones at either end; an empty text is one empty line. */
  function Split(text: seq<Byte>): (lines: seq<seq<Byte>>)
    ensures |lines| == Newlines(text) + 1
    ensures forall i | 0 <= i < |lines| :: NoNewline(lines[i])
    decreases |text|
  {
    if |text| == 0 then [[]]
    else
      var rest := Split(text[1..]);
      if text[0] == NEWLINE then [[]] + rest
      else [[text[0]] + rest[0]] + rest[1..]
  }

  /** Lines joined with a line feed between each two. */
  function Join(lines: seq<seq<Byte>>): seq<Byte>
    requires |lines| >= 1
    decreases |lines|
  {
    if |lines| == 1 then lines[0] else lines[0] + [NEWLINE] + Join(lines[1..])
  }

  /** Joining the split text restores it. */
  lemma {:induction false} JoinSplit(text: seq<Byte>)
    ensures Join(Split(text)) == text
    decreases |text|
  {
    if |text| > 0 {
      var rest := Split(text[1..]);
      JoinSplit(text[1..]);
      if text[0] == NEWLINE {
        assert ([[]] + rest)[1..] == rest;
      } else {
        var lines := [[text[0]] + rest[0]] + rest[1..];
        if |rest| > 1 {
          assert lines[1..] == rest[1..];
        }
      }
    }
  }

  /** Splitting joined lines gives the lines back when none holds a line
      feed. */
  lemma {:induction false} SplitJoin(lines: seq<seq<Byte>>)
    requires |lines| >= 1 && forall i | 0 <= i < |lines| :: NoNewline(lines[i])
    ensures Split(Join(lines)) == lines
    decreases |lines|
  {
    if |lines| == 1 {
      SplitLine(lines[0], []);
    } else {
      SplitJoin(lines[1..]);
      SplitLine(lines[0], Join(lines[1..]));
      assert [lines[0]] + lines[1..] == lines;
    }
  }

  /** A line without line feeds, then a line feed and a rest: the split is
      that line, then the split of the rest. With no rest and no line feed,
      the line alone. */
  lemma {:induction false} SplitLine(line: seq<Byte>, rest: seq<Byte>)
    requires NoNewline(line)
    ensures Split(line) == [line]
    ensures Split(line + [NEWLINE] + rest) == [line] + Split(rest)
    decreases |line|
  {
    if |line| > 0 {
      SplitLine(line[1..], rest);
      assert (line + [NEWLINE] + rest)[1..] == line[1..] + [NEWLINE] + rest;
      assert [line[0]] + line[1..] == line;
    } else {
      assert ([] + [NEWLINE] + rest)[1..] == rest;
    }
  }

  /** Where a line of `width` bytes starts in a row of `len` cells: centred
      rounding the left margin down, flush right, or flush left for every
      other alignment. */
  function Offset(align: Align, len: nat, width: nat): (at: nat)
    requires width <= len
    ensures at + width <= len
    ensures align == Right ==> at + width == len
    ensures align != Center && align != Right ==> at == 0
  {
    match align
    case Center => len / 2 - width / 2
    case Right => len - width
    case _ => 0
  }

  /** A centred line's two margins differ by at most one cell, and the
      right one is the wider only when the row's width is odd and the
      line's even. */
  lemma CenterBalanced(len: nat, width: nat)
    requires width <= len
    ensures var left := Offset(Center, len, width);
            var right := len - left - width;
            && left <= right + 1 && right <= left + 1
            && (right > left <==> len % 2 == 1 && width % 2 == 0)
  {
  }

  /** Every line fits the row it goes to, and there are enough rows. */
  predicate Fits(lines: seq<seq<Byte>>, out: Grid) {
    && |lines| <= |out|
    && forall i | 0 <= i < |lines| :: |lines[i]| <= |out[i]|
  }

  /** Row `i` of `g` shows line `i` at its offset in the row of `out`. */
  predicate Shows(g: Grid, out: Grid, lines: seq<seq<Byte>>, align: Align, k: nat)
    requires Fits(lines, out) && k <= |lines|
  {
    && |g| == |out|
    && (forall i | 0 <= i < k :: Overlaid(g[i], out[i], Offset(align, |out[i]|, |lines[i]|), lines[i]))
    && (forall i | k <= i < |out| :: g[i] == out[i])
  }

  /** Draws each line of `text` into its row and returns the number of
      lines. */
  method Draw(text: seq<Byte>, align: Align, out: Grid) returns (g: Grid, count: nat)
    requires Fits(Split(text), out)
    ensures count == Newlines(text) + 1
    ensures Shows(g, out, Split(text), align, count)
  {
    var lines := Split(text);
    g := out;
    count := 0;
    while count < |lines|
      invariant count <= |lines|
      invariant Shows(g, out, lines, align, count)
    {
      var line := lines[count];
      var row := g[count];
      var at := Offset(align, |row|, |line|);
      g := g[count := Blit(row, at, line)];
      count := count + 1;
    }
  }

  /** Reading each row back at its offset gives the text again. */
  lemma Reads(text: seq<Byte>, align: Align, out: Grid, g: Grid)
    requires Fits(Split(text), out) && Shows(g, out, Split(text), align, |Split(text)|)
    ensures var lines := Split(text);
            Join(seq(|lines|, i requires 0 <= i < |lines| =>
              g[i][Offset(align, |out[i]|, |lines[i]|)..Offset(align, |out[i]|, |lines[i]|) + |lines[i]|])) == text
  {
    var lines := Split(text);
    var read := seq(|lines|, i requires 0 <= i < |lines| =>
      g[i][Offset(align, |out[i]|, |lines[i]|)..Offset(align, |out[i]|, |lines[i]|) + |lines[i]|]);
    forall i | 0 <= i < |lines|
      ensures read[i] == lines[i]
    {
      var at := Offset(align, |out[i]|, |lines[i]|);
      assert Overlaid(g[i], out[i], at, lines[i]);
    }
    assert read == lines;
    JoinSplit(text);
  }

  /** Two lines "AB" and "C" centred into two four-cell rows: " AB " and
      "  C " over the cleared rows. */
  method TestCentred() returns (g: Grid, count: nat)
    ensures count == 2
    ensures g == [[0, 65, 66, 0], [0, 0, 67, 0]]
  {
    var text: seq<Byte> := [65, 66, NEWLINE, 67];
    SplitLine([65, 66], [67]);
    SplitLine([67], []);
    assert text == [65, 66] + [NEWLINE] + [67];
    var lines := Split(text);
    assert lines == [[65, 66], [67]];
    var out := [Blank(4), Blank(4)];
    g, count := Draw(text, Center, out);
    assert Offset(Center, 4, 2) == 1 && Offset(Center, 4, 1) == 2;
    assert Overlaid(g[0], out[0], 1, [65, 66]) && Overlaid(g[1], out[1], 2, [67]);
    assert g[0] == [0, 65, 66, 0];
    assert g[1] == [0, 0, 67, 0];
  }
}
