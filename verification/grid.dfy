/** The character grid every widget draws into, and the alignment vocabulary.

    A cell is one byte: 0 means "untouched, let the video show through",
    the ASCII space is an opaque blank, other values are ASCII characters or
    glyph codes resolved by the symbol table. */
module Grid {

  type Byte = b: int | 0 <= b < 256

  type Row = seq<Byte>

  type Grid = seq<Row>

  /** The transparent sentinel. */
  const TRANSPARENT: Byte := 0

  /** The opaque blank. */
  const SPACE: Byte := 32

  /** The nine layout slots a widget can be bound to. */
  datatype Align = Top | TopLeft | TopRight | Left | Center | Right | BottomLeft | Bottom | BottomRight

  /** A non-empty grid whose rows all have the width of the first one. */
  predicate Rectangular(g: Grid) {
    && |g| >= 1
    && forall i | 0 <= i < |g| :: |g[i]| == |g[0]|
  }

  /** A rectangular grid with at least one column. */
  predicate Canvas(g: Grid) {
    Rectangular(g) && |g[0]| >= 1
  }

  /** `n` transparent cells. */
  function Blank(n: nat): (r: Row)
    ensures |r| == n
    ensures forall i | 0 <= i < n :: r[i] == TRANSPARENT
  {
    seq(n, _ => TRANSPARENT)
  }

  /** Row `r` is `row` with `bytes` over its cells from column `at`, and
      every other cell kept. */
  predicate Overlaid(r: Row, row: Row, at: int, bytes: seq<Byte>) {
    && 0 <= at && at + |bytes| <= |row| && |r| == |row|
    && forall i | 0 <= i < |row| :: r[i] == if at <= i < at + |bytes| then bytes[i - at] else row[i]
  }

  /** Row `r` is `row` with `bytes` over its last cells. */
  predicate RightAligned(r: Row, row: Row, bytes: seq<Byte>) {
    |bytes| <= |row| && Overlaid(r, row, |row| - |bytes|, bytes)
  }

  /** Copies `bytes` into `row` starting at column `at`, as Rust's
      `copy_from_slice` on `row[at..at + bytes.len()]`. */
  function Blit(row: Row, at: nat, bytes: seq<Byte>): (r: Row)
    requires at + |bytes| <= |row|
    ensures Overlaid(r, row, at, bytes)
    ensures r[at..at + |bytes|] == bytes
    ensures forall i | 0 <= i < at :: r[i] == row[i]
    ensures forall i | at + |bytes| <= i < |row| :: r[i] == row[i]
  {
    seq(|row|, i requires 0 <= i < |row| => if at <= i < at + |bytes| then bytes[i - at] else row[i])
  }

  /** Writes one cell. */
  function SetCell(g: Grid, r: nat, c: nat, v: Byte): (h: Grid)
    requires r < |g| && c < |g[r]|
    ensures |h| == |g|
    ensures forall i | 0 <= i < |g| :: |h[i]| == |g[i]|
    ensures h[r][c] == v
    ensures forall i, j | 0 <= i < |g| && 0 <= j < |g[i]| && (i, j) != (r, c) :: h[i][j] == g[i][j]
  {
    var row: Row := g[r][c := v];
    g[r := row]
  }

  /** The ASCII bytes of a string literal. */
  function Ascii(s: string): (r: seq<Byte>)
    requires forall i | 0 <= i < |s| :: s[i] as int < 256
    ensures |r| == |s|
  {
    seq(|s|, i requires 0 <= i < |s| => s[i] as int)
  }
}
