/** Field of view: the configured diagonal split into horizontal and vertical
    spans (degrees) for the two supported aspect ratios. */
module Aspect {
  import Arith

  datatype AspectRatio = Standard | Wide

  /** Horizontal span of a diagonal field of view: never wider than the
      diagonal. */
  function DiagonalToWidth(ratio: AspectRatio, diagonal: nat): (w: nat)
    ensures w <= diagonal
  {
    match ratio
    case Wide =>
      Shrink(diagonal, 1600, 1835);
      diagonal * 1600 / 1835
    case Standard =>
      Shrink(diagonal, 4, 5);
      diagonal * 4 / 5
  }

  /** Vertical span of a diagonal field of view: never taller than the
      horizontal span. */
  function DiagonalToHeight(ratio: AspectRatio, diagonal: nat): (h: nat)
    ensures h <= DiagonalToWidth(ratio, diagonal)
  {
    match ratio
    case Wide =>
      Arith.MulMonotone(900, 1600, diagonal);
      Arith.NatDivMonotone(diagonal * 900, diagonal * 1600, 1835);
      diagonal * 900 / 1835
    case Standard =>
      Arith.MulMonotone(3, 4, diagonal);
      Arith.NatDivMonotone(diagonal * 3, diagonal * 4, 5);
      diagonal * 3 / 5
  }

  /** `d * num / den <= d` when `num <= den`. */
  lemma Shrink(d: nat, num: nat, den: nat)
    requires 0 < num <= den
    ensures d * num / den <= d
  {
    Arith.MulMonotone(num, den, d);
    Arith.NatDivMonotone(d * num, d * den, den);
    Arith.DivUnique(d * den, den, d, 0);
  }

  /** A wider diagonal never yields a narrower or shorter span. */
  lemma Monotone(ratio: AspectRatio, d1: nat, d2: nat)
    requires d1 <= d2
    ensures DiagonalToWidth(ratio, d1) <= DiagonalToWidth(ratio, d2)
    ensures DiagonalToHeight(ratio, d1) <= DiagonalToHeight(ratio, d2)
  {
    match ratio
    case Wide =>
      Arith.MulMonotone(d1, d2, 1600);
      Arith.NatDivMonotone(d1 * 1600, d2 * 1600, 1835);
      Arith.MulMonotone(d1, d2, 900);
      Arith.NatDivMonotone(d1 * 900, d2 * 900, 1835);
    case Standard =>
      Arith.MulMonotone(d1, d2, 4);
      Arith.NatDivMonotone(d1 * 4, d2 * 4, 5);
      Arith.MulMonotone(d1, d2, 3);
      Arith.NatDivMonotone(d1 * 3, d2 * 3, 5);
  }

  /** The vertical span is zero, and so unusable as a divisor, exactly for
      diagonals below 3 (16:9) or below 2 (4:3). */
  lemma HeightZero(d: nat)
    ensures DiagonalToHeight(Wide, d) == 0 <==> d < 3
    ensures DiagonalToHeight(Standard, d) == 0 <==> d < 2
  {
    if d >= 3 {
      Arith.MulMonotone(3, d, 900);
      Arith.NatDivMonotone(3 * 900, d * 900, 1835);
    }
    if d >= 2 {
      Arith.MulMonotone(2, d, 3);
      Arith.NatDivMonotone(2 * 3, d * 3, 5);
    }
  }

  /** The 18-degree 16:9 configuration the widget tests use. */
  lemma Fov18Wide()
    ensures DiagonalToWidth(Wide, 18) == 15
    ensures DiagonalToHeight(Wide, 18) == 8
  {
  }
}
