/** The logical glyphs and the default code table the overlay hardware
    understands. Variant names follow the source, spelling included. */
module Symbols {
  import opened Grid
  import Decimal

  datatype Symbol =
    | Space
    | Antenna
    | Battery
    | BoxDrawningLightUp
    | Degree
    | CrossHair
    | VeclocityVector
    | Alpha
    | Square
    | LineTop
    | LineUpper1
    | LineUpper2
    | LineCenter
    | LineLower1
    | LineLower2
    | LineBottom
    | ZeroWithTraillingDot
    | LeftOneEighthBlock
    | RightOneEighthBlock

  /** Position of a symbol in the enumeration. */
  function Ordinal(s: Symbol): nat {
    match s
    case Space => 0
    case Antenna => 1
    case Battery => 2
    case BoxDrawningLightUp => 3
    case Degree => 4
    case CrossHair => 5
    case VeclocityVector => 6
    case Alpha => 7
    case Square => 8
    case LineTop => 9
    case LineUpper1 => 10
    case LineUpper2 => 11
    case LineCenter => 12
    case LineLower1 => 13
    case LineLower2 => 14
    case LineBottom => 15
    case ZeroWithTraillingDot => 16
    case LeftOneEighthBlock => 17
    case RightOneEighthBlock => 18
  }

  /** The default table. Every code lies below the printable ASCII range
      and only `Space` maps to the transparent byte. */
  function Code(s: Symbol): (c: Byte)
    ensures c <= 28
    ensures c == TRANSPARENT <==> s == Space
  {
    match s
    case Space => 0
    case Antenna => 1
    case Battery => 2
    case Degree => 3
    case CrossHair => 4
    case VeclocityVector => 5
    case Alpha => 6
    case Square => 7
    case LineTop => 8
    case LineUpper1 => 9
    case LineUpper2 => 10
    case LineCenter => 11
    case LineLower1 => 12
    case LineLower2 => 13
    case LineBottom => 14
    case BoxDrawningLightUp => 15
    case ZeroWithTraillingDot => 16
    case LeftOneEighthBlock => 27
    case RightOneEighthBlock => 28
  }

  /** The codes the default table uses. */
  predicate IsCode(c: int) {
    0 <= c <= 16 || c == 27 || c == 28
  }

  /** Reads a code back as the symbol it stands for. */
  function SymbolOf(c: int): Symbol
    requires IsCode(c)
  {
    if c == 0 then Space
    else if c == 1 then Antenna
    else if c == 2 then Battery
    else if c == 3 then Degree
    else if c == 4 then CrossHair
    else if c == 5 then VeclocityVector
    else if c == 6 then Alpha
    else if c == 7 then Square
    else if c == 8 then LineTop
    else if c == 9 then LineUpper1
    else if c == 10 then LineUpper2
    else if c == 11 then LineCenter
    else if c == 12 then LineLower1
    else if c == 13 then LineLower2
    else if c == 14 then LineBottom
    else if c == 15 then BoxDrawningLightUp
    else if c == 16 then ZeroWithTraillingDot
    else if c == 27 then LeftOneEighthBlock
    else RightOneEighthBlock
  }

  /** The table and its reading are inverse, so no two symbols share a code. */
  lemma CodeRoundTrip(s: Symbol, c: int)
    ensures IsCode(Code(s)) && SymbolOf(Code(s)) == s
    ensures IsCode(c) ==> Code(SymbolOf(c)) == c
  {
  }

  lemma CodesDistinct(s: Symbol, t: Symbol)
    ensures Code(s) == Code(t) <==> s == t
  {
    CodeRoundTrip(s, 0);
    CodeRoundTrip(t, 0);
  }

  /** The seven line glyphs, top to bottom. */
  function LineSymbol(k: nat): (s: Symbol)
    requires k < 7
    ensures Ordinal(s) == Ordinal(LineTop) + k
    ensures Code(s) == Code(LineTop) + k
  {
    [LineTop, LineUpper1, LineUpper2, LineCenter, LineLower1, LineLower2, LineBottom][k]
  }

  /** The glyph code for digit `d` with a trailing dot, counted from the
      code of zero-with-dot. */
  function DottedDigit(zeroDot: Byte, d: nat): (c: Byte)
    requires d <= 9 && zeroDot + 9 < 256
    ensures c - zeroDot == d
  {
    zeroDot + d
  }

  /** Codes 17 to 26 stay free for the dotted digits 1 to 9 that follow
      code 16 (zero with a trailing dot): no symbol uses them. */
  lemma DottedDigitsFree(s: Symbol, d: nat)
    requires 1 <= d <= 10
    ensures Code(s) != Code(ZeroWithTraillingDot) + d
  {
  }

  /** The dot-glyph conversion of a cell. Its body is not part of this
      model's sources; the two behaviours the widget tests rely on are kept:
      an untouched cell becomes zero-with-dot and a digit byte becomes that
      digit with a dot. */
  function ToNumberWithDot(b: Byte, zeroDot: Byte): (c: Byte)
    requires zeroDot + 9 < 256
    ensures Decimal.IsDigit(b) ==> c == DottedDigit(zeroDot, b - Decimal.ZERO)
    ensures b == TRANSPARENT ==> c == zeroDot
  {
    if Decimal.IsDigit(b) then DottedDigit(zeroDot, b - Decimal.ZERO) else zeroDot
  }
}
