/** The steerpoint panel: the same three rows as the waypoint panel, built
    with formatted writes into an eight-byte fixed-capacity string that is
    then copied right-aligned into the row. */
module Steerpoint {
  import opened Grid
  import opened Decimal
  import Telemetry
  import Symbols
  import Waypoint

  /** Capacity of the fixed-capacity string every field is formatted into. */
  const CAPACITY: nat := 8

  /** The pieces of a format string, joined. */
  function Flatten(pieces: seq<seq<Byte>>): (s: seq<Byte>)
    decreases |pieces|
  {
    if |pieces| == 0 then [] else pieces[0] + Flatten(pieces[1..])
  }

  /** Formatting into a fixed-capacity string: each piece is appended whole
      if it fits, and the first one that does not fit ends the write (the
      error is discarded). */
  function Capped(pieces: seq<seq<Byte>>, cap: nat): (s: seq<Byte>)
    ensures |s| <= cap
    decreases |pieces|
  {
    if |pieces| == 0 || |pieces[0]| > cap then []
    else pieces[0] + Capped(pieces[1..], cap - |pieces[0]|)
  }

  /** Joining a first piece onto the rest. */
  lemma FlattenCons(p: seq<Byte>, rest: seq<seq<Byte>>)
    ensures Flatten([p] + rest) == p + Flatten(rest)
  {
    assert ([p] + rest)[1..] == rest;
  }

  /** Formatting a first piece, then the rest into what room is left. */
  lemma CappedCons(p: seq<Byte>, rest: seq<seq<Byte>>, cap: nat)
    ensures Capped([p] + rest, cap) == if |p| > cap then [] else p + Capped(rest, cap - |p|)
  {
    assert ([p] + rest)[1..] == rest;
  }

  /** When the whole text fits, nothing is lost. */
  lemma {:induction false} CappedFits(pieces: seq<seq<Byte>>, cap: nat)
    requires |Flatten(pieces)| <= cap
    ensures Capped(pieces, cap) == Flatten(pieces)
    decreases |pieces|
  {
    if |pieces| > 0 {
      CappedFits(pieces[1..], cap - |pieces[0]|);
    }
  }

  /** When it does not, the string comes out shorter than the text. */
  lemma {:induction false} CappedOverflows(pieces: seq<seq<Byte>>, cap: nat)
    requires |Flatten(pieces)| > cap
    ensures |Capped(pieces, cap)| < |Flatten(pieces)|
    decreases |pieces|
  {
    if |pieces| > 0 && |pieces[0]| <= cap {
      CappedOverflows(pieces[1..], cap - |pieces[0]|);
    }
  }

  /** `{:02}` of `n` as the formatter writes it: below 10 the '0' fill
      character on its own, then the digits in one piece. */
  function Pad2(n: nat): (pieces: seq<seq<Byte>>)
    ensures forall i | 0 <= i < |pieces| :: |pieces[i]| >= 1
  {
    if n < 10 then [[ZERO], Digits(n)] else [Digits(n)]
  }

  /** Joined, the pieces of `{:02}` are the two-digit field below 100. */
  lemma Pad2Field(n: nat)
    requires n < 100
    ensures Flatten(Pad2(n)) == ZeroPadded(n, 2)
  {
    NumToAOverZeros(n, 2);
    assert Pow10(1) == 10;
    DigitsFit(n, 1);
    FlattenCons(Digits(n), []);
    assert [Digits(n)] + [] == [Digits(n)];
    if n < 10 {
      FlattenCons([ZERO], [Digits(n)]);
      assert [[ZERO]] + [Digits(n)] == [[ZERO], Digits(n)];
      assert seq(1, _ => ZERO) == [ZERO];
    }
  }

  /** The pieces of `{:02}:{:02}:` of hours and minutes. */
  function ClockHead(h: nat, m: nat): (pieces: seq<seq<Byte>>)
    ensures |pieces| >= 4
  {
    Pad2(h) + [[Waypoint.COLON]] + Pad2(m) + [[Waypoint.COLON]]
  }

  /** `{:02}:{:02}:{:02}` of hours, minutes and seconds. */
  function ClockText(h: nat, m: nat, s: nat): (t: seq<Byte>)
    ensures |t| <= CAPACITY
  {
    Capped(ClockHead(h, m) + Pad2(s), CAPACITY)
  }

  /** The hours and minutes joined: the hours as `{:02}` spells them, then
      the two-digit minutes between colons. */
  lemma HeadText(h: nat, m: nat)
    requires m < 60
    ensures Flatten(ClockHead(h, m)) == Flatten(Pad2(h)) + [Waypoint.COLON] + ZeroPadded(m, 2) + [Waypoint.COLON]
  {
    var c := [[Waypoint.COLON]];
    Pad2Field(m);
    FlattenAppend(Pad2(h) + c + Pad2(m), c);
    FlattenAppend(Pad2(h) + c, Pad2(m));
    FlattenAppend(Pad2(h), c);
    FlattenCons([Waypoint.COLON], []);
    assert c == [[Waypoint.COLON]] + [];
  }

  /** Three-digit hours are one piece of three bytes. */
  lemma WideHours(h: nat)
    requires 100 <= h < 1000
    ensures Pad2(h) == [Digits(h)] && Flatten(Pad2(h)) == Digits(h) && |Digits(h)| == 3
  {
    assert Pow10(2) == 100 && Pow10(3) == 1000;
    DigitsFit(h, 2);
    DigitsFit(h, 3);
    FlattenCons(Digits(h), []);
    assert [Digits(h)] + [] == [Digits(h)];
  }

  /** One byte of room takes the seconds' '0' fill below 10 seconds and
      nothing from 10 on. */
  lemma SecondsInOneByte(s: nat)
    requires s < 60
    ensures Capped(Pad2(s), 1) == if s < 10 then [ZERO] else []
  {
    assert Pow10(1) == 10 && Pow10(2) == 100;
    DigitsFit(s, 1);
    DigitsFit(s, 2);
    if s < 10 {
      CappedCons(Digits(s), [], 0);
      CappedCons([ZERO], [Digits(s)], 1);
      assert [[ZERO]] + [Digits(s)] == Pad2(s);
    } else {
      CappedCons(Digits(s), [], 1);
      assert [Digits(s)] + [] == Pad2(s);
    }
  }

  /** Under 100 hours the formatted clock is the waypoint's clock field. From
      100 hours on only one byte is left for the seconds: below 10 seconds
      it takes their '0' fill and the text is the eight bytes "hhh:mm:0";
      from 10 seconds on it is the seven bytes "hhh:mm:", too short for the
      eight cells it is copied into, so the copy panics. */
  lemma ClockTextIsField(h: nat, m: nat, s: nat)
    requires h < 256 && m < 60 && s < 60
    ensures h < 100 ==> ClockText(h, m, s) == Waypoint.ClockField(h, m, s)
    ensures h >= 100 && s < 10 ==>
      ClockText(h, m, s) == Digits(h) + [Waypoint.COLON] + ZeroPadded(m, 2) + [Waypoint.COLON, ZERO]
    ensures h >= 100 && s >= 10 ==>
      ClockText(h, m, s) == Digits(h) + [Waypoint.COLON] + ZeroPadded(m, 2) + [Waypoint.COLON]
    ensures |ClockText(h, m, s)| == CAPACITY <==> h < 100 || s < 10
  {
    HeadText(h, m);
    if h < 100 {
      Pad2Field(h);
      Pad2Field(s);
      FlattenAppend(ClockHead(h, m), Pad2(s));
      CappedFits(ClockHead(h, m) + Pad2(s), CAPACITY);
    } else {
      WideHours(h);
      CappedAppend(ClockHead(h, m), Pad2(s), CAPACITY);
      SecondsInOneByte(s);
    }
  }

  /** Joining two runs of pieces. */
  lemma {:induction false} FlattenAppend(a: seq<seq<Byte>>, b: seq<seq<Byte>>)
    ensures Flatten(a + b) == Flatten(a) + Flatten(b)
    decreases |a|
  {
    if |a| > 0 {
      assert (a + b)[1..] == a[1..] + b;
      FlattenAppend(a[1..], b);
    } else {
      assert a + b == b;
    }
  }

  /** Formatting a run of pieces that fits, then the rest into what room is
      left. */
  lemma {:induction false} CappedAppend(a: seq<seq<Byte>>, b: seq<seq<Byte>>, cap: nat)
    requires |Flatten(a)| <= cap
    ensures Capped(a + b, cap) == Flatten(a) + Capped(b, cap - |Flatten(a)|)
    decreases |a|
  {
    if |a| > 0 {
      var rest := a[1..] + b;
      assert a + b == [a[0]] + rest;
      assert [a[0]] + a[1..] == a;
      FlattenCons(a[0], a[1..]);
      CappedCons(a[0], rest, cap);
      var room := cap - |a[0]|;
      CappedAppend(a[1..], b, room);
      assert Capped(a + b, cap) == a[0] + Capped(rest, room);
      assert room - |Flatten(a[1..])| == cap - |Flatten(a)|;
    } else {
      assert a + b == b;
    }
  }

  /** `{}{}` of the distance (tenths below 100, whole units from there) and
      the unit. */
  function DistanceText(rho: nat, unit: seq<Byte>): (t: seq<Byte>)
    ensures |t| <= CAPACITY
  {
    Capped([Digits(if rho < 100 then rho else rho / 10), unit], CAPACITY)
  }

  /** For a 16-bit distance and a two-letter unit the text is whole. */
  lemma DistanceTextFits(rho: nat, unit: seq<Byte>)
    requires rho < Telemetry.U16_LIMIT && |unit| == 2
    ensures DistanceText(rho, unit) == Digits(if rho < 100 then rho else rho / 10) + unit
  {
    var v := if rho < 100 then rho else rho / 10;
    DigitsFit(v, 5);
    FlattenCons(unit, []);
    FlattenCons(Digits(v), [unit]);
    assert [Digits(v)] + [unit] == [Digits(v), unit];
    assert [unit] + [] == [unit];
    CappedFits([Digits(v), unit], CAPACITY);
  }

  /** `{}/{:4}` of the number and the name: the name padded with spaces on
      the right to four bytes, one fill character at a time. */
  function NameText(number: nat, name: seq<Byte>): (t: seq<Byte>)
    ensures |t| <= CAPACITY
  {
    var fill := if |name| < 4 then 4 - |name| else 0;
    Capped([Digits(number), [SLASH]] + [name] + seq(fill, _ => [SPACE]), CAPACITY)
  }

  const SLASH: Byte := Waypoint.SLASH

  /** A number of up to three digits and a name of up to four bytes come out
      whole, the name padded to four; with a four-byte name that is exactly
      what the waypoint panel writes. */
  lemma NameTextPadded(number: nat, name: seq<Byte>)
    requires number < Telemetry.U8_LIMIT && |name| <= 4
    ensures NameText(number, name) == Digits(number) + [SLASH] + name + seq(4 - |name|, _ => SPACE)
    ensures |name| == 4 ==> NameText(number, name) == Waypoint.NameBytes(number, name)
  {
    DigitsFit(number, 3);
    var fill := 4 - |name|;
    var pieces := [Digits(number), [SLASH]] + [name] + seq(fill, _ => [SPACE]);
    var spaces := seq(fill, _ => SPACE);
    FlattenSpaces(fill);
    assert pieces[3..] == seq(fill, _ => [SPACE]);
    assert pieces == [Digits(number)] + ([[SLASH]] + ([name] + pieces[3..]));
    FlattenCons(name, pieces[3..]);
    FlattenCons([SLASH], [name] + pieces[3..]);
    FlattenCons(Digits(number), [[SLASH]] + ([name] + pieces[3..]));
    CappedFits(pieces, CAPACITY);
  }

  /** A run of one-space pieces joins to a run of spaces. */
  lemma {:induction false} FlattenSpaces(k: nat)
    ensures Flatten(seq(k, _ => [SPACE])) == seq(k, _ => SPACE)
  {
    if k > 0 {
      FlattenSpaces(k - 1);
      assert seq(k, _ => [SPACE])[1..] == seq(k - 1, _ => [SPACE]);
      assert seq(k, _ => SPACE) == [SPACE] + seq(k - 1, _ => SPACE);
    }
  }

  /** Where the formatted clock can be copied, it is the waypoint panel's
      clock bytes cut to the eight cells: the whole "hh:mm:ss" field below
      100 hours, and "hhh:mm:" with the seconds' first digit from there. */
  lemma ClockTextOfTime(ttg: nat)
    requires Waypoint.Clock(ttg).0 < 100 || Waypoint.Clock(ttg).2 < 10
    ensures var (h, m, s) := Waypoint.Clock(ttg);
            ClockText(h, m, s) == Waypoint.ClockBytes(ttg)[..CAPACITY]
  {
    var (h, m, s) := Waypoint.Clock(ttg);
    ClockTextIsField(h, m, s);
    if h >= 100 {
      WideHours(h);
      SingleDigitSeconds(s);
      var f := Waypoint.ClockField(0, m, s);
      assert f[2..] == [Waypoint.COLON] + ZeroPadded(m, 2) + [Waypoint.COLON, ZERO, ZERO + s];
      assert (Digits(h) + f[2..])[..CAPACITY] == Digits(h) + [Waypoint.COLON] + ZeroPadded(m, 2) + [Waypoint.COLON, ZERO];
    }
  }

  /** Seconds below 10 are written as '0' and their digit. */
  lemma SingleDigitSeconds(s: nat)
    requires s < 10
    ensures ZeroPadded(s, 2) == [ZERO, ZERO + s]
  {
    assert s / 10 == 0 && s % 10 == s;
    assert ZeroPadded(0, 1) == [ZERO];
  }

  /** TTG row: the formatted clock copied into the last eight cells, which
      panics when the text is shorter than that. */
  method DrawClock(row: Row, ttg: nat) returns (r: Row)
    requires |row| >= CAPACITY && (Waypoint.Clock(ttg).0 < 100 || Waypoint.Clock(ttg).2 < 10)
    ensures RightAligned(r, row, Waypoint.ClockBytes(ttg)[..CAPACITY])
  {
    var (h, m, s) := Waypoint.Clock(ttg);
    ClockTextIsField(h, m, s);
    ClockTextOfTime(ttg);
    r := Blit(row, |row| - CAPACITY, ClockText(h, m, s));
  }

  /** Below 100 tenths: the formatted tenths and unit copied to the row's
      end, then the cell four from the end swapped for its dotted glyph. */
  method DistanceTenths(row: Row, rho: nat, unit: seq<Byte>, zeroDot: Byte) returns (r: Row)
    requires |row| >= 8 && rho < 100 && |unit| == 2 && zeroDot + 9 < 256
    ensures RightAligned(r, row, Waypoint.DistanceBytes(rho, unit, zeroDot, row[|row| - 4]))
  {
    var n := |row|;
    DistanceTextFits(rho, unit);
    var text := Digits(rho) + unit;
    assert text == DistanceText(rho, unit);
    DigitsFit(rho, 2);
    var r1 := Blit(row, n - |text|, text);
    if rho >= 10 {
      assert Digits(rho) == Digits(rho / 10) + [ZERO + rho % 10];
      assert Digits(rho / 10) == [ZERO + rho / 10];
    }
    r := r1[n - 4 := Symbols.ToNumberWithDot(r1[n - 4], zeroDot)];
  }

  /** From 100 tenths on: the formatted whole units and unit copied to the
      row's end. */
  method DistanceUnits(row: Row, rho: nat, unit: seq<Byte>, zeroDot: Byte) returns (r: Row)
    requires |row| >= 8 && 100 <= rho < Telemetry.U16_LIMIT && |unit| == 2 && zeroDot + 9 < 256
    ensures RightAligned(r, row, Waypoint.DistanceBytes(rho, unit, zeroDot, row[|row| - 4]))
  {
    var text := DistanceText(rho, unit);
    DistanceTextFits(rho, unit);
    r := Blit(row, |row| - |text|, text);
  }

  /** Distance row: `rho` is in tenths of the distance unit. */
  method DrawDistance(row: Row, rho: nat, unit: seq<Byte>, zeroDot: Byte) returns (r: Row)
    requires |row| >= 8 && rho < Telemetry.U16_LIMIT && |unit| == 2 && zeroDot + 9 < 256
    ensures RightAligned(r, row, Waypoint.DistanceBytes(rho, unit, zeroDot, row[|row| - 4]))
  {
    if rho < 100 {
      r := DistanceTenths(row, rho, unit, zeroDot);
    } else {
      r := DistanceUnits(row, rho, unit, zeroDot);
    }
  }

  /** Name row: the formatted number and name copied to the row's end. */
  method DrawName(row: Row, number: nat, name: seq<Byte>) returns (r: Row)
    requires |row| >= CAPACITY
    ensures RightAligned(r, row, NameText(number, name))
  {
    var text := NameText(number, name);
    r := Blit(row, |row| - |text|, text);
  }

  /** The rows the panel writes: the last three, all as wide as the last
      one (the source slices each with the last row's width), at least
      eight cells. */
  predicate Fits(g: Grid) {
    && |g| >= 3
    && |g[|g| - 1]| >= CAPACITY
    && |g[|g| - 2]| == |g[|g| - 1]| && |g[|g| - 3]| == |g[|g| - 1]|
  }

  /** One frame for steerpoint `number`/`name` at `rho` tenths of `unit`,
      flown towards at `speed`: clock on the last row, distance above it,
      number and name above that; every other row kept; three rows used. */
  method Draw(number: nat, name: seq<Byte>, rho: nat, unit: seq<Byte>, speed: nat, zeroDot: Byte, g: Grid)
    returns (out: Grid, lines: nat)
    requires number < Telemetry.U8_LIMIT && rho < Telemetry.U16_LIMIT && speed < Telemetry.U16_LIMIT
    requires |unit| == 2 && zeroDot + 9 < 256 && Fits(g)
    requires var (h, _, s) := Waypoint.Clock(Telemetry.TimeToGoOf(rho, speed)); h < 100 || s < 10
    ensures lines == 3 && |out| == |g|
    ensures RightAligned(out[|g| - 1], g[|g| - 1], Waypoint.ClockBytes(Telemetry.TimeToGoOf(rho, speed))[..CAPACITY])
    ensures var row := g[|g| - 2];
            RightAligned(out[|g| - 2], row, Waypoint.DistanceBytes(rho, unit, zeroDot, row[|row| - 4]))
    ensures RightAligned(out[|g| - 3], g[|g| - 3], NameText(number, name))
    ensures forall i | 0 <= i < |g| - 3 :: out[i] == g[i]
  {
    var last := |g| - 1;
    var clock := DrawClock(g[last], Telemetry.TimeToGoOf(rho, speed));
    var distance := DrawDistance(g[last - 1], rho, unit, zeroDot);
    var nameRow := DrawName(g[last - 2], number, name);
    out := g[last := clock][last - 1 := distance][last - 2 := nameRow];
    lines := 3;
  }

  /** The name row of a ten-cell frame for steerpoint 0 "HOME". */
  lemma ExpectHome(r: Row)
    requires RightAligned(r, Blank(10), NameText(0, Ascii("HOME")))
    ensures r == [0, 0, 0, 0, 48, SLASH, 72, 79, 77, 69]
  {
    NameTextPadded(0, Ascii("HOME"));
    Waypoint.ExpectName(r, 0);
  }

  /** The distance row of a ten-cell frame in "NM" for whole units below 10. */
  lemma ExpectUnits(r: Row, rho: nat, digit: Byte)
    requires 100 <= rho < 1000 && digit == ZERO + rho / 100
    requires RightAligned(r, Blank(10), Waypoint.DistanceBytes(rho, Ascii("NM"), 16, TRANSPARENT))
    ensures r == [0, 0, 0, 0, 0, 0, digit, ZERO + rho / 10 % 10, 78, 77]
  {
    var b := Waypoint.DistanceBytes(rho, Ascii("NM"), 16, TRANSPARENT);
    assert Digits(rho / 10) == Digits(rho / 100) + [ZERO + rho / 10 % 10];
    assert b == [digit, ZERO + rho / 10 % 10, 78, 77];
  }

  /** One frame of the source's test into three cleared ten-cell rows, at
      a time to go of `h`:`m`:`s`. */
  method TestFrame(rho: nat, speed: nat, h: nat, m: nat, s: nat) returns (out: Grid)
    requires rho < Telemetry.U16_LIMIT && speed < Telemetry.U16_LIMIT
    requires h < 100 && m < 60 && s < 60 && Waypoint.Clock(Telemetry.TimeToGoOf(rho, speed)) == (h, m, s)
    ensures |out| == 3
    ensures out[0] == [0, 0, 0, 0, 48, SLASH, 72, 79, 77, 69]
    ensures RightAligned(out[1], Blank(10), Waypoint.DistanceBytes(rho, Ascii("NM"), 16, TRANSPARENT))
    ensures out[2] == [0, 0, ZERO + h / 10, ZERO + h % 10, Waypoint.COLON, ZERO + m / 10, ZERO + m % 10,
                       Waypoint.COLON, ZERO + s / 10, ZERO + s % 10]
  {
    var zeroDot := Symbols.Code(Symbols.ZeroWithTraillingDot);
    assert zeroDot == 16;
    var lines;
    out, lines := Draw(0, Ascii("HOME"), rho, Ascii("NM"), speed, zeroDot, Waypoint.TestScreen());
    ExpectHome(out[0]);
    assert Waypoint.ClockBytes(Telemetry.TimeToGoOf(rho, speed))[..CAPACITY] == Waypoint.ClockField(h, m, s);
    Waypoint.ExpectClock(out[2], h, m, s);
  }

  /** 100.1 units at speed 1, 100:06:00 to go: the clock row keeps only
      "100:06:0" of it. */
  method TestHundredHours() returns (out: Grid)
    ensures |out| == 3
    ensures out[2] == [0, 0, 49, 48, 48, Waypoint.COLON, 48, 54, Waypoint.COLON, 48]
  {
    Telemetry.TimeToGoOfIs(1001, 1, 360360);
    assert Waypoint.Clock(360360) == (100, 6, 0);
    var lines;
    out, lines := Draw(0, Ascii("HOME"), 1001, Ascii("NM"), 1, 16, Waypoint.TestScreen());
    HundredHoursBytes();
  }

  /** The waypoint clock of 100:06:00 cut to eight bytes. */
  lemma HundredHoursBytes()
    ensures Waypoint.ClockBytes(360360)[..CAPACITY] == [49, 48, 48, Waypoint.COLON, 48, 54, Waypoint.COLON, 48]
  {
    assert Waypoint.Clock(360360) == (100, 6, 0);
    assert Digits(100) == [49, 48, 48] by {
      assert Digits(10) == [49, 48];
    }
    assert ZeroPadded(6, 2) == [48, 54];
    assert ZeroPadded(0, 2) == [48, 48];
  }

  /** Default telemetry: "    0/HOME", "      ₀0NM", "  00:00:00". */
  method TestHome() returns (out: Grid)
    ensures |out| == 3
    ensures out[0] == [0, 0, 0, 0, 48, SLASH, 72, 79, 77, 69]
    ensures out[1] == [0, 0, 0, 0, 0, 0, 16, 48, 78, 77]
    ensures out[2] == [0, 0, 48, 48, Waypoint.COLON, 48, 48, Waypoint.COLON, 48, 48]
  {
    Waypoint.ClockOf(0, 0, 0);
    out := TestFrame(0, 0, 0, 0, 0);
    Waypoint.ExpectDistance(out[1], 0, [16, 48]);
  }

  /** 60 units at standstill: "      60NM", "  00:00:00". */
  method TestSixty() returns (out: Grid)
    ensures |out| == 3
    ensures out[1] == [0, 0, 0, 0, 0, 0, 54, 48, 78, 77]
    ensures out[2] == [0, 0, 48, 48, Waypoint.COLON, 48, 48, Waypoint.COLON, 48, 48]
  {
    Waypoint.ClockOf(0, 0, 0);
    out := TestFrame(600, 0, 0, 0, 0);
    ExpectUnits(out[1], 600, 54);
  }

  /** 60 units at 60: "  01:00:00". */
  method TestOneHour() returns (out: Grid)
    ensures |out| == 3
    ensures out[1] == [0, 0, 0, 0, 0, 0, 54, 48, 78, 77]
    ensures out[2] == [0, 0, 48, 49, Waypoint.COLON, 48, 48, Waypoint.COLON, 48, 48]
  {
    Telemetry.TimeToGoOfIs(600, 60, 3600);
    Waypoint.ClockOf(1, 0, 0);
    out := TestFrame(600, 60, 1, 0, 0);
    ExpectUnits(out[1], 600, 54);
  }

  /** 60 units at 61: "  00:59:00". */
  method TestFiftyNine() returns (out: Grid)
    ensures |out| == 3
    ensures out[1] == [0, 0, 0, 0, 0, 0, 54, 48, 78, 77]
    ensures out[2] == [0, 0, 48, 48, Waypoint.COLON, 53, 57, Waypoint.COLON, 48, 48]
  {
    Telemetry.TimeToGoOfIs(600, 61, 3540);
    Waypoint.ClockOf(0, 59, 0);
    out := TestFrame(600, 61, 0, 59, 0);
    ExpectUnits(out[1], 600, 54);
  }

  /** 9.9 units at 61: "      ⒐9NM", "  00:09:44". */
  method TestNinePointNine() returns (out: Grid)
    ensures |out| == 3
    ensures out[1] == [0, 0, 0, 0, 0, 0, 25, 57, 78, 77]
    ensures out[2] == [0, 0, 48, 48, Waypoint.COLON, 48, 57, Waypoint.COLON, 52, 52]
  {
    Telemetry.TimeToGoOfIs(99, 61, 584);
    Waypoint.ClockOf(0, 9, 44);
    out := TestFrame(99, 61, 0, 9, 44);
    Waypoint.ExpectDistance(out[1], 99, [25, 57]);
  }

  /** 9.8 units at 61: "      ⒐8NM", "  00:09:38". */
  method TestNinePointEight() returns (out: Grid)
    ensures |out| == 3
    ensures out[1] == [0, 0, 0, 0, 0, 0, 25, 56, 78, 77]
    ensures out[2] == [0, 0, 48, 48, Waypoint.COLON, 48, 57, Waypoint.COLON, 51, 56]
  {
    Telemetry.TimeToGoOfIs(98, 61, 578);
    Waypoint.ClockOf(0, 9, 38);
    out := TestFrame(98, 61, 0, 9, 38);
    Waypoint.ExpectDistance(out[1], 98, [25, 56]);
  }
}
