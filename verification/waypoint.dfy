/** The waypoint panel: three right-aligned rows at the bottom of its slot,
    the waypoint's number and name, its distance, and the time to go as
    hh:mm:ss. Every field is written with numtoa over the row, so each row
    is the old row with a run of bytes over its last cells. */
module Waypoint {
  import opened Grid
  import opened Decimal
  import Telemetry
  import Symbols
  import Arith

  const COLON: Byte := 58
  const SLASH: Byte := 47

  /** Hours, minutes and seconds of a time to go, each narrowed to a `u8` as
      the source does: the hours wrap past 255. */
  function Clock(ttg: nat): (hms: (nat, nat, nat))
    ensures hms.0 < 256 && hms.1 < 60 && hms.2 < 60
    ensures ttg < 256 * 3600 ==> hms.0 * 3600 + hms.1 * 60 + hms.2 == ttg
  {
    ((ttg / 3600) % 256, ttg / 60 % 60, ttg % 60)
  }

  /** Reference reading of the clock: two-digit fields joined by colons. */
  function ClockField(h: nat, m: nat, s: nat): (f: seq<Byte>)
    ensures |f| == 8 && f[2] == COLON && f[5] == COLON
    ensures f[..2] == ZeroPadded(h, 2) && f[3..5] == ZeroPadded(m, 2) && f[6..] == ZeroPadded(s, 2)
  {
    var f := ZeroPadded(h, 2) + [COLON] + ZeroPadded(m, 2) + [COLON] + ZeroPadded(s, 2);
    assert f[..2] == ZeroPadded(h, 2) && f[3..5] == ZeroPadded(m, 2) && f[6..] == ZeroPadded(s, 2);
    f
  }

  /** What the clock row ends with: the clock field, and from 100 hours on
      the three hour digits spilling one cell left of it. */
  function ClockBytes(ttg: nat): (b: seq<Byte>)
    ensures Clock(ttg).0 < 100 ==> b == ClockField(Clock(ttg).0, Clock(ttg).1, Clock(ttg).2)
    ensures Clock(ttg).0 >= 100 ==> |b| == 9 && b[..3] == Digits(Clock(ttg).0)
    ensures Clock(ttg).0 >= 100 ==> b[3..] == ClockField(0, Clock(ttg).1, Clock(ttg).2)[2..]
  {
    var hms := Clock(ttg);
    if hms.0 < 100 then ClockField(hms.0, hms.1, hms.2)
    else
      DigitsFit(hms.0, 3);
      DigitsFit(hms.0, 2);
      Digits(hms.0) + ClockField(0, hms.1, hms.2)[2..]
  }

  /** numtoa of `v` over a field of `w` '0' cells ending at column `end`:
      the field becomes the zero-padded `v`. */
  method WriteField(row: Row, end: nat, w: nat, v: nat) returns (r: Row)
    requires w >= 1 && v < Pow10(w) && w <= end <= |row|
    requires forall i | end - w <= i < end :: row[i] == ZERO
    ensures Overlaid(r, row, end - w, ZeroPadded(v, w))
  {
    NumToAOverZeroField(row, end, w, v);
    r := NumToA(row, end, v);
    assert r[end - w..end] == ZeroPadded(v, w);
    forall i | end - w <= i < end
      ensures r[i] == ZeroPadded(v, w)[i - (end - w)]
    {
      assert r[i] == r[end - w..end][i - (end - w)];
    }
  }

  /** The "00:00:00" template with the seconds and minutes written: numtoa
      of the seconds ending at the row's end, of the minutes three cells
      earlier. */
  method ClockBase(row: Row, m: nat, s: nat) returns (r: Row)
    requires |row| >= 8 && m < 60 && s < 60
    ensures RightAligned(r, row, ClockField(0, m, s))
  {
    var n := |row|;
    var f := ClockField(0, m, s);
    var zeros := ClockField(0, 0, 0);
    assert ZeroPadded(0, 2) == [ZERO, ZERO];
    var r0 := Blit(row, n - 8, zeros);
    var r1 := WriteField(r0, n, 2, s);
    r := WriteField(r1, n - 3, 2, m);
    forall i | n - 8 <= i < n
      ensures r[i] == f[i - (n - 8)]
    {
      if n - 5 <= i < n - 3 {
        assert f[i - (n - 8)] == f[3..5][i - (n - 5)];
      } else if n - 2 <= i {
        assert f[i - (n - 8)] == f[6..][i - (n - 2)];
      } else if i < n - 6 {
        assert f[i - (n - 8)] == f[..2][i - (n - 8)];
      }
    }
  }

  /** Under 100 hours the hours fill the template's first field. */
  method ClockShortHours(base: Row, row: Row, h: nat, m: nat, s: nat) returns (r: Row)
    requires h < 100 && m < 60 && s < 60 && RightAligned(base, row, ClockField(0, m, s))
    ensures RightAligned(r, row, ClockField(h, m, s))
  {
    var n := |row|;
    var f := ClockField(0, m, s);
    var g := ClockField(h, m, s);
    assert base[n - 8] == f[0] == ZERO && base[n - 7] == f[1] == ZERO by {
      assert f[..2] == ZeroPadded(0, 2) == [ZERO, ZERO];
    }
    r := WriteField(base, n - 6, 2, h);
    forall i | n - 8 <= i < n
      ensures r[i] == g[i - (n - 8)]
    {
      if i < n - 6 {
        assert g[i - (n - 8)] == g[..2][i - (n - 8)];
      } else {
        assert g[i - (n - 8)] == f[i - (n - 8)];
      }
    }
  }

  /** From 100 hours the three hour digits end six cells from the end and
      spill one cell left of the template. */
  method ClockLongHours(base: Row, row: Row, ttg: nat) returns (r: Row)
    requires Clock(ttg).0 >= 100 && |row| >= 9
    requires RightAligned(base, row, ClockField(0, Clock(ttg).1, Clock(ttg).2))
    ensures RightAligned(r, row, ClockBytes(ttg))
  {
    var n := |row|;
    var hms := Clock(ttg);
    var f := ClockField(0, hms.1, hms.2);
    DigitsFit(hms.0, 3);
    DigitsFit(hms.0, 2);
    r := NumToA(base, n - 6, hms.0);
    var b := ClockBytes(ttg);
    forall i | n - 9 <= i < n
      ensures r[i] == b[i - (n - 9)]
    {
      if i < n - 6 {
        assert b[i - (n - 9)] == b[..3][i - (n - 9)];
      } else {
        assert b[i - (n - 9)] == b[3..][i - (n - 6)] == f[i - (n - 8)];
      }
    }
  }

  /** TTG row: "00:00:00" in the last eight cells, then numtoa of the
      seconds, the minutes and the hours into its three fields. */
  method DrawClock(row: Row, ttg: nat) returns (r: Row)
    requires |row| >= 8
    requires Clock(ttg).0 >= 100 ==> |row| >= 9
    ensures RightAligned(r, row, ClockBytes(ttg))
  {
    var hms := Clock(ttg);
    var base := ClockBase(row, hms.1, hms.2);
    if hms.0 < 100 {
      r := ClockShortHours(base, row, hms.0, hms.1, hms.2);
    } else {
      r := ClockLongHours(base, row, ttg);
    }
  }

  /** Splitting a time into hours, minutes and seconds and joining them
      again are inverse to each other below 256 hours. */
  lemma ClockOf(h: nat, m: nat, s: nat)
    requires h < 256 && m < 60 && s < 60
    ensures Clock(h * 3600 + m * 60 + s) == (h, m, s)
  {
    var t := h * 3600 + m * 60 + s;
    Arith.DivUnique(t, 3600, h, m * 60 + s);
    Arith.DivUnique(t, 60, h * 60 + m, s);
    Arith.DivUnique(h * 60 + m, 60, h, m);
  }

  /** Each two-digit field holds the tens and the units of its value. */
  lemma ClockFieldDigits(h: nat, m: nat, s: nat)
    requires h < 100 && m < 100 && s < 100
    ensures ClockField(h, m, s)
            == [ZERO + h / 10, ZERO + h % 10, COLON, ZERO + m / 10, ZERO + m % 10, COLON, ZERO + s / 10, ZERO + s % 10]
  {
    TwoDigits(h);
    TwoDigits(m);
    TwoDigits(s);
  }

  lemma TwoDigits(n: nat)
    requires n < 100
    ensures ZeroPadded(n, 2) == [ZERO + n / 10, ZERO + n % 10]
  {
    assert ZeroPadded(n / 10, 1) == ZeroPadded(n / 100, 0) + [ZERO + n / 10 % 10];
  }

  /** Reading the clock back: for under 100 hours the three fields give the
      time to go again. */
  lemma ClockReads(r: Row, row: Row, ttg: nat)
    requires RightAligned(r, row, ClockBytes(ttg)) && ttg < 100 * 3600
    ensures var n := |row|;
            && n >= 8
            && AllDigits(r[n - 8..n - 6]) && AllDigits(r[n - 5..n - 3]) && AllDigits(r[n - 2..])
            && Value(r[n - 8..n - 6]) * 3600 + Value(r[n - 5..n - 3]) * 60 + Value(r[n - 2..]) == ttg
  {
    var n := |row|;
    var hms := Clock(ttg);
    var f := ClockField(hms.0, hms.1, hms.2);
    assert r[n - 8..] == f;
    assert r[n - 8..n - 6] == f[..2];
    assert r[n - 5..n - 3] == f[3..5];
    assert r[n - 2..] == f[6..];
    ValueOfZeroPadded(hms.0, 2);
    ValueOfZeroPadded(hms.1, 2);
    ValueOfZeroPadded(hms.2, 2);
  }

  /** What the distance row ends with, for a distance of `rho` tenths: below
      100 the two digits with the first swapped for its dotted glyph (a
      single digit dots whatever cell `under` lay left of it), from 100 on
      the whole units `rho / 10`; then the unit. */
  function DistanceBytes(rho: nat, unit: seq<Byte>, zeroDot: Byte, under: Byte): (b: seq<Byte>)
    requires zeroDot + 9 < 256
    ensures rho < 10 ==> b == [Symbols.ToNumberWithDot(under, zeroDot), ZERO + rho] + unit
    ensures 10 <= rho < 100 ==> b == [Symbols.DottedDigit(zeroDot, rho / 10), ZERO + rho % 10] + unit
    ensures rho >= 100 ==> b == Digits(rho / 10) + unit
  {
    if rho < 10 then [Symbols.ToNumberWithDot(under, zeroDot), ZERO + rho] + unit
    else if rho < 100 then [Symbols.DottedDigit(zeroDot, rho / 10), ZERO + rho % 10] + unit
    else Digits(rho / 10) + unit
  }

  /** Below 100 tenths: numtoa of `rho` ending two cells from the end, the
      cell four from the end swapped for its dotted glyph, then the unit. */
  method DistanceTenths(row: Row, rho: nat, unit: seq<Byte>, zeroDot: Byte) returns (r: Row)
    requires |row| >= 8 && rho < 100 && |unit| == 2 && zeroDot + 9 < 256
    ensures RightAligned(r, row, DistanceBytes(rho, unit, zeroDot, row[|row| - 4]))
  {
    var n := |row|;
    DigitsFit(rho, 2);
    var r1 := NumToA(row, n - 2, rho);
    if rho >= 10 {
      assert Digits(rho) == Digits(rho / 10) + [ZERO + rho % 10];
      assert Digits(rho / 10) == [ZERO + rho / 10];
    }
    var r2 := r1[n - 4 := Symbols.ToNumberWithDot(r1[n - 4], zeroDot)];
    r := Blit(r2, n - 2, unit);
  }

  /** From 100 tenths on: numtoa of the whole units ending two cells from
      the end, then the unit. */
  method DistanceUnits(row: Row, rho: nat, unit: seq<Byte>, zeroDot: Byte) returns (r: Row)
    requires |row| >= 8 && 100 <= rho < Telemetry.U16_LIMIT && |unit| == 2 && zeroDot + 9 < 256
    ensures RightAligned(r, row, DistanceBytes(rho, unit, zeroDot, row[|row| - 4]))
  {
    var n := |row|;
    var b := DistanceBytes(rho, unit, zeroDot, row[n - 4]);
    DigitsFit(rho / 10, 5);
    var r1 := NumToA(row, n - 2, rho / 10);
    r := Blit(r1, n - 2, unit);
    forall i | n - |b| <= i < n
      ensures r[i] == b[i - (n - |b|)]
    {
      if i >= n - 2 {
        assert b[i - (n - |b|)] == unit[i - (n - 2)];
      } else {
        assert b[i - (n - |b|)] == Digits(rho / 10)[i - (n - |b|)];
      }
    }
  }

  /** Distance row: `rho` is in tenths of the distance unit. */
  method DrawDistance(row: Row, rho: nat, unit: seq<Byte>, zeroDot: Byte) returns (r: Row)
    requires |row| >= 8 && rho < Telemetry.U16_LIMIT && |unit| == 2 && zeroDot + 9 < 256
    ensures RightAligned(r, row, DistanceBytes(rho, unit, zeroDot, row[|row| - 4]))
  {
    if rho < 100 {
      r := DistanceTenths(row, rho, unit, zeroDot);
    } else {
      r := DistanceUnits(row, rho, unit, zeroDot);
    }
  }

  /** Reading the distance back: on a cleared cell, the dotted digit and the
      digit after it spell `rho` in tenths; from 100 on the digits before
      the unit spell the whole units. */
  lemma DistanceReads(r: Row, row: Row, rho: nat, unit: seq<Byte>, zeroDot: Byte)
    requires |row| >= 8 && |unit| == 2 && zeroDot + 9 < 256 && rho < Telemetry.U16_LIMIT
    requires RightAligned(r, row, DistanceBytes(rho, unit, zeroDot, row[|row| - 4]))
    ensures var n := |row|;
            rho < 100 && row[n - 4] == TRANSPARENT ==> (r[n - 4] - zeroDot) * 10 + (r[n - 3] - ZERO) == rho
    ensures var n := |row|;
            var d := |Digits(rho / 10)|;
            rho >= 100 ==> d <= n - 2 && AllDigits(r[n - 2 - d..n - 2]) && Value(r[n - 2 - d..n - 2]) == rho / 10
  {
    var n := |row|;
    var b := DistanceBytes(rho, unit, zeroDot, row[n - 4]);
    if rho < 100 {
      assert r[n - 4] == b[0] && r[n - 3] == b[1];
    } else {
      var d := Digits(rho / 10);
      assert r[n - 2 - |d|..n - 2] == d by {
        forall i | 0 <= i < |d|
          ensures r[n - 2 - |d| + i] == d[i]
        {
          assert b[i] == d[i];
        }
      }
      ValueOfDigits(rho / 10);
    }
  }

  /** What the name row ends with: the number, a slash and the name. */
  function NameBytes(number: nat, name: seq<Byte>): (b: seq<Byte>)
    ensures |b| == |Digits(number)| + 1 + |name|
    ensures b[..|Digits(number)|] == Digits(number)
    ensures b[|Digits(number)|] == SLASH && b[|Digits(number)| + 1..] == name
  {
    var b := Digits(number) + [SLASH] + name;
    assert b[|Digits(number)| + 1..] == name;
    b
  }

  /** Name row: numtoa of the number ending five cells from the end, the
      slash, then the four-cell name. */
  method DrawName(row: Row, number: nat, name: seq<Byte>) returns (r: Row)
    requires |row| >= 8 && number < Telemetry.U8_LIMIT && |name| == 4
    ensures RightAligned(r, row, NameBytes(number, name))
  {
    var n := |row|;
    DigitsFit(number, 3);
    var d := Digits(number);
    var b := NameBytes(number, name);
    var r1 := NumToA(row, n - 5, number);
    var r2 := r1[n - 5 := SLASH];
    r := Blit(r2, n - 4, name);
    forall i | n - |b| <= i < n
      ensures r[i] == b[i - (n - |b|)]
    {
      if i < n - 5 {
        assert b[i - (n - |b|)] == b[..|d|][i - (n - |b|)];
      } else if i >= n - 4 {
        assert b[i - (n - |b|)] == b[|d| + 1..][i - (n - 4)];
      }
    }
  }

  /** Reading the name row back gives the number and the name. */
  lemma NameReads(r: Row, row: Row, number: nat, name: seq<Byte>)
    requires RightAligned(r, row, NameBytes(number, name)) && |name| == 4
    ensures var n := |row|;
            var d := |Digits(number)|;
            && d + 5 <= n
            && AllDigits(r[n - 5 - d..n - 5]) && Value(r[n - 5 - d..n - 5]) == number
            && r[n - 5] == SLASH && r[n - 4..] == name
  {
    var n := |row|;
    var b := NameBytes(number, name);
    var d := Digits(number);
    assert r[n - |b|..] == b;
    assert r[n - 5 - |d|..n - 5] == b[..|d|];
    assert r[n - 4..] == b[|d| + 1..];
    ValueOfDigits(number);
  }

  /** The rows the panel writes: the last three of the slot, all as wide as
      the last one (the source slices each with the last row's width), wide
      enough for the clock. */
  predicate Fits(g: Grid, ttg: nat) {
    && |g| >= 3
    && |g[|g| - 1]| >= 8
    && |g[|g| - 2]| == |g[|g| - 1]| && |g[|g| - 3]| == |g[|g| - 1]|
    && (Clock(ttg).0 >= 100 ==> |g[|g| - 1]| >= 9)
  }

  /** One frame: clock on the last row, distance above it, number and name
      above that; every other row kept; three rows used. */
  method Draw(t: Telemetry.Telemetry, zeroDot: Byte, g: Grid) returns (out: Grid, lines: nat)
    requires Telemetry.Valid(t) && zeroDot + 9 < 256
    requires Fits(g, Telemetry.TimeToGo(t))
    ensures lines == 3 && |out| == |g|
    ensures var row := g[|g| - 1];
            RightAligned(out[|g| - 1], row, ClockBytes(Telemetry.TimeToGo(t)))
    ensures var row := g[|g| - 2];
            RightAligned(out[|g| - 2], row, DistanceBytes(t.waypoint.coordinate.rho, t.waypoint.unit, zeroDot, row[|row| - 4]))
    ensures RightAligned(out[|g| - 3], g[|g| - 3], NameBytes(t.waypoint.number, t.waypoint.name))
    ensures forall i | 0 <= i < |g| - 3 :: out[i] == g[i]
  {
    var last := |g| - 1;
    var clock := DrawClock(g[last], Telemetry.TimeToGo(t));
    var distance := DrawDistance(g[last - 1], t.waypoint.coordinate.rho, t.waypoint.unit, zeroDot);
    var name := DrawName(g[last - 2], t.waypoint.number, t.waypoint.name);
    out := g[last := clock][last - 1 := distance][last - 2 := name];
    lines := 3;
  }

  /** Three cleared ten-cell rows, as the source's tests use. */
  function TestScreen(): (g: Grid)
    ensures |g| == 3 && forall i | 0 <= i < 3 :: g[i] == Blank(10)
  {
    [Blank(10), Blank(10), Blank(10)]
  }

  /** Default telemetry with the waypoint `rho` tenths away and the
      given ground speed. */
  function Towards(rho: nat, speed: nat): (t: Telemetry.Telemetry)
    requires rho < Telemetry.U16_LIMIT && speed < Telemetry.U16_LIMIT
    ensures Telemetry.Valid(t)
    ensures t.waypoint == Telemetry.Waypoint(0, Ascii("HOME"), Telemetry.SphericalCoordinate(rho, 0, 0), Ascii("NM"))
    ensures Telemetry.TimeToGo(t) == Telemetry.TimeToGoOf(rho, speed)
  {
    var d := Telemetry.Default();
    d.(velocityVector := d.velocityVector.(rho := speed),
       waypoint := d.waypoint.(coordinate := d.waypoint.coordinate.(rho := rho)))
  }

  /** One frame of the source's test into three cleared ten-cell rows, at
      a time to go of `h`:`m`:`s`. */
  method TestFrame(rho: nat, speed: nat, h: nat, m: nat, s: nat) returns (out: Grid)
    requires rho < Telemetry.U16_LIMIT && speed < Telemetry.U16_LIMIT
    requires h < 100 && m < 60 && s < 60 && Clock(Telemetry.TimeToGoOf(rho, speed)) == (h, m, s)
    ensures |out| == 3
    ensures out[0] == [0, 0, 0, 0, 48, SLASH, 72, 79, 77, 69]
    ensures RightAligned(out[1], Blank(10), DistanceBytes(rho, Ascii("NM"), 16, TRANSPARENT))
    ensures out[2] == [0, 0, ZERO + h / 10, ZERO + h % 10, COLON, ZERO + m / 10, ZERO + m % 10,
                       COLON, ZERO + s / 10, ZERO + s % 10]
  {
    var zeroDot := Symbols.Code(Symbols.ZeroWithTraillingDot);
    assert zeroDot == 16;
    var lines;
    out, lines := Draw(Towards(rho, speed), zeroDot, TestScreen());
    ExpectName(out[0], 0);
    ExpectClock(out[2], h, m, s);
  }

  /** Default telemetry: "    0/HOME", "      ₀0NM", "  00:00:00". */
  method TestHome() returns (out: Grid)
    ensures |out| == 3
    ensures out[0] == [0, 0, 0, 0, 48, SLASH, 72, 79, 77, 69]
    ensures out[1] == [0, 0, 0, 0, 0, 0, 16, 48, 78, 77]
    ensures out[2] == [0, 0, 48, 48, COLON, 48, 48, COLON, 48, 48]
  {
    ClockOf(0, 0, 0);
    out := TestFrame(0, 0, 0, 0, 0);
    ExpectDistance(out[1], 0, [16, 48]);
  }

  /** 9.9 units at speed 61: "    0/HOME", "      ⒐9NM", "  00:09:44". */
  method TestNinePointNine() returns (out: Grid)
    ensures |out| == 3
    ensures out[0] == [0, 0, 0, 0, 48, SLASH, 72, 79, 77, 69]
    ensures out[1] == [0, 0, 0, 0, 0, 0, 25, 57, 78, 77]
    ensures out[2] == [0, 0, 48, 48, COLON, 48, 57, COLON, 52, 52]
  {
    Telemetry.TimeToGoOfIs(99, 61, 584);
    ClockOf(0, 9, 44);
    out := TestFrame(99, 61, 0, 9, 44);
    ExpectDistance(out[1], 99, [25, 57]);
  }

  /** The name row of a ten-cell frame of waypoint `num` "HOME". */
  lemma ExpectName(r: Row, num: nat)
    requires num < 10 && RightAligned(r, Blank(10), NameBytes(num, Ascii("HOME")))
    ensures r == [0, 0, 0, 0, ZERO + num, SLASH, 72, 79, 77, 69]
  {
    var b := NameBytes(num, Ascii("HOME"));
    assert b == [ZERO + num, SLASH, 72, 79, 77, 69];
  }

  /** The distance row of a ten-cell frame in "NM", given the two cells
      before the unit. */
  lemma ExpectDistance(r: Row, rho: nat, cells: seq<Byte>)
    requires rho < 100 && |cells| == 2
    requires cells == DistanceBytes(rho, Ascii("NM"), 16, TRANSPARENT)[..2]
    requires RightAligned(r, Blank(10), DistanceBytes(rho, Ascii("NM"), 16, TRANSPARENT))
    ensures r == [0, 0, 0, 0, 0, 0] + cells + [78, 77]
  {
    var b := DistanceBytes(rho, Ascii("NM"), 16, TRANSPARENT);
    assert b == cells + [78, 77];
  }

  /** The clock row of a ten-cell frame under 100 hours. */
  lemma ExpectClock(r: Row, h: nat, m: nat, s: nat)
    requires h < 100 && m < 60 && s < 60
    requires RightAligned(r, Blank(10), ClockField(h, m, s))
    ensures r == [0, 0, ZERO + h / 10, ZERO + h % 10, COLON, ZERO + m / 10, ZERO + m % 10, COLON, ZERO + s / 10, ZERO + s % 10]
  {
    ClockFieldDigits(h, m, s);
  }
}
