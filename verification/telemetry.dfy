/** The per-frame telemetry snapshot and the quantities derived from it. */
module Telemetry {
  import opened Grid
  import Arith

  const U8_LIMIT := 0x100
  const U16_LIMIT := 0x1_0000
  const U32_LIMIT := 0x1_0000_0000

  datatype Attitude = Attitude(pitch: int, roll: int, yaw: nat)

  /** A spherical vector: magnitude, azimuth and elevation. */
  datatype SphericalCoordinate = SphericalCoordinate(rho: nat, theta: nat, phi: int)

  datatype Waypoint = Waypoint(number: nat, name: seq<Byte>, coordinate: SphericalCoordinate, unit: seq<Byte>)

  datatype Telemetry = Telemetry(
    altitude: nat,
    aoa: nat,
    attitude: Attitude,
    battery: nat,
    flightMode: seq<Byte>,
    gForce: nat,
    height: nat,
    rssi: nat,
    velocityVector: SphericalCoordinate,
    verticalSpeed: int,
    waypoint: Waypoint)

  predicate InI8(v: int) {
    -128 <= v < 128
  }

  predicate InI16(v: int) {
    -32768 <= v < 32768
  }

  predicate ValidCoordinate(c: SphericalCoordinate) {
    c.rho < U16_LIMIT && c.theta < U16_LIMIT && InI16(c.phi)
  }

  /** The field widths the snapshot's integer types impose. */
  predicate Valid(t: Telemetry) {
    && t.altitude < U16_LIMIT && t.aoa < U8_LIMIT && t.battery < U8_LIMIT
    && t.gForce < U8_LIMIT && t.height < U16_LIMIT && t.rssi < U8_LIMIT
    && InI8(t.attitude.pitch) && InI8(t.attitude.roll) && t.attitude.yaw < U16_LIMIT
    && |t.flightMode| == 4
    && ValidCoordinate(t.velocityVector)
    && InI16(t.verticalSpeed)
    && t.waypoint.number < U8_LIMIT && |t.waypoint.name| == 4 && |t.waypoint.unit| == 2
    && ValidCoordinate(t.waypoint.coordinate)
  }

  /** The snapshot a freshly constructed source reports: level attitude,
      still vectors, a full battery, manual mode and the home waypoint
      0/"HOME" measured in "NM". */
  function Default(): (t: Telemetry)
    ensures Valid(t)
    ensures t.attitude == Attitude(0, 0, 0)
    ensures t.velocityVector == SphericalCoordinate(0, 0, 0)
    ensures t.battery == 100 && t.flightMode == Ascii("MAN ")
    ensures t.waypoint == Waypoint(0, Ascii("HOME"), SphericalCoordinate(0, 0, 0), Ascii("NM"))
  {
    var still := SphericalCoordinate(0, 0, 0);
    Telemetry(
      altitude := 0,
      aoa := 0,
      attitude := Attitude(0, 0, 0),
      battery := 100,
      flightMode := Ascii("MAN "),
      gForce := 0,
      height := 0,
      rssi := 0,
      velocityVector := still,
      verticalSpeed := 0,
      waypoint := Waypoint(0, Ascii("HOME"), still, Ascii("NM")))
  }

  /** Ground speed is the magnitude of the velocity vector. */
  function Speed(t: Telemetry): (s: nat)
    ensures Valid(t) ==> s < U16_LIMIT
  {
    t.velocityVector.rho
  }

  /** Heading is the attitude's yaw. */
  function Heading(t: Telemetry): (h: nat)
    ensures Valid(t) ==> h < U16_LIMIT
  {
    t.attitude.yaw
  }

  /** Seconds to cover `rho` tenths of a distance unit at `speed` units per
      hour: the floor of rho * 360 / speed, and 0 when either is 0. */
  function TimeToGoOf(rho: nat, speed: nat): (s: nat)
    ensures rho == 0 || speed == 0 ==> s == 0
    ensures rho > 0 && speed > 0 ==> s * speed <= rho * 360 < (s + 1) * speed
  {
    if rho > 0 && speed > 0 then
      var s := rho * 3600 / 10 / speed;
      assert rho * 3600 / 10 == rho * 360 by {
        Arith.DivUnique(rho * 3600, 10, rho * 360, 0);
      }
      Arith.DivBounds(rho * 360, speed);
      s
    else
      0
  }

  /** The time to go is the one whole number of seconds the bounds pin
      down. */
  lemma TimeToGoOfIs(rho: nat, speed: nat, s: nat)
    requires rho > 0 && speed > 0 && s * speed <= rho * 360 < (s + 1) * speed
    ensures TimeToGoOf(rho, speed) == s
  {
    var t := TimeToGoOf(rho, speed);
    if t < s {
      Arith.MulMonotone(t + 1, s, speed);
    } else if t > s {
      Arith.MulMonotone(s + 1, t, speed);
    }
  }

  /** Time to go to the active waypoint at the current speed. */
  function TimeToGo(t: Telemetry): (s: nat)
    ensures t.waypoint.coordinate.rho == 0 || Speed(t) == 0 ==> s == 0
    ensures t.waypoint.coordinate.rho > 0 && Speed(t) > 0 ==>
      s * Speed(t) <= t.waypoint.coordinate.rho * 360 < (s + 1) * Speed(t)
  {
    TimeToGoOf(t.waypoint.coordinate.rho, t.velocityVector.rho)
  }

  /** The u32 intermediate `rho * 3600` cannot overflow for a u16 distance,
      and the result fits a u32 as well. */
  lemma TimeToGoFitsU32(rho: nat, speed: nat)
    requires rho < U16_LIMIT
    ensures rho * 3600 < U32_LIMIT
    ensures TimeToGoOf(rho, speed) < U32_LIMIT
  {
    if rho > 0 && speed > 0 {
      var s := TimeToGoOf(rho, speed);
      Arith.MulMonotone(1, speed, s);
    }
  }
}
