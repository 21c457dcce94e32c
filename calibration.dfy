/**
 * Decoding of the calibration blocks read from SPI flash: packed 12-bit stick
 * extents (factory and user), signed 16-bit sensor origins (factory and
 * user), and the four RGB24 body colours, plus the DualShock 4 fallback.
 */
module Calibration {
  import opened Bytes

  /** The 0xA1B2 marker that says a user block overrides the factory one. */
  const UserMarker: uint16 := 0xA1B2

  // ---------------------------------------------------------------------------
  // 12-bit values packed two per three bytes

  /** First value of a group, `(hi << 8) & 0xF00 | lo`: the low nibble of `hi` above all of `lo`. */
  function Low12(lo: byte, hi: byte): (v: uint16)
    ensures v < 0x1000
    ensures v % 0x100 == lo && v / 0x100 == hi % 0x10
  {
    (hi % 0x10) * 0x100 + lo
  }

  /** Second value of a group, `(hi << 4) | (lo >> 4)`: all of `hi` above the high nibble of `lo`. */
  function High12(lo: byte, hi: byte): (v: uint16)
    ensures v < 0x1000
    ensures v % 0x10 == lo / 0x10 && v / 0x10 == hi
  {
    hi * 0x10 + lo / 0x10
  }

  /** The three bytes that carry the 12-bit values `a` and `b`. */
  function Pack12(a: uint16, b: uint16): (g: seq<byte>)
    requires a < 0x1000 && b < 0x1000
    ensures |g| == 3
  {
    [a % 0x100, a / 0x100 + (b % 0x10) * 0x10, b / 0x10]
  }

  /** Unpacking a packed group gives both values back. */
  lemma UnpackPack12(a: uint16, b: uint16)
    requires a < 0x1000 && b < 0x1000
    ensures var g := Pack12(a, b); Low12(g[0], g[1]) == a && High12(g[1], g[2]) == b
  {
    var g := Pack12(a, b);
    assert g[1] % 0x10 == a / 0x100 && g[1] / 0x10 == b % 0x10;
  }

  /** Every group of three bytes is the packing of the two values it carries. */
  lemma PackUnpack12(g0: byte, g1: byte, g2: byte)
    ensures Pack12(Low12(g0, g1), High12(g1, g2)) == [g0, g1, g2]
  {
    var a, b := Low12(g0, g1), High12(g1, g2);
    assert b % 0x10 == g1 / 0x10;
    assert a / 0x100 + (b % 0x10) * 0x10 == g1 % 0x10 + (g1 / 0x10) * 0x10 == g1;
  }

  // ---------------------------------------------------------------------------
  // Stick calibration

  /** One axis as `uint16_t[3]`: the lower extent, the centre and the upper extent. */
  datatype AxisCal = AxisCal(min: uint16, center: uint16, max: uint16)

  /** Both axes of one stick. */
  datatype StickCal = StickCal(x: AxisCal, y: AxisCal)

  const ZeroAxis := AxisCal(0, 0, 0)
  const ZeroStick := StickCal(ZeroAxis, ZeroAxis)

  /**
   * An axis from its centre and the distances below and above it, stored in
   * `uint16_t`: the maximum never overflows, the minimum wraps modulo 2^16
   * when the distance below exceeds the centre.
   */
  function Axis(center: uint16, below: uint16, above: uint16): (a: AxisCal)
    requires center < 0x1000 && below < 0x1000 && above < 0x1000
    ensures a.center == center
    ensures a.center <= a.max && a.max - a.center == above
    ensures (a.center - a.min) % 0x1_0000 == below
  {
    AxisCal((center - below) % 0x1_0000, center, center + above)
  }

  /** The minimum lies at or below the centre exactly when the lower distance does not exceed the centre. */
  lemma AxisMinWraps(center: uint16, below: uint16, above: uint16)
    requires center < 0x1000 && below < 0x1000 && above < 0x1000
    ensures Axis(center, below, above).min <= center <==> below <= center
    ensures below <= center ==> Axis(center, below, above).min == center - below
  {
  }

  /** The layout of the left stick's groups: upper distances, then centre, then lower distances. */
  function LeftStickAt(b: seq<byte>, base: nat): StickCal
    requires base + 9 <= |b|
  {
    var cx := Low12(b[base + 3], b[base + 4]);
    var cy := High12(b[base + 4], b[base + 5]);
    StickCal(
      Axis(cx, Low12(b[base + 6], b[base + 7]), Low12(b[base], b[base + 1])),
      Axis(cy, High12(b[base + 7], b[base + 8]), High12(b[base + 1], b[base + 2])))
  }

  /** The layout of the right stick's groups: centre, then lower distances, then upper distances. */
  function RightStickAt(b: seq<byte>, base: nat): StickCal
    requires base + 9 <= |b|
  {
    var cx := Low12(b[base], b[base + 1]);
    var cy := High12(b[base + 1], b[base + 2]);
    StickCal(
      Axis(cx, Low12(b[base + 3], b[base + 4]), Low12(b[base + 6], b[base + 7])),
      Axis(cy, High12(b[base + 4], b[base + 5]), High12(b[base + 7], b[base + 8])))
  }

  /**
   * The factory left stick as decoded: the left layout at offset 0, except
   * that the upper Y distance is built from byte 2 twice,
   * `(f[2] << 4) | (f[2] >> 4)`, where every analogous line uses the middle
   * byte of the group as the low part.
   */
  function FactoryLeftStick(f: seq<byte>): StickCal
    requires |f| == 0x12
  {
    var s := LeftStickAt(f, 0);
    s.(y := s.y.(max := s.y.center + High12(f[2], f[2])))
  }

  function FactoryRightStick(f: seq<byte>): StickCal
    requires |f| == 0x12
  {
    RightStickAt(f, 9)
  }

  function UserLeftStick(u: seq<byte>): StickCal
    requires |u| == 0x16
  {
    LeftStickAt(u, 2)
  }

  function UserRightStick(u: seq<byte>): StickCal
    requires |u| == 0x16
  {
    RightStickAt(u, 13)
  }

  predicate HasUserLeftStick(u: seq<byte>)
    requires |u| == 0x16
  {
    Le16(u[0], u[1]) == UserMarker
  }

  predicate HasUserRightStick(u: seq<byte>)
    requires |u| == 0x16
  {
    Le16(u[0xB], u[0xC]) == UserMarker
  }

  /** A marker is present exactly when its two bytes are 0xB2, 0xA1. */
  lemma UserStickMarkerBytes(u: seq<byte>)
    requires |u| == 0x16
    ensures HasUserLeftStick(u) <==> u[0] == 0xB2 && u[1] == 0xA1
    ensures HasUserRightStick(u) <==> u[0xB] == 0xB2 && u[0xC] == 0xA1
  {
  }

  /**
   * Both sticks after the stick part of Bluetooth initialisation, starting
   * from `left` and `right`: the factory block is decoded only for the sticks
   * the device has (left for 1 and 3, right for 2 and 3); a user block with
   * its marker then replaces a stick, whatever the device.
   */
  function DecodeSticks(leftRight: int, factory: seq<byte>, user: seq<byte>, left: StickCal, right: StickCal)
    : (StickCal, StickCal)
    requires |factory| == 0x12 && |user| == 0x16
  {
    var l := if leftRight == 1 || leftRight == 3 then FactoryLeftStick(factory) else left;
    var r := if leftRight == 2 || leftRight == 3 then FactoryRightStick(factory) else right;
    (if HasUserLeftStick(user) then UserLeftStick(user) else l,
     if HasUserRightStick(user) then UserRightStick(user) else r)
  }

  /**
   * The shape every decoded axis has: a 12-bit centre, a 12-bit distance up
   * to the maximum, and a 12-bit distance down to the minimum, counted
   * modulo 2^16 when the minimum has wrapped.
   */
  predicate WellFormedAxis(a: AxisCal)
  {
    && a.center < 0x1000
    && a.center <= a.max < a.center + 0x1000
    && (a.min <= a.center ==> a.center - a.min < 0x1000)
    && (a.center < a.min ==> a.center + 0x1_0000 - a.min < 0x1000)
  }

  predicate WellFormedStick(s: StickCal)
  {
    WellFormedAxis(s.x) && WellFormedAxis(s.y)
  }

  lemma AxisWellFormed(center: uint16, below: uint16, above: uint16)
    requires center < 0x1000 && below < 0x1000 && above < 0x1000
    ensures WellFormedAxis(Axis(center, below, above))
  {
  }

  lemma StickLayoutsWellFormed(b: seq<byte>, base: nat)
    requires base + 9 <= |b|
    ensures WellFormedStick(LeftStickAt(b, base)) && WellFormedStick(RightStickAt(b, base))
  {
    AxisWellFormed(Low12(b[base + 3], b[base + 4]), Low12(b[base + 6], b[base + 7]), Low12(b[base], b[base + 1]));
    AxisWellFormed(High12(b[base + 4], b[base + 5]), High12(b[base + 7], b[base + 8]), High12(b[base + 1], b[base + 2]));
    AxisWellFormed(Low12(b[base], b[base + 1]), Low12(b[base + 3], b[base + 4]), Low12(b[base + 6], b[base + 7]));
    AxisWellFormed(High12(b[base + 1], b[base + 2]), High12(b[base + 4], b[base + 5]), High12(b[base + 7], b[base + 8]));
  }

  /** Decoding keeps both sticks well formed, whichever blocks it uses. */
  lemma DecodedSticksWellFormed(leftRight: int, factory: seq<byte>, user: seq<byte>, left: StickCal, right: StickCal)
    requires |factory| == 0x12 && |user| == 0x16
    requires WellFormedStick(left) && WellFormedStick(right)
    ensures WellFormedStick(DecodeSticks(leftRight, factory, user, left, right).0)
    ensures WellFormedStick(DecodeSticks(leftRight, factory, user, left, right).1)
  {
    StickLayoutsWellFormed(factory, 0);
    StickLayoutsWellFormed(factory, 9);
    StickLayoutsWellFormed(user, 2);
    StickLayoutsWellFormed(user, 13);
    FactoryLeftStickWellFormed(factory);
  }

  lemma FactoryLeftStickWellFormed(f: seq<byte>)
    requires |f| == 0x12
    ensures WellFormedStick(FactoryLeftStick(f))
  {
    StickLayoutsWellFormed(f, 0);
    var s, t := LeftStickAt(f, 0), FactoryLeftStick(f);
    var h := High12(f[2], f[2]);
    assert t.x == s.x && t.y.center == s.y.center && t.y.min == s.y.min;
    assert t.y.max == s.y.center + h && h < 0x1000;
  }

  /** Which source each stick comes from, in the order the initialisation applies them. */
  lemma DecodeSticksSources(leftRight: int, factory: seq<byte>, user: seq<byte>, left: StickCal, right: StickCal)
    requires |factory| == 0x12 && |user| == 0x16
    ensures var (l, r) := DecodeSticks(leftRight, factory, user, left, right);
      && (HasUserLeftStick(user) ==> l == UserLeftStick(user))
      && (!HasUserLeftStick(user) && (leftRight == 1 || leftRight == 3) ==> l == FactoryLeftStick(factory))
      && (!HasUserLeftStick(user) && leftRight != 1 && leftRight != 3 ==> l == left)
      && (HasUserRightStick(user) ==> r == UserRightStick(user))
      && (!HasUserRightStick(user) && (leftRight == 2 || leftRight == 3) ==> r == FactoryRightStick(factory))
      && (!HasUserRightStick(user) && leftRight != 2 && leftRight != 3 ==> r == right)
  {
  }

  /** Packing a stick into the left layout and decoding it gives the stick back. */
  lemma LeftStickRoundTrip(b: seq<byte>, base: nat, cx: uint16, cy: uint16, belowX: uint16, belowY: uint16, aboveX: uint16, aboveY: uint16)
    requires base + 9 <= |b|
    requires cx < 0x1000 && cy < 0x1000 && belowX < 0x1000 && belowY < 0x1000 && aboveX < 0x1000 && aboveY < 0x1000
    requires b[base..base + 3] == Pack12(aboveX, aboveY)
    requires b[base + 3..base + 6] == Pack12(cx, cy)
    requires b[base + 6..base + 9] == Pack12(belowX, belowY)
    ensures LeftStickAt(b, base) == StickCal(Axis(cx, belowX, aboveX), Axis(cy, belowY, aboveY))
  {
    UnpackPack12(aboveX, aboveY);
    UnpackPack12(cx, cy);
    UnpackPack12(belowX, belowY);
    assert b[base] == b[base..base + 3][0] && b[base + 1] == b[base..base + 3][1] && b[base + 2] == b[base..base + 3][2];
    assert b[base + 3] == b[base + 3..base + 6][0] && b[base + 4] == b[base + 3..base + 6][1] && b[base + 5] == b[base + 3..base + 6][2];
    assert b[base + 6] == b[base + 6..base + 9][0] && b[base + 7] == b[base + 6..base + 9][1] && b[base + 8] == b[base + 6..base + 9][2];
  }

  /** Packing a stick into the right layout and decoding it gives the stick back. */
  lemma RightStickRoundTrip(b: seq<byte>, base: nat, cx: uint16, cy: uint16, belowX: uint16, belowY: uint16, aboveX: uint16, aboveY: uint16)
    requires base + 9 <= |b|
    requires cx < 0x1000 && cy < 0x1000 && belowX < 0x1000 && belowY < 0x1000 && aboveX < 0x1000 && aboveY < 0x1000
    requires b[base..base + 3] == Pack12(cx, cy)
    requires b[base + 3..base + 6] == Pack12(belowX, belowY)
    requires b[base + 6..base + 9] == Pack12(aboveX, aboveY)
    ensures RightStickAt(b, base) == StickCal(Axis(cx, belowX, aboveX), Axis(cy, belowY, aboveY))
  {
    UnpackPack12(aboveX, aboveY);
    UnpackPack12(cx, cy);
    UnpackPack12(belowX, belowY);
    assert b[base] == b[base..base + 3][0] && b[base + 1] == b[base..base + 3][1] && b[base + 2] == b[base..base + 3][2];
    assert b[base + 3] == b[base + 3..base + 6][0] && b[base + 4] == b[base + 3..base + 6][1] && b[base + 5] == b[base + 3..base + 6][2];
    assert b[base + 6] == b[base + 6..base + 9][0] && b[base + 7] == b[base + 6..base + 9][1] && b[base + 8] == b[base + 6..base + 9][2];
  }

  /**
   * The factory left stick differs from the plain left layout only in the
   * upper Y extent, and agrees with it exactly when bytes 1 and 2 share
   * their high nibble.
   */
  lemma FactoryLeftStickQuirk(f: seq<byte>)
    requires |f| == 0x12
    ensures FactoryLeftStick(f).x == LeftStickAt(f, 0).x
    ensures FactoryLeftStick(f).y.min == LeftStickAt(f, 0).y.min && FactoryLeftStick(f).y.center == LeftStickAt(f, 0).y.center
    ensures FactoryLeftStick(f) == LeftStickAt(f, 0) <==> f[1] / 0x10 == f[2] / 0x10
  {
    var s := LeftStickAt(f, 0);
    if FactoryLeftStick(f) == s {
      assert High12(f[2], f[2]) == High12(f[1], f[2]);
    }
  }

  // ---------------------------------------------------------------------------
  // Sensor origins

  datatype Vec3 = Vec3(x: int, y: int, z: int)

  /** `sensor_cal[0]` (accelerometer) and `sensor_cal[1]` (gyroscope), as `int16_t`. */
  datatype SensorCal = SensorCal(acc: Vec3, gyro: Vec3)

  const ZeroSensor := SensorCal(Vec3(0, 0, 0), Vec3(0, 0, 0))

  /** `uint16_to_int16(b[i] | b[i + 1] << 8)`. */
  function Int16At(b: seq<byte>, i: nat): (v: int)
    requires i + 2 <= |b|
    ensures -0x8000 <= v < 0x8000
    ensures (v + 0x1_0000) % 0x1_0000 == b[i] + b[i + 1] as int * 0x100
  {
    ToInt16(Le16(b[i], b[i + 1]))
  }

  /** The two little-endian bytes of a signed 16-bit value in two's complement. */
  function Int16Bytes(v: int): (b: seq<byte>)
    requires -0x8000 <= v < 0x8000
    ensures |b| == 2
  {
    var u := (v + 0x1_0000) % 0x1_0000;
    [u % 0x100, u / 0x100]
  }

  /** Reading back the bytes of a signed 16-bit value gives the value. */
  lemma Int16RoundTrip(b: seq<byte>, i: nat, v: int)
    requires i + 2 <= |b| && -0x8000 <= v < 0x8000
    requires b[i..i + 2] == Int16Bytes(v)
    ensures Int16At(b, i) == v
  {
    assert b[i] == b[i..i + 2][0] && b[i + 1] == b[i..i + 2][1];
  }

  /** Accelerometer origins at `base`, `base + 2`, `base + 4`; gyroscope origins 0xC further on. */
  function SensorAt(b: seq<byte>, base: nat): SensorCal
    requires base + 0x12 <= |b|
  {
    SensorCal(
      Vec3(Int16At(b, base), Int16At(b, base + 2), Int16At(b, base + 4)),
      Vec3(Int16At(b, base + 0xC), Int16At(b, base + 0xE), Int16At(b, base + 0x10)))
  }

  predicate HasUserSensor(u: seq<byte>)
    requires |u| == 0x1A
  {
    Le16(u[0], u[1]) == UserMarker
  }

  /** Factory origins at offset 0, replaced by the user block read two bytes further on when its marker is present. */
  function DecodeSensor(factory: seq<byte>, user: seq<byte>): SensorCal
    requires |factory| == 0x18 && |user| == 0x1A
  {
    if HasUserSensor(user) then SensorAt(user, 2) else SensorAt(factory, 0)
  }

  /**
   * Every decoded origin is a signed 16-bit value; the user origins are used
   * exactly when bytes 0 and 1 of the user block are 0xB2, 0xA1.
   */
  lemma DecodeSensorSources(factory: seq<byte>, user: seq<byte>)
    requires |factory| == 0x18 && |user| == 0x1A
    ensures var s := DecodeSensor(factory, user);
      && -0x8000 <= s.acc.x < 0x8000 && -0x8000 <= s.acc.y < 0x8000 && -0x8000 <= s.acc.z < 0x8000
      && -0x8000 <= s.gyro.x < 0x8000 && -0x8000 <= s.gyro.y < 0x8000 && -0x8000 <= s.gyro.z < 0x8000
    ensures user[0] == 0xB2 && user[1] == 0xA1 ==> DecodeSensor(factory, user) == SensorAt(user, 2)
    ensures !(user[0] == 0xB2 && user[1] == 0xA1) ==> DecodeSensor(factory, user) == SensorAt(factory, 0)
  {
  }

  // ---------------------------------------------------------------------------
  // Colours

  /** `(r << 16) + (g << 8) + b`: red in bits 16..23, green in 8..15, blue in 0..7. */
  function Rgb24(r: byte, g: byte, b: byte): (c: uint32)
    ensures c < 0x100_0000
    ensures c / 0x1_0000 == r && (c / 0x100) % 0x100 == g && c % 0x100 == b
  {
    ByteSplit(b, r as int * 0x100 + g);
    ByteSplit(g, r);
    r as int * 0x1_0000 + g as int * 0x100 + b
  }

  /** The three bytes of a packed colour, red first. */
  function Rgb24Bytes(c: uint32): (rgb: seq<byte>)
    requires c < 0x100_0000
    ensures |rgb| == 3
  {
    [c / 0x1_0000, (c / 0x100) % 0x100, c % 0x100]
  }

  /** Every 24-bit colour is the packing of its three bytes. */
  lemma Rgb24RoundTrip(c: uint32)
    requires c < 0x100_0000
    ensures var rgb := Rgb24Bytes(c); Rgb24(rgb[0], rgb[1], rgb[2]) == c
  {
    assert c == (c / 0x100) * 0x100 + c % 0x100;
    assert c / 0x100 == (c / 0x1_0000) * 0x100 + (c / 0x100) % 0x100;
  }

  datatype Colours = Colours(body: uint32, buttons: uint32, leftGrip: uint32, rightGrip: uint32)

  /** The colours' initial value, white: 0xFFFFFF each. */
  const White := Colours(0xFF_FFFF, 0xFF_FFFF, 0xFF_FFFF, 0xFF_FFFF)

  /** Body, buttons, left grip and right grip from the 12-byte colour block. */
  function DecodeColours(d: seq<byte>): (c: Colours)
    requires |d| == 0xC
    ensures c.body < 0x100_0000 && c.buttons < 0x100_0000 && c.leftGrip < 0x100_0000 && c.rightGrip < 0x100_0000
    ensures Rgb24Bytes(c.body) == d[0..3] && Rgb24Bytes(c.buttons) == d[3..6]
    ensures Rgb24Bytes(c.leftGrip) == d[6..9] && Rgb24Bytes(c.rightGrip) == d[9..12]
  {
    Colours(Rgb24(d[0], d[1], d[2]), Rgb24(d[3], d[4], d[5]), Rgb24(d[6], d[7], d[8]), Rgb24(d[9], d[10], d[11]))
  }

  // ---------------------------------------------------------------------------
  // DualShock 4

  /** The fixed calibration a DualShock 4 gets instead of reading flash: 0, 127, 255 on every axis. */
  const Ds4Axis := AxisCal(0, 127, 255)
  const Ds4Stick := StickCal(Ds4Axis, Ds4Axis)
}
