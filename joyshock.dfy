/**
 * One connected controller (`class JoyShock`): its classification, the two
 * rolling counters, the raw calibration blocks read from SPI flash and what
 * is decoded from them, and the continuous-calibration gyro ring, with the
 * operations that build and exchange reports over the HID transport.
 */
module JoyShockDevice {
  import opened Bytes
  import opened Device
  import opened Frames
  import opened Calibration
  import opened GyroAverage
  import opened Hid
  import opened SpiFlash

  /** `memset(a, 0, n)`. */
  method Clear(a: array<byte>, n: nat)
    requires n <= a.Length
    modifies a
    ensures a[..n] == Zeros(n) && a[n..] == old(a[n..])
  {
    forall i | 0 <= i < n {
      a[i] := 0;
    }
  }

  /** `memcpy(a + start, src, |src|)`. */
  method Copy(a: array<byte>, start: nat, src: seq<byte>)
    requires start + |src| <= a.Length
    modifies a
    ensures a[..] == old(a[..start]) + src + old(a[start + |src|..])
  {
    forall i | 0 <= i < |src| {
      a[start + i] := src[i];
    }
    assert a[..] == old(a[..start]) + src + old(a[start + |src|..]) by {
      assert a[..start] == old(a[..start]);
      assert a[start..start + |src|] == src;
      assert a[start + |src|..] == old(a[start + |src|..]);
      assert a[..] == a[..start] + a[start..start + |src|] + a[start + |src|..];
    }
  }

  /** The 40-byte DualShock 4 output buffer as its three writers fill it. */
  method Ds4Buffer(smallRumble: byte, bigRumble: byte, colourR: byte, colourG: byte, colourB: byte, flashOn: byte)
    returns (buf: array<byte>)
    ensures fresh(buf) && buf.Length == 40
    ensures buf[..31] == Ds4Report(smallRumble, bigRumble, colourR, colourG, colourB, flashOn)
  {
    buf := new byte[40](_ => 0);
    buf[0] := 0x05;
    buf[1] := 0xff;
    buf[4] := smallRumble;
    buf[5] := bigRumble;
    buf[6] := colourR;
    buf[7] := colourG;
    buf[8] := colourB;
    buf[9] := flashOn;
    buf[10] := 0x00;
  }

  /**
   * The payload of `send_command` and `send_subcommand` copied in at
   * `offset` of a buffer that is zero from there on: the first `len` bytes
   * of `data`, or nothing when `data` is null or `len` is 0.
   */
  method FillPayload(buf: array<byte>, offset: nat, data: array?<byte>, len: nat)
    requires offset + len <= buf.Length && data != buf
    requires data != null ==> len <= data.Length
    requires buf[offset..] == Zeros(buf.Length - offset)
    modifies buf
    ensures buf[..] == old(buf[..offset]) + (if data != null then data[..len] else Zeros(len))
      + Zeros(buf.Length - offset - len)
  {
    ghost var rest := Zeros(buf.Length - offset - len);
    ZerosAppend(len, buf.Length - offset - len);
    assert buf[..] == buf[..offset] + Zeros(len) + rest by {
      assert buf[..] == buf[..offset] + buf[offset..];
    }
    if data != null && len != 0 {
      assert buf[offset + len..] == rest;
      Copy(buf, offset, data[..len]);
    } else if data != null {
      assert data[..len] == Zeros(len);
    }
  }

  /**
   * The buffer `send_command` fills before the exchange: zeroed, the USB
   * header when not on Bluetooth, the command byte's low eight bits just
   * before the payload, and the first `len` bytes of `data` when there is
   * any.
   */
  method FillCommand(bluetooth: bool, command: int, data: array?<byte>, len: nat) returns (buf: array<byte>)
    requires CommandOffset(bluetooth) + len <= ReportSize
    requires data != null ==> len <= data.Length
    ensures fresh(buf)
    ensures buf[..] == CommandBuffer(bluetooth, command % 0x100, if data != null then data[..len] else Zeros(len))
  {
    buf := new byte[ReportSize](_ => 0);
    if !bluetooth {
      buf[0x00] := 0x80;
      buf[0x01] := 0x92;
      buf[0x03] := 0x31;
    }
    var offset := if bluetooth then 0x1 else 0x9;
    buf[offset - 1] := command % 0x100;
    assert buf[..offset] == CommandHeader(bluetooth, command % 0x100);
    assert forall i | offset <= i < ReportSize :: buf[i] == 0;
    assert buf[offset..] == Zeros(ReportSize - offset);
    FillPayload(buf, offset, data, len);
  }

  /**
   * The buffer `send_subcommand` passes on: zeroed, the neutral rumble
   * header led by `sequence`, the subcommand's low eight bits at 9 and the
   * first `len` bytes of `data` from 10.
   */
  method FillSubcommand(sequence: byte, subcommand: int, data: array?<byte>, len: nat) returns (buf: array<byte>)
    requires 10 + len <= ReportSize
    requires data != null ==> len <= data.Length
    ensures fresh(buf)
    ensures buf[..] == SubcommandBuffer(sequence, subcommand % 0x100, if data != null then data[..len] else Zeros(len))
  {
    buf := new byte[ReportSize](_ => 0);
    Copy(buf, 0, RumbleBase(sequence));
    buf[9] := subcommand % 0x100;
    assert buf[..10] == RumbleBase(sequence) + [subcommand % 0x100];
    assert forall i | 10 <= i < ReportSize :: buf[i] == 0;
    assert buf[10..] == Zeros(ReportSize - 10);
    FillPayload(buf, 10, data, len);
  }

  /**
   * A zeroed 0x100-byte buffer with the `brcm_hdr` / `brcm_cmd_01` overlay
   * filled in: command 1, the timing byte, the subcommand, the offset and
   * the size, each at its field's place in the overlay.
   */
  method FillSpiHeader(buf: array<byte>, timing: byte, subcommand: byte, offset: uint32, size: byte)
    requires buf.Length == 0x100
    modifies buf
    ensures buf[..] == SpiHeader(timing, subcommand, offset, size) + Zeros(0x100 - SpiHeaderSize)
  {
    Clear(buf, 0x100);
    assert buf[SpiHeaderSize..] == Zeros(0x100 - SpiHeaderSize);
    Copy(buf, 0, SpiHeader(timing, subcommand, offset, size));
  }

  /** `for (int i = 11; i < 22; ++i) buf[i] = buf[i + 3];`: bytes 14..24 moved down to 11..21. */
  method ShiftRequest(buf: array<byte>)
    requires buf.Length == 0x100
    modifies buf
    ensures buf[..] == old(buf[..11]) + old(buf[14..25]) + old(buf[22..])
  {
    for i := 11 to 22
      invariant forall j :: 0 <= j < 0x100 ==> buf[j] == if 11 <= j < i then old(buf[j + 3]) else old(buf[j])
    {
      assert buf[i + 3] == old(buf[i + 3]);
      buf[i] := buf[i + 3];
    }
    assert buf[..] == old(buf[..11]) + old(buf[14..25]) + old(buf[22..]);
  }

  /** A read request: the overlay for subcommand 0x10, then shifted into its packed form. */
  method FillReadRequest(buf: array<byte>, timing: byte, offset: uint32, size: byte)
    requires buf.Length == 0x100
    modifies buf
    ensures buf[..] == SpiReadBuffer(timing, offset, size)
  {
    FillSpiHeader(buf, timing, 0x10, offset, size);
    ShiftRequest(buf);
    ReadRequestIsShiftedHeader(timing, offset, size);
  }

  /**
   * A write request: the overlay for subcommand 0x11, then the data copied
   * in from 0x10 over the upper offset bytes and the size.
   */
  method FillWriteRequest(buf: array<byte>, timing: byte, offset: uint32, size: byte, data: seq<byte>)
    requires buf.Length == 0x100 && SpiHeaderSize + |data| <= 0x100
    modifies buf
    ensures buf[..] == SpiWriteBuffer(timing, offset, size, data)
  {
    FillSpiHeader(buf, timing, 0x11, offset, size);
    Copy(buf, 0x10, data);
  }

  /**
   * `for (int i = 0; i < read_len; i++) dest[start + i] = buf[0x14 + i];`,
   * done only when the read returned at least `0x14 + read_len` bytes.
   */
  method Deliver(dest: array<byte>, start: nat, readLen: nat, buf: array<byte>, res: int)
    requires start + readLen <= dest.Length && buf.Length == 0x100 && res <= 0x100 && dest != buf
    modifies dest
    ensures dest[..] == Delivered(old(dest[..]), start, readLen, buf[..], res)
  {
    if res >= 0x14 + readLen {
      for i := 0 to readLen
        invariant dest[..] == old(dest[..start]) + buf[0x14..0x14 + i] + old(dest[start + i..])
      {
        dest[start + i] := buf[0x14 + i];
      }
    }
  }

  /** `memcpy(data, buf, 0x40)`: the answered buffer copied back over the caller's first 0x40 bytes. */
  method CopyBack(data: array<byte>, buf: array<byte>)
    requires buf.Length == ReportSize <= data.Length
    modifies data
    ensures data[..] == old(buf[..]) + old(data[ReportSize..])
  {
    ghost var rest := data[ReportSize..];
    ghost var answer := buf[..];
    assert data[..0] == [];
    Copy(data, 0, buf[..]);
    assert data[..] == answer + rest;
  }

  /**
   * `hid_exchange`: nothing at all on a null handle; otherwise write the
   * first `len` bytes of `buf`, then read up to 0x40 bytes back into it.
   */
  method Exchange(h: HidDevice?, buf: array<byte>, len: nat)
    requires ReportSize <= buf.Length && len <= buf.Length
    modifies h, buf
    ensures h == null ==> buf[..] == old(buf[..])
    ensures h != null ==>
      && h.sent == old(h.sent) + [old(buf[..len])]
      && h.replies == Rest(old(h.replies))
      && h.nonblocking == old(h.nonblocking)
      && buf[..] == AfterRead(old(buf[..]), Head(old(h.replies)), ReportSize).0
  {
    if h == null {
      return;
    }
    h.Write(buf[..len]);
    var res := h.Read(buf, ReportSize);
  }

  /**
   * The three subcommand frames `init_bt` sends on command 1 over Bluetooth,
   * the first with the sequence byte after `count`: 0x48 with 1 (vibration
   * on), 0x40 with 1 (IMU on) and 0x03 with 0x30 (standard full report mode).
   */
  function ReportSettings(count: Nibble): (frames: seq<seq<byte>>)
    ensures |frames| == 3
  {
    [SubcommandFrame(true, 1, SequenceByte(count), 0x48, [1]),
     SubcommandFrame(true, 1, SequenceByte(Advance(count, 1)), 0x40, [1]),
     SubcommandFrame(true, 1, SequenceByte(Advance(count, 2)), 0x03, [0x30])]
  }

  class JoyShock {
    const handle: HidDevice
    const intHandle: int
    /** 1: left Joy-Con, 2: right Joy-Con, 3: Pro Controller or DualShock 4, 0: unknown. */
    const leftRight: int
    const isUsb: bool
    const isDs4: bool

    var bluetooth: bool
    /** The subcommand sequence counter. */
    var globalCount: Nibble
    /** The SPI request counter. */
    var timingByte: Nibble

    // Raw calibration blocks as read from SPI flash.
    const factoryStickCal: array<byte>
    const deviceColours: array<byte>
    const userStickCal: array<byte>
    const sensorModel: array<byte>
    const stickModel: array<byte>
    const factorySensorCal: array<byte>
    const userSensorCal: array<byte>

    // What is decoded from them.
    var stickCalL: StickCal
    var stickCalR: StickCal
    var sensorCal: SensorCal
    var colours: Colours

    /** `gyro_average_window_seconds`, which nothing changes. */
    const windowSeconds: nat := 600
    var frontIndex: int
    const gyroWindows: array<Window>

    ghost predicate Valid()
      reads this`frontIndex, gyroWindows
    {
      && 0 <= leftRight <= 3
      && BlockSizes()
      && BlocksDistinct()
      && Ring(gyroWindows[..], frontIndex, Single())
    }

    /** The sizes of the seven calibration blocks. */
    predicate BlockSizes()
    {
      && factoryStickCal.Length == 0x12 && deviceColours.Length == 0xC && userStickCal.Length == 0x16
      && sensorModel.Length == 0x6 && stickModel.Length == 0x24
      && factorySensorCal.Length == 0x18 && userSensorCal.Length == 0x1A
    }

    /**
     * What the end of `init_bt` holds: both sticks decoded from zero ranges,
     * the sensor origins and the colours, from the blocks as they are now.
     */
    ghost predicate Decoded()
      reads this`stickCalL, this`stickCalR, this`sensorCal, this`colours
      reads factoryStickCal, userStickCal, factorySensorCal, userSensorCal, deviceColours
    {
      && BlockSizes()
      && (stickCalL, stickCalR) == DecodeSticks(leftRight, factoryStickCal[..], userStickCal[..], ZeroStick, ZeroStick)
      && sensorCal == DecodeSensor(factorySensorCal[..], userSensorCal[..])
      && colours == DecodeColours(deviceColours[..])
    }

    /** The seven calibration blocks are seven different arrays. */
    predicate BlocksDistinct()
    {
      && factoryStickCal != deviceColours && factoryStickCal != userStickCal && factoryStickCal != sensorModel
      && factoryStickCal != stickModel && factoryStickCal != factorySensorCal && factoryStickCal != userSensorCal
      && deviceColours != userStickCal && deviceColours != sensorModel && deviceColours != stickModel
      && deviceColours != factorySensorCal && deviceColours != userSensorCal
      && userStickCal != sensorModel && userStickCal != stickModel && userStickCal != factorySensorCal
      && userStickCal != userSensorCal
      && sensorModel != stickModel && sensorModel != factorySensorCal && sensorModel != userSensorCal
      && stickModel != factorySensorCal && stickModel != userSensorCal
      && factorySensorCal != userSensorCal
    }

    /** `get_gyro_average_window_total_samples_for_device`. */
    function Total(): nat
    {
      TotalSamples(isDs4, windowSeconds)
    }

    /** `get_gyro_average_window_single_samples_for_device`. */
    function Single(): nat
    {
      SingleSamples(isDs4, windowSeconds)
    }

    /**
     * A session for an opened device: classified from its product id and
     * interface number, both counters at 0, Bluetooth assumed, white
     * colours, and an empty gyro ring with the front at window 0.
     */
    constructor (productId: int, interfaceNumber: int, device: HidDevice, uniqueHandle: int)
      ensures Valid()
      ensures Kind(leftRight, isUsb, isDs4) == Classify(productId, interfaceNumber)
      ensures handle == device && intHandle == uniqueHandle
      ensures bluetooth && globalCount == 0 && timingByte == 0
      ensures stickCalL == ZeroStick && stickCalR == ZeroStick && sensorCal == ZeroSensor && colours == White
      ensures frontIndex == 0 && gyroWindows[..] == Cleared()
      ensures fresh(gyroWindows) && fresh(factoryStickCal) && fresh(deviceColours) && fresh(userStickCal)
      ensures fresh(sensorModel) && fresh(stickModel) && fresh(factorySensorCal) && fresh(userSensorCal)
    {
      var kind := Classify(productId, interfaceNumber);
      leftRight := kind.leftRight;
      isUsb := kind.isUsb;
      isDs4 := kind.isDs4;
      intHandle := uniqueHandle;
      handle := device;
      bluetooth := true;
      globalCount := 0;
      timingByte := 0;
      factoryStickCal := new byte[0x12];
      deviceColours := new byte[0xC];
      userStickCal := new byte[0x16];
      sensorModel := new byte[0x6];
      stickModel := new byte[0x24];
      factorySensorCal := new byte[0x18];
      userSensorCal := new byte[0x1A];
      stickCalL := ZeroStick;
      stickCalR := ZeroStick;
      sensorCal := ZeroSensor;
      colours := White;
      frontIndex := 0;
      gyroWindows := new Window[NumWindows];
      new;
      ResetContinuousCalibration();
    }

    /** `reset_continuous_calibration`: every window emptied; the front index stays where it was. */
    method ResetContinuousCalibration()
      requires gyroWindows.Length == NumWindows
      modifies gyroWindows
      ensures gyroWindows[..] == Cleared()
      ensures 0 <= frontIndex < NumWindows ==> Ring(gyroWindows[..], frontIndex, Single())
    {
      for i := 0 to NumWindows
        invariant forall j :: 0 <= j < i ==> gyroWindows[j] == EmptyWindow
      {
        gyroWindows[i] := EmptyWindow;
      }
      assert gyroWindows[..] == Cleared();
    }

    /** `push_sensor_samples(x, y, z)`. */
    method PushSensorSamples(x: real, y: real, z: real)
      requires Valid()
      modifies this`frontIndex, gyroWindows
      ensures Valid()
      ensures (gyroWindows[..], frontIndex) == Push(old(gyroWindows[..]), old(frontIndex), Single(), x, y, z)
    {
      ghost var ws := gyroWindows[..];
      PushKeepsRing(ws, frontIndex, Single(), x, y, z);
      var index := frontIndex;
      if gyroWindows[index].numSamples >= Single() {
        frontIndex := (frontIndex + NumWindows - 1) % NumWindows;
        gyroWindows[frontIndex] := EmptyWindow;
        index := frontIndex;
      }
      var w := gyroWindows[index];
      gyroWindows[index] := Window(w.x + x, w.y + y, w.z + z, w.numSamples + 1);
      assert gyroWindows[..] == Push(ws, old(frontIndex), Single(), x, y, z).0;
    }

    /**
     * `get_average_gyro`: the outputs start as `x`, `y`, `z` and are
     * replaced by the weighted average only when some weight was gathered.
     */
    method GetAverageGyro(x: real, y: real, z: real) returns (ox: real, oy: real, oz: real)
      requires Valid()
      ensures (ox, oy, oz) == Average(gyroWindows[..], frontIndex, Total(), Single(), (x, y, z))
    {
      var weight, totalX, totalY, totalZ := 0.0, 0.0, 0.0, 0.0;
      var samplesWanted: int := Total();
      var samplesPerWindow := Single() as real;
      ghost var ws, total, single := gyroWindows[..], Total(), Single();
      ghost var acc := Walk(ws, frontIndex, total, single, 0);
      var i := 0;
      while i < NumWindows && samplesWanted > 0
        invariant 0 <= i <= NumWindows
        invariant acc == Walk(ws, frontIndex, total, single, i)
        invariant Acc(samplesWanted, totalX, totalY, totalZ, weight) == acc
      {
        var cycledIndex := (i + frontIndex) % NumWindows;
        var w := gyroWindows[cycledIndex];
        WalkNext(ws, frontIndex, total, single, i);
        ghost var before := acc;
        assert w == Visited(ws, frontIndex, i);
        if w.numSamples == 0 {
          i := i + 1;
          continue;
        }
        var thisWeight := 1.0;
        var fNumSamples := w.numSamples as real;
        if samplesWanted < w.numSamples {
          thisWeight := samplesWanted as real / w.numSamples as real;
          samplesWanted := 0;
          acc := Gather(before, w, thisWeight, 0);
        } else {
          thisWeight := fNumSamples / samplesPerWindow;
          samplesWanted := samplesWanted - w.numSamples;
          acc := Gather(before, w, thisWeight, samplesWanted);
        }
        totalX := totalX + Share(w.x, fNumSamples, thisWeight);
        totalY := totalY + Share(w.y, fNumSamples, thisWeight);
        totalZ := totalZ + Share(w.z, fNumSamples, thisWeight);
        weight := weight + thisWeight;
        i := i + 1;
      }
      WalkSpent(ws, frontIndex, total, single, i, NumWindows);
      ox, oy, oz := x, y, z;
      if weight > 0.0 {
        ox, oy, oz := totalX / weight, totalY / weight, totalZ / weight;
      }
    }

    /**
     * `send_command`: the command byte and the payload (zeros when `data`
     * is null) go out as the first `len + offset` bytes of a zeroed 0x40-byte
     * buffer, and the buffer with the reply read over it is copied back into
     * `data`.
     */
    method SendCommand(command: int, data: array?<byte>, len: nat)
      requires CommandOffset(bluetooth) + len <= ReportSize
      requires data != null ==> ReportSize <= data.Length
      modifies handle, data
      ensures var payload := if data != null then old(data[..len]) else Zeros(len);
        && handle.sent == old(handle.sent) + [CommandFrame(bluetooth, command % 0x100, payload)]
        && (data != null ==>
             data[..] == AfterRead(CommandBuffer(bluetooth, command % 0x100, payload), Head(old(handle.replies)), ReportSize).0
                         + old(data[ReportSize..]))
      ensures handle.replies == Rest(old(handle.replies)) && handle.nonblocking == old(handle.nonblocking)
    {
      ghost var payload := if data != null then data[..len] else Zeros(len);
      var buf := FillCommand(bluetooth, command, data, len);
      ghost var filled := CommandBuffer(bluetooth, command % 0x100, payload);
      Exchange(handle, buf, len + CommandOffset(bluetooth));
      ghost var answered := AfterRead(filled, Head(old(handle.replies)), ReportSize).0;
      assert buf[..] == answered;
      if data != null {
        CopyBack(data, buf);
      }
    }

    /**
     * `send_subcommand`: the sequence byte is the incremented counter's low
     * four bits, and the counter wraps to 0 past 0xF; the neutral rumble
     * header, the subcommand id and the data go to `send_command`, and what
     * comes back is copied into `data`.
     */
    method SendSubcommand(command: int, subcommand: int, data: array?<byte>, len: nat)
      requires Valid()
      requires CommandOffset(bluetooth) + 10 + len <= ReportSize
      requires data != null ==> ReportSize <= data.Length
      modifies this`globalCount, handle, data
      ensures Valid()
      ensures globalCount == NextCount(old(globalCount))
      ensures var payload := if data != null then old(data[..len]) else Zeros(len);
        var inner := SubcommandBuffer(SequenceByte(old(globalCount)), subcommand % 0x100, payload);
        && handle.sent == old(handle.sent) + [SubcommandFrame(bluetooth, command % 0x100, SequenceByte(old(globalCount)), subcommand % 0x100, payload)]
        && (data != null ==>
             data[..] == AfterRead(CommandBuffer(bluetooth, command % 0x100, inner[..10 + len]), Head(old(handle.replies)), ReportSize).0
                         + old(data[ReportSize..]))
      ensures handle.replies == Rest(old(handle.replies)) && handle.nonblocking == old(handle.nonblocking)
    {
      ghost var payload := if data != null then data[..len] else Zeros(len);
      ghost var inner := SubcommandBuffer(SequenceByte(globalCount), subcommand % 0x100, payload);
      var count := globalCount + 1;
      var sequence := count % 0x10;
      if count > 0xF {
        count := 0x0;
      }
      globalCount := count;
      var buf := FillSubcommand(sequence, subcommand, data, len);
      assert buf[..] == inner;
      SendCommand(command, buf, 10 + len);
      if data != null {
        CopyBack(data, buf);
      }
    }

    /**
     * `rumble(frequency, intensity)`: an amplitude bit at `1 + intensity` and
     * at `5 + intensity` of a 0x400-byte buffer, the frequency's low byte in
     * the left slot on a left Joy-Con and the right slot otherwise, the
     * handle switched to non-blocking, and the first nine bytes sent as
     * command 0x10.
     */
    method Rumble(frequency: int, intensity: int)
      requires -1 <= intensity && 5 + intensity < 0x400
      requires CommandOffset(bluetooth) + 9 <= ReportSize
      modifies handle
      ensures handle.sent == old(handle.sent) + [CommandFrame(bluetooth, 0x10, RumblePayload(leftRight, frequency, intensity))]
      ensures handle.replies == Rest(old(handle.replies)) && handle.nonblocking
    {
      var buf := new byte[0x400](_ => 0);
      buf[1 + 0 + intensity] := 0x1;
      buf[1 + 4 + intensity] := 0x1;
      if leftRight == 1 {
        buf[1 + 0] := frequency % 0x100;
      } else {
        buf[1 + 4] := frequency % 0x100;
      }
      assert buf[..9] == RumblePayload(leftRight, frequency, intensity);
      handle.SetNonblocking(true);
      SendCommand(0x10, buf, 0x9);
    }

    /**
     * `set_ds4_rumble_light`: the 31-byte output report with both motors,
     * the light bar colour and flashing on, written without waiting for a
     * reply.
     */
    method SetDs4RumbleLight(smallRumble: byte, bigRumble: byte, colourR: byte, colourG: byte, colourB: byte)
      modifies handle
      ensures handle.sent == old(handle.sent) + [Ds4Report(smallRumble, bigRumble, colourR, colourG, colourB, 0xFF)]
      ensures handle.replies == old(handle.replies) && handle.nonblocking == old(handle.nonblocking)
    {
      var buf := Ds4Buffer(smallRumble, bigRumble, colourR, colourG, colourB, 0xFF);
      handle.Write(buf[..31]);
    }

    /**
     * `deinit_ds4_usb`: the handle switched to non-blocking and a report
     * with everything off, flashing included.
     */
    method DeinitDs4Usb()
      modifies handle
      ensures handle.sent == old(handle.sent) + [Ds4Report(0, 0, 0, 0, 0, 0)]
      ensures handle.replies == old(handle.replies) && handle.nonblocking
    {
      var buf := Ds4Buffer(0, 0, 0, 0, 0, 0);
      handle.SetNonblocking(true);
      handle.Write(buf[..31]);
    }

    /**
     * `init_ds4_usb`: a DualShock 4 over USB. The handle blocks, one report
     * with the lights off and flashing on goes out, the raw blocks are
     * cleared (only the first half of the stick model), and every stick axis
     * gets the fixed range 0, 127, 255 while the sensor origins are zeroed.
     */
    method InitDs4Usb()
      requires Valid()
      modifies this`bluetooth, this`stickCalL, this`stickCalR, this`sensorCal, handle
      modifies factoryStickCal, deviceColours, userStickCal, sensorModel, stickModel, factorySensorCal, userSensorCal
      ensures Valid()
      ensures !bluetooth && !handle.nonblocking
      ensures handle.sent == old(handle.sent) + [Ds4Report(0, 0, 0, 0, 0, 0xFF)] && handle.replies == old(handle.replies)
      ensures factoryStickCal[..] == Zeros(0x12) && deviceColours[..] == Zeros(0xC) && userStickCal[..] == Zeros(0x16)
      ensures sensorModel[..] == Zeros(0x6) && factorySensorCal[..] == Zeros(0x18) && userSensorCal[..] == Zeros(0x1A)
      ensures stickModel[..0x12] == Zeros(0x12) && stickModel[0x12..] == old(stickModel[0x12..])
      ensures stickCalL == Ds4Stick && stickCalR == Ds4Stick && sensorCal == ZeroSensor
    {
      bluetooth := false;
      var buf := Ds4Buffer(0, 0, 0, 0, 0, 0xFF);
      handle.SetNonblocking(false);
      handle.Write(buf[..31]);
      ClearBlocks();
      stickCalL := Ds4Stick;
      stickCalR := Ds4Stick;
    }

    /**
     * The `memset`s both initialisations share: the seven raw blocks (only
     * the first 0x12 bytes of the stick model), the sensor origins and the
     * stick ranges.
     */
    method ClearBlocks()
      requires Valid()
      modifies this`stickCalL, this`stickCalR, this`sensorCal
      modifies factoryStickCal, deviceColours, userStickCal, sensorModel, stickModel, factorySensorCal, userSensorCal
      ensures Valid()
      ensures factoryStickCal[..] == Zeros(0x12) && deviceColours[..] == Zeros(0xC) && userStickCal[..] == Zeros(0x16)
      ensures sensorModel[..] == Zeros(0x6) && factorySensorCal[..] == Zeros(0x18) && userSensorCal[..] == Zeros(0x1A)
      ensures stickModel[..0x12] == Zeros(0x12) && stickModel[0x12..] == old(stickModel[0x12..])
      ensures stickCalL == ZeroStick && stickCalR == ZeroStick && sensorCal == ZeroSensor
    {
      Clear(factoryStickCal, 0x12);
      Clear(deviceColours, 0xC);
      Clear(userStickCal, 0x16);
      Clear(sensorModel, 0x6);
      Clear(stickModel, 0x12);
      Clear(factorySensorCal, 0x18);
      Clear(userSensorCal, 0x1A);
      sensorCal := ZeroSensor;
      stickCalL := ZeroStick;
      stickCalR := ZeroStick;
    }

    /**
     * One attempt of `get_spi_data`'s loop: the request with the current
     * timing byte is written, the timing byte steps on, and one reply is
     * read over the buffer.
     */
    method SpiReadOnce(buf: array<byte>, offset: uint32, size: byte) returns (res: int)
      requires buf.Length == 0x100
      modifies this`timingByte, handle, buf
      ensures timingByte == NextCount(old(timingByte))
      ensures handle.sent == old(handle.sent) + [SpiReadRequest(old(timingByte), offset, size)]
      ensures handle.replies == Rest(old(handle.replies)) && handle.nonblocking == old(handle.nonblocking)
      ensures (buf[..], res) == ReadAttempt(old(timingByte), offset, size, Head(old(handle.replies)))
    {
      FillReadRequest(buf, timingByte, offset, size);
      var next := timingByte + 1;
      if next > 0xF {
        next := 0x0;
      }
      timingByte := next;
      handle.Write(buf[..SpiHeaderSize]);
      res := handle.Read(buf, 0x100);
    }

    /** Attempt `k` of `get_spi_data`'s loop, in terms of the replies and the log the loop started from. */
    method SpiReadStep(buf: array<byte>, offset: uint32, readLen: uint16, ghost dest0: seq<byte>, ghost start: nat,
                       ghost t0: int, ghost replies0: seq<Reply>, ghost sent0: seq<seq<byte>>, ghost k: nat)
      returns (res: int)
      requires 0 <= t0 < 16 && buf.Length == 0x100 && k < |replies0| && start + readLen <= |dest0|
      requires handle.replies == replies0[k..] && timingByte == Advance(t0, k)
      requires handle.sent == sent0 + ReadRequests(t0, offset, readLen % 0x100, k)
      requires forall j :: 0 <= j < k ==> !ReadAcks(t0, offset, readLen % 0x100, replies0)[j]
      modifies this`timingByte, handle, buf
      ensures handle.replies == replies0[k + 1..] && timingByte == Advance(t0, k + 1)
      ensures handle.sent == sent0 + ReadRequests(t0, offset, readLen % 0x100, k + 1)
      ensures handle.nonblocking == old(handle.nonblocking) && res <= 0x100
      ensures ReadAcknowledged(buf[..], offset) ==>
                SpiRead(t0, offset, readLen, replies0, dest0, start)
                == ReadResult(Returned(0), k + 1, Delivered(dest0, start, readLen, buf[..], res))
      ensures !ReadAcknowledged(buf[..], offset) ==>
                forall j :: 0 <= j <= k ==> !ReadAcks(t0, offset, readLen % 0x100, replies0)[j]
    {
      var size: byte := readLen % 0x100;
      res := SpiReadOnce(buf, offset, size);
      ReadRequestsNext(t0, offset, size, k);
      AdvanceNext(t0, k);
      ReadAcksAt(t0, offset, size, replies0, k);
      assert replies0[k..][1..] == replies0[k + 1..];
      if ReadAcknowledged(buf[..], offset) {
        SpiReadAcknowledgedAt(t0, offset, readLen, replies0, dest0, start, k);
      }
    }

    /**
     * `get_spi_data(offset, read_len, dest + start)`: read requests go out,
     * each with the next timing byte, until a reply echoes 0x90, 0x10 and the
     * offset; the reply's bytes from 0x14 are then copied into `dest` if it
     * is long enough. Returns 0, or `Waiting` when the replies run out first.
     */
    method GetSpiData(offset: uint32, readLen: uint16, dest: array<byte>, start: nat) returns (outcome: SpiOutcome)
      requires start + readLen <= dest.Length
      modifies this`timingByte, handle, dest
      ensures var r := SpiRead(old(timingByte), offset, readLen, old(handle.replies), old(dest[..]), start);
        && outcome == r.outcome && dest[..] == r.dest
        && handle.sent == old(handle.sent) + ReadRequests(old(timingByte), offset, readLen % 0x100, r.attempts)
        && handle.replies == old(handle.replies)[r.attempts..]
        && timingByte == Advance(old(timingByte), r.attempts)
      ensures handle.nonblocking == old(handle.nonblocking)
    {
      ghost var t0, replies0, sent0 := timingByte, handle.replies, handle.sent;
      ghost var k := 0;
      var buf := new byte[0x100];
      var res := 0;
      while handle.replies != []
        invariant 0 <= k <= |replies0| && handle.replies == replies0[k..]
        invariant handle.sent == sent0 + ReadRequests(t0, offset, readLen % 0x100, k)
        invariant timingByte == Advance(t0, k)
        invariant forall j :: 0 <= j < k ==> !ReadAcks(t0, offset, readLen % 0x100, replies0)[j]
        invariant handle.nonblocking == old(handle.nonblocking) && dest[..] == old(dest[..])
        decreases |handle.replies|
      {
        res := SpiReadStep(buf, offset, readLen, old(dest[..]), start, t0, replies0, sent0, k);
        if ReadAcknowledged(buf[..], offset) {
          Deliver(dest, start, readLen, buf, res);
          return Returned(0);
        }
        k := k + 1;
      }
      SpiReadExhausted(t0, offset, readLen, replies0, old(dest[..]), start);
      return Waiting;
    }

    /** One attempt of `write_spi_data`'s loop. */
    method SpiWriteOnce(buf: array<byte>, offset: uint32, size: byte, data: seq<byte>) returns (res: int)
      requires buf.Length == 0x100 && SpiHeaderSize + |data| <= 0x100
      modifies this`timingByte, handle, buf
      ensures timingByte == NextCount(old(timingByte))
      ensures handle.sent == old(handle.sent) + [SpiWriteRequest(old(timingByte), offset, size, data)]
      ensures handle.replies == Rest(old(handle.replies)) && handle.nonblocking == old(handle.nonblocking)
      ensures buf[..] == WriteAttempt(old(timingByte), offset, size, data, Head(old(handle.replies)))
    {
      FillWriteRequest(buf, timingByte, offset, size, data);
      var next := timingByte + 1;
      if next > 0xF {
        next := 0x0;
      }
      timingByte := next;
      handle.Write(buf[..SpiHeaderSize + |data|]);
      res := handle.Read(buf, 0x100);
    }

    /** Attempt `k` of `write_spi_data`'s loop, in terms of the replies and the log the loop started from. */
    method SpiWriteStep(buf: array<byte>, offset: uint32, size: byte, data: seq<byte>,
                        ghost t0: int, ghost replies0: seq<Reply>, ghost sent0: seq<seq<byte>>, ghost k: nat)
      returns (acked: bool)
      requires 0 <= t0 < 16 && buf.Length == 0x100 && SpiHeaderSize + |data| <= 0x100 && k < |replies0| && k < WriteRetryLimit
      requires handle.replies == replies0[k..] && timingByte == Advance(t0, k)
      requires handle.sent == sent0 + WriteRequests(t0, offset, size, data, k)
      requires forall j :: 0 <= j < k ==> !WriteAcks(t0, offset, size, data, replies0)[j]
      modifies this`timingByte, handle, buf
      ensures handle.replies == replies0[k + 1..] && timingByte == Advance(t0, k + 1)
      ensures handle.sent == sent0 + WriteRequests(t0, offset, size, data, k + 1)
      ensures handle.nonblocking == old(handle.nonblocking)
      ensures var acks := WriteAcks(t0, offset, size, data, replies0);
        && acked == acks[k]
        && (acked ==> WriteOutcome(acks) == (Returned(0), k + 1))
        && (!acked ==> forall j :: 0 <= j <= k ==> !acks[j])
        && (!acked && k + 1 == WriteRetryLimit ==> WriteOutcome(acks) == (Returned(1), WriteRetryLimit))
    {
      var res := SpiWriteOnce(buf, offset, size, data);
      acked := WriteAcknowledged(buf[..]);
      WriteRequestsNext(t0, offset, size, data, k);
      AdvanceNext(t0, k);
      WriteAcksAt(t0, offset, size, data, replies0, k);
      assert replies0[k..][1..] == replies0[k + 1..];
      var acks := WriteAcks(t0, offset, size, data, replies0);
      if acked {
        WriteOutcomeAt(acks, k);
      } else if k + 1 == WriteRetryLimit {
        WriteOutcomeGivesUp(acks);
      }
    }

    /**
     * `write_spi_data(offset, write_len, data)`: write requests go out, each
     * with the next timing byte, until a reply carries 0x80, 0x11 at 0xD;
     * returns 0 then, or 1 after 125 unacknowledged attempts, or `Waiting`
     * when the replies run out first.
     */
    method WriteSpiData(offset: uint32, writeLen: uint16, data: seq<byte>) returns (outcome: SpiOutcome)
      requires |data| == writeLen as int && SpiHeaderSize + writeLen <= 0x100
      modifies this`timingByte, handle
      ensures var acks := WriteAcks(old(timingByte), offset, writeLen % 0x100, data, old(handle.replies));
        var r := WriteOutcome(acks);
        && outcome == r.0
        && handle.sent == old(handle.sent) + WriteRequests(old(timingByte), offset, writeLen % 0x100, data, r.1)
        && handle.replies == old(handle.replies)[r.1..]
        && timingByte == Advance(old(timingByte), r.1)
      ensures handle.nonblocking == old(handle.nonblocking)
    {
      ghost var t0, replies0, sent0 := timingByte, handle.replies, handle.sent;
      var size: byte := writeLen % 0x100;
      ghost var acks := WriteAcks(t0, offset, size, data, replies0);
      var buf := new byte[0x100];
      var errorWriting := 0;
      while handle.replies != []
        invariant 0 <= errorWriting < WriteRetryLimit && errorWriting <= |replies0|
        invariant handle.replies == replies0[errorWriting..]
        invariant handle.sent == sent0 + WriteRequests(t0, offset, size, data, errorWriting)
        invariant timingByte == Advance(t0, errorWriting)
        invariant forall j :: 0 <= j < errorWriting ==> !acks[j]
        invariant handle.nonblocking == old(handle.nonblocking)
        decreases |handle.replies|
      {
        var acked := SpiWriteStep(buf, offset, size, data, t0, replies0, sent0, errorWriting);
        if acked {
          return Returned(0);
        }
        errorWriting := errorWriting + 1;
        if errorWriting == WriteRetryLimit {
          return Returned(1);
        }
      }
      WriteOutcomeExhausted(acks);
      return Waiting;
    }

    /**
     * One `get_spi_data` of `init_bt` into a calibration block. Only what
     * the initialisation needs of it is kept: nothing else about the session
     * changes and the log of written frames only grows.
     */
    method ReadBlock(offset: uint32, readLen: uint16, dest: array<byte>, start: nat) returns (outcome: SpiOutcome)
      requires Valid() && start + readLen <= dest.Length
      modifies this`timingByte, handle, dest
      ensures Valid() && outcome in {Returned(0), Waiting}
      ensures old(handle.sent) <= handle.sent && handle.nonblocking == old(handle.nonblocking)
    {
      outcome := GetSpiData(offset, readLen, dest, start);
    }

    /**
     * The three subcommands `init_bt` sends on command 1 through one zeroed
     * 0x40-byte buffer: 0x48 with 1 (vibration on), 0x40 with 1 (IMU on) and
     * 0x03 with 0x30 (standard full report mode).
     */
    method EnableReports()
      requires Valid() && bluetooth
      modifies this`globalCount, handle
      ensures Valid() && globalCount == Advance(old(globalCount), 3)
      ensures handle.sent == old(handle.sent) + ReportSettings(old(globalCount))
      ensures handle.replies == Rest(Rest(Rest(old(handle.replies)))) && handle.nonblocking == old(handle.nonblocking)
    {
      var buf := new byte[ReportSize](_ => 0);
      ghost var g0 := globalCount;
      SendSetting(buf, 0x48, 0x01);
      SendSetting(buf, 0x40, 0x01);
      SendSetting(buf, 0x03, 0x30);
      AdvanceNext(g0, 1);
      AdvanceNext(g0, 2);
    }

    /** `buf[0] = value; send_subcommand(0x01, subcommand, buf, 1);` on Bluetooth. */
    method SendSetting(buf: array<byte>, subcommand: byte, value: byte)
      requires Valid() && bluetooth && buf.Length == ReportSize
      modifies this`globalCount, handle, buf
      ensures Valid() && globalCount == NextCount(old(globalCount))
      ensures handle.sent == old(handle.sent) + [SubcommandFrame(true, 1, SequenceByte(old(globalCount)), subcommand, [value])]
      ensures handle.replies == Rest(old(handle.replies)) && handle.nonblocking == old(handle.nonblocking)
    {
      buf[0] := value;
      assert buf[..1] == [value];
      SendSubcommand(0x01, subcommand, buf, 1);
    }

    /** The eight calibration reads of `init_bt`, stopping at the first one still waiting for its reply. */
    method ReadCalibration() returns (outcome: SpiOutcome)
      requires Valid()
      modifies this`timingByte, handle, factoryStickCal, deviceColours, userStickCal, sensorModel, stickModel
      modifies factorySensorCal, userSensorCal
      ensures Valid() && outcome in {Returned(0), Waiting}
      ensures old(handle.sent) <= handle.sent && handle.nonblocking == old(handle.nonblocking)
    {
      outcome := ReadBlock(0x6020, 0x18, factorySensorCal, 0);
      if outcome == Waiting { return; }
      outcome := ReadBlock(0x603D, 0x12, factoryStickCal, 0);
      if outcome == Waiting { return; }
      outcome := ReadBlock(0x6050, 0xC, deviceColours, 0);
      if outcome == Waiting { return; }
      outcome := ReadBlock(0x6080, 0x6, sensorModel, 0);
      if outcome == Waiting { return; }
      outcome := ReadBlock(0x6086, 0x12, stickModel, 0);
      if outcome == Waiting { return; }
      outcome := ReadBlock(0x6098, 0x12, stickModel, 0x12);
      if outcome == Waiting { return; }
      outcome := ReadBlock(0x8010, 0x16, userStickCal, 0);
      if outcome == Waiting { return; }
      outcome := ReadBlock(0x8026, 0x1A, userSensorCal, 0);
    }

    /**
     * `init_bt`: Bluetooth from now on, the handle blocking, and three
     * subcommands on command 1 (vibration on, IMU on, report mode 0x30); then
     * the blocks are cleared, read from flash, and the sticks, the sensor
     * origins and the colours decoded from what was read. Returns 0, or
     * `Waiting` when a read is still waiting for its reply.
     */
    method InitBt() returns (outcome: SpiOutcome)
      requires Valid()
      modifies this`bluetooth, this`globalCount, this`timingByte, handle
      modifies this`stickCalL, this`stickCalR, this`sensorCal, this`colours
      modifies factoryStickCal, deviceColours, userStickCal, sensorModel, stickModel, factorySensorCal, userSensorCal
      ensures Valid() && outcome in {Returned(0), Waiting}
      ensures bluetooth && !handle.nonblocking
      ensures globalCount == Advance(old(globalCount), 3)
      ensures old(handle.sent) + ReportSettings(old(globalCount)) <= handle.sent
      ensures outcome == Returned(0) ==> Decoded()
      ensures outcome == Waiting ==>
        stickCalL == ZeroStick && stickCalR == ZeroStick && sensorCal == ZeroSensor && colours == old(colours)
    {
      bluetooth := true;
      handle.SetNonblocking(false);
      EnableReports();
      outcome := LoadCalibration();
    }

    /**
     * The calibration half of `init_bt`: the blocks cleared and read, then
     * the sticks (from zero), the sensor origins and the colours decoded.
     */
    method LoadCalibration() returns (outcome: SpiOutcome)
      requires Valid()
      modifies this`timingByte, handle, this`stickCalL, this`stickCalR, this`sensorCal, this`colours
      modifies factoryStickCal, deviceColours, userStickCal, sensorModel, stickModel, factorySensorCal, userSensorCal
      ensures Valid() && outcome in {Returned(0), Waiting}
      ensures old(handle.sent) <= handle.sent && handle.nonblocking == old(handle.nonblocking)
      ensures outcome == Returned(0) ==> Decoded()
      ensures outcome == Waiting ==>
        stickCalL == ZeroStick && stickCalR == ZeroStick && sensorCal == ZeroSensor && colours == old(colours)
    {
      ClearBlocks();
      outcome := ReadCalibration();
      if outcome == Waiting {
        return;
      }
      DecodeCalibration();
    }

    /** The end of `init_bt`: both sticks decoded from zero, then the sensor origins and the colours, from the blocks as read. */
    method DecodeCalibration()
      requires Valid()
      modifies this`stickCalL, this`stickCalR, this`sensorCal, this`colours
      ensures Decoded()
    {
      var sticks := DecodeSticks(leftRight, factoryStickCal[..], userStickCal[..], ZeroStick, ZeroStick);
      stickCalL := sticks.0;
      stickCalR := sticks.1;
      sensorCal := DecodeSensor(factorySensorCal[..], userSensorCal[..]);
      colours := DecodeColours(deviceColours[..]);
    }
  }
}
