/**
 * Outbound report layouts: plain commands, subcommands behind the neutral
 * rumble header, the rumble buffer, DualShock 4 output reports and the SPI
 * flash requests, plus the acknowledgement tests applied to replies.
 */
module Frames {
  import opened Bytes

  /** Size of the scratch report buffers (`unsigned char buf[0x40]`). */
  const ReportSize := 0x40

  // ---------------------------------------------------------------------------
  // The two 4-bit rolling counters (global_count and timing_byte)

  /** The values a rolling counter takes between its updates. */
  type Nibble = c: int | 0 <= c < 16

  /** One step of a rolling counter: `c++; if (c > 0xF) c = 0;`. */
  function NextCount(c: int): (n: int)
    requires 0 <= c < 16
    ensures 0 <= n < 16
    ensures n == (c + 1) % 16
  {
    if c + 1 > 0xF then 0 else c + 1
  }

  /** The sequence byte of a subcommand: `(++global_count) & 0xF`, the low four bits of the incremented count. */
  function SequenceByte(count: int): (b: byte)
    requires 0 <= count < 16
    ensures b == NextCount(count)
  {
    (count + 1) % 0x10
  }

  /** The counter after `k` steps. */
  function Advance(c: int, k: nat): (n: int)
    requires 0 <= c < 16
    ensures 0 <= n < 16
    decreases k
  {
    if k == 0 then c else Advance(NextCount(c), k - 1)
  }

  lemma {:induction false} AdvanceIsModular(c: int, k: nat)
    requires 0 <= c < 16
    ensures Advance(c, k) == (c + k) % 16
    decreases k
  {
    if k > 0 {
      AdvanceIsModular(NextCount(c), k - 1);
    }
  }

  /** A rolling counter is back where it started exactly after a multiple of 16 steps. */
  lemma CounterPeriod(c: int, k: nat)
    requires 0 <= c < 16
    ensures Advance(c, k) == c <==> k % 16 == 0
  {
    AdvanceIsModular(c, k);
    var q, r := k / 16, k % 16;
    if c + r < 16 {
      ModOf(c + k, q, c + r);
    } else {
      ModOf(c + k, q + 1, c + r - 16);
    }
  }

  lemma ModOf(x: int, q: int, m: int)
    requires x == m + 16 * q && 0 <= m < 16
    ensures x % 16 == m
  {
  }

  // ---------------------------------------------------------------------------
  // send_command

  /** Where the command byte's payload starts: 1 on Bluetooth, 9 over USB. */
  function CommandOffset(bluetooth: bool): nat
  {
    if bluetooth then 1 else 9
  }

  /** The bytes in front of the payload on each transport. */
  function CommandHeader(bluetooth: bool, command: byte): (h: seq<byte>)
    ensures |h| == CommandOffset(bluetooth)
  {
    if bluetooth then [command] else [0x80, 0x92, 0x00, 0x31, 0x00, 0x00, 0x00, 0x00, command]
  }

  /** The 0x40-byte buffer `send_command` has filled when it starts the exchange. */
  function CommandBuffer(bluetooth: bool, command: byte, payload: seq<byte>): (b: seq<byte>)
    requires CommandOffset(bluetooth) + |payload| <= ReportSize
    ensures |b| == ReportSize
  {
    CommandHeader(bluetooth, command) + payload + Zeros(ReportSize - CommandOffset(bluetooth) - |payload|)
  }

  /** The bytes `send_command` hands to the transport: the first `len + offset` of its buffer. */
  function CommandFrame(bluetooth: bool, command: byte, payload: seq<byte>): (f: seq<byte>)
    requires CommandOffset(bluetooth) + |payload| <= ReportSize
    ensures |f| == CommandOffset(bluetooth) + |payload|
  {
    CommandBuffer(bluetooth, command, payload)[..CommandOffset(bluetooth) + |payload|]
  }

  lemma CommandFrameLayout(bluetooth: bool, command: byte, payload: seq<byte>)
    requires CommandOffset(bluetooth) + |payload| <= ReportSize
    ensures bluetooth ==> CommandFrame(bluetooth, command, payload) == [command] + payload
    ensures !bluetooth ==>
      CommandFrame(bluetooth, command, payload) == [0x80, 0x92, 0x00, 0x31, 0x00, 0x00, 0x00, 0x00, command] + payload
  {
    var off := CommandOffset(bluetooth);
    var b := CommandBuffer(bluetooth, command, payload);
    assert b[..off + |payload|] == CommandHeader(bluetooth, command) + payload;
  }

  // ---------------------------------------------------------------------------
  // send_subcommand

  /** The neutral-rumble header led by the sequence byte. */
  function RumbleBase(sequence: byte): (h: seq<byte>)
    ensures |h| == 9
  {
    [sequence, 0x00, 0x01, 0x40, 0x40, 0x00, 0x01, 0x40, 0x40]
  }

  /** The 0x40-byte buffer `send_subcommand` passes on: header, subcommand id at 9, data from 10. */
  function SubcommandBuffer(sequence: byte, subcommand: byte, data: seq<byte>): (b: seq<byte>)
    requires 10 + |data| <= ReportSize
    ensures |b| == ReportSize
  {
    RumbleBase(sequence) + [subcommand] + data + Zeros(ReportSize - 10 - |data|)
  }

  /** The frame a subcommand puts on the wire: `send_command(command, buf, 10 + len)`. */
  function SubcommandFrame(bluetooth: bool, command: byte, sequence: byte, subcommand: byte, data: seq<byte>): (f: seq<byte>)
    requires CommandOffset(bluetooth) + 10 + |data| <= ReportSize
  {
    CommandFrame(bluetooth, command, SubcommandBuffer(sequence, subcommand, data)[..10 + |data|])
  }

  /**
   * A subcommand frame is `len + 11` bytes on Bluetooth and `len + 19` over
   * USB: the command header, the neutral-rumble header, the subcommand id and
   * the data, nothing else.
   */
  lemma SubcommandFrameLayout(bluetooth: bool, command: byte, sequence: byte, subcommand: byte, data: seq<byte>)
    requires CommandOffset(bluetooth) + 10 + |data| <= ReportSize
    ensures bluetooth ==>
      SubcommandFrame(bluetooth, command, sequence, subcommand, data)
        == [command, sequence, 0x00, 0x01, 0x40, 0x40, 0x00, 0x01, 0x40, 0x40, subcommand] + data
    ensures !bluetooth ==>
      SubcommandFrame(bluetooth, command, sequence, subcommand, data)
        == [0x80, 0x92, 0x00, 0x31, 0x00, 0x00, 0x00, 0x00, command,
            sequence, 0x00, 0x01, 0x40, 0x40, 0x00, 0x01, 0x40, 0x40, subcommand] + data
    ensures |SubcommandFrame(bluetooth, command, sequence, subcommand, data)| == |data| + (if bluetooth then 11 else 19)
  {
    var head := RumbleBase(sequence) + [subcommand];
    var inner := SubcommandBuffer(sequence, subcommand, data)[..10 + |data|];
    PrefixOfPadded(head + data, Zeros(ReportSize - 10 - |data|));
    assert inner == head + data;
    CommandFrameLayout(bluetooth, command, inner);
    var h := CommandHeader(bluetooth, command);
    assert h + inner == (h + head) + data;
    if bluetooth {
      assert h + head == [command, sequence, 0x00, 0x01, 0x40, 0x40, 0x00, 0x01, 0x40, 0x40, subcommand];
    } else {
      assert h + head == [0x80, 0x92, 0x00, 0x31, 0x00, 0x00, 0x00, 0x00, command,
            sequence, 0x00, 0x01, 0x40, 0x40, 0x00, 0x01, 0x40, 0x40, subcommand];
    }
  }

  lemma PrefixOfPadded(a: seq<byte>, z: seq<byte>)
    ensures (a + z)[..|a|] == a
  {
  }

  // ---------------------------------------------------------------------------
  // rumble

  /** The slot that receives the frequency: 1 for a left Joy-Con, 5 for anything else. */
  function FrequencySlot(leftRight: int): nat
  {
    if leftRight == 1 then 1 else 5
  }

  /**
   * The nine bytes `rumble` sends after command 0x10: an amplitude bit at
   * `1 + intensity` and `5 + intensity` (either may fall past the nine bytes),
   * then the frequency, truncated to a byte, written over its slot.
   */
  function RumblePayload(leftRight: int, frequency: int, intensity: int): (p: seq<byte>)
    ensures |p| == 9
  {
    seq(9, i =>
      if i == FrequencySlot(leftRight) then frequency % 0x100
      else if i == 1 + intensity || i == 5 + intensity then 1
      else 0)
  }

  /** A left Joy-Con's rumble: frequency in the left slot, one amplitude bit per motor. */
  lemma RumbleLeftExample()
    ensures var p := RumblePayload(1, 100, 3);
      p == [0, 100, 0, 0, 1, 0, 0, 0, 1] && CommandFrame(true, 0x10, p) == [0x10] + p
  {
    CommandFrameLayout(true, 0x10, RumblePayload(1, 100, 3));
  }

  /** From intensity 4 on, the second motor's bit lies outside the nine bytes sent. */
  lemma RumbleHighIntensity(leftRight: int, frequency: int, intensity: int)
    requires 4 <= intensity
    ensures forall i :: 0 <= i < 9 && i != FrequencySlot(leftRight) && i != 1 + intensity ==>
      RumblePayload(leftRight, frequency, intensity)[i] == 0
  {
  }

  // ---------------------------------------------------------------------------
  // DualShock 4 output report

  /** The 31-byte output report: id 0x05, 0xFF, rumble at 4 and 5, colour at 6..8, flash at 9 and 10. */
  function Ds4Report(smallRumble: byte, bigRumble: byte, r: byte, g: byte, b: byte, flashOn: byte): (rep: seq<byte>)
    ensures |rep| == 31
  {
    [0x05, 0xFF, 0x00, 0x00, smallRumble, bigRumble, r, g, b, flashOn, 0x00] + Zeros(20)
  }

  lemma Ds4ReportExample()
    ensures var rep := Ds4Report(0, 200, 255, 0, 0, 0xFF);
      rep[0] == 0x05 && rep[1] == 0xFF && rep[4] == 0 && rep[5] == 200 && rep[6] == 255 && rep[9] == 0xFF
  {
  }

  // ---------------------------------------------------------------------------
  // SPI flash requests and acknowledgements

  const SpiHeaderSize := 22  // sizeof(brcm_hdr) + sizeof(brcm_cmd_01), natural alignment

  /**
   * The `brcm_hdr` / `brcm_cmd_01` overlay as laid out in memory: command 1 at
   * 0, the timing byte at 1, the subcommand at 10, the `uint32_t` offset at 14
   * (aligned to 4) and the size at 18, padding zero.
   */
  function SpiHeader(timing: byte, subcommand: byte, offset: uint32, size: byte): (h: seq<byte>)
    ensures |h| == SpiHeaderSize
  {
    [0x01, timing] + Zeros(8) + [subcommand, 0x00, 0x00, 0x00] + Le32Bytes(offset) + [size, 0x00, 0x00, 0x00]
  }

  /** The request `get_spi_data` writes: subcommand 0x10 at 10, offset little-endian at 11..14, size at 15. */
  function SpiReadRequest(timing: byte, offset: uint32, size: byte): (f: seq<byte>)
    ensures |f| == SpiHeaderSize
  {
    [0x01, timing] + Zeros(8) + [0x10] + Le32Bytes(offset) + [size] + Zeros(6)
  }

  /** The whole 0x100-byte buffer of a read attempt before the reply lands in it: the request, then zeros. */
  function SpiReadBuffer(timing: byte, offset: uint32, size: byte): (b: seq<byte>)
    ensures |b| == 0x100 && b[..SpiHeaderSize] == SpiReadRequest(timing, offset, size)
  {
    SpiReadRequest(timing, offset, size) + Zeros(0x100 - SpiHeaderSize)
  }

  /**
   * The whole 0x100-byte buffer of a write attempt: the overlay for
   * subcommand 0x11 with the data copied over it from 0x10, so that it
   * covers the upper offset bytes and the size.
   */
  function SpiWriteBuffer(timing: byte, offset: uint32, size: byte, data: seq<byte>): (b: seq<byte>)
    requires SpiHeaderSize + |data| <= 0x100
    ensures |b| == 0x100
  {
    var s := SpiHeader(timing, 0x11, offset, size) + Zeros(0x100 - SpiHeaderSize);
    s[..0x10] + data + s[0x10 + |data|..]
  }

  /**
   * The header up to 0x10, then the data, then whatever of the header and
   * the zero padding the data did not cover.
   */
  lemma SpiWriteBufferLayout(timing: byte, offset: uint32, size: byte, data: seq<byte>)
    requires SpiHeaderSize + |data| <= 0x100
    ensures var b := SpiWriteBuffer(timing, offset, size, data);
      && b[..0x10] == SpiHeader(timing, 0x11, offset, size)[..0x10]
      && b[0x10..0x10 + |data|] == data
      && forall i :: 0x10 + |data| <= i < 0x100 ==> b[i] == if i < SpiHeaderSize then SpiHeader(timing, 0x11, offset, size)[i] else 0
  {
    var b := SpiWriteBuffer(timing, offset, size, data);
    var s := SpiHeader(timing, 0x11, offset, size) + Zeros(0x100 - SpiHeaderSize);
    assert b[..0x10] == s[..0x10];
    assert b[0x10..0x10 + |data|] == data;
    forall i | 0x10 + |data| <= i < 0x100
      ensures b[i] == if i < SpiHeaderSize then SpiHeader(timing, 0x11, offset, size)[i] else 0
    {
      assert b[i] == s[i];
    }
  }

  /** The request `write_spi_data` puts on the wire: the first `22 + |data|` bytes of its buffer. */
  function SpiWriteRequest(timing: byte, offset: uint32, size: byte, data: seq<byte>): (f: seq<byte>)
    requires SpiHeaderSize + |data| <= 0x100
    ensures |f| == SpiHeaderSize + |data|
  {
    SpiWriteBuffer(timing, offset, size, data)[..SpiHeaderSize + |data|]
  }

  /** A read reply: `*(uint16_t*)&buf[0xD] == 0x1090 && *(uint32_t*)&buf[0xF] == offset`. */
  predicate ReadAcknowledged(buf: seq<byte>, offset: uint32)
    requires |buf| >= 0x13
  {
    Le16(buf[0xD], buf[0xE]) == 0x1090 && Le32(buf[0xF..0x13]) == offset
  }

  /** A write reply: `*(uint16_t*)&buf[0xD] == 0x1180`. */
  predicate WriteAcknowledged(buf: seq<byte>)
    requires |buf| >= 0xF
  {
    Le16(buf[0xD], buf[0xE]) == 0x1180
  }

  lemma ReadAcknowledgedBytes(buf: seq<byte>, offset: uint32)
    requires |buf| >= 0x13
    ensures ReadAcknowledged(buf, offset) <==>
      buf[0xD] == 0x90 && buf[0xE] == 0x10 && buf[0xF..0x13] == Le32Bytes(offset)
  {
    if buf[0xF..0x13] == Le32Bytes(offset) {
      Le32RoundTrip(offset);
    }
  }

  lemma WriteAcknowledgedBytes(buf: seq<byte>)
    requires |buf| >= 0xF
    ensures WriteAcknowledged(buf) <==> buf[0xD] == 0x80 && buf[0xE] == 0x11
  {
  }
}
