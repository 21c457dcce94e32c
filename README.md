# JoyShock device session, modelled in Dafny

This project models the per-device protocol logic of JoyShockLibrary's
`JoyShock` class. That class is one open HID session with a Nintendo
Joy-Con, a Pro Controller or a Sony DualShock 4. The model covers:

- **Classification** (module `Device`): the constructor derives `left_right`,
  `is_usb` and `is_ds4` from the product id and the interface number.
- **Outbound reports** (module `Frames`, methods of `JoyShockDevice`):
  - `send_command` with its Bluetooth and USB headers;
  - `send_subcommand` with its neutral-rumble header and the 4-bit
    `global_count` sequence byte;
  - the `rumble` buffer;
  - the 31-byte DualShock 4 output report.
- **SPI flash** (module `SpiFlash`, `JoyShock.GetSpiData` and
  `JoyShock.WriteSpiData`): the read and write retry loops, whose requests
  carry the 4-bit `timing_byte`.
  - The read request is the `brcm_hdr` / `brcm_cmd_01` overlay packed down
    by the in-place 3-byte shift.
  - The write request keeps the overlay and copies its data in at 0x10.
  - A read ends on the 0x90 0x10 echo of the offset; a write ends on 0x80 0x11,
    or gives up with 1 after 125 misses.
- **Calibration decoding** (module `Calibration`, `JoyShock.InitBt`):
  - 12-bit stick extents packed two per three bytes, factory and user, gated
    by `left_right` and by the 0xA1B2 marker;
  - signed 16-bit sensor origins;
  - the RGB24 colours;
  - the fixed 0/127/255 DualShock 4 stick ranges.
- **The continuous-calibration gyro ring** (module `GyroAverage`,
  `JoyShock.PushSensorSamples` and `JoyShock.GetAverageGyro`): sixteen
  windows with a moving front index, and the budgeted weighted average.
- **Stick normalisation** `CalcAnalogStick2` (module `StickMapper`), over reals.

The HID transport (module `Hid`) is a class holding:

- a log of the frames written;
- the sequence of replies the device will give;
- the blocking mode.

`hid_read` consumes one reply. A failed read returns -1 and leaves the buffer
alone. A report fills the buffer from the start. When no reply is left, a read
returns no bytes. The source's retry loops never end while the device keeps
failing. They are modelled against the supplied replies: when the replies run
out before the loop would return, the outcome is `Waiting`. The functions
`SpiRead` and `WriteOutcome` describe the whole loop as a function of the
replies, so the loop methods are proved against them.

Integers are unbounded in Dafny, so the C widths are written out.
`uint8_t`, `uint16_t` and `uint32_t` are subset types. A truncating store is
`% 0x100`. The `uint16_t` stick minimum wraps with `% 0x1_0000`. The shifts
and masks of the decoders are the multiplications, divisions and remainders
they amount to on non-negative operands. The host is taken to be
little-endian, with natural alignment for the request overlay, so
`sizeof(brcm_hdr) + sizeof(brcm_cmd_01)` is 22.

Two behaviours of the gyro ring are modelled as the code has them:

- `reset_continuous_calibration` (JoyShock.cpp lines 193-197) empties the
  windows but leaves `gyro_average_window_front_index` where it was.
- `get_average_gyro` (lines 244-273) starts its walk at the front window.
  A push moves the front backwards round the ring (line 217), so the front
  window holds the newest samples and the walk moves to older ones.

## Model

| member | source | states |
|---|---|---|
| Device.Classify | JoyShockLibrary/JoyShock.cpp:142-176 | `is_ds4` exactly for the three DualShock 4 product ids; `left_right` is 1 exactly for the left Joy-Con or the grip on interface 1, 2 exactly for the right Joy-Con or the grip on interface 0 or -1, 3 exactly for the Pro Controller or a DualShock 4, otherwise 0; `is_usb` exactly for the grip on interfaces -1..1 and the two USB DualShock 4 ids |
| Bytes.Zeros | JoyShockLibrary/JoyShock.cpp:296 | what `memset(buf, 0, n)` leaves: n bytes, every one zero |
| Bytes.ZerosAppend | JoyShockLibrary/JoyShock.cpp:296 | two zeroed runs side by side are one zeroed run |
| Bytes.Le16 | JoyShockLibrary/JoyShock.cpp:469 | `lo \| hi << 8` has `lo` as its low byte and `hi` as its high byte |
| Bytes.Le32 | JoyShockLibrary/JoyShock.cpp:869 | `*(uint32_t*)&buf[0xF]` is the value whose four little-endian bytes are the ones read |
| Bytes.Le32RoundTrip | JoyShockLibrary/JoyShock.cpp:858-869 | reading back the little-endian bytes of a `uint32_t` offset gives the offset |
| Bytes.Le32BytesValue | JoyShockLibrary/JoyShock.cpp:858 | a `uint32_t` is the sum of its four bytes at weights 1, 2^8, 2^16, 2^24 |
| Bytes.ToInt16 | JoyShockLibrary/JoyShock.cpp:504-511 | `uint16_to_int16` gives a value in -2^15..2^15-1 that is negative exactly for patterns from 0x8000 and is congruent to the pattern modulo 2^16 |
| Frames.NextCount | JoyShockLibrary/JoyShock.cpp:853-856 | one step of a rolling counter stays in 0..15 and is the increment modulo 16 |
| Frames.SequenceByte | JoyShockLibrary/JoyShock.cpp:320 | `(++global_count) & 0xF` equals the counter's next value |
| Frames.Advance | JoyShockLibrary/JoyShock.cpp:853-856 | a counter stays in 0..15 after any number of steps |
| Frames.AdvanceIsModular | JoyShockLibrary/JoyShock.cpp:853-856 | after k steps a counter that started at c holds (c + k) mod 16 |
| Frames.CounterPeriod | JoyShockLibrary/JoyShock.cpp:853-856 | a counter is back at its start exactly when the number of steps is a multiple of 16 |
| Frames.CommandFrame | JoyShockLibrary/JoyShock.cpp:309 | the frame `send_command` writes is `len` plus 1 bytes on Bluetooth and `len` plus 9 over USB |
| Frames.CommandFrameLayout | JoyShockLibrary/JoyShock.cpp:298-309 | on Bluetooth the frame is the command then the payload; over USB it is 0x80 0x92 0x00 0x31, four zeros, the command, then the payload |
| Frames.SubcommandFrameLayout | JoyShockLibrary/JoyShock.cpp:316-339 | a subcommand frame is exactly [command, seq, 00 01 40 40 00 01 40 40, subcommand] + data on Bluetooth (len + 11 bytes), and the USB header followed by the same bytes over USB (len + 19 bytes) |
| Frames.RumblePayload | JoyShockLibrary/JoyShock.cpp:346-376 | the nine bytes `rumble` sends after command 0x10 |
| Frames.RumbleLeftExample | JoyShockLibrary/JoyShock.cpp:362-376 | a left Joy-Con at frequency 100 and intensity 3 sends 0x10, 0, 100, 0, 0, 1, 0, 0, 0, 1 |
| Frames.RumbleHighIntensity | JoyShockLibrary/JoyShock.cpp:362-363 | from intensity 4 on, the second amplitude bit falls outside the nine bytes sent, which carry only the frequency and the first bit |
| Frames.Ds4Report | JoyShockLibrary/JoyShock.cpp:781-802 | the DualShock 4 output report is 31 bytes long |
| Frames.Ds4ReportExample | JoyShockLibrary/JoyShock.cpp:785-797 | id 0x05 and 0xFF lead the report, the motors sit at 4 and 5, the colour from 6 and the flash at 9 |
| Frames.SpiHeader | JoyShockLibrary/JoyShock.cpp:71-80 | the `brcm_hdr` / `brcm_cmd_01` overlay takes 22 bytes |
| Frames.SpiReadRequest | JoyShockLibrary/JoyShock.cpp:845-865 | the read request written is 22 bytes long |
| Frames.SpiReadBuffer | JoyShockLibrary/JoyShock.cpp:845-863 | the 0x100-byte read buffer starts with the read request |
| Frames.SpiWriteBuffer | JoyShockLibrary/JoyShock.cpp:887-901 | the write buffer is 0x100 bytes long |
| Frames.SpiWriteBufferLayout | JoyShockLibrary/JoyShock.cpp:896-901 | the write buffer keeps the overlay below 0x10, holds the data from 0x10, and keeps what the data did not cover of the overlay and the zero padding |
| Frames.SpiWriteRequest | JoyShockLibrary/JoyShock.cpp:902 | the write request is 22 + `write_len` bytes long |
| Frames.ReadAcknowledgedBytes | JoyShockLibrary/JoyShock.cpp:869 | a read reply is accepted exactly when bytes 0xD, 0xE are 0x90, 0x10 and bytes 0xF..0x12 are the offset in little-endian order |
| Frames.WriteAcknowledgedBytes | JoyShockLibrary/JoyShock.cpp:906 | a write reply is accepted exactly when bytes 0xD, 0xE are 0x80, 0x11 |
| Hid.AfterRead | JoyShockLibrary/JoyShock.cpp:867 | a read keeps the buffer's size and returns -1 or at most the requested count |
| Hid.AfterReadCases | JoyShockLibrary/JoyShock.cpp:867 | a read returns -1 exactly when it fails, and then the buffer is unchanged; a report returns min(its length, the limit) and puts that many of its bytes at the start of the buffer, leaving the rest |
| Hid.HidDevice.constructor | JoyShockLibrary/JoyShock.cpp:182 | a freshly opened handle has written nothing and blocks |
| Hid.HidDevice.Write | JoyShockLibrary/JoyShock.cpp:865 | a write appends exactly its frame to the log |
| Hid.HidDevice.Read | JoyShockLibrary/JoyShock.cpp:867 | a read consumes one reply and leaves buffer and result as `AfterRead` says |
| Hid.HidDevice.SetNonblocking | JoyShockLibrary/JoyShock.cpp:388 | the handle's mode becomes the one asked for |
| SpiFlash.FirstIndex | JoyShockLibrary/JoyShock.cpp:844-872 | the first accepted attempt, if any: accepted, with none accepted before it; none only when no attempt is accepted |
| SpiFlash.AdvanceNext | JoyShockLibrary/JoyShock.cpp:853-856 | each further attempt moves the timing byte one more step |
| SpiFlash.ReadAttempt | JoyShockLibrary/JoyShock.cpp:845-867 | one read attempt leaves a 0x100-byte buffer and a result from -1 to 0x100 |
| SpiFlash.ReadAcks | JoyShockLibrary/JoyShock.cpp:844-872 | there is one accepted-or-not verdict per reply |
| SpiFlash.ReadAcksAt | JoyShockLibrary/JoyShock.cpp:849-869 | attempt k carries the timing byte advanced k times and is judged on reply k |
| SpiFlash.ReadRequests | JoyShockLibrary/JoyShock.cpp:844-865 | n attempts write n requests |
| SpiFlash.ReadRequestsAt | JoyShockLibrary/JoyShock.cpp:849-865 | request k carries the timing byte advanced k times |
| SpiFlash.ReadRequestsNext | JoyShockLibrary/JoyShock.cpp:849-865 | one more attempt appends exactly one request, with the next timing byte |
| SpiFlash.Delivered | JoyShockLibrary/JoyShock.cpp:873-877 | the copy into the caller's buffer never changes its size |
| SpiFlash.SpiRead | JoyShockLibrary/JoyShock.cpp:841-880 | the read makes at most one attempt per reply; when it returns it returns 0 after at least one attempt; while waiting it has consumed every reply and the destination is untouched |
| SpiFlash.SpiReadAcknowledgedAt | JoyShockLibrary/JoyShock.cpp:869-879 | the first accepted attempt k ends the read with 0 after k + 1 attempts and delivers from that attempt's buffer |
| SpiFlash.SpiReadExhausted | JoyShockLibrary/JoyShock.cpp:844-872 | with no accepted reply the read is still waiting after every reply, the destination untouched |
| SpiFlash.ReadRequestIsShiftedHeader | JoyShockLibrary/JoyShock.cpp:861-863 | the packed read buffer is the overlay with bytes 14..24 moved down to 11..21 |
| SpiFlash.FailedReadNotAcknowledged | JoyShockLibrary/JoyShock.cpp:867-871 | a failed read leaves the request in the buffer, and that is never accepted |
| SpiFlash.ReportAcknowledged | JoyShockLibrary/JoyShock.cpp:869-871 | a report ends the read exactly when its bytes 0xD..0x12 are 0x90, 0x10 and the offset |
| SpiFlash.FailingDeviceKeepsReading | JoyShockLibrary/JoyShock.cpp:844-872 | a device that only fails keeps the read waiting, one request per reply |
| SpiFlash.DeliveredFromReply | JoyShockLibrary/JoyShock.cpp:873-877 | a report of at least 0x14 + `read_len` bytes delivers its bytes 0x14.. into the destination and changes nothing else; a shorter one delivers nothing |
| SpiFlash.WriteAttempt | JoyShockLibrary/JoyShock.cpp:887-904 | one write attempt leaves a 0x100-byte buffer |
| SpiFlash.WriteAcks | JoyShockLibrary/JoyShock.cpp:886-913 | there is one accepted-or-not verdict per reply |
| SpiFlash.WriteAcksAt | JoyShockLibrary/JoyShock.cpp:891-906 | attempt k carries the timing byte advanced k times and is judged on reply k |
| SpiFlash.WriteRequests | JoyShockLibrary/JoyShock.cpp:886-902 | n attempts write n requests |
| SpiFlash.WriteRequestsAt | JoyShockLibrary/JoyShock.cpp:891-902 | request k carries the timing byte advanced k times |
| SpiFlash.WriteRequestsNext | JoyShockLibrary/JoyShock.cpp:891-902 | one more attempt appends exactly one request, with the next timing byte |
| SpiFlash.WriteOutcome | JoyShockLibrary/JoyShock.cpp:882-917 | the write never makes more than 125 attempts nor more than there are replies; giving up takes exactly 125; waiting has consumed every reply |
| SpiFlash.WriteOutcomeCases | JoyShockLibrary/JoyShock.cpp:906-915 | the write returns 0 exactly when one of the first 125 replies is accepted, and returns 1 exactly when at least 125 replies come and none of the first 125 is accepted |
| SpiFlash.WriteOutcomeAt | JoyShockLibrary/JoyShock.cpp:906-907 | the first accepted attempt k before the limit ends the write with 0 after k + 1 attempts |
| SpiFlash.WriteOutcomeGivesUp | JoyShockLibrary/JoyShock.cpp:909-912 | 125 unaccepted attempts end the write with 1 after exactly 125 attempts |
| SpiFlash.WriteOutcomeExhausted | JoyShockLibrary/JoyShock.cpp:886-913 | fewer than 125 replies, none accepted, leave the write waiting |
| SpiFlash.FailedWriteNotAcknowledged | JoyShockLibrary/JoyShock.cpp:904-907 | a failed read leaves the write request in the buffer, and that never acknowledges the write |
| SpiFlash.FailingDeviceStopsWrite | JoyShockLibrary/JoyShock.cpp:909-912 | a device that fails 125 times in a row makes the write return 1 after 125 attempts |
| Calibration.Low12 | JoyShockLibrary/JoyShock.cpp:448 | `(hi << 8) & 0xF00 \| lo` is a 12-bit value with `lo` as its low byte and the low nibble of `hi` above it |
| Calibration.High12 | JoyShockLibrary/JoyShock.cpp:449 | `(hi << 4) \| (lo >> 4)` is a 12-bit value with the high nibble of `lo` as its low nibble and `hi` above it |
| Calibration.UnpackPack12 | JoyShockLibrary/JoyShock.cpp:448-449 | unpacking a packed three-byte group gives both 12-bit values back |
| Calibration.PackUnpack12 | JoyShockLibrary/JoyShock.cpp:448-449 | every three-byte group is the packing of the two values it decodes to |
| Calibration.Axis | JoyShockLibrary/JoyShock.cpp:450-452 | the stored axis has the given centre, a maximum that is the centre plus the upper distance with no overflow, and a minimum that is the centre minus the lower distance modulo 2^16 |
| Calibration.AxisMinWraps | JoyShockLibrary/JoyShock.cpp:450 | the minimum is at or below the centre exactly when the lower distance does not exceed the centre, and is then their difference |
| Calibration.UserStickMarkerBytes | JoyShockLibrary/JoyShock.cpp:469-484 | a user stick block is present exactly when its marker bytes are 0xB2, 0xA1 (bytes 0, 1 for the left stick, 0xB, 0xC for the right) |
| Calibration.AxisWellFormed | JoyShockLibrary/JoyShock.cpp:450-452 | every decoded axis has a 12-bit centre, a maximum at most 0xFFF above it and a minimum at most 0xFFF below it modulo 2^16 |
| Calibration.StickLayoutsWellFormed | JoyShockLibrary/JoyShock.cpp:448-463 | both stick layouts decode to well-formed sticks at any offset |
| Calibration.FactoryLeftStickWellFormed | JoyShockLibrary/JoyShock.cpp:447-453 | the factory left stick, quirk included, is well formed |
| Calibration.DecodedSticksWellFormed | JoyShockLibrary/JoyShock.cpp:447-497 | stick decoding keeps both sticks well formed whichever blocks it takes them from |
| Calibration.DecodeSticksSources | JoyShockLibrary/JoyShock.cpp:447-497 | each stick is the user block's when its marker is present; otherwise the factory block's when the device has that stick (left for 1 and 3, right for 2 and 3); otherwise unchanged |
| Calibration.LeftStickRoundTrip | JoyShockLibrary/JoyShock.cpp:448-453 | packing a stick's extents into the left layout (upper distances, centre, lower distances) and decoding gives the stick back |
| Calibration.RightStickRoundTrip | JoyShockLibrary/JoyShock.cpp:458-463 | packing a stick's extents into the right layout (centre, lower distances, upper distances) and decoding gives the stick back |
| Calibration.FactoryLeftStickQuirk | JoyShockLibrary/JoyShock.cpp:453 | building the upper Y distance from byte 2 twice changes only that extent, and changes nothing exactly when bytes 1 and 2 share their high nibble |
| Calibration.Int16At | JoyShockLibrary/JoyShock.cpp:504 | a sensor origin is a signed 16-bit value congruent modulo 2^16 to the little-endian pair it is read from |
| Calibration.Int16Bytes | JoyShockLibrary/JoyShock.cpp:504 | a signed 16-bit value is stored in two bytes |
| Calibration.Int16RoundTrip | JoyShockLibrary/JoyShock.cpp:504-511 | reading back the two's-complement bytes of a signed 16-bit value gives the value |
| Calibration.DecodeSensorSources | JoyShockLibrary/JoyShock.cpp:504-542 | every origin is a signed 16-bit value; the user block from offset 2 is used exactly when its bytes 0, 1 are 0xB2, 0xA1, the factory block from offset 0 otherwise |
| Calibration.Rgb24 | JoyShockLibrary/JoyShock.cpp:558-561 | a packed colour is below 2^24 with red in bits 16..23, green in 8..15 and blue in 0..7 |
| Calibration.Rgb24Bytes | JoyShockLibrary/JoyShock.cpp:558-561 | a packed colour splits into three bytes |
| Calibration.Rgb24RoundTrip | JoyShockLibrary/JoyShock.cpp:558-561 | every 24-bit colour is the packing of its three bytes |
| Calibration.DecodeColours | JoyShockLibrary/JoyShock.cpp:558-573 | body, buttons, left grip and right grip are 24-bit colours whose bytes are the colour block's bytes 0..2, 3..5, 6..8 and 9..11 |
| GyroAverage.TotalSamples | JoyShockLibrary/JoyShock.cpp:199-206 | the ring covers 250 samples per second on a DualShock 4 and 67 on the others |
| GyroAverage.SingleSamples | JoyShockLibrary/JoyShock.cpp:208-210 | a window holds the total divided by 14, rounded down, and at least one sample for a window of at least a second |
| GyroAverage.Push | JoyShockLibrary/JoyShock.cpp:212-226 | a full front window moves the front one step back round the ring and starts a new window with the sample; otherwise the sample is added to the front window; every other window is unchanged |
| GyroAverage.PushKeepsRing | JoyShockLibrary/JoyShock.cpp:212-226 | a push keeps the front in 0..15 and every window between 0 and its capacity |
| GyroAverage.PushCountsOneSample | JoyShockLibrary/JoyShock.cpp:212-226 | a push adds one to the front window's count, or leaves the old front alone and starts the new one at one |
| GyroAverage.WalkNext | JoyShockLibrary/JoyShock.cpp:244-273 | each loop iteration is one more step of the walk over the next window round the ring |
| GyroAverage.WalkSpent | JoyShockLibrary/JoyShock.cpp:244 | once the budget is spent, further steps change nothing, so stopping the loop early is the same as finishing it |
| GyroAverage.WalkBudget | JoyShockLibrary/JoyShock.cpp:253-262 | the budget of wanted samples never goes negative nor grows; the weight is positive exactly when a non-empty window has been visited |
| GyroAverage.EmptyRingKeepsOutput | JoyShockLibrary/JoyShock.cpp:274-278 | with every window empty the outputs keep their previous values |
| GyroAverage.NonEmptyRingHasWeight | JoyShockLibrary/JoyShock.cpp:244-274 | a sample anywhere in the ring gives the average positive weight, so the outputs are replaced |
| GyroAverage.VisitedAt | JoyShockLibrary/JoyShock.cpp:245 | every window is visited at some step of the walk |
| GyroAverage.WalkUniform | JoyShockLibrary/JoyShock.cpp:244-273 | when every window's mean is v, the walk's sums stay v times its weight |
| GyroAverage.StepUniform | JoyShockLibrary/JoyShock.cpp:251-272 | one step over a window of mean v keeps the sums v times the weight |
| GyroAverage.GatherUniform | JoyShockLibrary/JoyShock.cpp:269-272 | adding a window of mean v at any weight keeps the sums v times the weight |
| GyroAverage.UniformAverage | JoyShockLibrary/JoyShock.cpp:228-281 | when every sample seen equals v, the average is v, or the previous output if no weight was gathered |
| GyroAverage.ProportionalMean | JoyShockLibrary/JoyShock.cpp:274-278 | sums that are v times a positive weight divide back to v |
| GyroAverage.PushKeepsUniform | JoyShockLibrary/JoyShock.cpp:222-225 | pushing the sample v into a ring whose samples all equal v keeps it so |
| GyroAverage.Cleared | JoyShockLibrary/JoyShock.cpp:193-197 | a reset ring is sixteen empty windows |
| GyroAverage.PushMany | JoyShockLibrary/JoyShock.cpp:212-226 | repeated pushes keep sixteen windows and a front in 0..15 |
| GyroAverage.SteadyReadingAverage | JoyShockLibrary/JoyShock.cpp:193-281 | after a reset and at least one push of a steady reading v, the average is exactly v |
| GyroAverage.SteadyPushes | JoyShockLibrary/JoyShock.cpp:212-226 | repeated pushes of v keep the ring well formed and uniform and leave the front window non-empty |
| StickMapper.Clamp | JoyShockLibrary/JoyShock.cpp:821-822 | a clamped value lies within the extents, is unchanged inside them, is raised to the lower one below it and lowered to the upper one above it |
| StickMapper.CalcAnalogStick2 | JoyShockLibrary/JoyShock.cpp:807-838 | for axes with min < centre < max both outputs are finite and in [-1, 1] |
| StickMapper.NormalizeInRange | JoyShockLibrary/JoyShock.cpp:821-834 | with min < centre < max every reading maps to a value in [-1, 1] that is non-negative exactly when the reading is at or above the centre |
| StickMapper.NormalizeAnchors | JoyShockLibrary/JoyShock.cpp:823-834 | the centre maps to 0, the maximum to 1 and the minimum to -1 |
| StickMapper.NormalizeSaturates | JoyShockLibrary/JoyShock.cpp:821-822 | readings beyond an extent give the same value as the extent: 1 above the maximum, -1 below the minimum |
| StickMapper.NormalizeSides | JoyShockLibrary/JoyShock.cpp:823-834 | at or above the centre the value is the distance from the centre over the upper span; below it, minus the distance over the lower span |
| StickMapper.NormalizeMonotone | JoyShockLibrary/JoyShock.cpp:821-834 | normalisation never reverses the order of two readings |
| StickMapper.NormalizeDegenerate | JoyShockLibrary/JoyShock.cpp:824 | an axis whose maximum equals its centre has no finite value at or above the centre |
| JoyShockDevice.Clear | JoyShockLibrary/JoyShock.cpp:417-430 | `memset(a, 0, n)` zeroes the first n bytes and leaves the rest |
| JoyShockDevice.Copy | JoyShockLibrary/JoyShock.cpp:306 | `memcpy` replaces exactly the bytes it covers |
| JoyShockDevice.Ds4Buffer | JoyShockLibrary/JoyShock.cpp:781-797 | the first 31 bytes of the filled 40-byte buffer are the DualShock 4 output report with the given motors, colour and flash |
| JoyShockDevice.FillPayload | JoyShockLibrary/JoyShock.cpp:305-307 | the payload is the first `len` bytes of `data`, or zeros for a null `data` or zero `len`, placed after the unchanged header in a buffer otherwise zero |
| JoyShockDevice.FillCommand | JoyShockLibrary/JoyShock.cpp:295-307 | the buffer `send_command` builds is the transport's header with the command's low byte, the payload, and zeros |
| JoyShockDevice.FillSubcommand | JoyShockLibrary/JoyShock.cpp:317-337 | the buffer `send_subcommand` builds is the neutral-rumble header led by the sequence byte, the subcommand's low byte, the data, and zeros |
| JoyShockDevice.FillSpiHeader | JoyShockLibrary/JoyShock.cpp:845-859 | the zeroed SPI buffer holds the overlay with command 1, the timing byte, the subcommand, the offset and the size |
| JoyShockDevice.ShiftRequest | JoyShockLibrary/JoyShock.cpp:861-863 | the in-place loop moves bytes 14..24 down to 11..21 and changes nothing else |
| JoyShockDevice.FillReadRequest | JoyShockLibrary/JoyShock.cpp:845-863 | the read buffer is the packed read request followed by zeros |
| JoyShockDevice.FillWriteRequest | JoyShockLibrary/JoyShock.cpp:887-901 | the write buffer is the overlay for 0x11 with the data copied in from 0x10 |
| JoyShockDevice.Deliver | JoyShockLibrary/JoyShock.cpp:873-877 | the destination receives reply bytes 0x14.. exactly as `Delivered` says, only for a long enough reply |
| JoyShockDevice.CopyBack | JoyShockLibrary/JoyShock.cpp:311-313 | `memcpy(data, buf, 0x40)` puts the answered buffer over the caller's first 0x40 bytes |
| JoyShockDevice.Exchange | JoyShockLibrary/JoyShock.cpp:283-291 | on a null handle nothing happens; otherwise the first `len` bytes are written and one reply is read over the buffer |
| JoyShockDevice.ReportSettings | JoyShockLibrary/JoyShock.cpp:390-411 | `init_bt` sends three setting frames |
| JoyShockDevice.JoyShock.constructor | JoyShockLibrary/JoyShock.cpp:140-191 | a new session is classified from the product id and interface, on Bluetooth, with both counters at 0, zero calibration, white colours and an empty gyro ring fronted at window 0 |
| JoyShockDevice.JoyShock.ResetContinuousCalibration | JoyShockLibrary/JoyShock.cpp:193-197 | every window is emptied; the front index is left as it was and the ring stays well formed |
| JoyShockDevice.JoyShock.PushSensorSamples | JoyShockLibrary/JoyShock.cpp:212-226 | the ring and front index become those of `Push`, and the session stays valid |
| JoyShockDevice.JoyShock.GetAverageGyro | JoyShockLibrary/JoyShock.cpp:228-281 | the loop's outputs are `Average` of the ring: the weighted mean, or the inputs when no weight was gathered |
| JoyShockDevice.JoyShock.SendCommand | JoyShockLibrary/JoyShock.cpp:294-314 | exactly one frame is written, the command frame for the current transport, and `data` receives the buffer with the reply read over it |
| JoyShockDevice.JoyShock.SendSubcommand | JoyShockLibrary/JoyShock.cpp:316-344 | the counter takes its next value modulo 16; exactly one frame is written, the subcommand frame led by that value; `data` receives the reply copied back |
| JoyShockDevice.JoyShock.Rumble | JoyShockLibrary/JoyShock.cpp:346-377 | the handle becomes non-blocking and exactly one frame is written, command 0x10 with the rumble payload |
| JoyShockDevice.JoyShock.SetDs4RumbleLight | JoyShockLibrary/JoyShock.cpp:777-803 | exactly one report is written, with the given motors and colour and flashing on, and nothing is read |
| JoyShockDevice.JoyShock.DeinitDs4Usb | JoyShockLibrary/JoyShock.cpp:738-764 | the handle becomes non-blocking and one all-off report is written |
| JoyShockDevice.JoyShock.InitDs4Usb | JoyShockLibrary/JoyShock.cpp:590-664 | the session leaves Bluetooth, the handle blocks, one report is written, the blocks are cleared (only half of the stick model), every stick axis gets 0, 127, 255 and the sensor origins are zero |
| JoyShockDevice.JoyShock.ClearBlocks | JoyShockLibrary/JoyShock.cpp:417-430 | the raw blocks are zeroed (only the first 0x12 bytes of the stick model), and the stick ranges and sensor origins are zero |
| JoyShockDevice.JoyShock.SpiReadOnce | JoyShockLibrary/JoyShock.cpp:845-867 | one attempt writes the read request with the current timing byte, steps the counter, and reads one reply over the buffer |
| JoyShockDevice.JoyShock.SpiReadStep | JoyShockLibrary/JoyShock.cpp:844-872 | attempt k writes request k and consumes reply k; an accepted reply ends the read as `SpiRead` says; otherwise none of the first k + 1 attempts was accepted |
| JoyShockDevice.JoyShock.GetSpiData | JoyShockLibrary/JoyShock.cpp:841-880 | the loop agrees with `SpiRead`: outcome, destination, the requests written, the replies consumed and the timing byte advanced once per attempt |
| JoyShockDevice.JoyShock.SpiWriteOnce | JoyShockLibrary/JoyShock.cpp:886-904 | one attempt writes the write request with the current timing byte, steps the counter and reads one reply |
| JoyShockDevice.JoyShock.SpiWriteStep | JoyShockLibrary/JoyShock.cpp:886-912 | attempt k writes request k and is accepted exactly as verdict k says; acceptance ends the write with 0; the 125th miss ends it with 1 |
| JoyShockDevice.JoyShock.WriteSpiData | JoyShockLibrary/JoyShock.cpp:882-917 | the loop agrees with `WriteOutcome`: the result, the requests written, the replies consumed and the timing byte advanced once per attempt |
| JoyShockDevice.JoyShock.ReadBlock | JoyShockLibrary/JoyShock.cpp:433-440 | one calibration read returns 0 or is waiting, keeps the session valid and only adds to the log |
| JoyShockDevice.JoyShock.SendSetting | JoyShockLibrary/JoyShock.cpp:392-393 | one setting writes its subcommand frame on command 1 with the one data byte, consumes one reply and steps the counter |
| JoyShockDevice.JoyShock.EnableReports | JoyShockLibrary/JoyShock.cpp:390-411 | exactly the three setting frames are written: 0x48 with 1, 0x40 with 1, 0x03 with 0x30, with consecutive sequence bytes; three replies are consumed and the counter advances three steps |
| JoyShockDevice.JoyShock.ReadCalibration | JoyShockLibrary/JoyShock.cpp:433-440 | the eight reads return 0, or stop waiting; the session stays valid and the log only grows |
| JoyShockDevice.JoyShock.DecodeCalibration | JoyShockLibrary/JoyShock.cpp:447-573 | the sticks (from zero), the sensor origins and the colours are what the decoders give for the blocks as read |
| JoyShockDevice.JoyShock.LoadCalibration | JoyShockLibrary/JoyShock.cpp:417-573 | the blocks are cleared and read; on success everything is decoded from them; while waiting, the sticks and sensor origins are zero and the colours unchanged |
| JoyShockDevice.JoyShock.InitBt | JoyShockLibrary/JoyShock.cpp:379-587 | the session switches to Bluetooth and the handle blocks; the three setting frames go out first and the counter advances three steps; on return 0 the sticks, sensor origins and colours are decoded from the blocks read |

## Left out

- `init_usb` and `deinit_usb` are fixed handshake exchanges with no logic to prove.
- The polling thread, `cancel_thread`, `last_polled`, `delta_time`, the battery and the player number are concurrency and timing state the core does not compute.
- The serial number copy, the device name and the bare `throw` on a failed open are left out. The constructor is given an opened handle.
- The float coefficients `acc_cal_coeff` and `gyro_cal_coeff` are not modelled. They divide by 16384 or 13371 minus an origin.
- The `*_calm` arrays and `has_user_cal_*` flags are not modelled.
- JoyShockDevice.JoyShock.constructor: the decoded sticks and sensor origins start at zero, while the raw blocks start with unspecified contents. The C++ members are all uninitialised until the `memset`s of `init_bt` (lines 417-430) or `init_ds4_usb` (lines 629-642).
- Floats are reals, so IEEE rounding is not modelled. A zero denominator in `CalcAnalogStick2` is `None`.
- `clamp` and `uint16_to_int16` live in tools.cpp, which is not part of this model. They are assumed to be min/max clamping and two's-complement reinterpretation.
- `gyro_average_window_seconds` is the constant 600. Nothing in the class changes it.
- Hid.HidDevice.Read: the real transport blocks or returns 0 when no report is pending. Here a read with no reply left returns no bytes.
- JoyShockDevice.JoyShock.GetSpiData: the source retries forever. The model stops with `Waiting` when the supplied replies run out.
- JoyShockDevice.JoyShock.WriteSpiData: stops with `Waiting` when fewer than 125 replies are supplied and none acknowledges. It requires exactly `write_len` data bytes that fit the 0x100-byte buffer, where the source would read or write past them.
- JoyShockDevice.JoyShock.GetSpiData: requires the destination to hold `start + read_len` bytes, which the source leaves to its callers.
- JoyShockDevice.JoyShock.Rumble: requires both amplitude indices to lie inside the 0x400-byte buffer, where the source writes out of bounds.
- JoyShockDevice.JoyShock.ReadBlock: keeps only the outcome, validity and growth of the log from `GetSpiData`'s contract. `ReadCalibration`, `LoadCalibration` and `InitBt` therefore state the reads' effect on the log as a growing prefix, not request by request.
- JoyShockDevice.JoyShock.InitBt: stops at the first read still waiting for its reply. It states what is decoded from the blocks, not the bytes each read delivered into them.
- JoyShockDevice.ReportSettings: its own contract states only that there are three frames. Their contents are its definition, which `EnableReports` states.
- The request overlay assumes a little-endian host with natural alignment. The offset sits at 14, the size at 18, and the overlay is 22 bytes.
