/**
 * The SPI flash retry loops (`get_spi_data`, `write_spi_data`) as functions
 * of the replies the device gives: which attempts are made, what each one
 * sends, which reply ends the loop, and what lands in the destination.
 * Attempt `k` carries the timing byte advanced `k` times; the loops in the
 * source never give up on a read and give up on a write after 125 misses,
 * and where the supplied replies run out first the outcome is `Waiting`.
 */
module SpiFlash {
  import opened Bytes
  import opened Frames
  import opened Hid

  /**
   * How an SPI retry loop ended: it returned `code`, or it was still
   * retrying when the supplied replies ran out (the source loops on).
   */
  datatype SpiOutcome = Returned(code: int) | Waiting

  /** The index of the first `true`, if any. */
  function FirstIndex(acks: seq<bool>): (r: Option<nat>)
    ensures r.Some? ==> r.value < |acks| && acks[r.value] && forall j :: 0 <= j < r.value ==> !acks[j]
    ensures r.None? ==> forall j :: 0 <= j < |acks| ==> !acks[j]
  {
    if acks == [] then None
    else if acks[0] then Some(0)
    else
      match FirstIndex(acks[1..])
      case None => None
      case Some(k) => Some(k + 1)
  }

  /** One step of the timing byte, as `timing_byte++; if (timing_byte > 0xF) timing_byte = 0;`. */
  lemma {:induction false} AdvanceNext(c: int, k: nat)
    requires 0 <= c < 16
    ensures Advance(c, k + 1) == NextCount(Advance(c, k))
    decreases k
  {
    if k > 0 {
      AdvanceNext(NextCount(c), k - 1);
    }
  }

  // ---------------------------------------------------------------------------
  // get_spi_data

  /** The buffer and the result of one read attempt: the request buffer with the reply read over it. */
  function ReadAttempt(timing: byte, offset: uint32, size: byte, reply: Reply): (r: (seq<byte>, int))
    ensures |r.0| == 0x100 && -1 <= r.1 <= 0x100
  {
    AfterRead(SpiReadBuffer(timing, offset, size), reply, 0x100)
  }

  /**
   * For each supplied reply, whether the read attempt that consumes it is
   * acknowledged; the first attempt carries timing byte `t0`, each later one
   * the next.
   */
  function ReadAcks(t0: int, offset: uint32, size: byte, replies: seq<Reply>): (acks: seq<bool>)
    requires 0 <= t0 < 16
    ensures |acks| == |replies|
    decreases |replies|
  {
    if replies == [] then []
    else [ReadAcknowledged(ReadAttempt(t0, offset, size, replies[0]).0, offset)]
         + ReadAcks(NextCount(t0), offset, size, replies[1..])
  }

  /** Attempt `k` carries the timing byte advanced `k` times and reads reply `k`. */
  lemma {:induction false} ReadAcksAt(t0: int, offset: uint32, size: byte, replies: seq<Reply>, k: nat)
    requires 0 <= t0 < 16 && k < |replies|
    ensures ReadAcks(t0, offset, size, replies)[k]
      == ReadAcknowledged(ReadAttempt(Advance(t0, k), offset, size, replies[k]).0, offset)
    decreases k
  {
    if k > 0 {
      ReadAcksAt(NextCount(t0), offset, size, replies[1..], k - 1);
    }
  }

  /** The first `n` read requests, the first with timing byte `t0` and each later one with the next. */
  function ReadRequests(t0: int, offset: uint32, size: byte, n: nat): (rs: seq<seq<byte>>)
    requires 0 <= t0 < 16
    ensures |rs| == n
    decreases n
  {
    if n == 0 then [] else [SpiReadRequest(t0, offset, size)] + ReadRequests(NextCount(t0), offset, size, n - 1)
  }

  /** Request `k` carries the timing byte advanced `k` times. */
  lemma {:induction false} ReadRequestsAt(t0: int, offset: uint32, size: byte, n: nat, k: nat)
    requires 0 <= t0 < 16 && k < n
    ensures ReadRequests(t0, offset, size, n)[k] == SpiReadRequest(Advance(t0, k), offset, size)
    decreases k
  {
    if k > 0 {
      ReadRequestsAt(NextCount(t0), offset, size, n - 1, k - 1);
    }
  }

  /** One more attempt appends one request, with the timing byte advanced once more. */
  lemma {:induction false} ReadRequestsNext(t0: int, offset: uint32, size: byte, n: nat)
    requires 0 <= t0 < 16
    ensures ReadRequests(t0, offset, size, n + 1)
      == ReadRequests(t0, offset, size, n) + [SpiReadRequest(Advance(t0, n), offset, size)]
    decreases n
  {
    if n > 0 {
      ReadRequestsNext(NextCount(t0), offset, size, n - 1);
    }
  }

  /**
   * The destination after the acknowledged reply: `read_len` bytes from
   * offset 0x14 of the buffer when the read returned at least
   * `0x14 + read_len` bytes, otherwise untouched.
   */
  function Delivered(dest: seq<byte>, start: nat, readLen: nat, buf: seq<byte>, res: int): (d: seq<byte>)
    requires start + readLen <= |dest| && |buf| == 0x100 && res <= 0x100
    ensures |d| == |dest|
  {
    if res >= 0x14 + readLen then dest[..start] + buf[0x14..0x14 + readLen] + dest[start + readLen..]
    else dest
  }

  datatype ReadResult = ReadResult(outcome: SpiOutcome, attempts: nat, dest: seq<byte>)

  /**
   * `get_spi_data(offset, read_len, dest + start)` against the supplied
   * replies: the first acknowledged attempt ends the loop with 0 and
   * delivers its bytes; without one every reply is consumed.
   */
  function SpiRead(t0: int, offset: uint32, readLen: uint16, replies: seq<Reply>, dest: seq<byte>, start: nat): (r: ReadResult)
    requires 0 <= t0 < 16 && start + readLen <= |dest|
    ensures 0 <= r.attempts <= |replies| && |r.dest| == |dest|
    ensures r.outcome.Returned? ==> r.outcome.code == 0 && r.attempts >= 1
    ensures r.outcome == Waiting ==> r.attempts == |replies| && r.dest == dest
  {
    var size := readLen % 0x100;
    match FirstIndex(ReadAcks(t0, offset, size, replies))
    case None => ReadResult(Waiting, |replies|, dest)
    case Some(k) =>
      var attempt := ReadAttempt(Advance(t0, k), offset, size, replies[k]);
      ReadResult(Returned(0), k + 1, Delivered(dest, start, readLen, attempt.0, attempt.1))
  }

  /** The read as it ends at attempt `k`, the first acknowledged one. */
  lemma SpiReadAcknowledgedAt(t0: int, offset: uint32, readLen: uint16, replies: seq<Reply>, dest: seq<byte>, start: nat, k: nat)
    requires 0 <= t0 < 16 && start + readLen <= |dest| && k < |replies|
    requires ReadAcks(t0, offset, readLen % 0x100, replies)[k]
    requires forall j :: 0 <= j < k ==> !ReadAcks(t0, offset, readLen % 0x100, replies)[j]
    ensures var attempt := ReadAttempt(Advance(t0, k), offset, readLen % 0x100, replies[k]);
      SpiRead(t0, offset, readLen, replies, dest, start)
        == ReadResult(Returned(0), k + 1, Delivered(dest, start, readLen, attempt.0, attempt.1))
  {
    FirstIndexIs(ReadAcks(t0, offset, readLen % 0x100, replies), k);
  }

  lemma FirstIndexIs(acks: seq<bool>, k: nat)
    requires k < |acks| && acks[k] && forall j :: 0 <= j < k ==> !acks[j]
    ensures FirstIndex(acks) == Some(k)
  {
  }

  /** The read with no acknowledged attempt among the replies. */
  lemma SpiReadExhausted(t0: int, offset: uint32, readLen: uint16, replies: seq<Reply>, dest: seq<byte>, start: nat)
    requires 0 <= t0 < 16 && start + readLen <= |dest|
    requires forall j :: 0 <= j < |replies| ==> !ReadAcks(t0, offset, readLen % 0x100, replies)[j]
    ensures SpiRead(t0, offset, readLen, replies, dest, start) == ReadResult(Waiting, |replies|, dest)
  {
  }

  /**
   * The read request is the `brcm_hdr` / `brcm_cmd_01` overlay with bytes
   * 14..24 moved down to 11..21: the in-place shift packs the offset right
   * after the subcommand and the size right after the offset.
   */
  lemma ReadRequestIsShiftedHeader(timing: byte, offset: uint32, size: byte)
    ensures var s := SpiHeader(timing, 0x10, offset, size) + Zeros(0x100 - SpiHeaderSize);
      SpiReadBuffer(timing, offset, size) == s[..11] + s[14..25] + s[22..]
  {
    var s := SpiHeader(timing, 0x10, offset, size) + Zeros(0x100 - SpiHeaderSize);
    var b := SpiReadBuffer(timing, offset, size);
    var t := s[..11] + s[14..25] + s[22..];
    assert |t| == 0x100;
    forall i | 0 <= i < 0x100
      ensures b[i] == t[i]
    {
      if i < 11 {
      } else if i < 22 {
        assert t[i] == s[i + 3];
      } else {
        assert t[i] == s[i];
      }
    }
  }

  /**
   * A failed read leaves the request in the buffer, and a request is never
   * its own acknowledgement: only a report from the device can end the loop.
   */
  lemma FailedReadNotAcknowledged(timing: byte, offset: uint32, size: byte)
    ensures !ReadAcknowledged(ReadAttempt(timing, offset, size, Failed).0, offset)
  {
    var b := SpiReadBuffer(timing, offset, size);
    ReadAcknowledgedBytes(b, offset);
  }

  /** A report is acknowledged exactly when bytes 0xD..0x12 of it read 0x90, 0x10 and the requested offset. */
  lemma ReportAcknowledged(timing: byte, offset: uint32, size: byte, data: seq<byte>)
    requires |data| >= 0x13
    ensures ReadAcknowledged(ReadAttempt(timing, offset, size, Report(data)).0, offset) <==>
      data[0xD] == 0x90 && data[0xE] == 0x10 && data[0xF..0x13] == Le32Bytes(offset)
  {
    var b := ReadAttempt(timing, offset, size, Report(data)).0;
    assert b[..0x13] == data[..0x13];
    assert b[0xF..0x13] == data[0xF..0x13];
    ReadAcknowledgedBytes(b, offset);
  }

  /** A device that only ever fails to answer keeps the read waiting and receives one request per reply. */
  lemma FailingDeviceKeepsReading(t0: int, offset: uint32, readLen: uint16, replies: seq<Reply>, dest: seq<byte>, start: nat)
    requires 0 <= t0 < 16 && start + readLen <= |dest|
    requires forall k :: 0 <= k < |replies| ==> replies[k] == Failed
    ensures SpiRead(t0, offset, readLen, replies, dest, start) == ReadResult(Waiting, |replies|, dest)
  {
    var acks := ReadAcks(t0, offset, readLen % 0x100, replies);
    forall k | 0 <= k < |replies|
      ensures !acks[k]
    {
      ReadAcksAt(t0, offset, readLen % 0x100, replies, k);
      FailedReadNotAcknowledged(Advance(t0, k), offset, readLen % 0x100);
    }
  }

  /**
   * The acknowledged report delivers bytes 0x14.. of itself when it is long
   * enough, and nothing otherwise.
   */
  lemma DeliveredFromReply(timing: byte, offset: uint32, size: byte, data: seq<byte>, dest: seq<byte>, start: nat, readLen: nat)
    requires start + readLen <= |dest| && 0x14 + readLen <= 0x100
    ensures var a := ReadAttempt(timing, offset, size, Report(data));
      var d := Delivered(dest, start, readLen, a.0, a.1);
      && (0x14 + readLen <= |data| ==>
           d[start..start + readLen] == data[0x14..0x14 + readLen] && d[..start] == dest[..start]
           && d[start + readLen..] == dest[start + readLen..])
      && (|data| < 0x14 + readLen ==> d == dest)
  {
    var a := ReadAttempt(timing, offset, size, Report(data));
    if 0x14 + readLen <= |data| {
      assert a.1 >= 0x14 + readLen;
      assert a.0[0x14..0x14 + readLen] == data[0x14..0x14 + readLen];
    }
  }

  // ---------------------------------------------------------------------------
  // write_spi_data

  /** `write_spi_data` returns 1 once this many attempts have gone unacknowledged. */
  const WriteRetryLimit := 125

  /** The buffer of one write attempt with the reply read over it. */
  function WriteAttempt(timing: byte, offset: uint32, size: byte, data: seq<byte>, reply: Reply): (b: seq<byte>)
    requires SpiHeaderSize + |data| <= 0x100
    ensures |b| == 0x100
  {
    AfterRead(SpiWriteBuffer(timing, offset, size, data), reply, 0x100).0
  }

  /** For each supplied reply, whether the write attempt that consumes it is acknowledged. */
  function WriteAcks(t0: int, offset: uint32, size: byte, data: seq<byte>, replies: seq<Reply>): (acks: seq<bool>)
    requires 0 <= t0 < 16 && SpiHeaderSize + |data| <= 0x100
    ensures |acks| == |replies|
    decreases |replies|
  {
    if replies == [] then []
    else [WriteAcknowledged(WriteAttempt(t0, offset, size, data, replies[0]))]
         + WriteAcks(NextCount(t0), offset, size, data, replies[1..])
  }

  /** Attempt `k` carries the timing byte advanced `k` times and reads reply `k`. */
  lemma {:induction false} WriteAcksAt(t0: int, offset: uint32, size: byte, data: seq<byte>, replies: seq<Reply>, k: nat)
    requires 0 <= t0 < 16 && SpiHeaderSize + |data| <= 0x100 && k < |replies|
    ensures WriteAcks(t0, offset, size, data, replies)[k]
      == WriteAcknowledged(WriteAttempt(Advance(t0, k), offset, size, data, replies[k]))
    decreases k
  {
    if k > 0 {
      WriteAcksAt(NextCount(t0), offset, size, data, replies[1..], k - 1);
    }
  }

  /** The first `n` write requests, the first with timing byte `t0` and each later one with the next. */
  function WriteRequests(t0: int, offset: uint32, size: byte, data: seq<byte>, n: nat): (rs: seq<seq<byte>>)
    requires 0 <= t0 < 16 && SpiHeaderSize + |data| <= 0x100
    ensures |rs| == n
    decreases n
  {
    if n == 0 then []
    else [SpiWriteRequest(t0, offset, size, data)] + WriteRequests(NextCount(t0), offset, size, data, n - 1)
  }

  /** Request `k` carries the timing byte advanced `k` times. */
  lemma {:induction false} WriteRequestsAt(t0: int, offset: uint32, size: byte, data: seq<byte>, n: nat, k: nat)
    requires 0 <= t0 < 16 && SpiHeaderSize + |data| <= 0x100 && k < n
    ensures WriteRequests(t0, offset, size, data, n)[k] == SpiWriteRequest(Advance(t0, k), offset, size, data)
    decreases k
  {
    if k > 0 {
      WriteRequestsAt(NextCount(t0), offset, size, data, n - 1, k - 1);
    }
  }

  /** One more attempt appends one request, with the timing byte advanced once more. */
  lemma {:induction false} WriteRequestsNext(t0: int, offset: uint32, size: byte, data: seq<byte>, n: nat)
    requires 0 <= t0 < 16 && SpiHeaderSize + |data| <= 0x100
    ensures WriteRequests(t0, offset, size, data, n + 1)
      == WriteRequests(t0, offset, size, data, n) + [SpiWriteRequest(Advance(t0, n), offset, size, data)]
    decreases n
  {
    if n > 0 {
      WriteRequestsNext(NextCount(t0), offset, size, data, n - 1);
    }
  }

  /**
   * The outcome of `write_spi_data` against the supplied acknowledgements
   * and how many attempts it made: 0 on an acknowledgement among the first
   * 125 attempts, 1 once 125 have failed.
   */
  function WriteOutcome(acks: seq<bool>): (r: (SpiOutcome, nat))
    ensures r.1 <= |acks| && r.1 <= WriteRetryLimit
    ensures r.0 == Returned(1) ==> r.1 == WriteRetryLimit
    ensures r.0 == Waiting ==> r.1 == |acks|
  {
    var f := FirstIndex(acks);
    if f.Some? && f.value < WriteRetryLimit then (Returned(0), f.value + 1)
    else if WriteRetryLimit <= |acks| then (Returned(1), WriteRetryLimit)
    else (Waiting, |acks|)
  }

  /** The write succeeds exactly when one of the first 125 attempts is acknowledged, and gives up exactly when 125 are not. */
  lemma WriteOutcomeCases(acks: seq<bool>)
    ensures WriteOutcome(acks).0 == Returned(0) <==> exists k :: 0 <= k < |acks| && k < WriteRetryLimit && acks[k]
    ensures WriteOutcome(acks).0 == Returned(1) <==>
      WriteRetryLimit <= |acks| && forall k :: 0 <= k < WriteRetryLimit ==> !acks[k]
  {
  }

  /** The write ends at attempt `k`, the first acknowledged one, when it comes before the limit. */
  lemma WriteOutcomeAt(acks: seq<bool>, k: nat)
    requires k < |acks| && k < WriteRetryLimit && acks[k] && forall j :: 0 <= j < k ==> !acks[j]
    ensures WriteOutcome(acks) == (Returned(0), k + 1)
  {
    FirstIndexIs(acks, k);
  }

  /** The write gives up after the limit of unacknowledged attempts. */
  lemma WriteOutcomeGivesUp(acks: seq<bool>)
    requires WriteRetryLimit <= |acks| && forall j :: 0 <= j < WriteRetryLimit ==> !acks[j]
    ensures WriteOutcome(acks) == (Returned(1), WriteRetryLimit)
  {
  }

  /** The write is still retrying when fewer replies than the limit, none acknowledging, are supplied. */
  lemma WriteOutcomeExhausted(acks: seq<bool>)
    requires |acks| < WriteRetryLimit && forall j :: 0 <= j < |acks| ==> !acks[j]
    ensures WriteOutcome(acks) == (Waiting, |acks|)
  {
  }

  /** A failed read leaves the request in the buffer, and a request never acknowledges a write. */
  lemma FailedWriteNotAcknowledged(timing: byte, offset: uint32, size: byte, data: seq<byte>)
    requires SpiHeaderSize + |data| <= 0x100
    ensures !WriteAcknowledged(WriteAttempt(timing, offset, size, data, Failed))
  {
    var b := SpiWriteBuffer(timing, offset, size, data);
    SpiWriteBufferLayout(timing, offset, size, data);
    assert b[0xD] == SpiHeader(timing, 0x11, offset, size)[0xD] == 0;
    WriteAcknowledgedBytes(b);
  }

  /** A device that fails 125 times in a row makes the write give up with 1. */
  lemma FailingDeviceStopsWrite(t0: int, offset: uint32, size: byte, data: seq<byte>, replies: seq<Reply>)
    requires 0 <= t0 < 16 && SpiHeaderSize + |data| <= 0x100
    requires WriteRetryLimit <= |replies|
    requires forall k :: 0 <= k < WriteRetryLimit ==> replies[k] == Failed
    ensures WriteOutcome(WriteAcks(t0, offset, size, data, replies)) == (Returned(1), WriteRetryLimit)
  {
    var acks := WriteAcks(t0, offset, size, data, replies);
    forall k | 0 <= k < WriteRetryLimit
      ensures !acks[k]
    {
      WriteAcksAt(t0, offset, size, data, replies, k);
      FailedWriteNotAcknowledged(Advance(t0, k), offset, size, data);
    }
  }
}
