/**
 * The HID transport as the device code sees it: every `hid_write` appends a
 * frame to a log, every `hid_read` takes the next reply from a supplied
 * sequence, and `hid_set_nonblocking` records the mode. A reply is either a
 * failed read (`-1`) or the bytes the device sent; a read with no reply left
 * returns no bytes.
 */
module Hid {
  import opened Bytes

  datatype Reply = Failed | Report(data: seq<byte>)

  /** The next reply, or an empty report when none is left. */
  function Head(replies: seq<Reply>): Reply
  {
    if replies == [] then Report([]) else replies[0]
  }

  /** The replies after the next one. */
  function Rest(replies: seq<Reply>): (r: seq<Reply>)
    ensures |r| == if replies == [] then 0 else |replies| - 1
  {
    if replies == [] then [] else replies[1..]
  }

  /**
   * The buffer and the result of `hid_read(dev, buf, maxLen)`: a failed read
   * returns -1 and leaves the buffer alone; a report fills the buffer from the
   * start with at most `maxLen` of its bytes and returns how many.
   */
  function AfterRead(buf: seq<byte>, reply: Reply, maxLen: nat): (r: (seq<byte>, int))
    requires maxLen <= |buf|
    ensures |r.0| == |buf| && -1 <= r.1 <= maxLen
  {
    match reply
    case Failed => (buf, -1)
    case Report(data) =>
      var n := if |data| < maxLen then |data| else maxLen;
      (data[..n] + buf[n..], n)
  }

  /**
   * A failed read returns -1 and leaves the buffer alone; a report fills the
   * buffer from the start with at most `maxLen` of its bytes and returns how many.
   */
  lemma AfterReadCases(buf: seq<byte>, reply: Reply, maxLen: nat)
    requires maxLen <= |buf|
    ensures var r := AfterRead(buf, reply, maxLen);
      && (reply.Failed? <==> r.1 == -1)
      && (reply.Failed? ==> r.0 == buf)
      && (reply.Report? ==> r.1 == (if |reply.data| < maxLen then |reply.data| else maxLen))
      && (reply.Report? ==> r.0[..r.1] == reply.data[..r.1] && r.0[r.1..] == buf[r.1..])
  {
  }

  /** A device handle: the frames written to it, the replies still to come, and its blocking mode. */
  class HidDevice {
    var sent: seq<seq<byte>>
    var replies: seq<Reply>
    var nonblocking: bool

    /** `hid_open_path`, with the replies the device will give; new handles block. */
    constructor (replies: seq<Reply>)
      ensures sent == [] && this.replies == replies && !nonblocking
    {
      sent := [];
      this.replies := replies;
      nonblocking := false;
    }

    /** `hid_write`: the frame is appended to the log. */
    method Write(frame: seq<byte>)
      modifies this`sent
      ensures sent == old(sent) + [frame]
    {
      sent := sent + [frame];
    }

    /** `hid_read` of up to `maxLen` bytes into `buf`, consuming one reply. */
    method Read(buf: array<byte>, maxLen: nat) returns (res: int)
      requires maxLen <= buf.Length
      modifies this`replies, buf
      ensures replies == Rest(old(replies))
      ensures (buf[..], res) == AfterRead(old(buf[..]), Head(old(replies)), maxLen)
    {
      var reply := Head(replies);
      replies := Rest(replies);
      match reply
      case Failed =>
        res := -1;
      case Report(data) =>
        res := if |data| < maxLen then |data| else maxLen;
        forall i | 0 <= i < res {
          buf[i] := data[i];
        }
        assert buf[..] == data[..res] + old(buf[..])[res..];
    }

    /** `hid_set_nonblocking`. */
    method SetNonblocking(on: bool)
      modifies this`nonblocking
      ensures nonblocking == on
    {
      nonblocking := on;
    }
  }
}
