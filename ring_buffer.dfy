// The frame ring buffer: a fixed byte array of `frameSize * capacity`
// bytes with a write offset and a read offset that both advance by one
// frame modulo the buffer size. The producer and consumer atomics are
// plain fields here and the memory-mapped file is an array.

module RingBuffers {
  import opened Common
  import opened Arith
  import opened ModArith

  datatype RingError = FrameSizeMismatch | BufferFull | OutputSizeMismatch | BufferEmpty
  {
    /** The `&'static str` the source returns for each failure. */
    function Message(): string
    {
      match this
      case FrameSizeMismatch => "Frame size mismatch"
      case BufferFull => "Buffer full"
      case OutputSizeMismatch => "Output buffer size mismatch"
      case BufferEmpty => "Buffer empty"
    }
  }

  /** Advancing slot `s` by one frame, modulo the buffer, lands on slot `s + 1` modulo the slot count. */
  lemma SlotStep(s: nat, cap: nat, fs: nat)
    requires s < cap && fs > 0
    ensures (s * fs + fs) % (fs * cap) == ((s + 1) % cap) * fs
  {
    ScaledMod(s + 1, cap, fs);
    assert (s + 1) * fs == s * fs + fs;
    assert cap * fs == fs * cap;
  }

  lemma SameOffsetIff(a: nat, b: nat, fs: nat)
    requires fs > 0
    ensures a * fs == b * fs <==> a == b
  {
    if a * fs == b * fs {
      MulCancel(a, b, fs);
    }
  }

  /** The slot after the write slot is the read slot exactly when all but one slot is in use. */
  lemma NextHitsRead(rs: nat, n: nat, cap: nat)
    requires rs < cap && n < cap
    ensures ((rs + n) % cap + 1) % cap == rs <==> n + 1 == cap
  {
    ModAddMod(rs + n, 1, cap);
    DivModUnique(rs, cap, 0, rs);
    if n + 1 < cap {
      ModDistinct(rs, 0, n + 1, cap);
    } else {
      DivModUnique(rs + n + 1, cap, 1, rs);
    }
  }

  /** The write slot is the read slot exactly when no frame is held. */
  lemma WriteHitsRead(rs: nat, n: nat, cap: nat)
    requires rs < cap && n < cap
    ensures (rs + n) % cap == rs <==> n == 0
  {
    DivModUnique(rs, cap, 0, rs);
    if n > 0 {
      ModDistinct(rs, 0, n, cap);
    }
  }

  /** The slot distance from the read slot to the write slot, taken
      modulo the slot count, is the number of held frames. */
  lemma UsedSlots(rs: nat, n: nat, cap: nat)
    requires rs < cap && n < cap
    ensures (rs + n) % cap + cap - rs < 2 * cap
    ensures ((rs + n) % cap + cap - rs) % cap == n
  {
    var k := (rs + n) % cap + cap - rs;
    if rs + n < cap {
      DivModUnique(rs + n, cap, 0, rs + n);
      DivModUnique(k, cap, 1, n);
    } else {
      DivModUnique(rs + n, cap, 1, rs + n - cap);
      DivModUnique(k, cap, 0, n);
    }
  }

  /** `(a + b - c) * f == a * f + b * f - c * f` */
  lemma SpanTimes(a: nat, b: nat, c: nat, f: nat)
    requires c <= a + b
    ensures (a + b - c) * f == a * f + f * b - c * f
  {
  }

  /** `status()`'s arithmetic recovers the number of held frames. */
  lemma UsedFrames(rs: nat, n: nat, cap: nat, fs: nat)
    requires rs < cap && n < cap && fs > 0
    ensures ((rs + n) % cap) * fs + fs * cap - rs * fs >= 0
    ensures (((rs + n) % cap) * fs + fs * cap - rs * fs) % (fs * cap) / fs == n
  {
    var ws := (rs + n) % cap;
    var k := ws + cap - rs;
    UsedSlots(rs, n, cap);
    ScaledMod(k, cap, fs);
    SpanTimes(ws, cap, rs, fs);
    assert cap * fs == fs * cap;
    DivModOfSum(n, fs, 0);
  }

  lemma FramesPerBuffer(cap: nat, fs: nat)
    requires fs > 0
    ensures (fs * cap) / fs == cap
  {
    DivModOfSum(cap, fs, 0);
    assert cap * fs + 0 == fs * cap;
  }

  lemma SlotFits(s: nat, cap: nat, fs: nat)
    requires s < cap
    ensures s * fs + fs <= fs * cap
  {
    MulLeMono(s + 1, cap, fs);
  }

  /** The bytes of slot `s` of a buffer divided into frames of `fs` bytes. */
  ghost function Slot(buf: seq<byte>, fs: nat, s: nat): seq<byte>
  {
    if s * fs + fs <= |buf| then buf[s * fs .. s * fs + fs] else []
  }

  /** `frames` are held in consecutive slots (modulo `cap`) starting at
      slot `rs`, and one slot always stays free. */
  ghost predicate Holds(buf: seq<byte>, fs: nat, cap: nat, rs: nat, frames: seq<seq<byte>>)
  {
    && fs > 0 && cap > 0 && |buf| == fs * cap
    && rs < cap && |frames| < cap
    && forall i :: 0 <= i < |frames| ==> frames[i] == Slot(buf, fs, (rs + i) % cap)
  }

  /** Overwriting slot `ws` leaves every other slot as it was. */
  lemma OtherSlotKept(buf: seq<byte>, fs: nat, cap: nat, ws: nat, s: nat, data: seq<byte>)
    requires |buf| == fs * cap && |data| == fs && ws < cap && s < cap && s != ws
    ensures ws * fs + fs <= |buf|
    ensures Slot(buf[..ws * fs] + data + buf[ws * fs + fs..], fs, s) == Slot(buf, fs, s)
  {
    SlotFits(ws, cap, fs);
    SlotFits(s, cap, fs);
    SlotsDisjoint(s, ws, fs);
    var lo := ws * fs;
    var lo2 := s * fs;
    if lo2 + fs <= lo {
      SliceOfPrefix(buf, data, lo, fs, lo2);
    } else {
      SliceOfSuffix(buf, data, lo, fs, lo2);
    }
  }

  lemma SliceOfPrefix(buf: seq<byte>, data: seq<byte>, lo: nat, fs: nat, at: nat)
    requires lo + fs <= |buf| && |data| == fs && at + fs <= lo
    ensures (buf[..lo] + data + buf[lo + fs..])[at .. at + fs] == buf[at .. at + fs]
  {
    var buf' := buf[..lo] + data + buf[lo + fs..];
    assert forall k :: at <= k < at + fs ==> buf'[k] == buf[k];
  }

  lemma SliceOfSuffix(buf: seq<byte>, data: seq<byte>, lo: nat, fs: nat, at: nat)
    requires |data| == fs && lo + fs <= at && at + fs <= |buf|
    ensures (buf[..lo] + data + buf[lo + fs..])[at .. at + fs] == buf[at .. at + fs]
  {
    var buf' := buf[..lo] + data + buf[lo + fs..];
    assert forall k :: at <= k < at + fs ==> buf'[k] == buf[k];
  }

  /** Overwriting slot `ws` puts the frame there. */
  lemma WrittenSlot(buf: seq<byte>, fs: nat, cap: nat, ws: nat, data: seq<byte>)
    requires |buf| == fs * cap && |data| == fs && ws < cap
    ensures ws * fs + fs <= |buf|
    ensures |buf[..ws * fs] + data + buf[ws * fs + fs..]| == |buf|
    ensures Slot(buf[..ws * fs] + data + buf[ws * fs + fs..], fs, ws) == data
  {
    SlotFits(ws, cap, fs);
    var lo := ws * fs;
    var buf' := buf[..lo] + data + buf[lo + fs..];
    assert buf'[lo .. lo + fs] == data;
  }

  /** Overwriting the first free slot, at byte offset `lo`, with a frame
      appends it. */
  lemma HoldsAfterWrite(buf: seq<byte>, fs: nat, cap: nat, rs: nat, frames: seq<seq<byte>>, data: seq<byte>, lo: nat)
    requires Holds(buf, fs, cap, rs, frames) && |frames| < cap - 1 && |data| == fs
    requires lo == ((rs + |frames|) % cap) * fs
    ensures lo + fs <= |buf|
    ensures Holds(buf[..lo] + data + buf[lo + fs..], fs, cap, rs, frames + [data])
  {
    var n := |frames|;
    var ws := (rs + n) % cap;
    WrittenSlot(buf, fs, cap, ws, data);
    var buf' := buf[..lo] + data + buf[lo + fs..];
    forall i | 0 <= i < n
      ensures frames[i] == Slot(buf', fs, (rs + i) % cap)
    {
      ModDistinct(rs, i, n, cap);
      OtherSlotKept(buf, fs, cap, ws, (rs + i) % cap, data);
    }
    assert (frames + [data])[n] == Slot(buf', fs, (rs + n) % cap);
  }

  /** Taking the oldest frame moves the read slot on by one. */
  lemma HoldsAfterRead(buf: seq<byte>, fs: nat, cap: nat, rs: nat, frames: seq<seq<byte>>)
    requires Holds(buf, fs, cap, rs, frames) && |frames| > 0
    ensures rs * fs + fs <= |buf| && frames[0] == buf[rs * fs .. rs * fs + fs]
    ensures Holds(buf, fs, cap, (rs + 1) % cap, frames[1..])
    ensures (rs + |frames|) % cap == ((rs + 1) % cap + |frames| - 1) % cap
  {
    SlotFits(rs, cap, fs);
    DivModUnique(rs, cap, 0, rs);
    assert frames[0] == Slot(buf, fs, (rs + 0) % cap);
    forall j | 1 <= j < |frames|
      ensures frames[j] == Slot(buf, fs, ((rs + 1) % cap + (j - 1)) % cap)
    {
      ModAddMod(rs + 1, j - 1, cap);
    }
    ModAddMod(rs + 1, |frames| - 1, cap);
  }

  /** Facts about the two offsets derived from the slot bookkeeping. */
  lemma OffsetFacts(rs: nat, n: nat, cap: nat, fs: nat)
    requires rs < cap && n < cap && fs > 0
    ensures rs * fs + fs <= fs * cap
    ensures ((rs + n) % cap) * fs + fs <= fs * cap
    ensures rs * fs == ((rs + n) % cap) * fs <==> n == 0
  {
    SlotFits(rs, cap, fs);
    SlotFits((rs + n) % cap, cap, fs);
    WriteHitsRead(rs, n, cap);
    SameOffsetIff(rs, (rs + n) % cap, fs);
  }

  class RingBuffer {
    const buffer: array<byte>
    const bufferSize: nat
    const frameSize: nat
    var writePos: nat
    var readPos: nat

    /** Number of frame slots, `bufferSize / frameSize`. */
    ghost const capacity: nat
    /** Slot the read offset points at. */
    ghost var readSlot: nat
    /** Frames currently held, oldest first. */
    ghost var Contents: seq<seq<byte>>

    ghost predicate Valid()
      reads this, buffer
    {
      && Holds(buffer[..], frameSize, capacity, readSlot, Contents)
      && bufferSize == frameSize * capacity
      && buffer.Length == bufferSize
      && readPos == readSlot * frameSize
      && writePos == ((readSlot + |Contents|) % capacity) * frameSize
      // consequences kept at hand for the contracts below
      && readPos + frameSize <= bufferSize
      && writePos + frameSize <= bufferSize
      && (readPos == writePos <==> |Contents| == 0)
    }

    /** Both offsets are whole frames into the buffer and strictly below its size. */
    lemma OffsetsInRange()
      requires Valid()
      ensures writePos % frameSize == 0 && writePos < bufferSize
      ensures readPos % frameSize == 0 && readPos < bufferSize
    {
      var ws := (readSlot + |Contents|) % capacity;
      DivModOfSum(ws, frameSize, 0);
      DivModOfSum(readSlot, frameSize, 0);
      SlotFits(ws, capacity, frameSize);
      SlotFits(readSlot, capacity, frameSize);
    }

    constructor(frameSize: nat, frameCapacity: nat)
      requires frameSize > 0 && frameCapacity > 0
      ensures Valid() && fresh(buffer)
      ensures this.frameSize == frameSize && capacity == frameCapacity
      ensures bufferSize == frameSize * frameCapacity
      ensures writePos == 0 && readPos == 0 && Contents == []
    {
      this.frameSize := frameSize;
      this.bufferSize := frameSize * frameCapacity;
      capacity := frameCapacity;
      buffer := new byte[frameSize * frameCapacity](_ => 0);
      writePos := 0;
      readPos := 0;
      readSlot := 0;
      Contents := [];
      OffsetFacts(0, 0, frameCapacity, frameSize);
    }

    /** A write is refused as full exactly when the buffer already holds
        `capacity - 1` frames. */
    lemma FullIff()
      requires Valid()
      ensures (writePos + frameSize) % bufferSize == readPos <==> |Contents| == capacity - 1
      ensures (writePos + frameSize) % bufferSize == ((readSlot + |Contents| + 1) % capacity) * frameSize
    {
      var ws := (readSlot + |Contents|) % capacity;
      SlotStep(ws, capacity, frameSize);
      NextHitsRead(readSlot, |Contents|, capacity);
      SameOffsetIff((ws + 1) % capacity, readSlot, frameSize);
      ModAddMod(readSlot + |Contents|, 1, capacity);
    }

    method WriteFrame(data: seq<byte>) returns (r: Result<(), RingError>)
      requires Valid()
      modifies this, buffer
      ensures Valid()
      ensures |data| != frameSize ==> r == Err(FrameSizeMismatch) && unchanged(this, buffer)
      ensures |data| == frameSize && (old(writePos) + frameSize) % bufferSize == readPos ==>
                r == Err(BufferFull) && unchanged(this, buffer)
      ensures |data| == frameSize && (old(writePos) + frameSize) % bufferSize != readPos ==>
                && r == Ok(())
                && buffer[..] == old(buffer[..writePos]) + data + old(buffer[writePos + frameSize..])
                && writePos == (old(writePos) + frameSize) % bufferSize
                && readPos == old(readPos)
                && Contents == old(Contents) + [data]
      ensures r.Err? <==> |data| != frameSize || old(|Contents|) == capacity - 1
    {
      FullIff();
      if |data| != frameSize {
        return Err(FrameSizeMismatch);
      }
      var next := (writePos + frameSize) % bufferSize;
      if next == readPos {
        return Err(BufferFull);
      }
      Push(data);
      r := Ok(());
    }

    /** The successful half of `write_frame`: copy into the write slot and
        advance the write offset by one frame. */
    method Push(data: seq<byte>)
      requires Valid() && |data| == frameSize && |Contents| < capacity - 1
      modifies this, buffer
      ensures Valid()
      ensures buffer[..] == old(buffer[..writePos]) + data + old(buffer[writePos + frameSize..])
      ensures writePos == (old(writePos) + frameSize) % bufferSize
      ensures readPos == old(readPos) && readSlot == old(readSlot)
      ensures Contents == old(Contents) + [data]
    {
      FullIff();
      ghost var buf := buffer[..];
      ghost var frames := Contents;
      var lo := writePos;
      assert lo + frameSize <= buffer.Length;
      CopyIn(buffer, lo, data);
      writePos := (lo + frameSize) % bufferSize;
      Contents := frames + [data];
      assert Holds(buffer[..], frameSize, capacity, readSlot, Contents) by {
        HoldsAfterWrite(buf, frameSize, capacity, readSlot, frames, data, lo);
      }
      OffsetFacts(readSlot, |Contents|, capacity, frameSize);
    }

    method ReadFrame(output: array<byte>) returns (r: Result<nat, RingError>)
      requires Valid() && output != buffer
      modifies this, output
      ensures Valid()
      ensures output.Length != frameSize ==> r == Err(OutputSizeMismatch) && unchanged(this, output)
      ensures output.Length == frameSize && old(readPos) == old(writePos) ==>
                r == Err(BufferEmpty) && unchanged(this, output)
      ensures output.Length == frameSize && old(readPos) != old(writePos) ==>
                && r == Ok(frameSize)
                && output[..] == buffer[old(readPos) .. old(readPos) + frameSize] == old(Contents[0])
                && readPos == (old(readPos) + frameSize) % bufferSize
                && writePos == old(writePos)
                && Contents == old(Contents[1..])
      ensures r.Err? <==> output.Length != frameSize || old(|Contents|) == 0
    {
      if output.Length != frameSize {
        return Err(OutputSizeMismatch);
      }
      if readPos == writePos {
        return Err(BufferEmpty);
      }
      ghost var buf := buffer[..];
      ghost var rs := readSlot;
      HoldsAfterRead(buf, frameSize, capacity, rs, Contents);
      SlotStep(readSlot, capacity, frameSize);
      var rp := readPos;
      forall i | 0 <= i < frameSize {
        output[i] := buffer[rp + i];
      }
      assert output[..] == buffer[rp .. rp + frameSize];
      assert buffer[..] == buf;
      readPos := (readPos + frameSize) % bufferSize;
      readSlot := (rs + 1) % capacity;
      Contents := Contents[1..];
      OffsetFacts(readSlot, |Contents|, capacity, frameSize);
      return Ok(frameSize);
    }

    /** `(available_frames, total_frames)` */
    method Status() returns (available: nat, total: nat)
      requires Valid()
      ensures available == (writePos + bufferSize - readPos) % bufferSize / frameSize
      ensures total == bufferSize / frameSize
      ensures available == |Contents| && total == capacity
    {
      UsedFrames(readSlot, |Contents|, capacity, frameSize);
      FramesPerBuffer(capacity, frameSize);
      available := (writePos + bufferSize - readPos) % bufferSize / frameSize;
      total := bufferSize / frameSize;
    }
  }

  /** `copy_from_slice` of `data` into `buf` at byte offset `at`. */
  method CopyIn(buf: array<byte>, at: nat, data: seq<byte>)
    requires at + |data| <= buf.Length
    modifies buf
    ensures buf[..] == old(buf[..at]) + data + old(buf[at + |data|..])
  {
    forall i | 0 <= i < |data| {
      buf[at + i] := data[i];
    }
    assert buf[..] == old(buf[..at]) + data + old(buf[at + |data|..]);
  }

  /** Unit test of the core copy: a 1024-byte frame written into a
      four-frame buffer reads back identically, after which the buffer
      reports (0, 4). */
  method BasicRoundTrip() returns (read: seq<byte>, available: nat, total: nat)
    ensures read == seq(1024, _ => 42)
    ensures available == 0 && total == 4
  {
    var rb := new RingBuffer(1024, 4);
    var frame: seq<byte> := seq(1024, _ => 42);
    var w := rb.WriteFrame(frame);
    var out := new byte[1024](_ => 0);
    var r := rb.ReadFrame(out);
    read := out[..];
    available, total := rb.Status();
  }

  /** Documentation example: five writes into an empty ten-frame buffer
      leave status (5, 10). */
  method FiveWrites() returns (available: nat, total: nat)
    ensures available == 5 && total == 10
  {
    var rb := new RingBuffer(16, 10);
    var i := 0;
    while i < 5
      invariant 0 <= i <= 5
      invariant rb.Valid() && |rb.Contents| == i && rb.frameSize == 16 && rb.capacity == 10
      modifies rb, rb.buffer
    {
      var r := rb.WriteFrame(seq(16, _ => i));
      i := i + 1;
    }
    available, total := rb.Status();
  }

  /** A buffer created for ten frames accepts nine writes and refuses
      the tenth as full. */
  method TenthWriteIsFull(frame: seq<byte>) returns (accepted: nat, last: Result<(), RingError>)
    requires |frame| == 4096
    ensures accepted == 9 && last == Err(BufferFull)
  {
    var rb := new RingBuffer(4096, 10);
    accepted := 0;
    while accepted < 9
      invariant 0 <= accepted <= 9
      invariant rb.Valid() && |rb.Contents| == accepted && rb.frameSize == 4096 && rb.capacity == 10
      modifies rb, rb.buffer
    {
      var r := rb.WriteFrame(frame);
      accepted := accepted + 1;
    }
    last := rb.WriteFrame(frame);
  }

  /** Frames come out in the order they went in. */
  method FifoOrder(a: seq<byte>, b: seq<byte>) returns (first: seq<byte>, second: seq<byte>)
    requires |a| == 8 && |b| == 8
    ensures first == a && second == b
  {
    var rb := new RingBuffer(8, 3);
    var w1 := rb.WriteFrame(a);
    var w2 := rb.WriteFrame(b);
    var out := new byte[8](_ => 0);
    var r1 := rb.ReadFrame(out);
    first := out[..];
    var r2 := rb.ReadFrame(out);
    second := out[..];
  }

  /** Reading an empty buffer reports "Buffer empty" and leaves both
      offsets where they were. */
  method ReadEmpty() returns (r: Result<nat, RingError>, readPos: nat, writePos: nat)
    ensures r == Err(BufferEmpty) && r.error.Message() == "Buffer empty"
    ensures readPos == 0 && writePos == 0
  {
    var rb := new RingBuffer(32, 4);
    var out := new byte[32](_ => 0);
    r := rb.ReadFrame(out);
    readPos, writePos := rb.readPos, rb.writePos;
  }
}
