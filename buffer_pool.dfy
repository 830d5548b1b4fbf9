// The frame buffer pool: a FIFO queue of byte buffers bounded by
// `maxBuffers`. Buffers handed out are either reused from the front of the
// queue or freshly allocated; buffers handed back are zeroed and kept only
// while there is room. The mutex around the queue is not modelled.

module BufferPools {
  import opened Common

  class BufferPool {
    /** The `VecDeque`, front first. */
    var buffers: seq<seq<byte>>
    const bufferSize: nat
    const maxBuffers: nat

    /** The pool never exceeds its bound and holds only zeroed buffers. */
    ghost predicate Valid()
      reads this
    {
      && |buffers| <= maxBuffers
      && forall i :: 0 <= i < |buffers| ==> AllZero(buffers[i])
    }

    constructor(bufferSize: nat, maxBuffers: nat)
      ensures Valid()
      ensures buffers == [] && this.bufferSize == bufferSize && this.maxBuffers == maxBuffers
    {
      buffers := [];
      this.bufferSize := bufferSize;
      this.maxBuffers := maxBuffers;
    }

    method GetBuffer() returns (b: seq<byte>)
      requires Valid()
      modifies this
      ensures Valid()
      ensures old(buffers) == [] ==> b == Zeros(bufferSize) && buffers == []
      ensures old(buffers) != [] ==> b == old(buffers[0]) && buffers == old(buffers[1..])
      ensures AllZero(b)
    {
      if buffers == [] {
        b := Zeros(bufferSize);
      } else {
        b := buffers[0];
        buffers := buffers[1..];
      }
    }

    method ReturnBuffer(b: seq<byte>)
      requires Valid()
      modifies this
      ensures Valid()
      ensures old(|buffers|) < maxBuffers ==> buffers == old(buffers) + [Zeros(|b|)]
      ensures old(|buffers|) >= maxBuffers ==> buffers == old(buffers)
    {
      var zeroed := Zeros(|b|);
      if |buffers| < maxBuffers {
        buffers := buffers + [zeroed];
      }
    }

    /** `(available, max)` */
    method Stats() returns (available: nat, max: nat)
      ensures available == |buffers| && max == maxBuffers
    {
      available, max := |buffers|, maxBuffers;
    }

    /** Empties the pool; the requested size is ignored and `bufferSize`
        (a constant) stays as it was. */
    method Resize(newSize: nat)
      requires Valid()
      modifies this
      ensures Valid() && buffers == []
    {
      buffers := [];
    }
  }

  /** Unit test: get, return and get again on a pool of three 1024-byte
      buffers hands out 1024-byte buffers and leaves stats at (0, 3). */
  method GetReturnGet() returns (len1: nat, len2: nat, available: nat, max: nat)
    ensures len1 == 1024 && len2 == 1024
    ensures available == 0 && max == 3
  {
    var pool := new BufferPool(1024, 3);
    var b1 := pool.GetBuffer();
    len1 := |b1|;
    pool.ReturnBuffer(b1);
    var b2 := pool.GetBuffer();
    len2 := |b2|;
    available, max := pool.Stats();
  }

  /** Unit test: three buffers returned to a pool bounded at two leave two
      in the pool; the third is dropped. */
  method Overflow() returns (available: nat)
    ensures available == 2
  {
    var pool := new BufferPool(512, 2);
    var b1 := pool.GetBuffer();
    var b2 := pool.GetBuffer();
    var b3 := pool.GetBuffer();
    pool.ReturnBuffer(b1);
    pool.ReturnBuffer(b2);
    pool.ReturnBuffer(b3);
    var max;
    available, max := pool.Stats();
  }

  /** A get followed by a return on an empty pool with room grows the pool
      by one buffer, so `stats` is not restored. */
  method EmptyPoolRoundTrip(pool: BufferPool) returns (before: nat, after: nat)
    requires pool.Valid() && pool.buffers == [] && pool.maxBuffers > 0
    modifies pool
    ensures before == 0 && after == 1
  {
    var max;
    before, max := pool.Stats();
    var b := pool.GetBuffer();
    pool.ReturnBuffer(b);
    after, max := pool.Stats();
  }

  /** On a non-empty pool a get/return pair leaves the count unchanged and
      rotates the front buffer to the back. */
  method NonEmptyPoolRoundTrip(pool: BufferPool) returns (before: nat, after: nat)
    requires pool.Valid() && pool.buffers != []
    modifies pool
    ensures before == after
    ensures pool.buffers == old(pool.buffers[1..]) + [old(pool.buffers[0])]
  {
    var max;
    before, max := pool.Stats();
    var b := pool.GetBuffer();
    assert AllZero(b);
    assert Zeros(|b|) == b;
    pool.ReturnBuffer(b);
    after, max := pool.Stats();
  }
}
