// The throughput figures of the zero-copy analysis: pixels processed,
// bytes per frame, bytes moved, conversions and allocations saved over a
// capture of `durationSeconds` seconds at `fps` frames per second.
//
// The fields are `u32`; the products are taken in `u64`, except the bytes
// per frame, which are taken in `u32`. The frame count always fits in 64
// bits; every other product must fit its width (the multiplication
// overflows otherwise), which is a precondition here.

module Performance {
  import opened Common
  import opened Arith

  const U64_LIMIT: nat := 0x1_0000_0000_0000_0000

  /** Bytes per BGRA pixel. */
  const BYTES_PER_PIXEL: nat := 4

  /** Estimated operations per pixel of the BGRA to BGR conversion that
      the zero-copy path avoids. */
  const OPS_PER_PIXEL: nat := 10

  /** A Rust `u32`. */
  type uint32 = x: nat | x < U32_LIMIT

  /** `PerformanceAnalysis`; its `new` is this constructor. */
  datatype PerformanceAnalysis = PerformanceAnalysis(width: uint32, height: uint32, fps: uint32, durationSeconds: uint32)

  /** The product of two `u32` values fits in a `u64`. */
  lemma ProductFits(x: uint32, y: uint32)
    ensures x * y < U64_LIMIT
  {
    MulLeMono(x, U32_LIMIT - 1, y);
    MulLeMono(y, U32_LIMIT - 1, U32_LIMIT - 1);
    assert (U32_LIMIT - 1) * (U32_LIMIT - 1) < U64_LIMIT;
  }

  /** `allocations_saved`: one pooled buffer per captured frame, so one
      allocation saved per frame. */
  function AllocationsSaved(a: PerformanceAnalysis): (n: nat)
    ensures n < U64_LIMIT
    ensures n > 0 <==> a.fps > 0 && a.durationSeconds > 0
  {
    ProductFits(a.fps, a.durationSeconds);
    a.fps * a.durationSeconds
  }

  /** The product `width * height * fps * durationSeconds` fits in 64 bits. */
  predicate PixelsFit(a: PerformanceAnalysis)
  {
    a.width * a.height * a.fps * a.durationSeconds < U64_LIMIT
  }

  /** The four-way product is the pixels of a frame times the frames. */
  lemma Regroup(a: PerformanceAnalysis)
    ensures a.width * a.height * a.fps * a.durationSeconds == (a.width * a.height) * (a.fps * a.durationSeconds)
  {
    var wh, fd := a.width * a.height, a.fps * a.durationSeconds;
    assert a.width * a.height * a.fps * a.durationSeconds == wh * fd;
  }

  lemma ProductPositive(x: nat, y: nat)
    ensures x * y > 0 <==> x > 0 && y > 0
  {
    if x > 0 && y > 0 {
      MulLeMono(1, x, y);
    }
  }

  /** `total_pixels`: every pixel of every frame, so the pixels of one
      frame times the number of frames; zero exactly when one of the four
      figures is. */
  function TotalPixels(a: PerformanceAnalysis): (n: nat)
    requires PixelsFit(a)
    ensures n == (a.width * a.height) * AllocationsSaved(a)
    ensures n > 0 <==> a.width > 0 && a.height > 0 && a.fps > 0 && a.durationSeconds > 0
  {
    Regroup(a);
    ProductPositive(a.width * a.height, a.fps * a.durationSeconds);
    ProductPositive(a.width, a.height);
    ProductPositive(a.fps, a.durationSeconds);
    a.width * a.height * a.fps * a.durationSeconds
  }

  /** `memory_per_frame`: the bytes of one BGRA frame. */
  function MemoryPerFrame(a: PerformanceAnalysis): (n: nat)
    requires a.width * a.height * BYTES_PER_PIXEL < U32_LIMIT
    ensures n % BYTES_PER_PIXEL == 0 && n / BYTES_PER_PIXEL == a.width * a.height
  {
    a.width * a.height * BYTES_PER_PIXEL
  }

  /** `total_memory_transfer`: four bytes per pixel processed. */
  function TotalMemoryTransfer(a: PerformanceAnalysis): (n: nat)
    requires PixelsFit(a) && TotalPixels(a) * BYTES_PER_PIXEL < U64_LIMIT
    ensures n >= TotalPixels(a) && (n == 0 <==> TotalPixels(a) == 0)
  {
    TotalPixels(a) * BYTES_PER_PIXEL
  }

  /** `conversion_operations_saved`: ten operations per pixel processed. */
  function ConversionOperationsSaved(a: PerformanceAnalysis): (n: nat)
    requires PixelsFit(a) && TotalPixels(a) * OPS_PER_PIXEL < U64_LIMIT
    ensures n >= TotalPixels(a) && (n == 0 <==> TotalPixels(a) == 0)
  {
    TotalPixels(a) * OPS_PER_PIXEL
  }

  /** The bytes moved over the capture are the bytes of one frame times
      the frames captured. */
  lemma {:induction false} TransferIsFramesTimesFrameBytes(a: PerformanceAnalysis)
    requires PixelsFit(a) && TotalPixels(a) * BYTES_PER_PIXEL < U64_LIMIT
    requires a.width * a.height * BYTES_PER_PIXEL < U32_LIMIT
    requires a.width > 0 && a.height > 0
    ensures TotalMemoryTransfer(a) == MemoryPerFrame(a) * AllocationsSaved(a)
  {
    var wh, frames := a.width * a.height, AllocationsSaved(a);
    calc {
      TotalMemoryTransfer(a);
      (wh * frames) * 4;
      { assert (wh * frames) * 4 == (wh * 4) * frames; }
      (wh * 4) * frames;
      MemoryPerFrame(a) * AllocationsSaved(a);
    }
  }

  /** The repository's test: 1920x1080 at 30 frames per second for 10
      seconds processes 622,080,000 pixels in frames of 8,294,400 bytes,
      and saves conversions and allocations. */
  lemma FullHdTenSeconds()
    ensures var a := PerformanceAnalysis(1920, 1080, 30, 10);
      && PixelsFit(a) && TotalPixels(a) == 622_080_000
      && MemoryPerFrame(a) == 8_294_400
      && ConversionOperationsSaved(a) > 0 && AllocationsSaved(a) == 300
  {
    var a := PerformanceAnalysis(1920, 1080, 30, 10);
    assert a.width * a.height * a.fps * a.durationSeconds == 622_080_000;
  }
}
