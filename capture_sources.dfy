// The Linux capture source stub: it reports a fixed 1920x1080 screen and
// produces a synthetic gradient instead of grabbing the display.
//
// Its dimensions are fixed by its constructor, so the `u32` products in
// the frame loop never overflow and are taken as unbounded here.

module CaptureSources {
  import opened Common
  import opened Arith
  import opened Presets
  import opened Rtsp

  const STUB_WIDTH: nat := 1920
  const STUB_HEIGHT: nat := 1080

  /** Channel `k` (blue, green, red, alpha) of the gradient's pixel
      `(x, y)`: blue fixed at 128, green rising down the frame, red rising
      across it, opaque. */
  function GradientChannel(w: nat, h: nat, x: nat, y: nat, k: nat): (b: byte)
    requires x < w && y < h && k < 4
    ensures k == 1 ==> b == y * 255 / h
    ensures k == 2 ==> b == x * 255 / w
  {
    if k == 0 then 128
    else if k == 1 then DivLtBound(y * 255, h, 255); MulLtMono(y, h, 255); y * 255 / h
    else if k == 2 then DivLtBound(x * 255, w, 255); MulLtMono(x, w, 255); x * 255 / w
    else 255
  }

  /** Byte `i` of the gradient frame, laid out row-major, four bytes per
      pixel. */
  function GradientByte(w: nat, h: nat, i: nat): byte
    requires i < w * h * 4
  {
    var p := i / 4;
    assert w > 0 && h > 0;
    DivLtBound(p, w, h);
    GradientChannel(w, h, p % w, p / w, i % 4)
  }

  /** The gradient frame's bytes. */
  function Gradient(w: nat, h: nat): (data: seq<byte>)
    ensures |data| == w * h * 4
  {
    seq(w * h * 4, i requires 0 <= i < w * h * 4 => GradientByte(w, h, i))
  }

  /** The byte at pixel `(x, y)`, channel `k` of the gradient is that
      pixel's channel. */
  lemma GradientAt(w: nat, h: nat, x: nat, y: nat, k: nat)
    requires x < w && y < h && k < 4
    ensures (y * w + x) * 4 + k < w * h * 4
    ensures GradientByte(w, h, (y * w + x) * 4 + k) == GradientChannel(w, h, x, y, k)
  {
    RowMajorBound(x, y, w, h);
    DivModOfSum(y * w + x, 4, k);
    DivModOfSum(y, w, x);
  }

  /** `FFmpegCaptureSource`, a placeholder for an X11 grabber. */
  class FFmpegCaptureSource {
    const width: nat
    const height: nat

    /** `new`: whatever the display, a 1920x1080 source. */
    constructor (display: string)
      ensures width == STUB_WIDTH && height == STUB_HEIGHT
    {
      width, height := STUB_WIDTH, STUB_HEIGHT;
    }

    /** `input_size`: the dimensions fixed at construction. */
    function InputSize(): (s: Size)
      ensures s.w == width && s.h == height
    {
      Size(width, height)
    }

    /** `initialize`: nothing to set up; it always succeeds. */
    method Initialize() returns (r: Result<(), string>)
      ensures r.Ok?
    {
      r := Ok(());
    }

    /** `shutdown`: nothing to release; it always succeeds. */
    method Shutdown() returns (r: Result<(), string>)
      ensures r.Ok?
    {
      r := Ok(());
    }

    /** `capture_frame`: a fresh gradient frame of the input size, tightly
        packed, with no timestamp. */
    method CaptureFrame() returns (r: Result<BgraFrame, string>)
      ensures r.Ok? && r.value.data == Gradient(width, height)
      ensures r.value.width == InputSize().w && r.value.height == InputSize().h
      ensures r.value.stride == width * 4 && r.value.ptsNs == None
    {
      var w, h := width, height;
      var data := new byte[w * h * 4](_ => 0);
      var y, rowStart := 0, 0;
      while y < h
        invariant y <= h && rowStart == y * w * 4 && rowStart <= data.Length
        invariant forall i :: 0 <= i < rowStart ==> data[i] == GradientByte(w, h, i)
      {
        RowFits(w, h, y);
        FillRow(data, w, h, y, rowStart);
        y, rowStart := y + 1, rowStart + w * 4;
      }
      assert rowStart == data.Length;
      assert data[..] == Gradient(w, h);
      r := Ok(BgraFrame(data[..], w, h, w * 4, None));
    }
  }

  /** Row `y` of a `w`-by-`h` frame ends where row `y + 1` starts, inside
      the frame. */
  lemma RowFits(w: nat, h: nat, y: nat)
    requires y < h
    ensures y * w * 4 + w * 4 == (y + 1) * w * 4 <= w * h * 4
  {
    MulLeMono(y + 1, h, w * 4);
  }

  /** One pass of the outer loop of `capture_frame`: row `y` of the
      gradient, which starts at byte `rowStart`, written pixel by pixel
      after the rows above it. */
  method FillRow(data: array<byte>, w: nat, h: nat, y: nat, rowStart: nat)
    requires data.Length == w * h * 4 && y < h && rowStart == y * w * 4 && rowStart + w * 4 <= data.Length
    requires forall i :: 0 <= i < rowStart ==> data[i] == GradientByte(w, h, i)
    modifies data
    ensures forall i :: 0 <= i < rowStart + w * 4 ==> data[i] == GradientByte(w, h, i)
  {
    var x, base := 0, rowStart;
    while x < w
      invariant x <= w && base == rowStart + x * 4 && base <= rowStart + w * 4
      invariant forall i :: 0 <= i < base ==> data[i] == GradientByte(w, h, i)
    {
      assert base == (y * w + x) * 4;
      WritePixel(data, w, h, x, y, base);
      x, base := x + 1, base + 4;
    }
  }

  /** The body of the inner loop: the four channels of pixel `(x, y)`,
      which start at byte `base`. */
  method WritePixel(data: array<byte>, w: nat, h: nat, x: nat, y: nat, base: nat)
    requires data.Length == w * h * 4 && x < w && y < h && base == (y * w + x) * 4
    modifies data
    ensures base + 4 <= data.Length
    ensures forall i :: 0 <= i < base + 4 ==> data[i] == if i < base then old(data[i]) else GradientByte(w, h, i)
  {
    GradientAt(w, h, x, y, 0);
    GradientAt(w, h, x, y, 1);
    GradientAt(w, h, x, y, 2);
    GradientAt(w, h, x, y, 3);
    data[base] := 128;
    data[base + 1] := y * 255 / h;
    data[base + 2] := x * 255 / w;
    data[base + 3] := 255;
  }

  /** The repository's capture test: the stub's first frame is 1920x1080
      with a stride of 7680, and its top-left and bottom-right pixels
      differ in red and in green. */
  method StubFrameCorners()
  {
    var source := new FFmpegCaptureSource(":0");
    var r := source.CaptureFrame();
    var f := r.value;
    assert f.width == 1920 && f.height == 1080 && f.stride == 7680;
    GradientAt(1920, 1080, 0, 0, 1);
    GradientAt(1920, 1080, 0, 0, 2);
    GradientAt(1920, 1080, 1919, 1079, 1);
    GradientAt(1920, 1080, 1919, 1079, 2);
    var last := (1079 * 1920 + 1919) * 4;
    assert f.data[1] == 0 && f.data[2] == 0;
    assert f.data[last + 1] == 254 && f.data[last + 2] == 254;
  }
}
