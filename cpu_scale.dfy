// The CPU scaler shell: the checks `scale_bgra_cpu` makes before resizing,
// the compaction of strided rows into a growable staging buffer, the
// background fill for padded plans, and where the resized pixels land in
// the destination. The resampling itself belongs to a foreign library and
// is a parameter: a function giving each byte of the destination view.

module CpuScale {
  import opened Common
  import opened Arith
  import opened Presets

  datatype ScaleError = BufferTooSmall | StrideMismatchAndNoStaging | Fir | ImageBuf | Crop
  {
    /** The `Display` text; the three wrapped library errors append the
        library's own message, which is not modelled. */
    function Message(): (m: string)
      ensures |m| > 0
    {
      match this
      case BufferTooSmall => "Output buffer too small"
      case StrideMismatchAndNoStaging => "Stride mismatch but no staging buffer provided"
      case Fir => "Fast image resize error: "
      case ImageBuf => "Image buffer error: "
      case Crop => "Crop error: "
    }
  }

  /** Byte `(row, byteColumn)` of a destination view of the given size,
      resampled from a tightly packed source of the given size. */
  type Resampler = (seq<byte>, Size, Size, nat, nat) -> byte

  /** Bytes of a tightly packed BGRA image: `w * h * 4`. */
  function PixelBytes(s: Size): nat
  {
    s.w * s.h * 4
  }

  // ---------------------------------------------------------------------
  // Staging

  /** `buf` grown to at least `n` bytes with zeros (`Vec::resize(n, 0)`
      when shorter, nothing otherwise). */
  function Grown(buf: seq<byte>, n: nat): (g: seq<byte>)
    ensures |g| == Max(|buf|, n)
    ensures g[..|buf|] == buf
    ensures forall i :: |buf| <= i < |g| ==> g[i] == 0
  {
    if |buf| < n then buf + Zeros(n - |buf|) else buf
  }

  /** Scratch space strided rows are compacted into; it only ever grows. */
  class Staging {
    var buf: seq<byte>

    /** `with_capacity`: an empty buffer (capacity is not observable). */
    constructor WithCapacity(cap: nat)
      ensures buf == []
    {
      buf := [];
    }

    method EnsureLen(len: nat)
      modifies this
      ensures buf == Grown(old(buf), len)
    {
      if |buf| < len {
        buf := buf + Zeros(len - |buf|);
      }
    }
  }

  // ---------------------------------------------------------------------
  // Row compaction

  /** The tightly packed concatenation of `n` rows of `rowBytes` bytes,
      row `r` starting at `base + r * pitch` in `src`. */
  function Rows(src: seq<byte>, base: nat, pitch: nat, rowBytes: nat, n: nat): (out: seq<byte>)
    requires n == 0 || base + (n - 1) * pitch + rowBytes <= |src|
    ensures |out| == n * rowBytes
  {
    if n == 0 then []
    else
      MulLeMono(n - 2, n - 1, pitch);
      var start := base + (n - 1) * pitch;
      Rows(src, base, pitch, rowBytes, n - 1) + src[start..start + rowBytes]
  }

  /** Byte `k` of packed row `r` is byte `k` of source row `r`. */
  lemma {:induction false} RowsAt(src: seq<byte>, base: nat, pitch: nat, rowBytes: nat, n: nat, r: nat, k: nat)
    requires n == 0 || base + (n - 1) * pitch + rowBytes <= |src|
    requires r < n && k < rowBytes
    ensures r * rowBytes + k < n * rowBytes
    ensures base + r * pitch + k < |src|
    ensures Rows(src, base, pitch, rowBytes, n)[r * rowBytes + k] == src[base + r * pitch + k]
    decreases n, 1
  {
    RowBounds(base, pitch, rowBytes, n, r, k, |src|);
    if r < n - 1 {
      RowsAtEarlier(src, base, pitch, rowBytes, n, r, k);
    } else {
      RowsAtLast(src, base, pitch, rowBytes, n, k);
    }
  }

  lemma {:induction false} RowsAtEarlier(src: seq<byte>, base: nat, pitch: nat, rowBytes: nat, n: nat, r: nat, k: nat)
    requires base + (n - 1) * pitch + rowBytes <= |src|
    requires r < n - 1 && k < rowBytes
    ensures r * rowBytes + k < n * rowBytes
    ensures base + r * pitch + k < |src|
    ensures Rows(src, base, pitch, rowBytes, n)[r * rowBytes + k] == src[base + r * pitch + k]
    decreases n, 0
  {
    RowBounds(base, pitch, rowBytes, n, r, k, |src|);
    RowsAt(src, base, pitch, rowBytes, n - 1, r, k);
  }

  lemma RowsAtLast(src: seq<byte>, base: nat, pitch: nat, rowBytes: nat, n: nat, k: nat)
    requires n > 0 && base + (n - 1) * pitch + rowBytes <= |src|
    requires k < rowBytes
    ensures (n - 1) * rowBytes + k < n * rowBytes
    ensures Rows(src, base, pitch, rowBytes, n)[(n - 1) * rowBytes + k] == src[base + (n - 1) * pitch + k]
  {
    assert (n - 1) * rowBytes + rowBytes == n * rowBytes;
  }

  /** The index arithmetic of `RowsAt`. */
  lemma RowBounds(base: nat, pitch: nat, rowBytes: nat, n: nat, r: nat, k: nat, len: nat)
    requires base + (n - 1) * pitch + rowBytes <= len
    requires r < n && k < rowBytes
    ensures r * rowBytes + k < n * rowBytes
    ensures base + r * pitch + k < len
    ensures n >= 2 ==> base + (n - 2) * pitch + rowBytes <= len
    ensures r < n - 1 ==> r * rowBytes + k < (n - 1) * rowBytes
    ensures r == n - 1 ==> r * rowBytes == (n - 1) * rowBytes
  {
    MulLeMono(r, n - 1, pitch);
    MulLeMono(r + 1, n, rowBytes);
    if n >= 2 {
      MulLeMono(n - 2, n - 1, pitch);
    }
    if r < n - 1 {
      MulLeMono(r + 1, n - 1, rowBytes);
    }
  }

  /** Prefix of the packed rows: the first `m` rows of `n`. */
  lemma {:induction false} RowsPrefix(src: seq<byte>, base: nat, pitch: nat, rowBytes: nat, n: nat, m: nat)
    requires n == 0 || base + (n - 1) * pitch + rowBytes <= |src|
    requires m <= n
    ensures m == 0 || base + (m - 1) * pitch + rowBytes <= |src|
    ensures m * rowBytes <= n * rowBytes
    ensures Rows(src, base, pitch, rowBytes, n)[..m * rowBytes] == Rows(src, base, pitch, rowBytes, m)
  {
    MulLeMono(m, n, rowBytes);
    if m > 0 {
      MulLeMono(m - 1, n - 1, pitch);
    }
    if m < n {
      MulLeMono(n - 2, n - 1, pitch);
      RowsPrefix(src, base, pitch, rowBytes, n - 1, m);
      MulLeMono(m, n - 1, rowBytes);
    }
  }

  /** Appending one more row to the packed prefix. */
  lemma RowsStep(src: seq<byte>, base: nat, pitch: nat, rowBytes: nat, r: nat, n: nat)
    requires r < n && base + (n - 1) * pitch + rowBytes <= |src|
    ensures base + r * pitch + rowBytes <= |src|
    ensures (r + 1) * rowBytes == r * rowBytes + rowBytes
    ensures Rows(src, base, pitch, rowBytes, r + 1)
         == Rows(src, base, pitch, rowBytes, r) + src[base + r * pitch..base + r * pitch + rowBytes]
  {
    MulLeMono(r, n - 1, pitch);
  }

  /** `compact_rows`: copies row `r` of the strided source, `rows` rows in
      all, to `dst[r * rowBytes..(r + 1) * rowBytes]`. The destination is
      the staging buffer; a source or destination too short panics. */
  method CompactRows(src: seq<byte>, pitch: nat, st: Staging, rowBytes: nat, rows: nat)
    requires rows == 0 || (rows - 1) * pitch + rowBytes <= |src|
    requires rows * rowBytes <= |st.buf|
    modifies st
    ensures |st.buf| == old(|st.buf|)
    ensures st.buf[..rows * rowBytes] == Rows(src, 0, pitch, rowBytes, rows)
    ensures st.buf[rows * rowBytes..] == old(st.buf[rows * rowBytes..])
  {
    ghost var orig := st.buf;
    for r := 0 to rows
      invariant |st.buf| == |orig|
      invariant r * rowBytes <= rows * rowBytes
      invariant st.buf[..r * rowBytes] == Rows(src, 0, pitch, rowBytes, r)
      invariant st.buf[r * rowBytes..] == orig[r * rowBytes..]
    {
      RowsStep(src, 0, pitch, rowBytes, r, rows);
      MulLeMono(r + 1, rows, rowBytes);
      var s := src[r * pitch..r * pitch + rowBytes];
      var off := r * rowBytes;
      ghost var before := st.buf;
      st.buf := st.buf[..off] + s + st.buf[off + rowBytes..];
      assert st.buf[..off + rowBytes] == before[..off] + s;
      assert st.buf[off + rowBytes..] == before[off + rowBytes..];
    }
  }

  /** The staging buffer after the strided path of `scale_bgra_cpu`:
      grown to the packed size, then the packed rows written over its
      prefix. */
  function Staged(buf: seq<byte>, src: seq<byte>, srcSize: Size, pitch: nat): (s: seq<byte>)
    requires srcSize.h == 0 || (srcSize.h - 1) * pitch + srcSize.w * 4 <= |src|
    ensures |s| == Max(|buf|, PixelBytes(srcSize))
    ensures s[..PixelBytes(srcSize)] == Rows(src, 0, pitch, srcSize.w * 4, srcSize.h)
  {
    var g := Grown(buf, srcSize.w * 4 * srcSize.h);
    assert srcSize.h * (srcSize.w * 4) == PixelBytes(srcSize) == srcSize.w * 4 * srcSize.h;
    Rows(src, 0, pitch, srcSize.w * 4, srcSize.h) + g[PixelBytes(srcSize)..]
  }

  // ---------------------------------------------------------------------
  // Background fill

  /** `s` after `fill_bgra(&mut s[..n], bg)`: every complete 4-byte group
      of the first `n` bytes is `bg`, everything else is unchanged. */
  function Filled(s: seq<byte>, n: nat, bg: Rgba): (f: seq<byte>)
    requires n <= |s|
    ensures |f| == |s|
  {
    seq(|s|, i requires 0 <= i < |s| => if i < n / 4 * 4 then bg[i % 4] else s[i])
  }

  method FillBgra(dst: array<byte>, n: nat, bg: Rgba)
    requires n <= dst.Length
    modifies dst
    ensures dst[..] == Filled(old(dst[..]), n, bg)
  {
    ghost var orig := dst[..];
    var i := 0;
    while i + 4 <= n
      invariant i % 4 == 0 && i <= n
      invariant forall j :: 0 <= j < i ==> dst[j] == bg[j % 4]
      invariant forall j :: i <= j < dst.Length ==> dst[j] == orig[j]
    {
      dst[i] := bg[0];
      dst[i + 1] := bg[1];
      dst[i + 2] := bg[2];
      dst[i + 3] := bg[3];
      i := i + 4;
    }
    assert i == n / 4 * 4;
  }

  /** The background a plan paints before resizing: `Filled` for Pad,
      nothing otherwise. */
  function Background(canvas: seq<byte>, n: nat, aspect: AspectMode): (b: seq<byte>)
    requires n <= |canvas|
    ensures |b| == |canvas|
  {
    if aspect.Pad? then Filled(canvas, n, aspect.bgRgba) else canvas
  }

  // ---------------------------------------------------------------------
  // Where the resized pixels land

  /** The region the resizer writes: the ROI, or the whole canvas. */
  function ViewRoi(plan: ScalePlan): Roi
  {
    match plan.dstRoi
    case Some(roi) => roi
    case None => Roi(0, 0, plan.out.w, plan.out.h)
  }

  /** `TypedCroppedImageMut::from_ref` accepts the region. */
  predicate RoiFits(v: Roi, out: Size)
  {
    v.x + v.w <= out.w && v.y + v.h <= out.h
  }

  /** Byte `i` of a tightly packed `out`-sized canvas lies in region `v`. */
  predicate InView(i: nat, out: Size, v: Roi)
  {
    && out.w > 0
    && i < PixelBytes(out)
    && v.y <= i / (4 * out.w) < v.y + v.h
    && 4 * v.x <= i % (4 * out.w) < 4 * (v.x + v.w)
  }

  /** The canvas after the resizer has written view `v`: each byte inside
      the view is the resampled byte at its row and byte column within the
      view; every other byte is as before. */
  function ScaledOutput(canvas: seq<byte>, out: Size, v: Roi, pixels: seq<byte>, srcSize: Size, resample: Resampler): (d: seq<byte>)
    ensures |d| == |canvas|
  {
    seq(|canvas|, i requires 0 <= i < |canvas| =>
      if InView(i, out, v)
      then resample(pixels, srcSize, Size(v.w, v.h), i / (4 * out.w) - v.y, i % (4 * out.w) - 4 * v.x)
      else canvas[i])
  }

  /** Byte `k` of row `r` of the view sits at `(v.y + r) * 4w + 4 v.x + k`
      and holds the resampled byte there. */
  lemma ViewPixelAt(canvas: seq<byte>, out: Size, v: Roi, pixels: seq<byte>, srcSize: Size, resample: Resampler, r: nat, k: nat)
    requires RoiFits(v, out) && PixelBytes(out) <= |canvas|
    requires r < v.h && k < 4 * v.w
    ensures (v.y + r) * (4 * out.w) + 4 * v.x + k < PixelBytes(out)
    ensures ScaledOutput(canvas, out, v, pixels, srcSize, resample)[(v.y + r) * (4 * out.w) + 4 * v.x + k]
         == resample(pixels, srcSize, Size(v.w, v.h), r, k)
  {
    var i := (v.y + r) * (4 * out.w) + 4 * v.x + k;
    DivModUnique(i, 4 * out.w, v.y + r, 4 * v.x + k);
    MulLeMono(v.y + r + 1, out.h, 4 * out.w);
    assert PixelBytes(out) == out.h * (4 * out.w);
  }

  /** Outside the view — in particular past the canvas — nothing changes. */
  lemma OutsideViewUnchanged(canvas: seq<byte>, out: Size, v: Roi, pixels: seq<byte>, srcSize: Size, resample: Resampler, i: nat)
    requires i < |canvas| && !InView(i, out, v)
    ensures ScaledOutput(canvas, out, v, pixels, srcSize, resample)[i] == canvas[i]
  {
  }

  /** A padded canvas: every complete group outside the view is the
      background colour, and bytes past the canvas are untouched. */
  lemma PaddedCanvas(canvas: seq<byte>, out: Size, v: Roi, bg: Rgba, pixels: seq<byte>, srcSize: Size, resample: Resampler, i: nat)
    requires PixelBytes(out) <= |canvas| && i < |canvas| && !InView(i, out, v)
    ensures var d := ScaledOutput(Filled(canvas, PixelBytes(out), bg), out, v, pixels, srcSize, resample);
      && (i < PixelBytes(out) ==> d[i] == bg[i % 4])
      && (i >= PixelBytes(out) ==> d[i] == canvas[i])
  {
    assert PixelBytes(out) / 4 * 4 == PixelBytes(out);
  }

  /** The resize: an opaque write of view `v` of the canvas. */
  method Resize(dst: array<byte>, out: Size, v: Roi, pixels: seq<byte>, srcSize: Size, resample: Resampler)
    requires PixelBytes(out) <= dst.Length
    modifies dst
    ensures dst[..] == ScaledOutput(old(dst[..]), out, v, pixels, srcSize, resample)
  {
    forall i | 0 <= i < dst.Length && InView(i, out, v) {
      dst[i] := resample(pixels, srcSize, Size(v.w, v.h), i / (4 * out.w) - v.y, i % (4 * out.w) - 4 * v.x);
    }
  }

  // ---------------------------------------------------------------------
  // scale_bgra_cpu

  /** The source rows are strided: a pitch is given and it is not `w * 4`. */
  predicate Strided(srcSize: Size, stride: Option<nat>)
  {
    stride.Some? && stride.value != srcSize.w * 4
  }

  /** `compact_rows` would read past the source (a panic): only reached
      when the destination is large enough and a staging buffer exists. */
  predicate CompactionInBounds(src: seq<byte>, srcSize: Size, stride: Option<nat>)
  {
    Strided(srcSize, stride) ==>
      srcSize.h == 0 || (srcSize.h - 1) * stride.value + srcSize.w * 4 <= |src|
  }

  /** The tightly packed pixels the resizer reads: the compacted rows of a
      strided source, otherwise its first `w * h * 4` bytes. */
  function SourcePixels(src: seq<byte>, srcSize: Size, stride: Option<nat>): (p: seq<byte>)
    requires CompactionInBounds(src, srcSize, stride)
    requires !Strided(srcSize, stride) ==> |src| >= PixelBytes(srcSize)
    ensures |p| == PixelBytes(srcSize)
  {
    if Strided(srcSize, stride) then
      assert srcSize.h * (srcSize.w * 4) == PixelBytes(srcSize);
      Rows(src, 0, stride.value, srcSize.w * 4, srcSize.h)
    else src[..PixelBytes(srcSize)]
  }

  /** `scale_bgra_cpu`. In order: the destination must hold the canvas;
      strided input needs a staging buffer and is compacted into it; the
      source view must hold `w * h * 4` bytes; a padded plan fills the
      canvas with the background; the region must fit the canvas; then the
      view is resized into. */
  method ScaleBgraCpu(src: seq<byte>, srcSize: Size, stride: Option<nat>, plan: ScalePlan,
                      dst: array<byte>, staging: Staging?, resample: Resampler)
      returns (r: Result<(), ScaleError>)
    requires dst.Length >= PixelBytes(plan.out) && staging != null ==> CompactionInBounds(src, srcSize, stride)
    modifies dst, staging
    ensures dst.Length < PixelBytes(plan.out) ==>
      r == Err(BufferTooSmall) && dst[..] == old(dst[..]) && (staging != null ==> staging.buf == old(staging.buf))
    ensures dst.Length >= PixelBytes(plan.out) && Strided(srcSize, stride) && staging == null ==>
      r == Err(StrideMismatchAndNoStaging) && dst[..] == old(dst[..])
    ensures dst.Length >= PixelBytes(plan.out) && Strided(srcSize, stride) && staging != null ==>
      staging.buf == Staged(old(staging.buf), src, srcSize, stride.value)
    ensures dst.Length >= PixelBytes(plan.out) && !Strided(srcSize, stride) ==>
      (staging != null ==> staging.buf == old(staging.buf))
    ensures dst.Length >= PixelBytes(plan.out) && !Strided(srcSize, stride) && |src| < PixelBytes(srcSize) ==>
      r == Err(ImageBuf) && dst[..] == old(dst[..])
    ensures dst.Length >= PixelBytes(plan.out) && (Strided(srcSize, stride) ==> staging != null)
            && (!Strided(srcSize, stride) ==> |src| >= PixelBytes(srcSize)) ==>
      var canvas := Background(old(dst[..]), PixelBytes(plan.out), plan.aspect);
      var pixels := if Strided(srcSize, stride) then staging.buf[..PixelBytes(srcSize)] else src[..PixelBytes(srcSize)];
      && (!RoiFits(ViewRoi(plan), plan.out) ==> r == Err(Crop) && dst[..] == canvas)
      && (RoiFits(ViewRoi(plan), plan.out) ==>
            r == Ok(()) && dst[..] == ScaledOutput(canvas, plan.out, ViewRoi(plan), pixels, srcSize, resample))
    ensures r.Ok? ==>
      && dst.Length >= PixelBytes(plan.out) && (Strided(srcSize, stride) ==> staging != null)
      && CompactionInBounds(src, srcSize, stride)
      && (!Strided(srcSize, stride) ==> |src| >= PixelBytes(srcSize))
      && RoiFits(ViewRoi(plan), plan.out)
      && dst[..] == ScaledOutput(Background(old(dst[..]), PixelBytes(plan.out), plan.aspect), plan.out, ViewRoi(plan),
                                 SourcePixels(src, srcSize, stride), srcSize, resample)
  {
    var dstLen := PixelBytes(plan.out);
    if dst.Length < dstLen {
      return Err(BufferTooSmall);
    }
    var tight := srcSize.w * 4;
    var view: seq<byte>;
    if stride.Some? && stride.value != tight {
      if staging == null {
        return Err(StrideMismatchAndNoStaging);
      }
      staging.EnsureLen(tight * srcSize.h);
      assert srcSize.h * tight == tight * srcSize.h == PixelBytes(srcSize);
      CompactRows(src, stride.value, staging, tight, srcSize.h);
      assert staging.buf == Staged(old(staging.buf), src, srcSize, stride.value);
      view := staging.buf;
    } else {
      view := src;
    }
    if |view| < PixelBytes(srcSize) {
      return Err(ImageBuf);
    }
    var pixels := view[..PixelBytes(srcSize)];
    if plan.aspect.Pad? {
      FillBgra(dst, dstLen, plan.aspect.bgRgba);
    }
    var v := ViewRoi(plan);
    if !RoiFits(v, plan.out) {
      return Err(Crop);
    }
    Resize(dst, plan.out, v, pixels, srcSize, resample);
    r := Ok(());
  }
}
