// The RTSP crate's in-memory logic: building BGRA frames with clocked
// timestamps, laying Gundam tiles and the global view out on one composite
// canvas, the bounded hand-off queue between the capture side and the
// server thread, and the timestamp stepping of the push worker.

module Rtsp {
  import opened Common
  import opened Arith

  /** A BGRA frame as handed to the streaming server. */
  datatype BgraFrame = BgraFrame(
    data: seq<byte>,
    width: nat,
    height: nat,
    stride: nat,
    ptsNs: Option<nat>)

  const NANOS_PER_SECOND: nat := 1_000_000_000

  /** Capacity of the queue between `send` and the server thread. */
  const QUEUE_CAPACITY: nat := 3

  const QUEUE_FULL := "rtsp queue full; frame dropped"
  const THREAD_ENDED := "rtsp server thread ended"

  /** Nanoseconds per frame, `1e9 / max(fps, 1)` in integer division. */
  function FrameDuration(fps: nat): (d: nat)
    ensures fps <= 1 ==> d == NANOS_PER_SECOND
    ensures d <= NANOS_PER_SECOND
  {
    NANOS_PER_SECOND / Max(fps, 1)
  }

  /** `frame_from_bgra`: a tightly packed frame stamped with the time of
      frame number `idx` at `fps`. */
  function FrameFromBgra(bytes: seq<byte>, width: nat, height: nat, fps: nat, idx: nat): (f: BgraFrame)
    ensures f.data == bytes && f.width == width && f.height == height
    ensures f.stride == width * 4
    ensures f.ptsNs.Some? && f.ptsNs.value == idx * FrameDuration(fps)
  {
    BgraFrame(bytes, width, height, width * 4, Some(idx * FrameDuration(fps)))
  }

  /** Consecutive frames are exactly one frame duration apart, starting at
      zero, so timestamps strictly increase at any frame rate up to one
      frame per nanosecond (beyond it the duration is 0). */
  lemma FrameTimestampsSpaced(bytes: seq<byte>, width: nat, height: nat, fps: nat, idx: nat)
    ensures FrameFromBgra(bytes, width, height, fps, 0).ptsNs == Some(0)
    ensures FrameFromBgra(bytes, width, height, fps, idx + 1).ptsNs.value
            == FrameFromBgra(bytes, width, height, fps, idx).ptsNs.value + FrameDuration(fps)
    ensures fps <= NANOS_PER_SECOND ==>
      FrameFromBgra(bytes, width, height, fps, idx).ptsNs.value
        < FrameFromBgra(bytes, width, height, fps, idx + 1).ptsNs.value
  {
    var d := FrameDuration(fps);
    assert (idx + 1) * d == idx * d + d;
    if fps <= NANOS_PER_SECOND {
      DivGeBound(NANOS_PER_SECOND, Max(fps, 1), 1);
    }
  }

  lemma FrameDurationExamples()
    ensures FrameDuration(30) == 33_333_333
    ensures FrameDuration(60) == 16_666_666
    ensures FrameDuration(0) == FrameDuration(1) == 1_000_000_000
  {
  }

  // ---------------------------------------------------------------------
  // Composite grid
  // ---------------------------------------------------------------------

  /** Smallest `c >= start` whose square reaches `m`. */
  function CeilSqrtFrom(m: nat, start: nat): (c: nat)
    requires start == 0 || (start - 1) * (start - 1) < m
    ensures c * c >= m && c >= start
    ensures c == 0 || (c - 1) * (c - 1) < m
    decreases m - start
  {
    if start * start >= m then start
    else
      assert start < m by {
        if start > 0 { MulLeMono(1, start, start); }
      }
      CeilSqrtFrom(m, start + 1)
  }

  /** `ceil(sqrt(m))`: the least `c` with `c * c >= m`. */
  function CeilSqrt(m: nat): (c: nat)
    ensures c * c >= m
    ensures forall d: nat :: d * d >= m ==> c <= d
  {
    var c := CeilSqrtFrom(m, 0);
    assert forall d: nat :: d * d >= m ==> c <= d by {
      forall d: nat | d * d >= m
        ensures c <= d
      {
        if d < c {
          MulLeMono(d, c - 1, d);
          MulLeMono(d, c - 1, c - 1);
        }
      }
    }
    c
  }

  /** Columns of the composite grid for `n` tiles plus the global view. */
  function GridCols(n: nat): nat
  {
    Max(CeilSqrt(n + 1), 1)
  }

  /** Rows of the composite grid, `ceil((n + 1) / cols)` floored at 1. */
  function GridRows(n: nat): nat
  {
    Max(CeilDiv(n + 1, GridCols(n)), 1)
  }

  /** Grid cell of canvas pixel `(px, py)`, numbered row by row. */
  function CellOf(ts: nat, cols: nat, px: nat, py: nat): nat
    requires ts > 0
  {
    (py / ts) * cols + px / ts
  }

  /** First byte of pixel `(x, y)` in a BGRA image `w` pixels wide. */
  function PixelOffset(w: nat, x: nat, y: nat): nat
  {
    (y * w + x) * 4
  }

  /** Left or top edge of grid cell column or row `c`. */
  function CellOrigin(c: nat, ts: nat): nat
  {
    c * ts
  }

  lemma CellOriginAligned(c: nat, ts: nat)
    requires ts > 0
    ensures CellOrigin(c, ts) % ts == 0 && CellOrigin(c, ts) / ts == c
  {
    DivModOfSum(c, ts, 0);
  }

  /** Byte `k` of pixel `(px, py)` in a BGRA canvas `fw` pixels wide. */
  function Idx(fw: nat, fh: nat, px: nat, py: nat, k: nat): (i: nat)
    requires px < fw && py < fh && k < 4
    ensures i < fw * fh * 4
  {
    RowMajorBound(px, py, fw, fh);
    PixelOffset(fw, px, py) + k
  }

  /** How a cell's pixels are fetched from its source buffer. */
  datatype Sampling =
    | TileSampling(tileSide: nat)
    | GlobalSampling(tileSide: nat, globalSide: nat)

  /** Byte offset in the source of cell pixel `(x, y)`, or None when the
      sampled coordinates fall outside the source image. The global view is
      sampled at `x * globalSide / tileSide`, the exact value of the
      nearest-neighbour division. */
  function SourceIndex(how: Sampling, x: nat, y: nat): Option<nat>
  {
    match how
    case TileSampling(ts) => Some(PixelOffset(ts, x, y))
    case GlobalSampling(ts, gs) =>
      if ts == 0 then None
      else
        var sx := x * gs / ts;
        var sy := y * gs / ts;
        if sx < gs && sy < gs then Some(PixelOffset(gs, sx, sy)) else None
  }

  /** Byte `k` copied from `src` at `at`, or `keep` when the four source
      bytes are not all present. */
  function Sample(src: seq<byte>, at: Option<nat>, k: nat, keep: byte): byte
    requires k < 4
  {
    if at.Some? && at.value + 3 < |src| then src[at.value + k] else keep
  }

  function CellData(tiles: seq<seq<byte>>, global: seq<byte>, i: nat): seq<byte>
  {
    if i < |tiles| then tiles[i] else global
  }

  function CellSampling(ts: nat, gs: nat, n: nat, i: nat): Sampling
  {
    if i < n then TileSampling(ts) else GlobalSampling(ts, gs)
  }

  /** What the composite holds at byte `k` of pixel `(px, py)`: tile `i`
      in cell `i`, the global view in cell `n`, white elsewhere and wherever
      the source lacks the pixel. */
  function CompositeByte(tiles: seq<seq<byte>>, global: seq<byte>, ts: nat, gs: nat, cols: nat,
                         px: nat, py: nat, k: nat): byte
    requires ts > 0 && k < 4
  {
    var i := CellOf(ts, cols, px, py);
    if i <= |tiles| then
      Sample(CellData(tiles, global, i), SourceIndex(CellSampling(ts, gs, |tiles|, i), px % ts, py % ts), k, 255)
    else 255
  }

  /** The composite after the cells before `upto` are drawn. */
  function StageByte(tiles: seq<seq<byte>>, global: seq<byte>, ts: nat, gs: nat, cols: nat,
                     upto: nat, px: nat, py: nat, k: nat): byte
    requires ts > 0 && k < 4
  {
    if CellOf(ts, cols, px, py) < upto then CompositeByte(tiles, global, ts, gs, cols, px, py, k) else 255
  }

  predicate InBlock(px: nat, py: nat, dx: nat, dy: nat, side: nat)
  {
    dx <= px < dx + side && dy <= py < dy + side
  }

  /** Byte `k` of pixel `(px, py)` once a `side`-square block from `src`
      has been copied onto `before` at `(dx, dy)`. */
  function BlockByte(before: seq<byte>, fw: nat, fh: nat, dx: nat, dy: nat, side: nat,
                     src: seq<byte>, how: Sampling, px: nat, py: nat, k: nat): byte
    requires |before| == fw * fh * 4 && px < fw && py < fh && k < 4
  {
    Drawn(dx, dy, side, src, how, px, py, k, before[Idx(fw, fh, px, py, k)])
  }

  /** Byte `k` of pixel `(px, py)`, which held `keep`, after the block is
      drawn. */
  function Drawn(dx: nat, dy: nat, side: nat, src: seq<byte>, how: Sampling,
                 px: nat, py: nat, k: nat, keep: byte): byte
    requires k < 4
  {
    if InBlock(px, py, dx, dy, side) then Sample(src, SourceIndex(how, px - dx, py - dy), k, keep)
    else keep
  }

  /** Block pixels copied so far: rows above `y`, and row `y` left of `x`. */
  predicate Copied(px: nat, py: nat, dx: nat, dy: nat, side: nat, y: nat, x: nat)
  {
    dx <= px < dx + side && dy <= py && (py < dy + y || (py == dy + y && px < dx + x))
  }

  function PartialByte(before: seq<byte>, fw: nat, fh: nat, dx: nat, dy: nat, side: nat,
                       src: seq<byte>, how: Sampling, y: nat, x: nat, px: nat, py: nat, k: nat): byte
    requires |before| == fw * fh * 4 && px < fw && py < fh && k < 4
  {
    var keep := before[Idx(fw, fh, px, py, k)];
    if Copied(px, py, dx, dy, side, y, x) then Sample(src, SourceIndex(how, px - dx, py - dy), k, keep)
    else keep
  }

  /** Distinct pixels occupy disjoint 4-byte groups. */
  lemma IdxApart(fw: nat, fh: nat, px: nat, py: nat, qx: nat, qy: nat, k: nat)
    requires px < fw && py < fh && qx < fw && qy < fh && k < 4
    requires px != qx || py != qy
    ensures Idx(fw, fh, qx, qy, k) < Idx(fw, fh, px, py, 0) || Idx(fw, fh, px, py, 3) < Idx(fw, fh, qx, qy, k)
  {
    if py * fw + px == qy * fw + qx {
      RowMajorInjective(px, py, qx, qy, fw);
    }
  }

  /** Overwrites pixel `(px, py)` with the four bytes of `pixel`. */
  method PutPixel(canvas: array<byte>, fw: nat, fh: nat, px: nat, py: nat, pixel: seq<byte>)
    requires canvas.Length == fw * fh * 4 && px < fw && py < fh && |pixel| == 4
    modifies canvas
    ensures forall qx: nat, qy: nat, k: nat | qx < fw && qy < fh && k < 4 ::
      canvas[Idx(fw, fh, qx, qy, k)] ==
        if qx == px && qy == py then pixel[k] else old(canvas[Idx(fw, fh, qx, qy, k)])
  {
    var d := Idx(fw, fh, px, py, 0);
    assert d + 3 == Idx(fw, fh, px, py, 3);
    canvas[d] := pixel[0];
    canvas[d + 1] := pixel[1];
    canvas[d + 2] := pixel[2];
    canvas[d + 3] := pixel[3];
    forall qx: nat, qy: nat, k: nat | qx < fw && qy < fh && k < 4 && (qx != px || qy != py)
      ensures canvas[Idx(fw, fh, qx, qy, k)] == old(canvas[Idx(fw, fh, qx, qy, k)])
    {
      IdxApart(fw, fh, px, py, qx, qy, k);
    }
  }

  /** Copies a `side`-square block of `src`, sampled as `how` says, onto the
      canvas at `(dx, dy)`; a pixel whose source bytes are missing keeps its
      old value. */
  method CopyBlock(canvas: array<byte>, fw: nat, fh: nat, dx: nat, dy: nat, side: nat,
                   src: seq<byte>, how: Sampling)
    requires canvas.Length == fw * fh * 4 && dx + side <= fw && dy + side <= fh
    modifies canvas
    ensures forall px: nat, py: nat, k: nat | px < fw && py < fh && k < 4 ::
      canvas[Idx(fw, fh, px, py, k)] == BlockByte(old(canvas[..]), fw, fh, dx, dy, side, src, how, px, py, k)
  {
    ghost var before := canvas[..];
    for y := 0 to side
      invariant forall px: nat, py: nat, k: nat | px < fw && py < fh && k < 4 ::
        canvas[Idx(fw, fh, px, py, k)] == PartialByte(before, fw, fh, dx, dy, side, src, how, y, 0, px, py, k)
    {
      for x := 0 to side
        invariant forall px: nat, py: nat, k: nat | px < fw && py < fh && k < 4 ::
          canvas[Idx(fw, fh, px, py, k)] == PartialByte(before, fw, fh, dx, dy, side, src, how, y, x, px, py, k)
      {
        var at := SourceIndex(how, x, y);
        if at.Some? {
          var s := at.value;
          var dst := Idx(fw, fh, dx + x, dy + y, 0);
          assert dst + 3 == Idx(fw, fh, dx + x, dy + y, 3);
          if s + 3 < |src| && dst + 3 < canvas.Length {
            PutPixel(canvas, fw, fh, dx + x, dy + y, src[s..s + 4]);
          }
        }
      }
    }
  }

  /** A cell `i` inside the grid is a `ts`-square block that fits the canvas. */
  lemma CellFits(i: nat, cols: nat, rows: nat, ts: nat)
    requires cols > 0 && i < cols * rows
    ensures CellOrigin(i % cols, ts) + ts <= cols * ts
    ensures CellOrigin(i / cols, ts) + ts <= rows * ts
  {
    MulLeMono(i % cols + 1, cols, ts);
    DivLtBound(i, cols, rows);
    MulLeMono(i / cols + 1, rows, ts);
  }

  /** Along one axis: a coordinate lies in the `c`-th span of width `ts`
      exactly when its quotient by `ts` is `c`, and then its offset in the
      span is its remainder. */
  lemma SpanIsQuotient(p: nat, ts: nat, c: nat)
    requires ts > 0
    ensures c * ts <= p < c * ts + ts <==> p / ts == c
    ensures c * ts <= p < c * ts + ts ==> p - c * ts == p % ts
  {
    if c * ts <= p < c * ts + ts {
      DivModUnique(p, ts, c, p - c * ts);
    }
    if p / ts == c {
      assert p == c * ts + p % ts;
    }
  }

  /** A cell number is its row times `cols` plus its column, and nothing else. */
  lemma CellNumber(i: nat, cols: nat, cx: nat, cy: nat)
    requires cols > 0 && cx < cols
    ensures cy * cols + cx == i <==> cy == i / cols && cx == i % cols
  {
    if cy * cols + cx == i {
      DivModUnique(i, cols, cy, cx);
    }
  }

  /** Pixel `(px, py)` lies in the block of cell `i` exactly when its
      quotients by the cell side are cell `i`'s column and row. */
  lemma InBlockIff(ts: nat, cols: nat, i: nat, px: nat, py: nat)
    requires ts > 0 && cols > 0
    ensures InBlock(px, py, CellOrigin(i % cols, ts), CellOrigin(i / cols, ts), ts)
      <==> px / ts == i % cols && py / ts == i / cols
  {
    SpanIsQuotient(px, ts, i % cols);
    SpanIsQuotient(py, ts, i / cols);
  }

  /** Pixel `(px, py)` has cell number `i` exactly when its quotients by the
      cell side are cell `i`'s column and row. */
  lemma CellOfIff(ts: nat, cols: nat, i: nat, px: nat, py: nat)
    requires ts > 0 && cols > 0 && px < cols * ts
    ensures CellOf(ts, cols, px, py) == i <==> px / ts == i % cols && py / ts == i / cols
  {
    DivLtBound(px, ts, cols);
    CellNumber(i, cols, px / ts, py / ts);
  }

  /** Inside the block of a cell, a pixel's offset from the block's corner
      is its offset within the cell. */
  lemma BlockOffset(ts: nat, dx: nat, dy: nat, px: nat, py: nat)
    requires ts > 0 && dx % ts == 0 && dy % ts == 0 && InBlock(px, py, dx, dy, ts)
    ensures px - dx == px % ts && py - dy == py % ts
  {
    DivModUnique(px, ts, dx / ts, px - dx);
    DivModUnique(py, ts, dy / ts, py - dy);
  }

  /** Drawing cell `i` moves the canvas from stage `i` to stage `i + 1`. */
  lemma CellStep(c0: seq<byte>, c1: seq<byte>, tiles: seq<seq<byte>>, global: seq<byte>,
                 ts: nat, gs: nat, cols: nat, rows: nat, i: nat)
    requires ts > 0 && cols > 0 && i <= |tiles|
    requires |c0| == |c1| == (cols * ts) * (rows * ts) * 4
    requires forall px: nat, py: nat, k: nat | px < cols * ts && py < rows * ts && k < 4 ::
      c0[Idx(cols * ts, rows * ts, px, py, k)] == StageByte(tiles, global, ts, gs, cols, i, px, py, k)
    requires forall px: nat, py: nat, k: nat | px < cols * ts && py < rows * ts && k < 4 ::
      c1[Idx(cols * ts, rows * ts, px, py, k)] ==
        BlockByte(c0, cols * ts, rows * ts, CellOrigin(i % cols, ts), CellOrigin(i / cols, ts), ts,
                  CellData(tiles, global, i), CellSampling(ts, gs, |tiles|, i), px, py, k)
    ensures forall px: nat, py: nat, k: nat | px < cols * ts && py < rows * ts && k < 4 ::
      c1[Idx(cols * ts, rows * ts, px, py, k)] == StageByte(tiles, global, ts, gs, cols, i + 1, px, py, k)
  {
    forall px: nat, py: nat, k: nat | px < cols * ts && py < rows * ts && k < 4
      ensures c1[Idx(cols * ts, rows * ts, px, py, k)] == StageByte(tiles, global, ts, gs, cols, i + 1, px, py, k)
    {
      CellStepAt(tiles, global, ts, gs, cols, i, px, py, k);
    }
  }

  /** Pointwise: drawing cell `i` over stage `i` gives stage `i + 1`. */
  lemma CellStepAt(tiles: seq<seq<byte>>, global: seq<byte>, ts: nat, gs: nat, cols: nat,
                   i: nat, px: nat, py: nat, k: nat)
    requires ts > 0 && cols > 0 && i <= |tiles| && px < cols * ts && k < 4
    ensures Drawn(CellOrigin(i % cols, ts), CellOrigin(i / cols, ts), ts,
                  CellData(tiles, global, i), CellSampling(ts, gs, |tiles|, i), px, py, k,
                  StageByte(tiles, global, ts, gs, cols, i, px, py, k))
            == StageByte(tiles, global, ts, gs, cols, i + 1, px, py, k)
  {
    InBlockIff(ts, cols, i, px, py);
    CellOfIff(ts, cols, i, px, py);
    if CellOf(ts, cols, px, py) == i {
      CellOriginAligned(i % cols, ts);
      CellOriginAligned(i / cols, ts);
      BlockOffset(ts, CellOrigin(i % cols, ts), CellOrigin(i / cols, ts), px, py);
    }
  }

  /** The cell after the last tile, where the global view goes, is always
      inside the grid. */
  lemma GlobalCellInside(n: nat)
    ensures GridCols(n) > 0
    ensures n < GridCols(n) * GridRows(n)
    ensures n / GridCols(n) < GridRows(n) && n % GridCols(n) < GridCols(n)
  {
    var cols := GridCols(n);
    var q := n + cols;
    DivModUnique(q, cols, q / cols, q % cols);
    assert CeilDiv(n + 1, cols) * cols >= n + 1;
    MulLeMono(CeilDiv(n + 1, cols), GridRows(n), cols);
    DivLtBound(n, cols, GridRows(n));
  }

  /** `arrange_gundam_composite`: tiles in row-major cells of a near-square
      grid, the global view in the cell after them, white elsewhere. */
  method ArrangeGundamComposite(tiles: seq<seq<byte>>, global: seq<byte>, tileSide: nat, globalSide: nat)
    returns (data: seq<byte>, width: nat, height: nat)
    ensures |tiles| == 0 ==> data == global && width == globalSide && height == globalSide
    ensures |tiles| > 0 ==>
      width == GridCols(|tiles|) * tileSide && height == GridRows(|tiles|) * tileSide &&
      |data| == width * height * 4
    ensures |tiles| > 0 && tileSide > 0 ==>
      forall px: nat, py: nat, k: nat | px < width && py < height && k < 4 ::
        data[Idx(width, height, px, py, k)] ==
          CompositeByte(tiles, global, tileSide, globalSide, GridCols(|tiles|), px, py, k)
  {
    var n := |tiles|;
    if n == 0 {
      return global, globalSide, globalSide;
    }
    var cols := GridCols(n);
    var rows := GridRows(n);
    GlobalCellInside(n);
    width := cols * tileSide;
    height := rows * tileSide;
    var canvas := new byte[width * height * 4](_ => 255);
    // With zero-sized cells the copy loops draw nothing: the canvas is empty.
    if tileSide == 0 {
      return canvas[..], width, height;
    }
    // The source's defensive stop at a row past the grid is never reached
    // (CellFits), and the global view's cell always lies inside the grid
    // (GlobalCellInside), so the guard before it always holds.
    for i := 0 to n
      invariant forall px: nat, py: nat, k: nat | px < width && py < height && k < 4 ::
        canvas[Idx(width, height, px, py, k)] == StageByte(tiles, global, tileSide, globalSide, cols, i, px, py, k)
    {
      var row := i / cols;
      var col := i % cols;
      CellFits(i, cols, rows, tileSide);
      ghost var c0 := canvas[..];
      CopyBlock(canvas, width, height, CellOrigin(col, tileSide), CellOrigin(row, tileSide), tileSide, tiles[i], TileSampling(tileSide));
      CellStep(c0, canvas[..], tiles, global, tileSide, globalSide, cols, rows, i);
    }
    var globalRow := n / cols;
    var globalCol := n % cols;
    if globalRow < rows && globalCol < cols {
      CellFits(n, cols, rows, tileSide);
      ghost var c0 := canvas[..];
      CopyBlock(canvas, width, height, CellOrigin(globalCol, tileSide), CellOrigin(globalRow, tileSide), tileSide,
                global, GlobalSampling(tileSide, globalSide));
      CellStep(c0, canvas[..], tiles, global, tileSide, globalSide, cols, rows, n);
    }
    data := canvas[..];
  }

  /** Pixel `(x, y)` of tile `i` lands at offset `(x, y)` of cell
      `(i mod cols, i div cols)` whenever the tile holds that pixel. */
  lemma TilePixelPlaced(tiles: seq<seq<byte>>, global: seq<byte>, ts: nat, gs: nat,
                        i: nat, x: nat, y: nat, k: nat)
    requires ts > 0 && i < |tiles| && x < ts && y < ts && k < 4
    requires PixelOffset(ts, x, y) + 3 < |tiles[i]|
    ensures var cols := GridCols(|tiles|);
      CompositeByte(tiles, global, ts, gs, cols, CellOrigin(i % cols, ts) + x, CellOrigin(i / cols, ts) + y, k)
        == tiles[i][PixelOffset(ts, x, y) + k]
  {
    CellCorner(ts, GridCols(|tiles|), i, x, y);
  }

  /** The pixel at offset `(x, y)` from cell `i`'s corner has cell number
      `i` and in-cell offset `(x, y)`. */
  lemma CellCorner(ts: nat, cols: nat, i: nat, x: nat, y: nat)
    requires ts > 0 && cols > 0 && x < ts && y < ts
    ensures CellOf(ts, cols, CellOrigin(i % cols, ts) + x, CellOrigin(i / cols, ts) + y) == i
    ensures (CellOrigin(i % cols, ts) + x) % ts == x && (CellOrigin(i / cols, ts) + y) % ts == y
  {
    DivModOfSum(i % cols, ts, x);
    DivModOfSum(i / cols, ts, y);
  }

  /** Cells after the global view's stay white. */
  lemma TrailingCellsWhite(tiles: seq<seq<byte>>, global: seq<byte>, ts: nat, gs: nat,
                           px: nat, py: nat, k: nat)
    requires ts > 0 && k < 4 && CellOf(ts, GridCols(|tiles|), px, py) > |tiles|
    ensures CompositeByte(tiles, global, ts, gs, GridCols(|tiles|), px, py, k) == 255
  {
  }

  /** Four 640-pixel tiles plus the global view fill a 3 x 2 grid, a
      1920 x 1280 canvas. */
  lemma GridOfFourTiles()
    ensures GridCols(4) == 3 && GridRows(4) == 2
    ensures GridCols(4) * 640 == 1920 && GridRows(4) * 640 == 1280
  {
    CeilSqrtIs(5, 3);
  }

  /** Two tiles and the global view fill a 2 x 2 grid, one cell left white. */
  lemma GridOfTwoTiles()
    ensures GridCols(2) == 2 && GridRows(2) == 2
  {
    CeilSqrtIs(3, 2);
  }

  /** Eight tiles and the global view fill a 3 x 3 grid exactly. */
  lemma GridOfEightTiles()
    ensures GridCols(8) == 3 && GridRows(8) == 3
  {
    CeilSqrtIs(9, 3);
  }

  /** Any `c` that reaches `m` while `c - 1` falls short is `ceil(sqrt(m))`. */
  lemma CeilSqrtIs(m: nat, c: nat)
    requires c * c >= m && c > 0 && (c - 1) * (c - 1) < m
    ensures CeilSqrt(m) == c
  {
    var e := CeilSqrt(m);
    if e < c {
      MulLeMono(e, c - 1, e);
      MulLeMono(e, c - 1, c - 1);
    }
  }

  // ---------------------------------------------------------------------
  // Hand-off queue
  // ---------------------------------------------------------------------

  datatype TrySendOutcome = Sent | Full | Disconnected

  /** The bounded channel between publishers and the server thread, with
      its receiving end folded in. */
  class FrameChannel {
    const capacity: nat
    var queue: seq<BgraFrame>
    var receiverAlive: bool

    ghost predicate Valid()
      reads this
    {
      |queue| <= capacity
    }

    /** `bounded(capacity)`: empty, with a live receiver. */
    constructor Bounded(cap: nat)
      ensures Valid()
      ensures capacity == cap && queue == [] && receiverAlive
    {
      capacity := cap;
      queue := [];
      receiverAlive := true;
    }

    /** Non-blocking send: refused when the receiver is gone, then when
        the queue is at capacity. */
    method TrySend(f: BgraFrame) returns (r: TrySendOutcome)
      requires Valid()
      modifies this
      ensures Valid()
      ensures !old(receiverAlive) ==> r == Disconnected && queue == old(queue)
      ensures old(receiverAlive) && |old(queue)| == capacity ==> r == Full && queue == old(queue)
      ensures old(receiverAlive) && |old(queue)| < capacity ==> r == Sent && queue == old(queue) + [f]
      ensures receiverAlive == old(receiverAlive)
    {
      if !receiverAlive {
        r := Disconnected;
      } else if |queue| == capacity {
        r := Full;
      } else {
        queue := queue + [f];
        r := Sent;
      }
    }

    /** The server thread takes up to `count` frames from the front. */
    method Drain(count: nat)
      requires Valid()
      modifies this
      ensures Valid()
      ensures queue == old(queue)[Min(count, |old(queue)|)..]
      ensures receiverAlive == old(receiverAlive)
    {
      queue := queue[Min(count, |queue|)..];
    }

    /** The server thread ends, dropping the receiver. */
    method CloseReceiver()
      modifies this
      ensures queue == old(queue) && !receiverAlive
    {
      receiverAlive := false;
    }
  }

  /** What the server thread does while `send` sleeps before its retry. */
  datatype Interleaving = Interleaving(drained: nat, receiverEnds: bool)

  class RtspPublisher {
    const tx: FrameChannel

    constructor (channel: FrameChannel)
      ensures tx == channel
    {
      tx := channel;
    }

    /** `RtspPublisher::send`: one non-blocking attempt, and on a full
        queue one retry after a pause in which the server thread acts as
        `during` says; any failure of the retry reports the queue as full. */
    method Send(frame: BgraFrame, during: Interleaving) returns (r: Result<(), string>)
      requires tx.Valid()
      modifies tx
      ensures tx.Valid()
      ensures !old(tx.receiverAlive) ==> r == Err(THREAD_ENDED) && tx.queue == old(tx.queue)
      ensures old(tx.receiverAlive) && |old(tx.queue)| < tx.capacity ==>
        r == Ok(()) && tx.queue == old(tx.queue) + [frame]
      ensures old(tx.receiverAlive) && |old(tx.queue)| == tx.capacity ==>
        var rest := old(tx.queue)[Min(during.drained, |old(tx.queue)|)..];
        if !during.receiverEnds && |rest| < tx.capacity
        then r == Ok(()) && tx.queue == rest + [frame]
        else r == Err(QUEUE_FULL) && tx.queue == rest
      ensures tx.receiverAlive ==
        (old(tx.receiverAlive) && !(|old(tx.queue)| == tx.capacity && during.receiverEnds))
    {
      var first := tx.TrySend(frame);
      match first
      case Sent =>
        r := Ok(());
      case Disconnected =>
        r := Err(THREAD_ENDED);
      case Full =>
        tx.Drain(during.drained);
        if during.receiverEnds {
          tx.CloseReceiver();
        }
        var second := tx.TrySend(frame);
        r := if second == Sent then Ok(()) else Err(QUEUE_FULL);
    }
  }

  /** A fresh queue takes three frames; the fourth is dropped if the server
      thread takes nothing in the meantime, and accepted if it takes one. */
  method QueueScenario(f: BgraFrame)
  {
    var ch := new FrameChannel.Bounded(QUEUE_CAPACITY);
    var p := new RtspPublisher(ch);
    var r1 := p.Send(f, Interleaving(0, false));
    assert r1.Ok? && |ch.queue| == 1;
    var r2 := p.Send(f, Interleaving(0, false));
    assert r2.Ok? && |ch.queue| == 2;
    var r3 := p.Send(f, Interleaving(0, false));
    assert r3.Ok? && |ch.queue| == 3;
    var r4 := p.Send(f, Interleaving(0, false));
    assert r4 == Err(QUEUE_FULL);
    var r5 := p.Send(f, Interleaving(1, false));
    assert r5.Ok? && |ch.queue| == 3;
    ch.CloseReceiver();
    var r6 := p.Send(f, Interleaving(3, false));
    assert r6 == Err(THREAD_ENDED);
  }

  // ---------------------------------------------------------------------
  // Push-worker timestamps
  // ---------------------------------------------------------------------

  /** Timestamp and duration stamped on a pushed buffer. */
  datatype Stamp = Stamp(pts: nat, duration: nat)

  /** Timestamp for `f` when the clock stands at `next`. */
  function StampPts(f: BgraFrame, next: nat): nat
  {
    if f.ptsNs.Some? then f.ptsNs.value else next
  }

  /** The clock after pushing `f`: it advances only for unstamped frames. */
  function ClockAfter(f: BgraFrame, next: nat, d: nat): nat
  {
    if f.ptsNs.None? then next + d else next
  }

  /** Timestamps given to `frames` pushed in order from clock `next`. */
  function PtsRun(frames: seq<BgraFrame>, next: nat, d: nat): (ts: seq<nat>)
    ensures |ts| == |frames|
  {
    if frames == [] then []
    else [StampPts(frames[0], next)] + PtsRun(frames[1..], ClockAfter(frames[0], next, d), d)
  }

  /** The frames of `frames` that reach the app source when
      `bufferOk[i]` says whether the buffer for frame `i` could be
      allocated: a frame whose allocation fails is dropped. */
  function Delivered(frames: seq<BgraFrame>, bufferOk: seq<bool>): (ds: seq<BgraFrame>)
    requires |bufferOk| == |frames|
    ensures |ds| <= |frames|
    ensures forall f :: f in ds ==> f in frames
    ensures (forall i :: 0 <= i < |bufferOk| ==> bufferOk[i]) ==> ds == frames
    ensures (forall i :: 0 <= i < |bufferOk| ==> !bufferOk[i]) ==> ds == []
  {
    if frames == [] then []
    else (if bufferOk[0] then [frames[0]] else []) + Delivered(frames[1..], bufferOk[1..])
  }

  /** Delivery from frame `i` on: frame `i` if its buffer was allocated,
      then delivery from frame `i + 1` on. */
  lemma DeliveredStep(frames: seq<BgraFrame>, bufferOk: seq<bool>, i: nat)
    requires |bufferOk| == |frames| && i < |frames|
    ensures Delivered(frames[i..], bufferOk[i..])
         == (if bufferOk[i] then [frames[i]] else []) + Delivered(frames[i + 1..], bufferOk[i + 1..])
  {
    assert frames[i..][1..] == frames[i + 1..] && bufferOk[i..][1..] == bufferOk[i + 1..];
  }

  /** Stamping a run one frame at a time. */
  lemma PtsRunCons(f: BgraFrame, rest: seq<BgraFrame>, next: nat, d: nat)
    ensures PtsRun([f] + rest, next, d) == [StampPts(f, next)] + PtsRun(rest, ClockAfter(f, next, d), d)
  {
    assert ([f] + rest)[1..] == rest;
  }

  predicate AllUnstamped(frames: seq<BgraFrame>)
  {
    forall i :: 0 <= i < |frames| ==> frames[i].ptsNs.None?
  }

  /** Unstamped frames are clocked at `next, next + d, next + 2d, ...`. */
  lemma {:induction false} ClockedRun(frames: seq<BgraFrame>, next: nat, d: nat)
    requires AllUnstamped(frames)
    ensures forall i :: 0 <= i < |frames| ==> PtsRun(frames, next, d)[i] == next + i * d
    decreases |frames|
  {
    if frames != [] {
      ClockedRun(frames[1..], next + d, d);
      forall i | 0 <= i < |frames|
        ensures PtsRun(frames, next, d)[i] == next + i * d
      {
        if i > 0 {
          assert PtsRun(frames, next, d)[i] == PtsRun(frames[1..], next + d, d)[i - 1];
          assert (i - 1) * d + d == i * d;
        }
      }
    }
  }

  /** Caller-provided timestamps pass through unchanged. */
  lemma {:induction false} StampedRun(frames: seq<BgraFrame>, next: nat, d: nat)
    requires forall i :: 0 <= i < |frames| ==> frames[i].ptsNs.Some?
    ensures forall i :: 0 <= i < |frames| ==> PtsRun(frames, next, d)[i] == frames[i].ptsNs.value
    decreases |frames|
  {
    if frames != [] {
      StampedRun(frames[1..], next, d);
      assert ClockAfter(frames[0], next, d) == next;
      forall i | 0 < i < |frames|
        ensures PtsRun(frames, next, d)[i] == frames[i].ptsNs.value
      {
        assert PtsRun(frames, next, d)[i] == PtsRun(frames[1..], next, d)[i - 1];
      }
    }
  }

  /** The server-side state the push worker reads: whether a client has
      attached an app source, the running clock and the frame duration. */
  class PushClock {
    var appsrcAttached: bool
    var nextPts: nat
    const frameDuration: nat

    constructor (framerate: nat)
      ensures !appsrcAttached && nextPts == 0 && frameDuration == FrameDuration(framerate)
    {
      appsrcAttached := false;
      nextPts := 0;
      frameDuration := FrameDuration(framerate);
    }

    /** A client connected and the media pipeline was configured. */
    method Attach()
      modifies this
      ensures appsrcAttached && nextPts == old(nextPts)
    {
      appsrcAttached := true;
    }

    /** One frame taken by the push worker: without a client it is dropped
        and nothing changes; with a client whose buffer could not be
        allocated (`bufferOk`, an outside result) it is dropped too and
        the clock stays; otherwise it is stamped and the clock steps when
        the frame carried no timestamp of its own. */
    method Push(f: BgraFrame, bufferOk: bool) returns (stamp: Option<Stamp>)
      modifies this
      ensures appsrcAttached == old(appsrcAttached)
      ensures !(appsrcAttached && bufferOk) ==> stamp == None && nextPts == old(nextPts)
      ensures appsrcAttached && bufferOk ==>
        stamp == Some(Stamp(StampPts(f, old(nextPts)), frameDuration)) &&
        nextPts == ClockAfter(f, old(nextPts), frameDuration)
    {
      if !appsrcAttached || !bufferOk {
        return None;
      }
      var pts := if f.ptsNs.Some? then f.ptsNs.value else nextPts;
      stamp := Some(Stamp(pts, frameDuration));
      if f.ptsNs.None? {
        nextPts := nextPts + frameDuration;
      }
    }

    /** Pushes `frames` in order while a client is attached; `bufferOk[i]`
        says whether frame `i`'s buffer could be allocated. The stamps are
        those of the delivered frames, as if the dropped ones never came. */
    method PushAll(frames: seq<BgraFrame>, bufferOk: seq<bool>) returns (stamps: seq<nat>)
      requires appsrcAttached && |bufferOk| == |frames|
      modifies this
      ensures appsrcAttached
      ensures stamps == PtsRun(Delivered(frames, bufferOk), old(nextPts), frameDuration)
    {
      stamps := [];
      ghost var start := nextPts;
      for i := 0 to |frames|
        invariant appsrcAttached
        invariant stamps + PtsRun(Delivered(frames[i..], bufferOk[i..]), nextPts, frameDuration)
                  == PtsRun(Delivered(frames, bufferOk), start, frameDuration)
      {
        DeliveredStep(frames, bufferOk, i);
        ghost var rest := Delivered(frames[i + 1..], bufferOk[i + 1..]);
        ghost var clock := nextPts;
        var s := Push(frames[i], bufferOk[i]);
        if s.Some? {
          PtsRunCons(frames[i], rest, clock, frameDuration);
          assert PtsRun(Delivered(frames[i..], bufferOk[i..]), clock, frameDuration)
              == [s.value.pts] + PtsRun(rest, nextPts, frameDuration);
          stamps := stamps + [s.value.pts];
        } else {
          assert Delivered(frames[i..], bufferOk[i..]) == rest;
        }
      }
    }
  }
}
