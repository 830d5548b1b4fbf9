// "Gundam" tiling: the input is cut into a grid of 2 to 9 tiles, each
// scaled and padded to a `tileSide` square, plus one global view padded to
// a `globalSide` square. Grid selection, rectangle generation and the crop
// into the staging buffer are integer logic; the resampling is the
// `Resampler` parameter of the CPU scaler.

module Gundam {
  import opened Common
  import opened Arith
  import opened Presets
  import opened CpuScale

  type Positive = n: nat | n > 0 witness 1

  /** A non-negative fraction `num / den`: the tile overlap. */
  datatype Fraction = Fraction(num: nat, den: Positive)

  datatype GundamCfg = GundamCfg(
    tileSide: nat,
    globalSide: nat,
    minTiles: nat,
    maxTiles: nat,
    autoGrid: bool,
    overlapFrac: Fraction,
    padBg: Rgba)

  /** `GundamCfg::default` */
  function DefaultCfg(): GundamCfg
  {
    GundamCfg(640, 1024, 2, 9, true, Fraction(0, 1), [255, 255, 255, 255])
  }

  /** A tile's source rectangle, in pixels. */
  datatype Rect = Rect(x: nat, y: nat, w: nat, h: nat)

  // ---------------------------------------------------------------------
  // Grid selection

  /** `choose_grid`: `ceil(side / 1024)` per axis clamped to 1..3, a
      single tile grown to two along the longer side, and a reduction to 9
      tiles that the clamps make unreachable. */
  function ChooseGrid(inW: nat, inH: nat): (g: (nat, nat))
    ensures 1 <= g.0 <= 3 && 1 <= g.1 <= 3
  {
    var cols0 := Clamp(CeilDiv(inW, 1024), 1, 3);
    var rows0 := Clamp(CeilDiv(inH, 1024), 1, 3);
    var g := if rows0 * cols0 < 2 then
               (if inW >= inH then (Clamp(cols0 + 1, 1, 3), rows0) else (cols0, Clamp(rows0 + 1, 1, 3)))
             else (cols0, rows0);
    if g.1 * g.0 > 9 then
      (if inW >= inH then (3, Max(9 / 3, 1)) else (Max(9 / 3, 1), 3))
    else g
  }

  /** Both grid sides are 1..3 and there are 2..9 tiles. */
  lemma ChooseGridBounds(inW: nat, inH: nat)
    ensures var (cols, rows) := ChooseGrid(inW, inH);
      && 1 <= cols <= 3 && 1 <= rows <= 3
      && 2 <= cols * rows <= 9
  {
  }

  /** An input within 1024 on both sides gets two tiles along its longer
      side: `(2, 1)` when `w >= h`, `(1, 2)` otherwise. */
  lemma ChooseGridSmall(inW: nat, inH: nat)
    requires inW <= 1024 && inH <= 1024
    ensures ChooseGrid(inW, inH) == if inW >= inH then (2, 1) else (1, 2)
  {
  }

  /** Otherwise the grid is the clamped ceiling on each axis. */
  lemma ChooseGridLarge(inW: nat, inH: nat)
    requires inW > 1024 || inH > 1024
    ensures ChooseGrid(inW, inH) == (Clamp(CeilDiv(inW, 1024), 1, 3), Clamp(CeilDiv(inH, 1024), 1, 3))
  {
  }

  // ---------------------------------------------------------------------
  // Rectangles

  /** `(step * overlap_frac) as i32`, truncated. */
  function Overlap(step: nat, f: Fraction): nat
  {
    step * f.num / f.den
  }

  /** Rectangle of grid cell `(c, r)`: the cell `[c*stepW, (c+1)*stepW)`
      grown by the overlap on both sides, clamped to the image, at least
      one pixel wide and high. */
  function GridRect(inW: nat, inH: nat, stepW: nat, stepH: nat, ovw: nat, ovh: nat, c: nat, r: nat): (rect: Rect)
    ensures rect.w >= 1 && rect.h >= 1 && rect.x <= inW && rect.y <= inH
  {
    var x0 := Clamp(c * stepW - ovw, 0, inW);
    var y0 := Clamp(r * stepH - ovh, 0, inH);
    var x1 := Clamp((c + 1) * stepW + ovw, 0, inW);
    var y1 := Clamp((r + 1) * stepH + ovh, 0, inH);
    Rect(x0 as nat, y0 as nat, Max(x1 - x0, 1) as nat, Max(y1 - y0, 1) as nat)
  }

  /** `mk_grid`: `cols * rows` rectangles in row-major order. */
  predicate GridPrefix(rects: seq<Rect>, inW: nat, inH: nat, stepW: nat, stepH: nat, ovw: nat, ovh: nat, cols: Positive)
  {
    forall i :: 0 <= i < |rects| ==> rects[i] == GridRect(inW, inH, stepW, stepH, ovw, ovh, i % cols, i / cols)
  }

  lemma GridPrefixAppend(rects: seq<Rect>, inW: nat, inH: nat, stepW: nat, stepH: nat, ovw: nat, ovh: nat, cols: Positive, c: nat, r: nat)
    requires GridPrefix(rects, inW, inH, stepW, stepH, ovw, ovh, cols)
    requires c < cols && |rects| == r * cols + c
    ensures GridPrefix(rects + [GridRect(inW, inH, stepW, stepH, ovw, ovh, c, r)], inW, inH, stepW, stepH, ovw, ovh, cols)
  {
    DivModOfSum(r, cols, c);
  }

  /** `mk_grid`: `cols * rows` rectangles in row-major order. */
  method MkGrid(inW: nat, inH: nat, cols: Positive, rows: Positive, overlap: Fraction) returns (rects: seq<Rect>)
    ensures |rects| == cols * rows
    ensures GridPrefix(rects, inW, inH, CeilDiv(inW, cols), CeilDiv(inH, rows),
                       Overlap(CeilDiv(inW, cols), overlap), Overlap(CeilDiv(inH, rows), overlap), cols)
  {
    rects := [];
    var stepW := CeilDiv(inW, cols);
    var stepH := CeilDiv(inH, rows);
    var ovw := Overlap(stepW, overlap);
    var ovh := Overlap(stepH, overlap);
    for r := 0 to rows
      invariant |rects| == r * cols
      invariant GridPrefix(rects, inW, inH, stepW, stepH, ovw, ovh, cols)
    {
      for c := 0 to cols
        invariant |rects| == r * cols + c
        invariant GridPrefix(rects, inW, inH, stepW, stepH, ovw, ovh, cols)
      {
        GridPrefixAppend(rects, inW, inH, stepW, stepH, ovw, ovh, cols, c, r);
        rects := rects + [GridRect(inW, inH, stepW, stepH, ovw, ovh, c, r)];
      }
    }
  }

  /** With `stepW = ceil(inW / cols)`, every pixel column lies in the
      rectangle of grid column `px / stepW`, which exists. */
  lemma GridCoversWidth(inW: nat, inH: nat, cols: Positive, ovw: nat, stepH: nat, ovh: nat, r: nat, px: nat)
    requires px < inW
    ensures px / CeilDiv(inW, cols) < cols
    ensures var rect := GridRect(inW, inH, CeilDiv(inW, cols), stepH, ovw, ovh, px / CeilDiv(inW, cols), r);
      rect.x <= px < rect.x + rect.w
  {
    var s := CeilDiv(inW, cols);
    DivGeBound(inW + cols - 1, cols, 1);
    var c := px / s;
    assert c * s <= px < (c + 1) * s;
    DivLtBound(px, s, cols) by {
      var q := (inW + cols - 1) % cols;
      assert inW + cols - 1 == s * cols + q;
    }
  }

  /** The same for pixel rows. */
  lemma GridCoversHeight(inW: nat, inH: nat, stepW: nat, ovw: nat, rows: Positive, ovh: nat, c: nat, py: nat)
    requires py < inH
    ensures py / CeilDiv(inH, rows) < rows
    ensures var rect := GridRect(inW, inH, stepW, CeilDiv(inH, rows), ovw, ovh, c, py / CeilDiv(inH, rows));
      rect.y <= py < rect.y + rect.h
  {
    var s := CeilDiv(inH, rows);
    DivGeBound(inH + rows - 1, rows, 1);
    var r := py / s;
    assert r * s <= py < (r + 1) * s;
    DivLtBound(py, s, rows) by {
      var q := (inH + rows - 1) % rows;
      assert inH + rows - 1 == s * rows + q;
    }
  }

  /** A cell whose start lies inside the image yields a rectangle wholly
      inside it, whatever the overlap. */
  lemma CellInside(inW: nat, inH: nat, stepW: nat, stepH: nat, ovw: nat, ovh: nat, c: nat, r: nat)
    requires c * stepW < inW && r * stepH < inH
    ensures var rect := GridRect(inW, inH, stepW, stepH, ovw, ovh, c, r);
      rect.x + rect.w <= inW && rect.y + rect.h <= inH
  {
  }

  /** The grid `choose_grid` picks starts every cell inside the image,
      except for a 1x1 input, which is split in two. */
  lemma ChosenStepsFit(inW: nat, inH: nat)
    requires inW >= 1 && inH >= 1 && !(inW == 1 && inH == 1)
    ensures var (cols, rows) := ChooseGrid(inW, inH);
      && cols >= 1 && rows >= 1
      && (cols - 1) * CeilDiv(inW, cols) < inW
      && (rows - 1) * CeilDiv(inH, rows) < inH
  {
  }

  /** On a 1x1 input the second rectangle starts at `x == 1`, outside the
      image, so cropping it reads past the source. */
  lemma OnePixelEscapes()
    ensures ChooseGrid(1, 1) == (2, 1)
    ensures GridRect(1, 1, CeilDiv(1, 2), CeilDiv(1, 1), 0, 0, 1, 0) == Rect(1, 0, 1, 1)
  {
  }

  // ---------------------------------------------------------------------
  // The tiles gundam_pack_cpu produces

  /** Number of tiles after `truncate(max_tiles)`. */
  function TileCount(inW: nat, inH: nat, cfg: GundamCfg): nat
  {
    var (cols, rows) := ChooseGrid(inW, inH);
    Min(cols * rows, cfg.maxTiles)
  }

  /** Rectangle of tile `i` of the chosen grid. */
  function TileRect(inW: nat, inH: nat, cfg: GundamCfg, i: nat): Rect
  {
    var g := ChooseGrid(inW, inH);
    var stepW := CeilDiv(inW, g.0);
    var stepH := CeilDiv(inH, g.1);
    GridRect(inW, inH, stepW, stepH, Overlap(stepW, cfg.overlapFrac), Overlap(stepH, cfg.overlapFrac), i % g.0, i / g.0)
  }

  /** Every row the crop of `rect` reads lies inside `src`. */
  predicate RectReadable(src: seq<byte>, pitch: nat, rect: Rect)
  {
    rect.h == 0 || (rect.y + rect.h - 1) * pitch + rect.x * 4 + rect.w * 4 <= |src|
  }

  /** Source offset of the rectangle's first byte. */
  function CropStart(pitch: nat, rect: Rect): nat
  {
    rect.y * pitch + rect.x * 4
  }

  /** The bytes a crop of `rect` packs: its rows, starting at
      `y * pitch + x * 4`. */
  function CropPixels(src: seq<byte>, pitch: nat, rect: Rect): (p: seq<byte>)
    requires RectReadable(src, pitch, rect)
    ensures |p| == PixelBytes(Size(rect.w, rect.h))
  {
    assert rect.h == 0 || CropStart(pitch, rect) + (rect.h - 1) * pitch + rect.w * 4 <= |src|;
    assert rect.h * (rect.w * 4) == rect.w * rect.h * 4;
    Rows(src, CropStart(pitch, rect), pitch, rect.w * 4, rect.h)
  }

  /** Byte `k` of row `r` of the crop is byte `(y + r) * pitch + x * 4 + k`
      of the source. */
  lemma CropPixelAt(src: seq<byte>, pitch: nat, rect: Rect, r: nat, k: nat)
    requires RectReadable(src, pitch, rect) && r < rect.h && k < rect.w * 4
    ensures r * (rect.w * 4) + k < |CropPixels(src, pitch, rect)|
    ensures (rect.y + r) * pitch + rect.x * 4 + k < |src|
    ensures CropPixels(src, pitch, rect)[r * (rect.w * 4) + k] == src[(rect.y + r) * pitch + rect.x * 4 + k]
  {
    CropGeometry(src, pitch, rect);
    RowsAt(src, CropStart(pitch, rect), pitch, rect.w * 4, rect.h, r, k);
    RowOffset(pitch, rect, r);
  }

  /** Every tile of an image of at least 1x2 pixels whose `h` rows of
      `pitch` bytes hold `w * 4` pixel bytes each can be cropped. */
  lemma TilesReadable(src: seq<byte>, pitch: nat, inW: nat, inH: nat, cfg: GundamCfg, i: nat)
    requires inW >= 1 && inH >= 1 && !(inW == 1 && inH == 1)
    requires (inH - 1) * pitch + inW * 4 <= |src|
    requires i < TileCount(inW, inH, cfg)
    ensures RectReadable(src, pitch, TileRect(inW, inH, cfg, i))
  {
    var (cols, rows) := ChooseGrid(inW, inH);
    ChooseGridBounds(inW, inH);
    ChosenStepsFit(inW, inH);
    var stepW := CeilDiv(inW, cols);
    var stepH := CeilDiv(inH, rows);
    var c, r := i % cols, i / cols;
    DivLtBound(i, cols, rows);
    MulLeMono(c, cols - 1, stepW);
    MulLeMono(r, rows - 1, stepH);
    CellInside(inW, inH, stepW, stepH, Overlap(stepW, cfg.overlapFrac), Overlap(stepH, cfg.overlapFrac), c, r);
    var rect := TileRect(inW, inH, cfg, i);
    MulLeMono(rect.y + rect.h - 1, inH - 1, pitch);
  }

  /** The plan every tile is scaled with: exact `tileSide` square, padded. */
  function TilePlan(rect: Rect, cfg: GundamCfg): (p: ScalePlan)
    requires cfg.tileSide >= 1
    ensures p.out == Size(cfg.tileSide, cfg.tileSide) && p.dstRoi.Some?
    ensures RoiFits(ViewRoi(p), p.out)
  {
    BuildPlan(Size(rect.w, rect.h), Exact(Size(cfg.tileSide, cfg.tileSide)), Pad(cfg.padBg))
  }

  /** The plan of the global view: exact `globalSide` square, padded. */
  function GlobalPlan(inW: nat, inH: nat, cfg: GundamCfg): (p: ScalePlan)
    requires cfg.globalSide >= 1
    ensures p.out == Size(cfg.globalSide, cfg.globalSide) && p.dstRoi.Some?
    ensures RoiFits(ViewRoi(p), p.out)
  {
    BuildPlan(Size(inW, inH), Exact(Size(cfg.globalSide, cfg.globalSide)), Pad(cfg.padBg))
  }

  /** The global buffer after the whole input has been scaled into it: the
      padded `global_side` canvas with the input, compacted when strided,
      resampled into the centred region of `GlobalPlan`. */
  function GlobalOutput(canvas: seq<byte>, src: seq<byte>, inW: nat, inH: nat, pitch: nat, cfg: GundamCfg,
                        resample: Resampler): (g: seq<byte>)
    requires cfg.globalSide >= 1 && PixelBytes(Size(cfg.globalSide, cfg.globalSide)) <= |canvas|
    requires CompactionInBounds(src, Size(inW, inH), Some(pitch))
    requires !Strided(Size(inW, inH), Some(pitch)) ==> |src| >= PixelBytes(Size(inW, inH))
    ensures |g| == |canvas|
  {
    var plan := GlobalPlan(inW, inH, cfg);
    ScaledOutput(Background(canvas, PixelBytes(plan.out), plan.aspect), plan.out, ViewRoi(plan),
                 SourcePixels(src, Size(inW, inH), Some(pitch)), Size(inW, inH), resample)
  }

  /** A tile buffer after its tile has been scaled into it. */
  function TileOutput(canvas: seq<byte>, src: seq<byte>, pitch: nat, rect: Rect, cfg: GundamCfg, resample: Resampler): (t: seq<byte>)
    requires cfg.tileSide >= 1 && RectReadable(src, pitch, rect)
    requires PixelBytes(Size(cfg.tileSide, cfg.tileSide)) <= |canvas|
    ensures |t| == |canvas|
  {
    var plan := TilePlan(rect, cfg);
    ScaledOutput(Background(canvas, PixelBytes(plan.out), plan.aspect), plan.out, ViewRoi(plan),
                 CropPixels(src, pitch, rect), Size(rect.w, rect.h), resample)
  }

  /** The arithmetic of a readable rectangle's rows. */
  lemma CropGeometry(src: seq<byte>, pitch: nat, rect: Rect)
    requires RectReadable(src, pitch, rect)
    ensures rect.h == 0 || CropStart(pitch, rect) + (rect.h - 1) * pitch + rect.w * 4 <= |src|
    ensures rect.h * (rect.w * 4) == rect.w * 4 * rect.h == PixelBytes(Size(rect.w, rect.h))
  {
  }

  /** Source offset of row `r` of the rectangle. */
  lemma RowOffset(pitch: nat, rect: Rect, r: nat)
    ensures (rect.y + r) * pitch + rect.x * 4 == CropStart(pitch, rect) + r * pitch
    ensures (rect.y + r) * pitch + rect.x * 4 >= 0
  {
  }

  /** Writing `s` at `off` extends the packed prefix by `s`. */
  lemma PackRow(buf: seq<byte>, s: seq<byte>, off: nat)
    requires off + |s| <= |buf|
    ensures |buf[..off] + s + buf[off + |s|..]| == |buf|
    ensures (buf[..off] + s + buf[off + |s|..])[..off + |s|] == buf[..off] + s
  {
    assert (buf[..off] + s + buf[off + |s|..])[..off + |s|] == buf[..off] + s;
  }

  /** `compact_crop_to_staging`: grows staging to `w * h * 4` bytes and
      packs the rectangle's rows into its prefix. */
  method CompactCropToStaging(src: seq<byte>, pitch: nat, rect: Rect, staging: Staging)
    requires RectReadable(src, pitch, rect)
    modifies staging
    ensures |staging.buf| == Max(old(|staging.buf|), PixelBytes(Size(rect.w, rect.h)))
    ensures staging.buf[..PixelBytes(Size(rect.w, rect.h))] == CropPixels(src, pitch, rect)
  {
    CropGeometry(src, pitch, rect);
    var rowBytes := rect.w * 4;
    var off := 0;
    staging.EnsureLen(rowBytes * rect.h);
    ghost var base := CropStart(pitch, rect);
    ghost var total := rect.h * rowBytes;
    for r := 0 to rect.h
      invariant off == r * rowBytes && off <= total <= |staging.buf|
      invariant |staging.buf| == Max(old(|staging.buf|), total)
      invariant staging.buf[..off] == Rows(src, base, pitch, rowBytes, r)
    {
      RowsStep(src, base, pitch, rowBytes, r, rect.h);
      MulLeMono(r + 1, rect.h, rowBytes);
      RowOffset(pitch, rect, r);
      var rowOff := (rect.y + r) * pitch + rect.x * 4;
      var s := src[rowOff..rowOff + rowBytes];
      PackRow(staging.buf, s, off);
      staging.buf := staging.buf[..off] + s + staging.buf[off + |s|..];
      off := off + rowBytes;
    }
  }

  /** One iteration of the tile loop: crop the rectangle into staging and
      scale it into the tile buffer. With a tightly packed crop, a buffer
      of the full canvas and a region that fits, the scale cannot fail. */
  method PackTile(src: seq<byte>, pitch: nat, rect: Rect, cfg: GundamCfg, staging: Staging, dst: array<byte>,
                  resample: Resampler, ghost want: seq<byte>)
    requires cfg.tileSide >= 1 && RectReadable(src, pitch, rect)
    requires dst.Length >= PixelBytes(Size(cfg.tileSide, cfg.tileSide))
    requires want == TileOutput(dst[..], src, pitch, rect, cfg, resample)
    modifies staging, dst
    ensures dst[..] == want
  {
    var plan := TilePlan(rect, cfg);
    CompactCropToStaging(src, pitch, rect, staging);
    var res := ScaleBgraCpu(staging.buf, Size(rect.w, rect.h), Some(rect.w * 4), plan, dst, null, resample);
    assert res == Ok(());
  }

  /** The rectangles `mk_grid` returns for the chosen grid are the tile
      rectangles. */
  lemma MkGridGivesTileRects(rects: seq<Rect>, inW: nat, inH: nat, cfg: GundamCfg)
    requires var (cols, rows) := ChooseGrid(inW, inH);
      && cols > 0 && rows > 0
      && |rects| == cols * rows
      && GridPrefix(rects, inW, inH, CeilDiv(inW, cols), CeilDiv(inH, rows),
                    Overlap(CeilDiv(inW, cols), cfg.overlapFrac), Overlap(CeilDiv(inH, rows), cfg.overlapFrac), cols)
    ensures TileCount(inW, inH, cfg) <= |rects|
    ensures forall i :: 0 <= i < TileCount(inW, inH, cfg) ==> rects[i] == TileRect(inW, inH, cfg, i)
  {
  }

  /** The tile loop of `gundam_pack_cpu`; `want[i]` is what tile `i` must
      hold afterwards. */
  method PackTiles(src: seq<byte>, pitch: nat, cfg: GundamCfg, staging: Staging,
                   tiles: seq<array<byte>>, rects: seq<Rect>, resample: Resampler, ghost want: seq<seq<byte>>)
    requires |rects| == |want| <= |tiles|
    requires |rects| > 0 ==> cfg.tileSide >= 1
    requires forall i :: 0 <= i < |rects| ==>
      && tiles[i].Length >= PixelBytes(Size(cfg.tileSide, cfg.tileSide))
      && RectReadable(src, pitch, rects[i])
      && want[i] == TileOutput(tiles[i][..], src, pitch, rects[i], cfg, resample)
    requires forall i, j :: 0 <= i < j < |tiles| ==> tiles[i] != tiles[j]
    modifies tiles, staging
    ensures forall i :: 0 <= i < |rects| ==> tiles[i][..] == want[i]
    ensures forall i :: |rects| <= i < |tiles| ==> tiles[i][..] == old(tiles[i][..])
  {
    for i := 0 to |rects|
      invariant forall j :: 0 <= j < i ==> tiles[j][..] == want[j]
      invariant forall j :: i <= j < |tiles| ==> tiles[j][..] == old(tiles[j][..])
    {
      label before:
      PackTile(src, pitch, rects[i], cfg, staging, tiles[i], resample, want[i]);
      forall j | 0 <= j < |tiles| && j != i
        ensures tiles[j][..] == old@before(tiles[j][..])
      {
        assert tiles[j] != tiles[i];
      }
    }
  }

  /** `gundam_pack_cpu`: crops and scales each tile of the chosen grid
      (truncated to `maxTiles`) into its buffer, then scales the whole
      input into the global buffer. Missing tile buffers, short tile
      buffers, a rectangle outside the source and a zero-sided padded
      canvas panic in the source and are preconditions here; a tile never
      fails to scale, so the only errors come from the global view. */
  method GundamPack(src: seq<byte>, inW: nat, inH: nat, pitch: nat, cfg: GundamCfg, staging: Staging,
                    tiles: seq<array<byte>>, global: array<byte>, resample: Resampler)
      returns (r: Result<(), ScaleError>)
    requires cfg.globalSide >= 1 && (TileCount(inW, inH, cfg) > 0 ==> cfg.tileSide >= 1)
    requires |tiles| >= TileCount(inW, inH, cfg)
    requires forall i :: 0 <= i < TileCount(inW, inH, cfg) ==>
      tiles[i].Length >= PixelBytes(Size(cfg.tileSide, cfg.tileSide)) && RectReadable(src, pitch, TileRect(inW, inH, cfg, i))
    requires forall i, j :: 0 <= i < j < |tiles| ==> tiles[i] != tiles[j]
    requires global !in tiles
    requires global.Length >= PixelBytes(Size(cfg.globalSide, cfg.globalSide)) ==> CompactionInBounds(src, Size(inW, inH), Some(pitch))
    modifies tiles, global, staging
    ensures forall i :: 0 <= i < TileCount(inW, inH, cfg) ==>
      tiles[i][..] == TileOutput(old(tiles[i][..]), src, pitch, TileRect(inW, inH, cfg, i), cfg, resample)
    ensures forall i :: TileCount(inW, inH, cfg) <= i < |tiles| ==> tiles[i][..] == old(tiles[i][..])
    ensures global.Length < PixelBytes(Size(cfg.globalSide, cfg.globalSide)) ==> r == Err(BufferTooSmall)
    ensures (global.Length >= PixelBytes(Size(cfg.globalSide, cfg.globalSide)) && !Strided(Size(inW, inH), Some(pitch))
             && |src| < PixelBytes(Size(inW, inH))) ==> r == Err(ImageBuf)
    ensures r.Ok? <==> global.Length >= PixelBytes(Size(cfg.globalSide, cfg.globalSide))
                       && (Strided(Size(inW, inH), Some(pitch)) || |src| >= PixelBytes(Size(inW, inH)))
    ensures r.Ok? ==>
      && CompactionInBounds(src, Size(inW, inH), Some(pitch))
      && global[..] == GlobalOutput(old(global[..]), src, inW, inH, pitch, cfg, resample)
  {
    var (cols, rows) := ChooseGrid(inW, inH);
    ChooseGridBounds(inW, inH);
    var rects := MkGrid(inW, inH, cols, rows, cfg.overlapFrac);
    MkGridGivesTileRects(rects, inW, inH, cfg);
    rects := rects[..TileCount(inW, inH, cfg)];
    ghost var want := seq(|rects|, j requires 0 <= j < |rects| reads tiles =>
      TileOutput(tiles[j][..], src, pitch, rects[j], cfg, resample));
    PackTiles(src, pitch, cfg, staging, tiles, rects, resample, want);
    r := ScaleBgraCpu(src, Size(inW, inH), Some(pitch), GlobalPlan(inW, inH, cfg), global, staging, resample);
  }

  /** The default configuration: every grid fits in `maxTiles`, so no tile
      is dropped, and there are at least `minTiles` tiles. */
  lemma DefaultKeepsEveryTile(inW: nat, inH: nat)
    ensures var (cols, rows) := ChooseGrid(inW, inH);
      && TileCount(inW, inH, DefaultCfg()) == cols * rows
      && TileCount(inW, inH, DefaultCfg()) >= DefaultCfg().minTiles
      && DefaultCfg().tileSide >= 1 && DefaultCfg().globalSide >= 1
  {
    ChooseGridBounds(inW, inH);
  }
}
