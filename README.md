# cap: a verified model of the capture, scaling and streaming core

`cap` captures the screen as BGRA frames, runs each frame through a
pipeline of processors and broadcasts the result to output streams. There
are two processors. The token-preset scaler shrinks a frame for a vision
language model. The "Gundam" tiler cuts a frame into up to nine overlapping
tiles and a global view, then lays them out as one composite frame. There
are two streams: an MP4 file and an RTSP server.

This project models that core in Dafny and proves properties of the model:

- **Capture-side buffers.** The memory-mapped frame ring buffer (`RingBuffers`)
  and the buffer pool (`BufferPools`).
- **Scaling and tiling library.** Scaling plans and presets (`Presets`), the
  CPU scaler with its staging buffer (`CpuScale`), and Gundam tiling (`Gundam`).
- **RTSP crate** (`Rtsp`):
  - the bounded frame queue and the publisher's send with one retry;
  - the push worker's timestamp clock;
  - frame timestamps;
  - the composite layout of tiles and global view.
- **Processing layer** (`Processing`):
  - the processor pipeline and the stream multiplexer;
  - the Gundam and scaling processors;
  - the file and RTSP streams.
- **Capture session** (`Session`): its builder, and the run, cleanup and
  output-size operations. Also the older session API (`LegacySession`).
- **Capture configuration** (`Config`): validation, and the command line's
  duration and quality parsers (`Cli`).
- **Error taxonomy** (`Errors`): contexts, categories, retry and recovery
  traits, and classification.
- **Zero-copy performance figures** (`Performance`).
- **Linux stub capture source** (`CaptureSources`).

Two choices run through every module:

- **Interfaces become records of functions.** The source's `FrameProcessor`,
  `Stream` and `CaptureSource` traits become datatypes of state-transition
  functions (`ProcessorOps`, `StreamOps`, `SourceOps`). The pipeline,
  multiplexer and session are therefore proved for every processor, stream
  and source at once. The concrete processors and streams are modelled
  separately, as classes.
- **Outside results become parameters.** The fast image resizer becomes a
  `Resampler` function parameter. Wherever the code depends on something
  external, the model takes what the outside world returned as a parameter:
  - the RTSP server thread's activity while a sender sleeps;
  - whether a GStreamer buffer could be allocated, for the file stream and for the RTSP push worker;
  - the outcome of building the encoder pipeline;
  - how many passes of a session's capture loop the model follows; the source has no way to end that loop from outside (see "Left out").

Modules and files:

| module | file |
|---|---|
| `Common`, `Arith`, `ModArith` | `common.dfy` |
| `RingBuffers` | `ring_buffer.dfy` |
| `BufferPools` | `buffer_pool.dfy` |
| `Presets` | `presets.dfy` |
| `CpuScale` | `cpu_scale.dfy` |
| `Gundam` | `gundam.dfy` |
| `Rtsp` | `rtsp.dfy` |
| `Processing` | `processing.dfy` |
| `Session` | `session.dfy` |
| `LegacySession` | `legacy_session.dfy` |
| `Config` | `config.dfy` |
| `Cli` | `cli.dfy` |
| `Errors` | `errors.dfy` |
| `Performance` | `performance.dfy` |
| `CaptureSources` | `capture_sources.dfy` |

Several source files come in two copies:

- `src/ring_buffer.rs` and `src/core/ring_buffer.rs`;
- `cap-scale/` and `cap_scale/`;
- `src/config.rs` and `src/config/config.rs`.

The copies implement the same logic. Each is modelled once, and the table
cites the copy whose lines the member follows most closely.

Where the repository's written description and its code disagree, the model
follows the code:

- **Ring buffer capacity.** A ring buffer created for `n` frames holds at most
  `n - 1`. A write that would make the write offset catch up with the read
  offset is refused as full. So the tenth write into a ten-frame buffer
  fails, not the eleventh (`RingBuffers.RingBuffer.FullIff`,
  `RingBuffers.TenthWriteIsFull`).
- **Buffer pool on an empty pool.** `get_buffer` on an empty pool allocates a
  fresh buffer, and `return_buffer` then keeps it. A get/return pair on an
  empty pool therefore grows the pool by one instead of leaving its
  statistics unchanged (`BufferPools.EmptyPoolRoundTrip`).

## Model

| member | source | states |
|---|---|---|
| RingBuffers.RingBuffer.constructor | src/core/ring_buffer.rs:129-145 | a buffer of `frame_size * frame_capacity` bytes with both offsets at 0 and no frames held |
| RingBuffers.RingBuffer.WriteFrame | src/core/ring_buffer.rs:183-203 | a wrong-sized frame is refused first, then a full buffer. Both refusals change nothing. Otherwise the frame is copied into the write slot, the write offset advances one frame modulo the buffer, and the frame joins the back of the held sequence. It fails exactly when the size is wrong or `capacity - 1` frames are held |
| RingBuffers.RingBuffer.Push | src/core/ring_buffer.rs:196-202 | the copy-and-advance half of a write: slot bytes, new write offset and held frames appended |
| RingBuffers.RingBuffer.ReadFrame | src/core/ring_buffer.rs:242-262 | a wrong-sized output is refused first, then an empty buffer. Otherwise the output receives the oldest held frame (the bytes at the read offset), the read offset advances one frame, and the frame leaves the front. It fails exactly when the size is wrong or nothing is held |
| RingBuffers.RingBuffer.Status | src/core/ring_buffer.rs:294-301 | the source's offset arithmetic yields exactly the number of held frames and the capacity |
| RingBuffers.RingBuffer.FullIff | src/core/ring_buffer.rs:188-194 | the "full" test fires exactly when `capacity - 1` frames are held |
| RingBuffers.RingBuffer.OffsetsInRange | src/ring_buffer.rs:254-274 | both offsets stay whole frames into the buffer and below its size |
| RingBuffers.HoldsAfterWrite | src/ring_buffer.rs:254-274 | writing the first free slot appends the frame to the held sequence and keeps the others in their slots |
| RingBuffers.HoldsAfterRead | src/ring_buffer.rs:321-341 | the oldest frame sits at the read offset, and advancing the read slot drops exactly it |
| RingBuffers.UsedFrames | src/ring_buffer.rs:389-394 | `status`'s `(write + size - read) % size / frame` is the number of held frames |
| RingBuffers.BasicRoundTrip | src/core/ring_buffer.rs:308-326 | a 1024-byte frame of 42s reads back identically, after which status is `(0, 4)` |
| RingBuffers.FiveWrites | src/ring_buffer.rs:366-384 | five writes into an empty ten-frame buffer leave status `(5, 10)` |
| RingBuffers.TenthWriteIsFull | src/core/ring_buffer.rs:188-194 | a ten-frame buffer accepts nine writes and refuses the tenth as full |
| RingBuffers.FifoOrder | src/core/ring_buffer.rs:183-262 | two frames come out in the order they went in |
| RingBuffers.ReadEmpty | src/core/ring_buffer.rs:243-252 | reading an empty buffer reports "Buffer empty" and moves neither offset |
| BufferPools.BufferPool.constructor | src/core/buffer_pool.rs:106-112 | an empty pool with the given buffer size and bound |
| BufferPools.BufferPool.GetBuffer | src/core/buffer_pool.rs:139-144 | takes the front pooled buffer, or allocates a zeroed one when the pool is empty. The result is always zeroed |
| BufferPools.BufferPool.ReturnBuffer | src/core/buffer_pool.rs:172-181 | below the bound, a zeroed buffer of the returned length joins the back. At the bound it is dropped and the pool is unchanged |
| BufferPools.BufferPool.Stats | src/core/buffer_pool.rs:202-205 | `(pooled count, bound)` |
| BufferPools.BufferPool.Resize | src/core/buffer_pool.rs:226-229 | empties the pool and keeps the invariant |
| BufferPools.GetReturnGet | src/core/buffer_pool.rs:236-255 | get, return and get on a three-buffer pool hand out 1024-byte buffers and leave stats at `(0, 3)` |
| BufferPools.Overflow | src/core/buffer_pool.rs:257-273 | three returns to a pool bounded at two keep two |
| BufferPools.EmptyPoolRoundTrip | src/core/buffer_pool.rs:139-181 | on an empty pool with room, a get/return pair grows the pool from 0 to 1 |
| BufferPools.NonEmptyPoolRoundTrip | src/core/buffer_pool.rs:139-181 | on a non-empty pool, a get/return pair keeps the count and rotates the front buffer to the back |
| Presets.FitPreserve | cap-scale/src/presets.rs:175-183 | both sides at least 1 |
| Presets.FitPreserveBounds | cap-scale/src/presets.rs:175-183 | never upscales, and each side stays within `max_long` |
| Presets.WithinScale | cap-scale/src/presets.rs:189-197 | the factor is 1, or the ratio of an input side that is not zero (the `f64::min` of ratios) |
| Presets.WithinScaleIsMin | cap-scale/src/presets.rs:189-197 | the factor is at most 1 and at most every applicable side ratio |
| Presets.FitWithin | cap-scale/src/presets.rs:189-197 | both sides at least 1 |
| Presets.FitWithinBounds | cap-scale/src/presets.rs:189-197 | never upscales, and each side stays within its box side |
| Presets.RoundDivNearest | cap-scale/src/presets.rs:180-182 | the rounded quotient is within half a unit of the exact one, as `f64::round` is |
| Presets.BuildPlan | cap-scale/src/presets.rs:97-168 | keeps input, target and aspect. Has a region exactly for Pad. Distort and Pad output the target box. A Pad region lies inside the canvas and is at least 1x1 |
| Presets.ToTarget | cap-scale/src/presets.rs:235-241 | every preset limits the long side: to 512 exactly for `P6_9Long512`, to 640 for the rest |
| Presets.PreservePlanBounds | cap-scale/src/presets.rs:97-168 | long-side plus Preserve: no region, both sides in `1..max`, never larger than the input |
| Presets.NoUpscale | cap-scale/src/presets.rs:175-183 | an input that fits is passed through unchanged |
| Presets.PreserveCommonFactor | cap-scale/src/presets.rs:175-183 | an oversize input has its longer side set to the limit and the other side rounded to its proportional length: one common factor |
| Presets.ScalingExamples | cap_scale/src/presets.rs:35-66 | 1920x1080 and 1024x768 at the 640 preset give 640x360 and 640x480. 1920x1080 at the 512 preset gives 512x288 |
| Presets.DistortIsTarget | cap-scale/src/presets.rs:97-168 | Distort gives exactly the target box and no region |
| Presets.PadCentred | cap-scale/src/presets.rs:97-168 | Pad centres the region: opposite margins differ by at most one pixel, the extra going right or bottom |
| Presets.PadRegionIsPreserved | cap-scale/src/presets.rs:97-168 | the padded region is the Preserve result for the same target |
| Presets.FitWithinPlan | cap-scale/src/presets.rs:189-197 | exact-box Preserve fits the box, never grows, and fills the box along the binding side |
| CpuScale.ScaleError.Message | cap-scale/src/cpu.rs:85-97 | each error has a non-empty message |
| CpuScale.Grown | cap-scale/src/cpu.rs:148-152 | length is the larger of old and requested, the old prefix is kept, and new bytes are zero |
| CpuScale.Staging.WithCapacity | cap-scale/src/cpu.rs:132-136 | an empty staging buffer |
| CpuScale.Staging.EnsureLen | cap-scale/src/cpu.rs:148-152 | the buffer becomes `Grown(old, len)` |
| CpuScale.Rows | cap-scale/src/cpu.rs:321-328 | the packed rows are `n * rowBytes` long |
| CpuScale.RowsAt | cap-scale/src/cpu.rs:321-328 | byte `k` of packed row `r` is byte `base + r*pitch + k` of the source |
| CpuScale.RowsPrefix | cap-scale/src/cpu.rs:321-328 | the first `m` packed rows are the packing of `m` rows |
| CpuScale.CompactRows | cap-scale/src/cpu.rs:321-328 | the destination's first `rows * rowBytes` bytes become the packed rows, the rest is unchanged, and the length is kept |
| CpuScale.Staged | cap-scale/src/cpu.rs:228-238 | the staging buffer is grown to the packed size and holds the packed rows in its prefix |
| CpuScale.Filled | cap-scale/src/cpu.rs:297-303 | length kept |
| CpuScale.FillBgra | cap-scale/src/cpu.rs:297-303 | every complete 4-byte group of the prefix becomes the background colour, and nothing else changes |
| CpuScale.Background | cap-scale/src/cpu.rs:249-251 | the canvas length is kept |
| CpuScale.ScaledOutput | cap-scale/src/cpu.rs:257-279 | the canvas length is kept |
| CpuScale.ViewPixelAt | cap-scale/src/cpu.rs:257-279 | byte `k` of view row `r` lands at `(y+r)*4w + 4x + k` and holds the resampled byte |
| CpuScale.OutsideViewUnchanged | cap-scale/src/cpu.rs:257-279 | bytes outside the region are untouched |
| CpuScale.PaddedCanvas | cap-scale/src/cpu.rs:249-279 | after Pad, every canvas byte outside the region is the background colour, and bytes past the canvas are unchanged |
| CpuScale.Resize | cap-scale/src/cpu.rs:257-279 | the destination becomes `ScaledOutput` of its old bytes |
| CpuScale.ScaleBgraCpu | cap-scale/src/cpu.rs:203-282 | errors in source order, each leaving the destination unchanged: too small a destination, then stride mismatch without staging, then a short source. A strided source is compacted into staging. Pad fills the background. A region outside the canvas is a crop error after the fill. Otherwise the destination is the resize of the region. Staging changes only on the strided path. On success the destination is the background canvas with `SourcePixels` resampled into the region |
| CpuScale.SourcePixels | cap-scale/src/cpu.rs:217-244 | the tightly packed `w * h * 4` source bytes the resizer reads: the compacted rows of a strided source, else its prefix |
| Gundam.ChooseGrid | cap-scale/src/gundam.rs:109-135 | both grid sides are 1..3 |
| Gundam.ChooseGridBounds | cap-scale/src/gundam.rs:109-135 | 1..3 per side and 2..9 tiles |
| Gundam.ChooseGridSmall | cap-scale/src/gundam.rs:109-135 | an input within 1024 on both sides is split in two along its longer side |
| Gundam.ChooseGridLarge | cap-scale/src/gundam.rs:109-135 | otherwise each side is `ceil(side/1024)` clamped to 1..3 |
| Gundam.GridRect | cap-scale/src/gundam.rs:150-185 | each rectangle is at least 1x1 and starts inside the image or on its edge |
| Gundam.MkGrid | cap-scale/src/gundam.rs:150-185 | `cols * rows` rectangles, in row-major order, each that cell grown by the overlap and clamped |
| Gundam.GridCoversWidth | cap-scale/src/gundam.rs:150-185 | every pixel column lies in the rectangle of its grid column, which exists |
| Gundam.GridCoversHeight | cap-scale/src/gundam.rs:150-185 | every pixel row lies in the rectangle of its grid row, which exists |
| Gundam.CellInside | cap-scale/src/gundam.rs:150-185 | a cell that starts inside the image gives a rectangle wholly inside it |
| Gundam.ChosenStepsFit | cap-scale/src/gundam.rs:109-185 | for any input except 1x1, every chosen cell starts inside the image |
| Gundam.OnePixelEscapes | cap-scale/src/gundam.rs:109-185 | a 1x1 input gets a second rectangle at `x == 1`, outside the image |
| Gundam.CropPixels | cap-scale/src/gundam.rs:324-335 | the crop is `w*h*4` bytes |
| Gundam.CropPixelAt | cap-scale/src/gundam.rs:324-335 | byte `k` of crop row `r` is source byte `(y+r)*pitch + 4x + k` |
| Gundam.TilesReadable | cap-scale/src/gundam.rs:242-268 | for any input except 1x1, every kept tile's rows lie inside the source |
| Gundam.TilePlan | cap-scale/src/gundam.rs:248-259 | an exact `tile_side` square, padded, whose region fits |
| Gundam.GlobalPlan | cap-scale/src/gundam.rs:283-292 | an exact `global_side` square, padded, whose region fits |
| Gundam.TileOutput | cap-scale/src/gundam.rs:262-280 | the tile buffer's length is kept |
| Gundam.CompactCropToStaging | cap-scale/src/gundam.rs:324-335 | staging is grown to the crop size and holds the crop's packed rows |
| Gundam.PackTile | cap-scale/src/gundam.rs:262-280 | one tile: the buffer ends as the tile's scaled output, and the scale never fails |
| Gundam.MkGridGivesTileRects | cap-scale/src/gundam.rs:242-245 | after truncation to `max_tiles`, the grid rectangles are the tile rectangles |
| Gundam.PackTiles | cap-scale/src/gundam.rs:262-280 | each tile buffer with a rectangle holds its scaled tile, and the others are unchanged |
| Gundam.GundamPack | cap-scale/src/gundam.rs:227-304 | every kept tile holds its scaled crop and the rest are untouched. The result is Ok exactly when the global buffer is large enough and the source is strided or long enough. The error cases are reported as the global scale reports them. On success the global buffer holds `GlobalOutput`, the whole input scaled into the padded global canvas |
| Gundam.GlobalOutput | cap-scale/src/gundam.rs:282-301 | the global buffer after `scale_bgra_cpu` with `global_plan`: the background-filled `global_side` square with the input resampled into the centred region |
| Gundam.DefaultKeepsEveryTile | cap-scale/src/gundam.rs:71-83 | the default keeps every grid tile (at least `min_tiles`) and has positive sides |
| Rtsp.FrameDuration | cap-rtsp/src/lib.rs:285 | `1e9 / max(fps, 1)`: a second at most, and exactly a second at 0 or 1 fps |
| Rtsp.FrameFromBgra | cap-rtsp/src/lib.rs:507-517 | a tightly packed frame of the given bytes and size, stamped `idx * duration` |
| Rtsp.FrameTimestampsSpaced | cap-rtsp/src/lib.rs:507-517 | the first frame is at 0, consecutive frames are one duration apart, and timestamps strictly increase up to 1e9 fps |
| Rtsp.FrameDurationExamples | cap-rtsp/src/lib.rs:509 | 30 and 60 fps give 33,333,333 and 16,666,666 ns, and 0 fps acts as 1 |
| Rtsp.CeilSqrt | cap-rtsp/src/lib.rs:542 | the least `c` with `c*c >= m` |
| Rtsp.CeilSqrtIs | cap-rtsp/src/lib.rs:542 | any `c` that reaches `m` while `c - 1` falls short is that value |
| Rtsp.GlobalCellInside | cap-rtsp/src/lib.rs:578-581 | the cell after the last tile always lies inside the grid, so the global view is always placed |
| Rtsp.Idx | cap-rtsp/src/lib.rs:567-568 | a pixel byte index lies inside the canvas |
| Rtsp.PutPixel | cap-rtsp/src/lib.rs:567-572 | the pixel's four bytes are replaced, and every other pixel is unchanged |
| Rtsp.CopyBlock | cap-rtsp/src/lib.rs:561-574 | every canvas byte is the block's sampled byte inside the block, and unchanged outside it or where the source lacks it |
| Rtsp.ArrangeGundamComposite | cap-rtsp/src/lib.rs:527-608 | with no tiles, the global view. Otherwise a `ceil(sqrt(n+1))`-column grid of `tile_side` cells: tile `i` in cell `i`, the global view in cell `n`, white elsewhere |
| Rtsp.TilePixelPlaced | cap-rtsp/src/lib.rs:553-575 | pixel `(x, y)` of tile `i` appears at offset `(x, y)` of cell `i` |
| Rtsp.TrailingCellsWhite | cap-rtsp/src/lib.rs:550 | cells after the global view stay white |
| Rtsp.GridOfFourTiles | cap-rtsp/src/lib.rs:542-547 | four 640-pixel tiles give a 3x2 grid, 1920x1280 |
| Rtsp.GridOfTwoTiles | cap-rtsp/src/lib.rs:542-543 | two tiles give a 2x2 grid |
| Rtsp.GridOfEightTiles | cap-rtsp/src/lib.rs:542-543 | eight tiles give a 3x3 grid |
| Rtsp.FrameChannel.Bounded | cap-rtsp/src/lib.rs:264 | an empty queue of capacity 3 with a live receiver |
| Rtsp.FrameChannel.TrySend | cap-rtsp/src/lib.rs:471-487 | a dead receiver gives Disconnected, a full queue gives Full, otherwise the frame is appended. The capacity bound is kept |
| Rtsp.FrameChannel.Drain | cap-rtsp/src/lib.rs:384-392 | the server thread removes up to `count` frames from the front |
| Rtsp.FrameChannel.CloseReceiver | cap-rtsp/src/lib.rs:384-392 | the receiver is gone and the queue is kept |
| Rtsp.RtspPublisher.constructor | cap-rtsp/src/lib.rs:158-161 | the publisher sends on the given channel |
| Rtsp.RtspPublisher.Send | cap-rtsp/src/lib.rs:471-487 | a dead receiver gives "rtsp server thread ended". Room in the queue means the frame is queued. On a full queue it retries once after the server thread's interleaving, and any failure of the retry reports "rtsp queue full; frame dropped" |
| Rtsp.PushClock.constructor | cap-rtsp/src/lib.rs:282-286 | no client, clock at 0, frame duration from the frame rate |
| Rtsp.PushClock.Attach | cap-rtsp/src/lib.rs:311-335 | a client's media configuration attaches the app source and leaves the clock alone |
| Rtsp.PushClock.Push | cap-rtsp/src/lib.rs:398-433 | without a client, or when its buffer cannot be allocated, the frame is dropped and the clock stays. Otherwise it is stamped with its own timestamp or the clock, with the frame duration, and the clock steps only for unstamped frames |
| Rtsp.PushClock.PushAll | cap-rtsp/src/lib.rs:398-433 | the stamps of a run of pushed frames are `PtsRun` of the frames whose buffers were allocated: a dropped frame neither gets a stamp nor moves the clock |
| Rtsp.Delivered | cap-rtsp/src/lib.rs:406-411 | the frames that reach the app source: only frames that were sent, never more of them, all of them when every allocation succeeds and none when every one fails |
| Rtsp.PtsRun | cap-rtsp/src/lib.rs:415-432 | one stamp per frame |
| Rtsp.ClockedRun | cap-rtsp/src/lib.rs:415-432 | unstamped frames are stamped `next, next + d, next + 2d, ...` |
| Rtsp.StampedRun | cap-rtsp/src/lib.rs:415-432 | caller-provided timestamps pass through unchanged |
| Processing.InitFold | src/processing/processing.rs:207-213 | one processor state per processor, and with no processors the input size itself |
| Processing.ProcessFold | src/processing/processing.rs:273-287 | one state per processor, and with no processors the frame itself |
| Processing.ProcessingPipeline.constructor | src/processing/processing.rs:158-162 | no processors |
| Processing.ProcessingPipeline.Initialize | src/processing/processing.rs:207-213 | left fold of the processors' `initialize` over the size, stopping at the first error |
| Processing.ProcessingPipeline.ProcessFrame | src/processing/processing.rs:273-287 | left fold of `process_frame`, stopping at the first error. A processor that yields no frame panics in the source, a precondition here |
| Processing.StepAll | src/processing/processing.rs:374-379 | one state per stream |
| Processing.StepAllOkIff | src/processing/processing.rs:374-379 | stepping succeeds exactly when every stream's step does |
| Processing.StepAllOkSteps | src/processing/processing.rs:374-379 | after success every stream has been stepped |
| Processing.StepAllStopsAt | src/processing/processing.rs:374-379 | stepping stops at the first failing stream with its error, and later streams are untouched |
| Processing.FirstErrIsEarliest | src/processing/processing.rs:441-457 | the reported error is the earliest failing stream's, and success means every stream succeeded |
| Processing.SentStates | src/processing/processing.rs:441-457 | every stream has been sent the frame |
| Processing.SendResults | src/processing/processing.rs:441-457 | each stream's own result, in order |
| Processing.StreamMultiplexer.constructor | src/processing/processing.rs:330-334 | no streams |
| Processing.StreamMultiplexer.Initialize | src/processing/processing.rs:374-379 | streams initialized in order, stopping at the first error |
| Processing.StreamMultiplexer.Shutdown | src/processing/processing.rs:493-498 | streams shut down in order, stopping at the first error |
| Processing.StreamMultiplexer.StepEach | src/processing/processing.rs:374-379 | a loop over the streams equals `StepAll` |
| Processing.StreamMultiplexer.SendFrame | src/processing/processing.rs:441-457 | every stream is sent the frame even after a failure, and the first failure is reported |
| Processing.InitTileCount | src/processing/processing.rs:603-633 | tile buffers allocated: the clamped grid estimate, within `min_tiles..max_tiles` |
| Processing.DefaultInitMatchesPack | src/processing/processing.rs:603-633 | with the default configuration, the buffers allocated are exactly the tiles packed |
| Processing.GundamOutputSize | src/processing/processing.rs:603-633 | the composite grid's size for `n` tiles |
| Processing.FullHdGundamOutput | src/processing/processing.rs:603-633 | a 1920x1080 input gets four tiles and a 1920x1280 output |
| Processing.Contents | src/processing/processing.rs:715-760 | one byte sequence per tile buffer |
| Processing.ComposeFrame | src/processing/processing.rs:744-759 | the output is the composite of tiles and global view, with the frame's timestamp |
| Processing.GundamProcessor.constructor | src/session.rs:356-364 | no buffers and a 0x0 output until initialized |
| Processing.GundamProcessor.Initialize | src/processing/processing.rs:603-633 | zeroed, distinct buffers for `InitTileCount` tiles and the global view, and the output size of the composite |
| Processing.GundamProcessor.ProcessFrame | src/processing/processing.rs:715-760 | tiles and global view are packed as `GundamPack` states. It is Ok exactly when the global scale succeeds, and then it yields the composite frame of the tile buffers and of the global buffer, which holds `GlobalOutput` of the frame |
| Processing.Resized | src/processing/processing.rs:1202-1203 | `Vec::resize(n, 0)`: length `n`, the old prefix kept, new bytes zero |
| Processing.ResizedCopy | src/processing/processing.rs:1202-1203 | a fresh buffer holding `Resized` |
| Processing.ScalingProcessor.constructor | src/session.rs:398-409 | the preset, empty staging and output, a 0x0 size |
| Processing.ScalingProcessor.Initialize | src/processing/processing.rs:1185-1210 | output size is the preset's Preserve plan. The output buffer is resized to it, and staging is grown to one input frame |
| Processing.ScalingProcessor.ProcessFrame | src/processing/processing.rs:1239-1271 | the frame goes through `scale_bgra_cpu` into the output buffer. Its errors are passed on. On success the result is the scaled frame at the plan's size with the input's timestamp |
| Processing.FilePts | src/processing/processing.rs:982-984 | a frame's own timestamp, or else frame count times frame duration |
| Processing.FilePtsSpacing | src/processing/processing.rs:982-984 | unstamped frames are one frame duration apart, starting one duration in |
| Processing.FileStream.constructor | src/processing/processing.rs:909-917 | no frames counted, not initialized |
| Processing.FileStream.SendFrame | src/processing/processing.rs:960-1001 | before initialization the frame is skipped silently. Afterwards the count goes up, and a buffer is pushed exactly when one could be allocated, carrying `FilePts` and the frame's bytes |
| Processing.FileStream.Initialize | src/processing/processing.rs:1089-1131 | idempotent once initialized. Otherwise it reports the pipeline set-up outcome and is initialized exactly when that succeeded |
| Processing.FileStream.Shutdown | src/processing/processing.rs:1029-1045 | always succeeds |
| Processing.RtspStream.constructor | src/session.rs:481-485 | a stream around the publisher |
| Processing.RtspStream.SendFrame | src/processing/processing.rs:811-813 | exactly `RtspPublisher::send`'s outcome and queue effect |
| Processing.RtspStream.Initialize | src/processing/processing.rs:854-857 | always succeeds |
| Processing.RtspStream.Shutdown | src/processing/processing.rs:830-833 | always succeeds |
| Session.FramesAppend | src/session.rs:183-196 | `a + b` passes are `a` passes, then `b` more if all `a` continued |
| Session.FramesStopEarly | src/session.rs:183-196 | a loop that stopped stays stopped, with the same state and error |
| Session.RunOkMeansAllSucceeded | src/session.rs:171-202 | `run` returns Ok only if every processor and stream initialized, every pass continued, and source and streams all shut down cleanly |
| Session.ShutdownBeforeRun | src/session.rs:171-202 | with shutdown already signalled, no frame is captured and `run` only initializes and cleans up |
| Session.OutputSizeWithoutProcessors | src/session.rs:276-287 | with no processors the output size is the initialized source's input size |
| Session.CaptureSession.constructor | src/session.rs:644-674 | a session over the given pipeline, multiplexer and source, not shut down |
| Session.CaptureSession.Shutdown | src/session.rs:236-238 | the shutdown flag is set and nothing else changes |
| Session.CaptureSession.Cleanup | src/session.rs:248-260 | the source, then the streams, shut down in order, as `CleanupSpec` |
| Session.CaptureSession.GetOutputSize | src/session.rs:276-287 | the source, the streams and the pipeline initialized in order, as `OutputSizeSpec` |
| Session.CaptureSession.Start | src/session.rs:173-175 | the start of `run`, as `StartSpec` |
| Session.CaptureSession.Pass | src/session.rs:191-195 | one capture, process and broadcast pass, as `Frame` |
| Session.CaptureSession.Run | src/session.rs:171-202 | start, then pass frames until the flag is seen, then clean up, as `RunSpec`. `stopAfter` is fuel: the flag is set by the model after that many passes |
| Session.CaptureSessionBuilder.constructor | src/session.rs:320-326 | nothing configured |
| Session.CaptureSessionBuilder.WithProcessor | src/session.rs:356-409 | one more processor, last, and nothing else changes |
| Session.CaptureSessionBuilder.WithStream | src/session.rs:451-555 | one more stream, last, and nothing else changes |
| Session.CaptureSessionBuilder.WithCaptureSource | src/session.rs:589-592 | the source is replaced, and nothing else changes |
| Session.CaptureSessionBuilder.Build | src/session.rs:644-674 | no stream is reported first, then no source. Otherwise a fresh session over exactly the configured parts |
| LegacySession.LegacyStopsForGood | src/config/session.rs:75-95 | once the older loop has stopped on an error, more passes change nothing |
| LegacySession.LegacyErrorsMatchRun | src/config/session.rs:75-95 | where the older loop stops on an error, the newer `run` without shutdown returns that error in the same state |
| LegacySession.LegacyRun | src/config/session.rs:75-95 | the older loop followed for `budget` passes: the error once it stops, otherwise still running |
| LegacySession.LegacySessionBuilder.constructor | src/config/session.rs:108-115 | nothing configured |
| LegacySession.LegacySessionBuilder.WithGundam | src/config/session.rs:117-134 | one more processor, last |
| LegacySession.LegacySessionBuilder.WithScaling | src/config/session.rs:136-140 | a placeholder: the builder is unchanged |
| LegacySession.LegacySessionBuilder.WithStream | src/config/session.rs:149-207 | one more stream, last |
| LegacySession.LegacySessionBuilder.WithCaptureSource | src/config/session.rs:209-213 | the source is replaced |
| LegacySession.LegacySessionBuilder.Build | src/config/session.rs:215-242 | no stream is reported first, then no source. Otherwise a session over exactly the configured parts |
| Config.Default | src/config/config.rs:182-192 | "capture.mp4", 30 fps, 10 s, rate factor 23, full screen, no scaling, no tiling; and it validates |
| Config.Validate | src/config/config.rs:228-239 | Ok exactly on valid configurations. Otherwise the first failing check, in the order frame rate, duration, rate factor in 18..28, with its message |
| Config.ToCaptureOptions | src/config/config.rs:248-258 | every field is copied, so the configuration can be rebuilt from the options |
| Config.ValidateReadsThreeFields | src/config.rs:276-287 | validation reads only frame rate, duration and rate factor |
| Config.ValidationTestSequence | src/config.rs:355-381 | the default validates; fps 0, seconds 0, crf 10 and crf 30 each give their own error; putting crf back to 23 validates |
| Config.OneBadFieldIsReported | src/config/config.rs:275-300 | any one invalid field of a valid configuration is reported, exactly when invalid, and restoring it validates |
| Cli.ParseU32 | src/main.rs:69-72 | a parsed number is below 2^32, and the text begins with a digit or '+' |
| Cli.PrintedNumbersParse | src/main.rs:69-72 | every 32-bit number printed in decimal, with or without '+', parses back to itself |
| Cli.LargeNumbersRejected | src/main.rs:69-72 | a number of 2^32 or more does not parse |
| Cli.UnitSeconds | src/main.rs:82-87 | exactly "s", "m" and "h" are units |
| Cli.ParseDurationAsWritten | src/main.rs:68-89 | the function as written, with a release build's wrapping `u32` product. Its result is below 2^32 |
| Cli.ParseDuration | src/main.rs:68-89 | a bare number is seconds. Otherwise the errors in order: too short, bad number, bad unit (with the source's messages). An overflowing product is an error |
| Cli.DurationRoundTrip | src/main.rs:79-87 | a printed number plus a unit parses to number times unit seconds when that fits, and to an error otherwise. As written it gives that product modulo 2^32 |
| Cli.AsWrittenAgreesWithoutOverflow | src/main.rs:68-89 | where the corrected parser succeeds, the as-written one gives the same answer |
| Cli.MinutesWrapAsWritten | src/main.rs:84 | a minute count whose seconds pass 2^32 wraps as written, and is rejected when corrected |
| Cli.MinutesWrapExample | src/main.rs:84 | "71582789m" comes back as 44 seconds as written |
| Cli.ParseQuality | src/main.rs:91-100 | Ok exactly for a case-insensitive quality word, with the error message otherwise. The value is within the validated rate-factor range |
| Cli.QualityIgnoresCase | src/main.rs:92 | the answer is the same for a word and its lower case |
| Cli.QualityOrder | src/main.rs:93-96 | ultra < high < medium < low in rate factor |
| Cli.ParsedQualityValidates | src/main.rs:91-100 | any parsed quality passes the configuration's rate-factor check |
| Cli.DefaultArgumentsMatchDefaultConfig | src/main.rs:22-30 | the defaults "10s" and "medium" give the default configuration's 10 seconds and 23 |
| Errors.NewContext | src/error.rs:82-96 | severity Error, neither retryable nor recoverable, nothing else set |
| Errors.Apply | src/error.rs:98-151 | a builder call sets its own field and keeps the time and every other field |
| Errors.UpdatesCommute | src/error.rs:98-151 | calls on different fields commute |
| Errors.LaterUpdateWins | src/error.rs:98-151 | of two calls on one field, the later wins |
| Errors.Update | src/error.rs:438-478 | the error's builder calls go to its context and keep the variant |
| Errors.Category | src/error.rs:525-544 | the category is one of the variant tags |
| Errors.CategoryNamesVariant | src/error.rs:525-544 | two errors share a tag exactly when they are the same variant |
| Errors.RetryDelayMs | src/error.rs:732-740 | a delay exactly for the variants that have a retry budget, within 100..2000 ms |
| Errors.MaxRetries | src/error.rs:742-750 | a budget within 3..10 |
| Errors.IsRetryable | src/error.rs:721-730 | retryable exactly when flagged or the variant has a retry delay |
| Errors.RecoveryStrategies | src/error.rs:790-838 | two strategies or none. There are some exactly for transient, processing and streaming errors |
| Errors.IsRecoverable | src/error.rs:778-788 | recoverable exactly when flagged or the variant has strategies |
| Errors.IsTransient | src/error.rs:870-877 | transient exactly when there is a retry delay and it is not an I/O error |
| Errors.TransientIsRetryableAndRecoverable | src/error.rs:721-877 | a transient error is retryable and recoverable whatever its flags |
| Errors.IsFatal | src/error.rs:880-887 | a configuration, authentication or validation error, or severity Fatal |
| Errors.Priority | src/error.rs:895-904 | the priority is the severity's position in declaration order |
| Errors.PriorityFollowsOrder | src/error.rs:43-57 | priorities follow the derived severity order, both ways |
| Errors.RequiresUserIntervention | src/error.rs:890-892 | exactly priority 4 or more |
| Errors.UserInterventionByOrder | src/error.rs:890-892 | exactly severity Critical or above |
| Errors.RetryStrategyAgreement | src/error.rs:732-838 | timeout and network strategies retry with the recommended budget and delay. Resource's strategy budget (3) differs from `max_retries` (10). A streaming error offers a retry but is not retryable unless flagged |
| Errors.FatalKindsHaveNoRecovery | src/error.rs:778-887 | an unflagged, non-fatal-severity configuration, authentication or validation error has no strategies and is neither recoverable nor transient |
| Errors.FatalSeverityDominates | src/error.rs:880-904 | severity Fatal is fatal, needs the user, and has priority 5 |
| Errors.ClassifiersReadVariantSeverityFlags | src/error.rs:721-904 | classification depends only on variant, severity and flags |
| Errors.ClassificationIgnoresDescriptions | src/error.rs:438-478 | builder calls other than the flags and severity change no classification |
| Errors.ConfigErrorTest | src/error.rs:1029-1067 | a configuration error is tagged "config", is not retryable, and is fatal |
| Errors.ProcessingContextTest | src/error.rs:1029-1067 | a processing error with context, suggestion and retry flag keeps its tag and suggestion and is retryable |
| Errors.TimeoutTraitsTest | src/error.rs:1029-1067 | a retryable timeout waits 1000 ms between at most 3 retries |
| Errors.NetworkTransientTest | src/error.rs:1029-1067 | a network error is transient |
| Performance.AllocationsSaved | src/core/performance_analysis.rs:193-195 | one per frame, always within `u64`, positive exactly when fps and duration are |
| Performance.TotalPixels | src/core/performance_analysis.rs:113-115 | pixels per frame times frames, positive exactly when all four figures are |
| Performance.MemoryPerFrame | src/core/performance_analysis.rs:128-130 | four bytes per pixel of one frame |
| Performance.TotalMemoryTransfer | src/core/performance_analysis.rs:143-145 | at least the pixel count, zero exactly when it is |
| Performance.ConversionOperationsSaved | src/core/performance_analysis.rs:167-171 | at least the pixel count, zero exactly when it is |
| Performance.TransferIsFramesTimesFrameBytes | src/core/performance_analysis.rs:128-171 | bytes moved are bytes per frame times frames |
| Performance.FullHdTenSeconds | src/core/performance_analysis.rs:291-299 | 1920x1080 at 30 fps for 10 s: 622,080,000 pixels, 8,294,400 bytes per frame, 300 allocations |
| CaptureSources.GradientChannel | src/capture/session_sources.rs:163-177 | green is `y*255/h` and red is `x*255/w`, both bytes |
| CaptureSources.Gradient | src/capture/session_sources.rs:156-187 | `w*h*4` bytes |
| CaptureSources.GradientAt | src/capture/session_sources.rs:163-177 | byte `(y*w + x)*4 + k` is channel `k` of pixel `(x, y)` |
| CaptureSources.FFmpegCaptureSource.constructor | src/capture/session_sources.rs:129-136 | 1920x1080 whatever the display |
| CaptureSources.FFmpegCaptureSource.InputSize | src/capture/session_sources.rs:142-147 | the dimensions fixed at construction |
| CaptureSources.FFmpegCaptureSource.Initialize | src/capture/session_sources.rs:149-154 | always succeeds |
| CaptureSources.FFmpegCaptureSource.Shutdown | src/capture/session_sources.rs:189-192 | always succeeds |
| CaptureSources.FFmpegCaptureSource.CaptureFrame | src/capture/session_sources.rs:156-187 | the gradient frame at the input size, tightly packed, without a timestamp |
| CaptureSources.FillRow | src/capture/session_sources.rs:163-177 | a row of the gradient written after the rows above it |
| CaptureSources.WritePixel | src/capture/session_sources.rs:163-177 | a pixel's four gradient bytes written after the earlier bytes |
| CaptureSources.StubFrameCorners | src/capture/session_sources.rs:156-187 | the first frame is 1920x1080, stride 7680, and its corners differ in red and green |

## Left out

- Memory mapping and temporary files behind the ring buffer, its atomics, and the sharing between threads are not modelled. The buffer is one array, and a single thread is assumed.
- RingBuffers.RingBuffer.constructor: a zero frame size or capacity is excluded by precondition. An empty mapping fails to map, and the modulo by zero would panic. I/O errors from the temporary file are not modelled.
- Pixel bytes are `u8` values. The `u32`, `u64` and `usize` products of sizes are taken as unbounded except where noted. A size product that overflows would panic in a debug build.
- `f32` and `f64` arithmetic is modelled as exact rationals: the scale factors of `fit_preserve` and `fit_within`, the tile overlap fraction, and `sqrt` in the composite grid. `f64::round` is rounding half up, and a cast truncates toward zero.
- Gundam.MkGrid: `overlap_frac` is a public `f32` and may be negative. The cast `as i32` keeps the sign, so a negative overlap shrinks every cell before clamping, leaving gaps between tiles. The model's overlap fraction is non-negative, so such configurations are not modelled.
- The image resizer (`fast_image_resize`) is the `Resampler` parameter. Its internal errors (`Fir`) are not produced, and its byte values are not modelled.
- The global view in the composite is sampled at `x * global_side / tile_side` as an exact quotient. The source computes the coordinate in `f32` and truncates it.
- CpuScale.ScaleError.Message: the wrapped library error's own text is not modelled.
- Gundam.GundamPack: a missing or short tile buffer, a tile rectangle outside the source, and a strided source too short for `compact_rows` (`cap-scale/src/cpu.rs:321-327`) panic in the source, and are preconditions here. A 1x1 input escapes the image (`Gundam.OnePixelEscapes`), so it is excluded from `Gundam.TilesReadable`.
- CpuScale.ScaleBgraCpu: a strided source shorter than `(h - 1) * pitch + w * 4` bytes makes `compact_rows` slice past its end and panic (`cap-scale/src/cpu.rs:321-327`). This is a precondition (`CompactionInBounds`) here, so the model says nothing about that input.
- Processing.ScalingProcessor.ProcessFrame: the same `compact_rows` panic on a short strided frame is a precondition here.
- Processing.GundamProcessor.ProcessFrame: the same `compact_rows` panic on a short strided frame, in the global scale, is a precondition here.
- Processing.InitTileCount: `Ord::clamp` panics when `min_tiles > max_tiles` (`src/processing/processing.rs:608`). This is a precondition here.
- Processing.GundamProcessor.Initialize: the same `clamp` panic when `min_tiles > max_tiles` is a precondition here.
- Session.CaptureSession.Run: once `run` has started, nothing can set the shutdown flag. `run` takes the session by value (`src/session.rs:171`), and the sender is a private field (`src/session.rs:95`) used only by `shutdown` (`src/session.rs:236-238`). A run that starts with the flag clear therefore ends only on an error. The model's `stopAfter` is fuel: the model sets the flag itself after that many passes, so a graceful stop after frames were captured is a path the source cannot take. The reachable graceful end, with the flag set before `run`, is `Session.ShutdownBeforeRun`.
- Presets.BuildPlan: Pad with a zero-sided target underflows in `u32` in the source. This is a precondition here.
- Processing.ProcessingPipeline.ProcessFrame: a processor that yields no frame reaches `unwrap` on `None` and panics in the source. This is a precondition here.
- Asynchronous execution, the Tokio runtime and locks are not modelled. Operations run to completion one at a time. Concurrent activity of the RTSP server thread while `send` sleeps is the `Interleaving` parameter.
- GStreamer pipelines, the RTSP server's sockets, mounts and media factory, and the encoder are left out. Their effects are parameters: whether an encoder pipeline could be set up, whether a buffer could be allocated (in the file stream and in the RTSP push worker), and whether a client has attached.
- Processing.FileStream.SendFrame: a frame rate of 0 with a buffer to push divides by zero in the source, because `unwrap_or` evaluates its fallback even for a stamped frame. This is a precondition here.
- `StreamMultiplexer::stream_count`, the RTSP and file stream `config` accessors, and the `RtspConfig` defaults are plain field reads and are not modelled separately.
- `RtspStreamer` (`cap-rtsp/src/lib.rs:639-694`) is a thin wrapper around the publisher and an optional processor, and is not modelled.
- Logging, `println!` output and `Debug` and `Display` implementations are left out, except the error messages the model returns.
- The error-builder macro and `ErrorBuilder` (`src/error.rs:946-993`) are left out. Their effect is the context builder calls, which are modelled.
- Foreign error payloads (`std::io::Error`, `anyhow`) are opaque descriptions. The `From` conversions are not modelled.
- The `severity()`, `context()` and `recovery_suggestion()` accessors are field reads of the modelled context.
- The wall-clock timestamp of a new error context is a parameter.
- Cli.ParseU32: Rust's `parse::<u32>` also accepts a leading '+', which is modelled. Non-ASCII digits are rejected as in Rust.
- Cli.ParseDuration: a last character outside ASCII makes `split_at` panic in the source. This is a precondition here.
- Cli.ToLower: only ASCII letters are folded. Rust's `to_lowercase` also folds other scripts, but no quality word contains them.
- The argument parser (`clap`) and `main` are not modelled. `main` passes five arguments to a seven-argument `CaptureConfig::new` in the source, so the configuration it would build is unclear.
- Performance: the fields are `u32`, so the frame count always fits in `u64`. The pixel, byte and operation products must fit their widths, which is a precondition. The source would overflow otherwise.
- CaptureSources: the stub's constants are fixed, so its `u32` index products never overflow. Grabbing an X11 display is not modelled.

## Findings

| source | as written | input that shows it | evidently intended | confidence | as-written member | corrected member |
|---|---|---|---|---|---|---|
| src/main.rs:84 | `num * 60` in `u32`, unchecked. A release build wraps and a debug build panics | "71582789m" gives 44 seconds | reject a duration whose seconds do not fit in 32 bits | not executed | Cli.ParseDurationAsWritten (shown by Cli.MinutesWrapAsWritten, Cli.MinutesWrapExample) | Cli.ParseDuration (proved by Cli.DurationRoundTrip) |
