// The processing layer: a pipeline that threads the frame size and each
// frame through its processors in order, a multiplexer that fans frames out
// to every output stream, and the concrete processors (Gundam tiling, token
// preset scaling) and streams (file, RTSP) the session builds.
//
// Processors and streams are reached through interfaces whose methods are
// asynchronous in the source; here each interface is a record of state
// transition functions over an element type, so the orchestration is proved
// for every processor and stream at once.

module Processing {
  import opened Common
  import opened Arith
  import opened Presets
  import opened CpuScale
  import opened Gundam
  import opened Rtsp

  // ---------------------------------------------------------------------
  // Processor interface and pipeline
  // ---------------------------------------------------------------------

  /** `FrameProcessor`: `initialize` maps an input size to an output size,
      `process_frame` maps a frame to a frame, to nothing, or to an error;
      both may update the processor. */
  datatype ProcessorOps<!P> = ProcessorOps(
    init: (P, Size) -> (P, Result<Size, string>),
    process: (P, BgraFrame) -> (P, Result<Option<BgraFrame>, string>))

  /** Processors after initializing `ps` in order from `size`, and the
      final size or the first error; processors after a failing one are
      left as they were. */
  function InitFold<P>(init: (P, Size) -> (P, Result<Size, string>), ps: seq<P>, size: Size)
    : (out: (seq<P>, Result<Size, string>))
    ensures |out.0| == |ps|
    ensures ps == [] ==> out.1 == Ok(size)
    decreases |ps|
  {
    if ps == [] then ([], Ok(size))
    else
      var (p, r) := init(ps[0], size);
      if r.Err? then ([p] + ps[1..], r)
      else
        var (rest, r2) := InitFold(init, ps[1..], r.value);
        ([p] + rest, r2)
  }

  /** Initializing `ps + qs` is initializing `ps`, then `qs` from the size
      `ps` produced; after an error `qs` is not touched. */
  lemma {:induction false} InitFoldAppend<P>(init: (P, Size) -> (P, Result<Size, string>),
                                            ps: seq<P>, qs: seq<P>, size: Size)
    ensures var (a, ra) := InitFold(init, ps, size);
      InitFold(init, ps + qs, size) ==
        if ra.Err? then (a + qs, ra)
        else var (b, rb) := InitFold(init, qs, ra.value); (a + b, rb)
    decreases |ps|
  {
    if ps == [] {
      assert ps + qs == qs;
      assert InitFold(init, ps, size).0 + InitFold(init, qs, size).0 == InitFold(init, qs, size).0;
    } else {
      assert (ps + qs)[0] == ps[0];
      assert (ps + qs)[1..] == ps[1..] + qs;
      var (p, r) := init(ps[0], size);
      if r.Ok? {
        InitFoldAppend(init, ps[1..], qs, r.value);
        var (a, ra) := InitFold(init, ps[1..], r.value);
        if ra.Ok? {
          var (b, rb) := InitFold(init, qs, ra.value);
          assert [p] + (a + b) == ([p] + a) + b;
        } else {
          assert [p] + (a + qs) == ([p] + a) + qs;
        }
      } else {
        assert [p] + (ps[1..] + qs) == ([p] + ps[1..]) + qs;
      }
    }
  }

  /** One more processor after a successful prefix. */
  lemma InitFoldSnoc<P>(init: (P, Size) -> (P, Result<Size, string>), ps: seq<P>, x: P, size: Size)
    requires InitFold(init, ps, size).1.Ok?
    ensures var (a, ra) := InitFold(init, ps, size);
      InitFold(init, ps + [x], size) == (a + [init(x, ra.value).0], init(x, ra.value).1)
  {
    InitFoldAppend(init, ps, [x], size);
    assert [x][1..] == [];
    assert [init(x, InitFold(init, ps, size).1.value).0] + [] == [init(x, InitFold(init, ps, size).1.value).0];
  }

  /** What running a frame through processors ends in. */
  datatype Outcome = Produced(frame: BgraFrame) | Failed(message: string) | Skipped

  /** Processors after feeding `frame` through `ps` in order, each taking
      the previous one's output; an error stops the run, and so does a
      processor that returns no frame (the source panics there). */
  function ProcessFold<P>(process: (P, BgraFrame) -> (P, Result<Option<BgraFrame>, string>),
                          ps: seq<P>, frame: BgraFrame)
    : (out: (seq<P>, Outcome))
    ensures |out.0| == |ps|
    ensures ps == [] ==> out.1 == Produced(frame)
    decreases |ps|
  {
    if ps == [] then ([], Produced(frame))
    else
      var (p, r) := process(ps[0], frame);
      if r.Err? then ([p] + ps[1..], Failed(r.error))
      else if r.value.None? then ([p] + ps[1..], Skipped)
      else
        var (rest, o) := ProcessFold(process, ps[1..], r.value.value);
        ([p] + rest, o)
  }

  /** Processing through `ps + qs` is processing through `ps`, then through
      `qs` starting from the frame `ps` produced. */
  lemma {:induction false} ProcessFoldAppend<P>(process: (P, BgraFrame) -> (P, Result<Option<BgraFrame>, string>),
                                               ps: seq<P>, qs: seq<P>, frame: BgraFrame)
    ensures var (a, oa) := ProcessFold(process, ps, frame);
      ProcessFold(process, ps + qs, frame) ==
        if !oa.Produced? then (a + qs, oa)
        else var (b, ob) := ProcessFold(process, qs, oa.frame); (a + b, ob)
    decreases |ps|
  {
    if ps == [] {
      assert ps + qs == qs;
      assert ProcessFold(process, ps, frame).0 + ProcessFold(process, qs, frame).0 == ProcessFold(process, qs, frame).0;
    } else {
      assert (ps + qs)[0] == ps[0];
      assert (ps + qs)[1..] == ps[1..] + qs;
      var (p, r) := process(ps[0], frame);
      if r.Ok? && r.value.Some? {
        ProcessFoldAppend(process, ps[1..], qs, r.value.value);
        var (a, oa) := ProcessFold(process, ps[1..], r.value.value);
        if oa.Produced? {
          var (b, ob) := ProcessFold(process, qs, oa.frame);
          assert [p] + (a + b) == ([p] + a) + b;
        } else {
          assert [p] + (a + qs) == ([p] + a) + qs;
        }
      } else {
        assert [p] + (ps[1..] + qs) == ([p] + ps[1..]) + qs;
      }
    }
  }

  /** One more processor after a prefix that produced a frame. */
  lemma ProcessFoldSnoc<P>(process: (P, BgraFrame) -> (P, Result<Option<BgraFrame>, string>),
                           ps: seq<P>, x: P, frame: BgraFrame)
    requires ProcessFold(process, ps, frame).1.Produced?
    ensures var (a, oa) := ProcessFold(process, ps, frame);
      var (p, r) := process(x, oa.frame);
      ProcessFold(process, ps + [x], frame) ==
        (a + [p], if r.Err? then Failed(r.error) else if r.value.None? then Skipped else Produced(r.value.value))
  {
    ProcessFoldAppend(process, ps, [x], frame);
    assert [x][1..] == [];
    var (p, r) := process(x, ProcessFold(process, ps, frame).1.frame);
    assert [p] + [] == [p];
  }

  class ProcessingPipeline<P> {
    const ops: ProcessorOps<P>
    var processors: seq<P>

    /** `ProcessingPipeline::new`: no processors. */
    constructor (ops: ProcessorOps<P>)
      ensures this.ops == ops && processors == []
    {
      this.ops := ops;
      processors := [];
    }

    /** `initialize`: the left fold of the processors' `initialize` over
        the input size, stopping at the first error. */
    method Initialize(input: Size) returns (r: Result<Size, string>)
      modifies this
      ensures (processors, r) == InitFold(ops.init, old(processors), input)
    {
      ghost var ps := processors;
      var current := input;
      var i := 0;
      while i < |processors|
        invariant 0 <= i <= |processors| == |ps|
        invariant InitFold(ops.init, ps[..i], input) == (processors[..i], Ok(current))
        invariant processors[i..] == ps[i..]
      {
        var (p, res) := ops.init(processors[i], current);
        InitFoldSnoc(ops.init, ps[..i], ps[i], input);
        assert ps[..i + 1] == ps[..i] + [ps[i]];
        assert processors[i + 1..] == ps[i + 1..];
        processors := processors[i := p];
        assert processors[..i + 1] == processors[..i] + [p];
        assert processors[i + 1..] == ps[i + 1..];
        if res.Err? {
          InitFoldAppend(ops.init, ps[..i + 1], ps[i + 1..], input);
          assert ps[..i + 1] + ps[i + 1..] == ps;
          assert processors == processors[..i + 1] + processors[i + 1..];
          return res;
        }
        current := res.value;
        i := i + 1;
      }
      assert ps[..i] == ps && processors[..i] == processors;
      r := Ok(current);
    }

    /** `process_frame`: each processor takes the previous output; the first
        error is returned. A processor returning no frame panics in the
        source, so runs that reach one are excluded. */
    method ProcessFrame(frame: BgraFrame) returns (r: Result<BgraFrame, string>)
      requires !ProcessFold(ops.process, processors, frame).1.Skipped?
      modifies this
      ensures processors == ProcessFold(ops.process, old(processors), frame).0
      ensures var o := ProcessFold(ops.process, old(processors), frame).1;
        (o.Produced? ==> r == Ok(o.frame)) && (o.Failed? ==> r == Err(o.message))
    {
      ghost var ps := processors;
      var current := frame;
      var i := 0;
      while i < |processors|
        invariant 0 <= i <= |processors| == |ps|
        invariant ProcessFold(ops.process, ps[..i], frame) == (processors[..i], Produced(current))
        invariant processors[i..] == ps[i..]
      {
        var (p, res) := ops.process(processors[i], current);
        ProcessFoldSnoc(ops.process, ps[..i], ps[i], frame);
        ProcessFoldAppend(ops.process, ps[..i + 1], ps[i + 1..], frame);
        assert ps[..i + 1] == ps[..i] + [ps[i]];
        assert ps[..i + 1] + ps[i + 1..] == ps;
        assert processors[i + 1..] == ps[i + 1..];
        processors := processors[i := p];
        assert processors[..i + 1] == processors[..i] + [p];
        assert processors[i + 1..] == ps[i + 1..];
        if res.Err? {
          assert processors == processors[..i + 1] + processors[i + 1..];
          return Err(res.error);
        }
        if res.value.None? {
          assert false;
        }
        current := res.value.value;
        i := i + 1;
      }
      assert ps[..i] == ps && processors[..i] == processors;
      r := Ok(current);
    }
  }

  // ---------------------------------------------------------------------
  // Stream interface and multiplexer
  // ---------------------------------------------------------------------

  /** `Stream`: `initialize`, `send_frame` and `shutdown`, each of which may
      update the stream and fail. */
  datatype StreamOps<!S> = StreamOps(
    init: S -> (S, Result<(), string>),
    send: (S, BgraFrame) -> (S, Result<(), string>),
    shutdown: S -> (S, Result<(), string>))

  /** Streams after applying `step` to each in order up to and including
      the first failure; later streams are left as they were. */
  function StepAll<S>(step: S -> (S, Result<(), string>), ss: seq<S>): (out: (seq<S>, Result<(), string>))
    ensures |out.0| == |ss|
    decreases |ss|
  {
    if ss == [] then ([], Ok(()))
    else
      var (s, r) := step(ss[0]);
      if r.Err? then ([s] + ss[1..], r)
      else
        var (rest, r2) := StepAll(step, ss[1..]);
        ([s] + rest, r2)
  }

  /** Stepping `ss + qs` is stepping `ss`, then `qs` if `ss` succeeded. */
  lemma {:induction false} StepAllAppend<S>(step: S -> (S, Result<(), string>), ss: seq<S>, qs: seq<S>)
    ensures var (a, ra) := StepAll(step, ss);
      StepAll(step, ss + qs) ==
        if ra.Err? then (a + qs, ra)
        else var (b, rb) := StepAll(step, qs); (a + b, rb)
    decreases |ss|
  {
    if ss == [] {
      assert ss + qs == qs;
      assert StepAll(step, ss).0 + StepAll(step, qs).0 == StepAll(step, qs).0;
    } else {
      assert (ss + qs)[0] == ss[0];
      assert (ss + qs)[1..] == ss[1..] + qs;
      var (s, r) := step(ss[0]);
      if r.Ok? {
        StepAllAppend(step, ss[1..], qs);
        var (a, ra) := StepAll(step, ss[1..]);
        if ra.Ok? {
          var (b, rb) := StepAll(step, qs);
          assert [s] + (a + b) == ([s] + a) + b;
        } else {
          assert [s] + (a + qs) == ([s] + a) + qs;
        }
      } else {
        assert [s] + (ss[1..] + qs) == ([s] + ss[1..]) + qs;
      }
    }
  }

  /** Stepping `ss + [x]` after `ss` succeeded steps `x` last. */
  lemma StepAllSnoc<S>(step: S -> (S, Result<(), string>), ss: seq<S>, x: S)
    requires StepAll(step, ss).1.Ok?
    ensures StepAll(step, ss + [x]) == (StepAll(step, ss).0 + [step(x).0], step(x).1)
  {
    StepAllAppend(step, ss, [x]);
    assert [x][0] == x && [x][1..] == [];
    var (y, r) := step(x);
    var none: seq<S> := [];
    assert StepAll(step, none) == (none, Ok(()));
    assert [y] + none == [y];
    if r.Ok? {
      var u: () := r.value;
      assert u == ();
      assert r == Ok(());
    }
  }

  /** Stepping succeeds exactly when every stream's step does. */
  lemma {:induction false} StepAllOkIff<S>(step: S -> (S, Result<(), string>), ss: seq<S>)
    ensures StepAll(step, ss).1.Ok? <==> forall i :: 0 <= i < |ss| ==> step(ss[i]).1.Ok?
    decreases |ss|
  {
    if ss != [] {
      StepAllOkIff(step, ss[1..]);
      assert forall i :: 0 < i < |ss| ==> ss[i] == ss[1..][i - 1];
    }
  }

  /** When stepping succeeds, every stream has been stepped. */
  lemma {:induction false} StepAllOkSteps<S>(step: S -> (S, Result<(), string>), ss: seq<S>, i: nat)
    requires i < |ss| && StepAll(step, ss).1.Ok?
    ensures StepAll(step, ss).0[i] == step(ss[i]).0
    decreases |ss|
  {
    if i > 0 && step(ss[0]).1.Ok? {
      StepAllOkSteps(step, ss[1..], i - 1);
    }
  }

  /** Stepping stops at the first failing stream `j`: its error is the
      result, it and the streams before it are stepped, and the streams
      after it are untouched. */
  lemma {:induction false} StepAllStopsAt<S>(step: S -> (S, Result<(), string>), ss: seq<S>, j: nat, i: nat)
    requires j < |ss| && i < |ss| && step(ss[j]).1.Err?
    requires forall k :: 0 <= k < j ==> step(ss[k]).1.Ok?
    ensures StepAll(step, ss).1 == step(ss[j]).1
    ensures StepAll(step, ss).0[i] == if i <= j then step(ss[i]).0 else ss[i]
    decreases |ss|
  {
    if j > 0 {
      assert step(ss[0]).1.Ok?;
      assert forall k :: 0 <= k < j - 1 ==> ss[1..][k] == ss[k + 1];
      StepAllStopsAt(step, ss[1..], j - 1, if i > 0 then i - 1 else 0);
    }
  }

  /** The first error among `rs`, or success when there is none. */
  function FirstErr(rs: seq<Result<(), string>>): Result<(), string>
    decreases |rs|
  {
    if rs == [] then Ok(())
    else if rs[0].Err? then rs[0] else FirstErr(rs[1..])
  }

  /** `FirstErr` succeeds exactly when every result does, and otherwise
      returns the earliest error. */
  lemma {:induction false} FirstErrIsEarliest(rs: seq<Result<(), string>>)
    ensures FirstErr(rs).Ok? <==> forall i :: 0 <= i < |rs| ==> rs[i].Ok?
    ensures FirstErr(rs).Err? ==>
      exists j :: 0 <= j < |rs| && rs[j] == FirstErr(rs) && forall i :: 0 <= i < j ==> rs[i].Ok?
    decreases |rs|
  {
    if rs != [] && rs[0].Ok? {
      FirstErrIsEarliest(rs[1..]);
      assert forall i :: 0 < i < |rs| ==> rs[i] == rs[1..][i - 1];
      if FirstErr(rs).Err? {
        var j :| 0 <= j < |rs[1..]| && rs[1..][j] == FirstErr(rs[1..]) && forall i :: 0 <= i < j ==> rs[1..][i].Ok?;
        assert rs[j + 1] == FirstErr(rs);
        assert forall i :: 0 <= i < j + 1 ==> rs[i].Ok? by {
          forall i | 0 <= i < j + 1
            ensures rs[i].Ok?
          {
            if i > 0 { assert rs[i] == rs[1..][i - 1]; }
          }
        }
      }
    }
  }

  /** Stream states after each stream has been sent `frame`. */
  function SentStates<S>(send: (S, BgraFrame) -> (S, Result<(), string>), ss: seq<S>, frame: BgraFrame): (out: seq<S>)
    ensures |out| == |ss|
    ensures forall i :: 0 <= i < |ss| ==> out[i] == send(ss[i], frame).0
  {
    seq(|ss|, i requires 0 <= i < |ss| => send(ss[i], frame).0)
  }

  /** Each stream's result of being sent `frame`, in stream order. */
  function SendResults<S>(send: (S, BgraFrame) -> (S, Result<(), string>), ss: seq<S>, frame: BgraFrame)
    : (out: seq<Result<(), string>>)
    ensures |out| == |ss|
    ensures forall i :: 0 <= i < |ss| ==> out[i] == send(ss[i], frame).1
  {
    seq(|ss|, i requires 0 <= i < |ss| => send(ss[i], frame).1)
  }

  class StreamMultiplexer<S> {
    const ops: StreamOps<S>
    var streams: seq<S>

    /** `StreamMultiplexer::new`: no streams. */
    constructor (ops: StreamOps<S>)
      ensures this.ops == ops && streams == []
    {
      this.ops := ops;
      streams := [];
    }

    /** `initialize`: streams in order, stopping at the first error. */
    method Initialize() returns (r: Result<(), string>)
      modifies this
      ensures (streams, r) == StepAll(ops.init, old(streams))
    {
      r := StepEach(ops.init);
    }

    /** `shutdown`: streams in order, stopping at the first error. */
    method Shutdown() returns (r: Result<(), string>)
      modifies this
      ensures (streams, r) == StepAll(ops.shutdown, old(streams))
    {
      r := StepEach(ops.shutdown);
    }

    method StepEach(step: S -> (S, Result<(), string>)) returns (r: Result<(), string>)
      modifies this
      ensures (streams, r) == StepAll(step, old(streams))
    {
      ghost var ss := streams;
      var i := 0;
      while i < |streams|
        invariant 0 <= i <= |streams| == |ss|
        invariant StepAll(step, ss[..i]) == (streams[..i], Ok(()))
        invariant streams[i..] == ss[i..]
      {
        var (s, res) := step(streams[i]);
        StepAllSnoc(step, ss[..i], ss[i]);
        assert ss[..i + 1] == ss[..i] + [ss[i]];
        assert streams[i + 1..] == ss[i + 1..];
        streams := streams[i := s];
        assert streams[..i + 1] == streams[..i] + [s];
        assert streams[i + 1..] == ss[i + 1..];
        if res.Err? {
          StepAllAppend(step, ss[..i + 1], ss[i + 1..]);
          assert ss[..i + 1] + ss[i + 1..] == ss;
          assert streams == streams[..i + 1] + streams[i + 1..];
          return res;
        }
        var u: () := res.value;
        assert u == () && res == Ok(());
        i := i + 1;
      }
      assert ss[..i] == ss && streams[..i] == streams;
      r := Ok(());
    }

    /** `send_frame`: every stream is sent the same frame, even after an
        earlier one failed; then the results are scanned in stream order
        and the first error is returned. */
    method SendFrame(frame: BgraFrame) returns (r: Result<(), string>)
      modifies this
      ensures streams == SentStates(ops.send, old(streams), frame)
      ensures r == FirstErr(SendResults(ops.send, old(streams), frame))
    {
      ghost var ss := streams;
      var results: seq<Result<(), string>> := [];
      for i := 0 to |streams|
        invariant |streams| == |ss| && |results| == i
        invariant forall k :: 0 <= k < i ==> streams[k] == ops.send(ss[k], frame).0 && results[k] == ops.send(ss[k], frame).1
        invariant streams[i..] == ss[i..]
      {
        var (s, res) := ops.send(streams[i], frame);
        assert streams[i] == ss[i];
        streams := streams[i := s];
        results := results + [res];
      }
      assert results == SendResults(ops.send, ss, frame);
      r := Ok(());
      var j := |results|;
      while j > 0
        invariant 0 <= j <= |results|
        invariant r == FirstErr(results[j..])
      {
        j := j - 1;
        assert results[j..][1..] == results[j + 1..];
        if results[j].Err? {
          r := results[j];
        }
      }
      assert results[0..] == results;
    }
  }

  // ---------------------------------------------------------------------
  // Gundam tiling processor
  // ---------------------------------------------------------------------

  /** Tile buffers `GundamProcessor::initialize` allocates: about one tile
      per 1024 pixels on each side (1..3 per side), the product clamped to
      the configured range. */
  function InitTileCount(input: Size, cfg: GundamCfg): (n: nat)
    requires cfg.minTiles <= cfg.maxTiles
    ensures cfg.minTiles <= n <= cfg.maxTiles
  {
    var cols := Clamp(CeilDiv(input.w, 1024), 1, 3);
    var rows := Clamp(CeilDiv(input.h, 1024), 1, 3);
    Clamp(cols * rows, cfg.minTiles, cfg.maxTiles)
  }

  /** With the default configuration the buffers allocated at start-up are
      exactly the tiles `gundam_pack_cpu` fills: the estimate and the grid
      choice agree on every input size. */
  lemma DefaultInitMatchesPack(input: Size)
    ensures InitTileCount(input, DefaultCfg()) == TileCount(input.w, input.h, DefaultCfg())
  {
    if input.w <= 1024 && input.h <= 1024 {
      ChooseGridSmall(input.w, input.h);
      assert CeilDiv(input.w, 1024) <= 1 && CeilDiv(input.h, 1024) <= 1;
    } else {
      ChooseGridLarge(input.w, input.h);
      ChooseGridBounds(input.w, input.h);
    }
  }

  /** Output size `initialize` reports for `n` tiles of side `ts`: the
      composite grid of `n` tiles plus the global view. */
  function GundamOutputSize(n: nat, ts: nat): (s: Size)
    ensures s.w == GridCols(n) * ts && s.h == GridRows(n) * ts
  {
    Size(GridCols(n) * ts, GridRows(n) * ts)
  }

  /** A 1920x1080 screen with the default configuration: four 640-pixel
      tiles and the global view in a 3x2 grid, 1920x1280 in all. */
  lemma FullHdGundamOutput()
    ensures InitTileCount(Size(1920, 1080), DefaultCfg()) == 4
    ensures GundamOutputSize(4, DefaultCfg().tileSide) == Size(1920, 1280)
  {
    assert CeilDiv(1920, 1024) == 2 && CeilDiv(1080, 1024) == 2;
    GridOfFourTiles();
  }

  /** The bytes held by each of `bufs`. */
  function Contents(bufs: seq<array<byte>>): (c: seq<seq<byte>>)
    reads bufs
    ensures |c| == |bufs|
  {
    seq(|bufs|, i requires 0 <= i < |bufs| reads bufs => bufs[i][..])
  }

  /** `out` is the composite `arrange_gundam_composite` makes of `tiles`
      and `global`, tightly packed and stamped `pts`: the global view alone
      when there are no tiles, otherwise the grid with tile `i` in cell `i`
      and the global view in the cell after the last tile. */
  predicate IsComposite(out: BgraFrame, tiles: seq<seq<byte>>, global: seq<byte>, ts: nat, gs: nat, pts: Option<nat>)
  {
    && out.ptsNs == pts && out.stride == out.width * 4
    && (|tiles| == 0 ==> out.data == global && out.width == gs && out.height == gs)
    && (|tiles| > 0 ==>
          && out.width == GridCols(|tiles|) * ts && out.height == GridRows(|tiles|) * ts
          && |out.data| == out.width * out.height * 4)
    && (|tiles| > 0 && ts > 0 ==>
          forall px: nat, py: nat, k: nat | px < out.width && py < out.height && k < 4 ::
            out.data[Idx(out.width, out.height, px, py, k)] ==
              CompositeByte(tiles, global, ts, gs, GridCols(|tiles|), px, py, k))
  }

  /** The composite frame `process_frame` returns. */
  method ComposeFrame(tiles: seq<seq<byte>>, global: seq<byte>, ts: nat, gs: nat, pts: Option<nat>)
    returns (out: BgraFrame)
    ensures IsComposite(out, tiles, global, ts, gs, pts)
  {
    var data, width, height := ArrangeGundamComposite(tiles, global, ts, gs);
    out := BgraFrame(data, width, height, width * 4, pts);
  }

  /** `GundamProcessor`: the tiling configuration, the tile and global
      buffers `gundam_pack_cpu` writes into, and the announced output size. */
  class GundamProcessor {
    const cfg: GundamCfg
    var tileBuffers: seq<array<byte>>
    var globalBuffer: array<byte>
    var outputSize: Size

    /** The buffers are distinct objects, as separate vectors are. */
    predicate Valid()
      reads this
    {
      && (forall i, j :: 0 <= i < j < |tileBuffers| ==> tileBuffers[i] != tileBuffers[j])
      && globalBuffer !in tileBuffers
    }

    /** The processor `with_gundam` builds: no buffers and a 0x0 size until
        `initialize`. */
    constructor (cfg: GundamCfg)
      ensures this.cfg == cfg && tileBuffers == [] && globalBuffer.Length == 0
      ensures outputSize == Size(0, 0) && Valid()
    {
      this.cfg := cfg;
      tileBuffers := [];
      globalBuffer := new byte[0];
      outputSize := Size(0, 0);
    }

    /** `initialize`: zeroed buffers for `InitTileCount` tiles and for the
        global view, and the composite size of those tiles plus the view. */
    method Initialize(input: Size) returns (r: Result<Size, string>)
      requires cfg.minTiles <= cfg.maxTiles
      modifies this
      ensures Valid()
      ensures |tileBuffers| == InitTileCount(input, cfg)
      ensures forall i :: 0 <= i < |tileBuffers| ==>
        fresh(tileBuffers[i]) && tileBuffers[i][..] == Zeros(PixelBytes(Size(cfg.tileSide, cfg.tileSide)))
      ensures fresh(globalBuffer) && globalBuffer[..] == Zeros(PixelBytes(Size(cfg.globalSide, cfg.globalSide)))
      ensures outputSize == GundamOutputSize(|tileBuffers|, cfg.tileSide) && r == Ok(outputSize)
    {
      var n := InitTileCount(input, cfg);
      var tileLen := PixelBytes(Size(cfg.tileSide, cfg.tileSide));
      var bufs: seq<array<byte>> := [];
      while |bufs| < n
        invariant |bufs| <= n
        invariant forall i :: 0 <= i < |bufs| ==> fresh(bufs[i]) && bufs[i][..] == Zeros(tileLen)
        invariant forall i, j :: 0 <= i < j < |bufs| ==> bufs[i] != bufs[j]
      {
        var b := new byte[tileLen](_ => 0);
        assert b[..] == Zeros(tileLen);
        bufs := bufs + [b];
      }
      tileBuffers := bufs;
      var gLen := PixelBytes(Size(cfg.globalSide, cfg.globalSide));
      globalBuffer := new byte[gLen](_ => 0);
      assert globalBuffer[..] == Zeros(gLen);
      outputSize := GundamOutputSize(n, cfg.tileSide);
      r := Ok(outputSize);
    }

    /** `process_frame`: `gundam_pack_cpu` fills the tile and global
        buffers from the frame through a fresh staging buffer; its error is
        returned as is; otherwise the buffers are arranged into the
        composite, which keeps the frame's timestamp. */
    method ProcessFrame(frame: BgraFrame, resample: Resampler) returns (r: Result<Option<BgraFrame>, string>)
      requires Valid()
      requires cfg.globalSide >= 1 && (TileCount(frame.width, frame.height, cfg) > 0 ==> cfg.tileSide >= 1)
      requires |tileBuffers| >= TileCount(frame.width, frame.height, cfg)
      requires forall i :: 0 <= i < TileCount(frame.width, frame.height, cfg) ==>
        && tileBuffers[i].Length >= PixelBytes(Size(cfg.tileSide, cfg.tileSide))
        && RectReadable(frame.data, frame.stride, TileRect(frame.width, frame.height, cfg, i))
      requires globalBuffer.Length >= PixelBytes(Size(cfg.globalSide, cfg.globalSide)) ==>
        CompactionInBounds(frame.data, Size(frame.width, frame.height), Some(frame.stride))
      modifies tileBuffers, globalBuffer
      ensures forall i :: 0 <= i < TileCount(frame.width, frame.height, cfg) ==>
        tileBuffers[i][..] == TileOutput(old(tileBuffers[i][..]), frame.data, frame.stride,
                                         TileRect(frame.width, frame.height, cfg, i), cfg, resample)
      ensures forall i :: TileCount(frame.width, frame.height, cfg) <= i < |tileBuffers| ==>
        tileBuffers[i][..] == old(tileBuffers[i][..])
      ensures globalBuffer.Length < PixelBytes(Size(cfg.globalSide, cfg.globalSide)) ==>
        r == Err(BufferTooSmall.Message())
      ensures globalBuffer.Length >= PixelBytes(Size(cfg.globalSide, cfg.globalSide))
              && !Strided(Size(frame.width, frame.height), Some(frame.stride))
              && |frame.data| < PixelBytes(Size(frame.width, frame.height)) ==>
        r == Err(ImageBuf.Message())
      ensures r.Ok? <==> globalBuffer.Length >= PixelBytes(Size(cfg.globalSide, cfg.globalSide))
                         && (Strided(Size(frame.width, frame.height), Some(frame.stride))
                             || |frame.data| >= PixelBytes(Size(frame.width, frame.height)))
      ensures r.Ok? ==>
        && r.value.Some?
        && IsComposite(r.value.value, Contents(tileBuffers), globalBuffer[..], cfg.tileSide, cfg.globalSide, frame.ptsNs)
    ensures r.Ok? ==>
      && CompactionInBounds(frame.data, Size(frame.width, frame.height), Some(frame.stride))
      && globalBuffer[..] == GlobalOutput(old(globalBuffer[..]), frame.data, frame.width, frame.height, frame.stride,
                                          cfg, resample)
    {
      var staging := new Staging.WithCapacity(frame.stride * frame.height);
      var packed := GundamPack(frame.data, frame.width, frame.height, frame.stride, cfg, staging,
                               tileBuffers, globalBuffer, resample);
      if packed.Err? {
        return Err(packed.error.Message());
      }
      var composite := ComposeFrame(Contents(tileBuffers), globalBuffer[..], cfg.tileSide, cfg.globalSide, frame.ptsNs);
      r := Ok(Some(composite));
    }
  }

  // ---------------------------------------------------------------------
  // Token preset scaling processor
  // ---------------------------------------------------------------------

  /** `buf` after `Vec::resize(n, 0)`: cut to `n` bytes or extended with
      zeros to `n` bytes. */
  function Resized(buf: seq<byte>, n: nat): (b: seq<byte>)
    ensures |b| == n
    ensures b[..Min(n, |buf|)] == buf[..Min(n, |buf|)]
    ensures forall i :: |buf| <= i < n ==> b[i] == 0
  {
    if n <= |buf| then buf[..n] else buf + Zeros(n - |buf|)
  }

  /** A fresh array holding `Resized(buf[..], n)`. */
  method ResizedCopy(buf: array<byte>, n: nat) returns (resized: array<byte>)
    ensures fresh(resized) && resized[..] == Resized(buf[..], n)
  {
    resized := new byte[n](_ => 0);
    var keep := Min(n, buf.Length);
    assert keep <= n && keep <= buf.Length;
    for i := 0 to keep
      invariant keep <= n && keep <= buf.Length
      invariant forall j :: 0 <= j < i ==> resized[j] == buf[j]
      invariant forall j :: i <= j < n ==> resized[j] == 0
    {
      resized[i] := buf[i];
    }
    ghost var want := Resized(buf[..], n);
    forall j | 0 <= j < n
      ensures resized[j] == want[j]
    {
      assert |buf[..]| == buf.Length;
      if j < keep {
        assert want[..keep][j] == buf[..][..keep][j];
      } else {
        assert keep == buf.Length < n;
      }
    }
    assert resized[..] == want;
  }

  /** Staging capacity `with_scaling` reserves: one 1920x1080 BGRA frame. */
  const SCALING_STAGING_CAPACITY: nat := 1920 * 1080 * 4

  /** `ScalingProcessor`: a token preset, the staging buffer strided input
      is compacted into, and the output buffer the scaled frame is drawn in. */
  class ScalingProcessor {
    const preset: TokenPreset
    const staging: Staging
    var outputBuffer: array<byte>
    var outputSize: Size

    /** The processor `with_scaling` builds. */
    constructor (preset: TokenPreset)
      ensures this.preset == preset && fresh(staging) && staging.buf == []
      ensures outputBuffer.Length == 0 && outputSize == Size(0, 0)
    {
      this.preset := preset;
      staging := new Staging.WithCapacity(SCALING_STAGING_CAPACITY);
      outputBuffer := new byte[0];
      outputSize := Size(0, 0);
    }

    /** `initialize`: the output size of the preset's plan for the input
        (aspect preserved); the output buffer resized to hold it; the
        staging buffer grown to hold one input frame. */
    method Initialize(input: Size) returns (r: Result<Size, string>)
      modifies this, staging
      ensures outputSize == BuildPlan(input, ToTarget(preset), Preserve).out
      ensures r == Ok(outputSize)
      ensures outputBuffer[..] == Resized(old(outputBuffer[..]), PixelBytes(outputSize))
      ensures staging.buf == Grown(old(staging.buf), PixelBytes(input))
    {
      outputSize := BuildPlan(input, ToTarget(preset), Preserve).out;
      var n := PixelBytes(outputSize);
      var resized := ResizedCopy(outputBuffer, n);
      outputBuffer := resized;
      staging.EnsureLen(PixelBytes(input));
      r := Ok(outputSize);
    }

    /** `process_frame`: the frame scaled into the output buffer by the
        preset's plan for the frame's own size (aspect preserved), the
        stride compacted through the staging buffer; the returned frame is
        a copy of the whole output buffer with the plan's size and the
        input's timestamp. */
    method ProcessFrame(frame: BgraFrame, resample: Resampler) returns (r: Result<Option<BgraFrame>, string>)
      requires outputBuffer.Length >= PixelBytes(BuildPlan(Size(frame.width, frame.height), ToTarget(preset), Preserve).out) ==>
        CompactionInBounds(frame.data, Size(frame.width, frame.height), Some(frame.stride))
      modifies outputBuffer, staging
      ensures var size := Size(frame.width, frame.height);
        var plan := BuildPlan(size, ToTarget(preset), Preserve);
        var stride := Some(frame.stride);
        && (outputBuffer.Length < PixelBytes(plan.out) ==>
              r == Err(BufferTooSmall.Message()) && outputBuffer[..] == old(outputBuffer[..])
              && staging.buf == old(staging.buf))
        && (outputBuffer.Length >= PixelBytes(plan.out) ==>
              staging.buf == if Strided(size, stride) then Staged(old(staging.buf), frame.data, size, frame.stride)
                             else old(staging.buf))
        && (outputBuffer.Length >= PixelBytes(plan.out) && !Strided(size, stride) && |frame.data| < PixelBytes(size) ==>
              r == Err(ImageBuf.Message()) && outputBuffer[..] == old(outputBuffer[..]))
        && (outputBuffer.Length >= PixelBytes(plan.out) && (Strided(size, stride) || |frame.data| >= PixelBytes(size)) ==>
              var pixels := if Strided(size, stride) then staging.buf[..PixelBytes(size)] else frame.data[..PixelBytes(size)];
              && outputBuffer[..] == ScaledOutput(old(outputBuffer[..]), plan.out, ViewRoi(plan), pixels, size, resample)
              && r == Ok(Some(BgraFrame(outputBuffer[..], plan.out.w, plan.out.h, plan.out.w * 4, frame.ptsNs))))
    {
      var size := Size(frame.width, frame.height);
      var plan := BuildPlan(size, ToTarget(preset), Preserve);
      var scaled := ScaleBgraCpu(frame.data, size, Some(frame.stride), plan, outputBuffer, staging, resample);
      if scaled.Err? {
        return Err(scaled.error.Message());
      }
      r := Ok(Some(BgraFrame(outputBuffer[..], plan.out.w, plan.out.h, plan.out.w * 4, frame.ptsNs)));
    }
  }

  // ---------------------------------------------------------------------
  // Output streams
  // ---------------------------------------------------------------------

  datatype StreamFormat = RtspFormat(port: nat, mount: string) | FileFormat(path: string)

  datatype StreamConfig = StreamConfig(width: nat, height: nat, fps: nat, format: StreamFormat)

  /** A buffer handed to the encoder: its timestamp and its bytes. */
  datatype PushedBuffer = PushedBuffer(pts: nat, data: seq<byte>)

  /** Timestamp a file stream gives a frame: the frame's own, or else
      `count` frame durations at `fps`. */
  function FilePts(ptsNs: Option<nat>, count: nat, fps: nat): (pts: nat)
    requires fps > 0
    ensures ptsNs.Some? ==> pts == ptsNs.value
    ensures ptsNs.None? ==> pts == count * FrameDuration(fps)
  {
    match ptsNs
    case Some(t) => t
    case None => count * (NANOS_PER_SECOND / fps)
  }

  /** Unstamped frames in a file are one frame duration apart, and the
      first is stamped one duration in (the counter is bumped before use),
      whereas the RTSP push worker starts its clock at zero. */
  lemma FilePtsSpacing(count: nat, fps: nat)
    requires fps > 0
    ensures FilePts(None, count + 1, fps) == FilePts(None, count, fps) + FrameDuration(fps)
    ensures FilePts(None, 1, fps) == FrameDuration(fps)
    ensures fps <= NANOS_PER_SECOND ==> FilePts(None, count, fps) < FilePts(None, count + 1, fps)
  {
    var d := FrameDuration(fps);
    assert (count + 1) * d == count * d + d;
    if fps <= NANOS_PER_SECOND {
      DivGeBound(NANOS_PER_SECOND, fps, 1);
    }
  }

  /** `FileStream`: frames are encoded to a file once the encoder pipeline
      is up; `initialized` also says that the pipeline and its source
      element exist. */
  class FileStream {
    const config: StreamConfig
    const path: string
    var frameCount: nat
    var initialized: bool

    /** `FileStream::new`: no frames counted and no pipeline. */
    constructor (path: string, config: StreamConfig)
      ensures this.path == path && this.config == config && frameCount == 0 && !initialized
    {
      this.path := path;
      this.config := config;
      frameCount := 0;
      initialized := false;
    }

    /** `send_frame`: frames before initialization are skipped silently;
        afterwards each is counted and, when the encoder can allocate a
        buffer (`bufferReady`), pushed with its timestamp. Never fails. The
        fallback timestamp divides by the frame rate even for frames that
        carry their own, so a zero rate panics once a buffer is ready. */
    method SendFrame(frame: BgraFrame, bufferReady: bool) returns (r: Result<(), string>, pushed: Option<PushedBuffer>)
      requires initialized && bufferReady ==> config.fps > 0
      modifies this
      ensures r == Ok(()) && initialized == old(initialized)
      ensures frameCount == if initialized then old(frameCount) + 1 else old(frameCount)
      ensures pushed.Some? <==> initialized && bufferReady
      ensures pushed.Some? ==> pushed.value == PushedBuffer(FilePts(frame.ptsNs, frameCount, config.fps), frame.data)
    {
      pushed := None;
      r := Ok(());
      if !initialized {
        return;
      }
      frameCount := frameCount + 1;
      if !bufferReady {
        return;
      }
      var fallback := frameCount * (NANOS_PER_SECOND / config.fps);
      var pts := if frame.ptsNs.Some? then frame.ptsNs.value else fallback;
      pushed := Some(PushedBuffer(pts, frame.data));
    }

    /** `initialize`: nothing to do once initialized; otherwise the
        encoder pipeline is set up, whose outcome (`setup`) is returned,
        and the stream is initialized exactly when it succeeded. */
    method Initialize(setup: Result<(), string>) returns (r: Result<(), string>)
      modifies this
      ensures frameCount == old(frameCount)
      ensures old(initialized) ==> r == Ok(()) && initialized
      ensures !old(initialized) ==> r == setup && initialized == setup.Ok?
    {
      if initialized {
        return Ok(());
      }
      if setup.Err? {
        return setup;
      }
      initialized := true;
      var done: () := setup.value;
      assert done == () && setup == Ok(());
      r := Ok(());
    }

    /** `shutdown`: ends the stream in the encoder and always succeeds. */
    method Shutdown() returns (r: Result<(), string>)
      ensures r == Ok(())
    {
      r := Ok(());
    }
  }

  /** Three frames sent to a file stream: the one before initialization is
      skipped and not counted; the next two are stamped one and two frame
      durations in. */
  method FileStreamScenario(f: BgraFrame)
    requires f.ptsNs == None
  {
    var s := new FileStream("capture.mp4", StreamConfig(1920, 1080, 30, FileFormat("capture.mp4")));
    var _, p0 := s.SendFrame(f, true);
    assert p0 == None && s.frameCount == 0;
    var init := s.Initialize(Ok(()));
    assert init == Ok(()) && s.initialized;
    var _, p1 := s.SendFrame(f, true);
    assert p1 == Some(PushedBuffer(33_333_333, f.data));
    var _, p2 := s.SendFrame(f, true);
    assert p2 == Some(PushedBuffer(66_666_666, f.data));
  }

  /** `RtspStream`: frames go to the RTSP publisher's queue. */
  class RtspStream {
    const publisher: RtspPublisher
    const config: StreamConfig

    constructor (publisher: RtspPublisher, config: StreamConfig)
      ensures this.publisher == publisher && this.config == config
    {
      this.publisher := publisher;
      this.config := config;
    }

    /** `send_frame`: `RtspPublisher::send`, with its errors. */
    method SendFrame(frame: BgraFrame, during: Interleaving) returns (r: Result<(), string>)
      requires publisher.tx.Valid()
      modifies publisher.tx
      ensures publisher.tx.Valid()
      ensures !old(publisher.tx.receiverAlive) ==> r == Err(THREAD_ENDED)
      ensures old(publisher.tx.receiverAlive) && |old(publisher.tx.queue)| < publisher.tx.capacity ==>
        r == Ok(()) && publisher.tx.queue == old(publisher.tx.queue) + [frame]
      ensures old(publisher.tx.receiverAlive) && |old(publisher.tx.queue)| == publisher.tx.capacity ==>
        var rest := old(publisher.tx.queue)[Min(during.drained, |old(publisher.tx.queue)|)..];
        if !during.receiverEnds && |rest| < publisher.tx.capacity
        then r == Ok(()) && publisher.tx.queue == rest + [frame]
        else r == Err(QUEUE_FULL) && publisher.tx.queue == rest
    {
      r := publisher.Send(frame, during);
    }

    /** `initialize`: the publisher is running already. */
    method Initialize() returns (r: Result<(), string>)
      ensures r == Ok(())
    {
      r := Ok(());
    }

    /** `shutdown`: nothing to stop. */
    method Shutdown() returns (r: Result<(), string>)
      ensures r == Ok(())
    {
      r := Ok(());
    }
  }
}
