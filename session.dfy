// The capture session: a builder collecting processors, streams and a
// capture source, and the session that initializes them, runs the
// capture -> process -> broadcast loop until shutdown is signalled, and
// cleans up.
//
// The capture source is an interface like the processors and streams: a
// record of state transition functions. Once `run` has started, nothing
// in the source can set the shutdown flag (`run` takes the session by
// value and the sender is private), so a run that starts with the flag
// clear only ends on an error. `Run` takes fuel, `stopAfter`: the model
// sets the flag itself after that many passes so that the method ends.

module Session {
  import opened Common
  import opened Presets
  import opened Rtsp
  import opened Processing

  const NO_STREAMS := "At least one stream must be configured"
  const NO_SOURCE := "No capture source specified"

  /** `CaptureSource`: capture a frame, report the input size, initialize
      and shut down; all but the size may update the source and fail. */
  datatype SourceOps<!C> = SourceOps(
    capture: C -> (C, Result<BgraFrame, string>),
    inputSize: C -> Size,
    init: C -> (C, Result<(), string>),
    shutdown: C -> (C, Result<(), string>))

  /** The interfaces of a session's processors, streams and source. */
  datatype SessionOps<!P, !S, !C> = SessionOps(processor: ProcessorOps<P>, stream: StreamOps<S>, source: SourceOps<C>)

  /** The states of a session's processors, streams and source. */
  datatype Parts<P, S, C> = Parts(processors: seq<P>, streams: seq<S>, source: C)

  /** How one pass of the capture loop ends: on to the next, with an error
      that ends the run, or in the panic of a processor returning no frame. */
  datatype Pass = Continue | Stop(error: string) | Panic

  /** One pass: capture a frame, run it through the pipeline, send the
      result to every stream; each failure ends the pass. */
  function Frame<P, S, C>(ops: SessionOps<P, S, C>, st: Parts<P, S, C>): (Parts<P, S, C>, Pass)
  {
    var (src, captured) := ops.source.capture(st.source);
    if captured.Err? then (st.(source := src), Stop(captured.error))
    else
      var (ps, o) := ProcessFold(ops.processor.process, st.processors, captured.value);
      match o
      case Skipped => (Parts(ps, st.streams, src), Panic)
      case Failed(m) => (Parts(ps, st.streams, src), Stop(m))
      case Produced(f) =>
        var sent := FirstErr(SendResults(ops.stream.send, st.streams, f));
        (Parts(ps, SentStates(ops.stream.send, st.streams, f), src),
         if sent.Err? then Stop(sent.error) else Continue)
  }

  /** Up to `n` passes, ending early at the first that does not continue. */
  function Frames<P, S, C>(ops: SessionOps<P, S, C>, st: Parts<P, S, C>, n: nat): (Parts<P, S, C>, Pass)
    decreases n
  {
    if n == 0 then (st, Continue)
    else
      var (next, p) := Frame(ops, st);
      if !p.Continue? then (next, p) else Frames(ops, next, n - 1)
  }

  /** `a + b` passes are `a` passes, then `b` more if all `a` continued. */
  lemma {:induction false} FramesAppend<P, S, C>(ops: SessionOps<P, S, C>, st: Parts<P, S, C>, a: nat, b: nat)
    ensures var (mid, p) := Frames(ops, st, a);
      Frames(ops, st, a + b) == if !p.Continue? then (mid, p) else Frames(ops, mid, b)
    decreases a
  {
    if a > 0 {
      var (next, p) := Frame(ops, st);
      if p.Continue? {
        FramesAppend(ops, next, a - 1, b);
        assert a + b - 1 == (a - 1) + b;
      }
    }
  }

  /** A run that stops early stops with the same outcome however many more
      passes it was allowed. */
  lemma FramesStopEarly<P, S, C>(ops: SessionOps<P, S, C>, st: Parts<P, S, C>, a: nat, b: nat)
    requires a <= b && !Frames(ops, st, a).1.Continue?
    ensures Frames(ops, st, b) == Frames(ops, st, a)
  {
    FramesAppend(ops, st, a, b - a);
  }

  /** `cleanup`: shut the source down, then the streams in order; the
      first error ends it. */
  function CleanupSpec<P, S, C>(ops: SessionOps<P, S, C>, st: Parts<P, S, C>): (Parts<P, S, C>, Result<(), string>)
  {
    var (src, rs) := ops.source.shutdown(st.source);
    if rs.Err? then (st.(source := src), rs)
    else
      var (ss, rm) := StepAll(ops.stream.shutdown, st.streams);
      (Parts(st.processors, ss, src), rm)
  }

  /** How `run` ends: it returns, or a processor's missing frame panics. */
  datatype RunEnd = Returned(result: Result<(), string>) | Panicked

  /** The start of `run`: initialize the pipeline from the source's input
      size, then the streams; the first error ends it. */
  function StartSpec<P, S, C>(ops: SessionOps<P, S, C>, st: Parts<P, S, C>): (Parts<P, S, C>, Result<(), string>)
  {
    var (ps, ri) := InitFold(ops.processor.init, st.processors, ops.source.inputSize(st.source));
    if ri.Err? then (st.(processors := ps), Err(ri.error))
    else
      var (ss, rm) := StepAll(ops.stream.init, st.streams);
      (Parts(ps, ss, st.source), rm)
  }

  /** The end of `run` after the capture loop ended as `p`: an error is
      returned without cleaning up; a loop left on the shutdown flag is
      followed by cleanup. */
  function Finish<P, S, C>(ops: SessionOps<P, S, C>, fin: Parts<P, S, C>, p: Pass): (Parts<P, S, C>, RunEnd)
  {
    match p
    case Panic => (fin, Panicked)
    case Stop(e) => (fin, Returned(Err(e)))
    case Continue =>
      var (cleaned, rc) := CleanupSpec(ops, fin);
      (cleaned, Returned(rc))
  }

  /** `run`: start; pass frames until the shutdown flag is seen (at once if
      it was already set, otherwise, as fuel, before frame number
      `stopAfter`); then clean up. Any error returns at once. */
  function RunSpec<P, S, C>(ops: SessionOps<P, S, C>, st: Parts<P, S, C>, flagSet: bool, stopAfter: nat)
    : (Parts<P, S, C>, RunEnd)
  {
    var (started, r) := StartSpec(ops, st);
    if r.Err? then (started, Returned(r))
    else
      var (fin, p) := Frames(ops, started, if flagSet then 0 else stopAfter);
      Finish(ops, fin, p)
  }

  /** A run returns success only if every processor and stream initialized,
      every pass it made succeeded, the source shut down and every stream
      shut down. */
  lemma RunOkMeansAllSucceeded<P, S, C>(ops: SessionOps<P, S, C>, st: Parts<P, S, C>, flagSet: bool, stopAfter: nat)
    requires RunSpec(ops, st, flagSet, stopAfter).1 == Returned(Ok(()))
    ensures var (ps, ri) := InitFold(ops.processor.init, st.processors, ops.source.inputSize(st.source));
      && ri.Ok?
      && (forall i :: 0 <= i < |st.streams| ==> ops.stream.init(st.streams[i]).1.Ok?)
      && var ss := StepAll(ops.stream.init, st.streams).0;
         var (fin, p) := Frames(ops, Parts(ps, ss, st.source), if flagSet then 0 else stopAfter);
         && p.Continue?
         && ops.source.shutdown(fin.source).1.Ok?
         && (forall i :: 0 <= i < |fin.streams| ==> ops.stream.shutdown(fin.streams[i]).1.Ok?)
  {
    var (ps, ri) := InitFold(ops.processor.init, st.processors, ops.source.inputSize(st.source));
    StepAllOkIff(ops.stream.init, st.streams);
    var ss := StepAll(ops.stream.init, st.streams).0;
    var (fin, p) := Frames(ops, Parts(ps, ss, st.source), if flagSet then 0 else stopAfter);
    StepAllOkIff(ops.stream.shutdown, fin.streams);
  }

  /** With the flag already set when `run` starts, no frame is captured:
      the run initializes and then cleans up. */
  lemma ShutdownBeforeRun<P, S, C>(ops: SessionOps<P, S, C>, st: Parts<P, S, C>, stopAfter: nat)
    requires InitFold(ops.processor.init, st.processors, ops.source.inputSize(st.source)).1.Ok?
    requires StepAll(ops.stream.init, st.streams).1.Ok?
    ensures var ps := InitFold(ops.processor.init, st.processors, ops.source.inputSize(st.source)).0;
      var ss := StepAll(ops.stream.init, st.streams).0;
      var (cleaned, rc) := CleanupSpec(ops, Parts(ps, ss, st.source));
      RunSpec(ops, st, true, stopAfter) == (cleaned, Returned(rc))
  {
  }

  /** `get_output_size`: initialize the source, then the pipeline from the
      source's input size, then the streams; the pipeline's output size,
      or the first error. */
  function OutputSizeSpec<P, S, C>(ops: SessionOps<P, S, C>, st: Parts<P, S, C>): (Parts<P, S, C>, Result<Size, string>)
  {
    var (src, rs) := ops.source.init(st.source);
    if rs.Err? then (st.(source := src), Err(rs.error))
    else
      var (ps, ri) := InitFold(ops.processor.init, st.processors, ops.source.inputSize(src));
      if ri.Err? then (Parts(ps, st.streams, src), ri)
      else
        var (ss, rm) := StepAll(ops.stream.init, st.streams);
        (Parts(ps, ss, src), if rm.Err? then Err(rm.error) else ri)
  }

  /** With no processors, the output size is the source's input size once
      everything initializes. */
  lemma OutputSizeWithoutProcessors<P, S, C>(ops: SessionOps<P, S, C>, st: Parts<P, S, C>)
    requires st.processors == []
    requires ops.source.init(st.source).1.Ok?
    requires forall i :: 0 <= i < |st.streams| ==> ops.stream.init(st.streams[i]).1.Ok?
    ensures OutputSizeSpec(ops, st).1 == Ok(ops.source.inputSize(ops.source.init(st.source).0))
  {
    StepAllOkIff(ops.stream.init, st.streams);
  }

  class CaptureSession<P, S, C> {
    const ops: SessionOps<P, S, C>
    const pipeline: ProcessingPipeline<P>
    const multiplexer: StreamMultiplexer<S>
    var source: C
    var shutdownRequested: bool

    /** The pipeline and multiplexer work through the session's interfaces. */
    ghost predicate Valid()
    {
      pipeline.ops == ops.processor && multiplexer.ops == ops.stream
    }

    ghost function State(): Parts<P, S, C>
      reads this, pipeline, multiplexer
    {
      Parts(pipeline.processors, multiplexer.streams, source)
    }

    constructor (ops: SessionOps<P, S, C>, pipeline: ProcessingPipeline<P>, multiplexer: StreamMultiplexer<S>, source: C)
      requires pipeline.ops == ops.processor && multiplexer.ops == ops.stream
      ensures this.ops == ops && this.pipeline == pipeline && this.multiplexer == multiplexer
      ensures this.source == source && !shutdownRequested && Valid()
    {
      this.ops := ops;
      this.pipeline := pipeline;
      this.multiplexer := multiplexer;
      this.source := source;
      shutdownRequested := false;
    }

    /** `shutdown`: signal the running loop to stop. */
    method Shutdown()
      modifies this
      ensures shutdownRequested && source == old(source)
    {
      shutdownRequested := true;
    }

    /** `cleanup` */
    method Cleanup() returns (r: Result<(), string>)
      requires Valid()
      modifies this, multiplexer
      ensures (State(), r) == CleanupSpec(ops, old(State()))
      ensures shutdownRequested == old(shutdownRequested)
    {
      var (src, rs) := ops.source.shutdown(source);
      source := src;
      if rs.Err? {
        return rs;
      }
      r := multiplexer.Shutdown();
    }

    /** `get_output_size` */
    method GetOutputSize() returns (r: Result<Size, string>)
      requires Valid()
      modifies this, pipeline, multiplexer
      ensures (State(), r) == OutputSizeSpec(ops, old(State()))
    {
      var (src, rs) := ops.source.init(source);
      source := src;
      if rs.Err? {
        return Err(rs.error);
      }
      var size := pipeline.Initialize(ops.source.inputSize(source));
      if size.Err? {
        return size;
      }
      var rm := multiplexer.Initialize();
      if rm.Err? {
        return Err(rm.error);
      }
      r := size;
    }

    /** The start of `run`. */
    method Start() returns (r: Result<(), string>)
      requires Valid()
      modifies pipeline, multiplexer
      ensures (State(), r) == StartSpec(ops, old(State()))
    {
      var ri := pipeline.Initialize(ops.source.inputSize(source));
      if ri.Err? {
        return Err(ri.error);
      }
      r := multiplexer.Initialize();
    }

    /** One pass of the capture loop of `run`; `Continue` is success. */
    method Pass() returns (r: Result<(), string>)
      requires Valid()
      requires !Frame(ops, State()).1.Panic?
      modifies this, pipeline, multiplexer
      ensures (State(), if r.Err? then Stop(r.error) else Continue) == Frame(ops, old(State()))
      ensures shutdownRequested == old(shutdownRequested)
    {
      var (src, captured) := ops.source.capture(source);
      source := src;
      if captured.Err? {
        return Err(captured.error);
      }
      var processed := pipeline.ProcessFrame(captured.value);
      if processed.Err? {
        return Err(processed.error);
      }
      r := multiplexer.SendFrame(processed.value);
    }

    /** `run`. `stopAfter` is fuel: after that many passes the model calls
        `shutdown` itself, a stop the source has no way to make once `run`
        has started. A run that would reach a processor's missing frame is
        excluded (the source panics there). */
    method Run(stopAfter: nat) returns (r: Result<(), string>)
      requires Valid()
      requires !RunSpec(ops, State(), shutdownRequested, stopAfter).1.Panicked?
      modifies this, pipeline, multiplexer
      ensures (State(), Returned(r)) == RunSpec(ops, old(State()), old(shutdownRequested), stopAfter)
    {
      r := Start();
      if r.Err? {
        return;
      }
      ghost var start := State();
      ghost var passes := if shutdownRequested then 0 else stopAfter;
      ghost var end := Frames(ops, start, passes);
      assert RunSpec(ops, old(State()), old(shutdownRequested), stopAfter) == Finish(ops, end.0, end.1);
      var k := 0;
      while true
        invariant k <= passes && shutdownRequested == old(shutdownRequested)
        invariant Frames(ops, State(), passes - k) == end
        decreases passes - k
      {
        if k == stopAfter {
          Shutdown();
        }
        if shutdownRequested {
          break;
        }
        var sent := Pass();
        if sent.Err? {
          return sent;
        }
        k := k + 1;
      }
      r := Cleanup();
    }
  }

  /** `CaptureSessionBuilder`: processors, streams and the capture source
      collected one call at a time. */
  class CaptureSessionBuilder<P, S, C> {
    const ops: SessionOps<P, S, C>
    var processors: seq<P>
    var streams: seq<S>
    var source: Option<C>

    /** `new`: nothing configured. */
    constructor (ops: SessionOps<P, S, C>)
      ensures this.ops == ops && processors == [] && streams == [] && source == None
    {
      this.ops := ops;
      processors := [];
      streams := [];
      source := None;
    }

    /** `with_gundam` and `with_scaling`: one more processor, last. */
    method WithProcessor(p: P)
      modifies this
      ensures processors == old(processors) + [p]
      ensures streams == old(streams) && source == old(source)
    {
      processors := processors + [p];
    }

    /** `with_rtsp_stream`, `with_file_output` and `with_stream`: one more
        stream, last. */
    method WithStream(s: S)
      modifies this
      ensures streams == old(streams) + [s]
      ensures processors == old(processors) && source == old(source)
    {
      streams := streams + [s];
    }

    /** `with_capture_source`: replaces any source set before. */
    method WithCaptureSource(c: C)
      modifies this
      ensures source == Some(c)
      ensures processors == old(processors) && streams == old(streams)
    {
      source := Some(c);
    }

    /** `build`: the processors in order into a new pipeline; at least one
        stream is required, checked before the source; the streams in order
        into a new multiplexer; the source required; a session whose
        shutdown flag is clear. */
    method Build() returns (r: Result<CaptureSession<P, S, C>, string>)
      ensures streams == [] ==> r == Err(NO_STREAMS)
      ensures streams != [] && source.None? ==> r == Err(NO_SOURCE)
      ensures streams != [] && source.Some? ==>
        && r.Ok? && fresh(r.value) && fresh(r.value.pipeline) && fresh(r.value.multiplexer)
        && r.value.Valid() && r.value.ops == ops && !r.value.shutdownRequested
        && r.value.State() == Parts(processors, streams, source.value)
    {
      var pipeline := new ProcessingPipeline(ops.processor);
      for i := 0 to |processors|
        invariant pipeline.processors == processors[..i]
      {
        pipeline.processors := pipeline.processors + [processors[i]];
        assert processors[..i + 1] == processors[..i] + [processors[i]];
      }
      assert processors[..|processors|] == processors;
      if streams == [] {
        return Err(NO_STREAMS);
      }
      var multiplexer := new StreamMultiplexer(ops.stream);
      for i := 0 to |streams|
        invariant multiplexer.streams == streams[..i] && pipeline.processors == processors
      {
        multiplexer.streams := multiplexer.streams + [streams[i]];
        assert streams[..i + 1] == streams[..i] + [streams[i]];
      }
      assert streams[..|streams|] == streams;
      if source.None? {
        return Err(NO_SOURCE);
      }
      var session := new CaptureSession(ops, pipeline, multiplexer, source.value);
      assert session.State() == Parts(processors, streams, source.value);
      r := Ok(session);
    }
  }

  /** A builder with a stream but no source fails to build, and so does one
      with a source but no stream, reporting the missing stream. */
  method BuildWithoutSourceOrStream<P, S, C>(ops: SessionOps<P, S, C>, s: S, c: C)
  {
    var b := new CaptureSessionBuilder(ops);
    b.WithStream(s);
    var r1 := b.Build();
    assert r1 == Err(NO_SOURCE);
    var b2 := new CaptureSessionBuilder(ops);
    b2.WithCaptureSource(c);
    var r2 := b2.Build();
    assert r2 == Err(NO_STREAMS);
    b2.WithStream(s);
    var r3 := b2.Build();
    assert r3.Ok?;
  }
}
