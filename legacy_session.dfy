// The older session API: its builder has a `with_scaling` that adds
// nothing, and its `run` loop has no shutdown signal, so it only ever ends
// on an error.
//
// The older session holds the same pipeline, multiplexer and source as
// the newer one and runs the same passes, so it is modelled as a
// `CaptureSession` whose shutdown flag nobody sets.

module LegacySession {
  import opened Common
  import opened Presets
  import opened Processing
  import opened Session

  /** The older `run` after at most `budget` passes: the state, and `Stop`
      with the error it returned, `Continue` while it is still looping, or
      `Panic`. */
  function LegacyRunSpec<P, S, C>(ops: SessionOps<P, S, C>, st: Parts<P, S, C>, budget: nat): (Parts<P, S, C>, Pass)
  {
    var (started, r) := StartSpec(ops, st);
    if r.Err? then (started, Stop(r.error)) else Frames(ops, started, budget)
  }

  /** Once the older loop has ended with an error, a larger budget ends it
      the same way. */
  lemma LegacyStopsForGood<P, S, C>(ops: SessionOps<P, S, C>, st: Parts<P, S, C>, a: nat, b: nat)
    requires a <= b && LegacyRunSpec(ops, st, a).1.Stop?
    ensures LegacyRunSpec(ops, st, b) == LegacyRunSpec(ops, st, a)
  {
    if StartSpec(ops, st).1.Ok? {
      FramesStopEarly(ops, StartSpec(ops, st).0, a, b);
    }
  }

  /** Where the older loop ends with an error, the newer `run` whose
      shutdown comes later ends with the same error in the same state. */
  lemma LegacyErrorsMatchRun<P, S, C>(ops: SessionOps<P, S, C>, st: Parts<P, S, C>, budget: nat, stopAfter: nat)
    requires budget <= stopAfter && LegacyRunSpec(ops, st, budget).1.Stop?
    ensures RunSpec(ops, st, false, stopAfter) == (LegacyRunSpec(ops, st, budget).0, Returned(Err(LegacyRunSpec(ops, st, budget).1.error)))
  {
    if StartSpec(ops, st).1.Ok? {
      FramesStopEarly(ops, StartSpec(ops, st).0, budget, stopAfter);
    }
  }

  /** The older `run`, followed for `budget` passes: `Some` error once it
      has returned, `None` while it is still looping. */
  method LegacyRun<P, S, C>(session: CaptureSession<P, S, C>, budget: nat) returns (stopped: Option<string>)
    requires session.Valid()
    requires !LegacyRunSpec(session.ops, session.State(), budget).1.Panic?
    modifies session, session.pipeline, session.multiplexer
    ensures var (st, p) := LegacyRunSpec(session.ops, old(session.State()), budget);
      session.State() == st && (p.Stop? ==> stopped == Some(p.error)) && (p.Continue? ==> stopped == None)
  {
    var r := session.Start();
    if r.Err? {
      return Some(r.error);
    }
    ghost var end := Frames(session.ops, session.State(), budget);
    var k := 0;
    while k < budget
      invariant k <= budget
      invariant Frames(session.ops, session.State(), budget - k) == end
    {
      var sent := session.Pass();
      if sent.Err? {
        return Some(sent.error);
      }
      k := k + 1;
    }
    stopped := None;
  }

  /** The older `CaptureSessionBuilder`: the newer builder's collection
      and `build`, except that `with_scaling` adds nothing. */
  class LegacySessionBuilder<P, S, C> {
    const inner: CaptureSessionBuilder<P, S, C>

    constructor (ops: SessionOps<P, S, C>)
      ensures fresh(inner) && inner.ops == ops
      ensures inner.processors == [] && inner.streams == [] && inner.source == None
    {
      inner := new CaptureSessionBuilder(ops);
    }

    /** `with_gundam`: one more processor, last. */
    method WithGundam(p: P)
      modifies inner
      ensures inner.processors == old(inner.processors) + [p]
      ensures inner.streams == old(inner.streams) && inner.source == old(inner.source)
    {
      inner.WithProcessor(p);
    }

    /** `with_scaling`: a placeholder that leaves the builder unchanged. */
    method WithScaling(preset: TokenPreset)
      ensures inner.processors == old(inner.processors)
      ensures inner.streams == old(inner.streams) && inner.source == old(inner.source)
    {
    }

    /** `with_rtsp_stream` and `with_file_output`: one more stream, last. */
    method WithStream(s: S)
      modifies inner
      ensures inner.streams == old(inner.streams) + [s]
      ensures inner.processors == old(inner.processors) && inner.source == old(inner.source)
    {
      inner.WithStream(s);
    }

    /** `with_capture_source`: replaces any source set before. */
    method WithCaptureSource(c: C)
      modifies inner
      ensures inner.source == Some(c)
      ensures inner.processors == old(inner.processors) && inner.streams == old(inner.streams)
    {
      inner.WithCaptureSource(c);
    }

    /** `build`: a missing stream is reported before a missing source. */
    method Build() returns (r: Result<CaptureSession<P, S, C>, string>)
      ensures inner.streams == [] ==> r == Err(NO_STREAMS)
      ensures inner.streams != [] && inner.source.None? ==> r == Err(NO_SOURCE)
      ensures inner.streams != [] && inner.source.Some? ==>
        && r.Ok? && fresh(r.value) && r.value.Valid() && r.value.ops == inner.ops
        && r.value.State() == Parts(inner.processors, inner.streams, inner.source.value)
    {
      r := inner.Build();
    }
  }

  /** Scaling adds no processor to the older builder: a Gundam processor
      followed by scaling builds a pipeline of just that processor. */
  method ScalingIsIgnored<P, S, C>(ops: SessionOps<P, S, C>, g: P, s: S, c: C)
  {
    var b := new LegacySessionBuilder(ops);
    b.WithGundam(g);
    b.WithScaling(P4Long640);
    b.WithStream(s);
    b.WithCaptureSource(c);
    var r := b.Build();
    assert r.Ok? && r.value.State().processors == [g];
  }
}
