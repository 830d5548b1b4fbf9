// The capture configuration: its defaults, its validation, and the copy
// into the options the capture entry point takes.
//
// The two configuration files of the repository (the older one inside the
// config directory and the newer one beside it) hold the same fields, the
// same defaults, the same checks in the same order and the same copy, so
// they are modelled once.

module Config {
  import opened Common
  import opened Presets

  const FPS_ZERO := "FPS must be greater than 0"
  const SECONDS_ZERO := "Duration must be greater than 0 seconds"
  const CRF_RANGE := "CRF must be between 18 and 28"

  /** Lowest and highest constant rate factor the encoder is allowed. */
  const CRF_MIN: nat := 18
  const CRF_MAX: nat := 28

  /** `CaptureConfig`; its `new` is this constructor, taking the fields in
      declaration order. `fps` and `seconds` are `u32` in the source. */
  datatype CaptureConfig = CaptureConfig(
    output: string,
    fps: nat,
    seconds: nat,
    crf: byte,
    window: bool,
    scalePreset: Option<TokenPreset>,
    gundamMode: bool)

  /** `CaptureOptions`, the options the capture entry point takes. */
  datatype CaptureOptions = CaptureOptions(
    output: string,
    fps: nat,
    seconds: nat,
    crf: byte,
    window: bool,
    scalePreset: Option<TokenPreset>,
    gundamMode: bool)

  /** What a configuration must satisfy to be captured with. */
  predicate IsValid(c: CaptureConfig)
  {
    c.fps > 0 && c.seconds > 0 && CRF_MIN <= c.crf <= CRF_MAX
  }

  /** `CaptureConfig::default`: `capture.mp4` at 30 frames per second for
      10 seconds at rate factor 23, full screen, no scaling, no tiling; a
      configuration that validates. */
  function Default(): (c: CaptureConfig)
    ensures c.output == "capture.mp4" && c.fps == 30 && c.seconds == 10 && c.crf == 23
    ensures !c.window && c.scalePreset == None && !c.gundamMode
    ensures IsValid(c)
  {
    CaptureConfig("capture.mp4", 30, 10, 23, false, None, false)
  }

  /** `validate`: succeeds exactly on valid configurations; otherwise it
      reports the first failing check, in the order frame rate, duration,
      rate factor. */
  function Validate(c: CaptureConfig): (r: Result<(), string>)
    ensures r.Ok? <==> IsValid(c)
    ensures c.fps == 0 ==> r == Err(FPS_ZERO)
    ensures c.fps > 0 && c.seconds == 0 ==> r == Err(SECONDS_ZERO)
    ensures c.fps > 0 && c.seconds > 0 && !(CRF_MIN <= c.crf <= CRF_MAX) ==> r == Err(CRF_RANGE)
  {
    if c.fps == 0 then Err(FPS_ZERO)
    else if c.seconds == 0 then Err(SECONDS_ZERO)
    else if !(CRF_MIN <= c.crf <= CRF_MAX) then Err(CRF_RANGE)
    else Ok(())
  }

  /** `to_capture_options`: every field copied unchanged, so building a
      configuration back from the options gives the original. */
  function ToCaptureOptions(c: CaptureConfig): (o: CaptureOptions)
    ensures CaptureConfig(o.output, o.fps, o.seconds, o.crf, o.window, o.scalePreset, o.gundamMode) == c
  {
    CaptureOptions(c.output, c.fps, c.seconds, c.crf, c.window, c.scalePreset, c.gundamMode)
  }

  /** Validation reads only the frame rate, the duration and the rate
      factor: the output path, the window flag, the preset and the tiling
      flag never change its answer. */
  lemma ValidateReadsThreeFields(a: CaptureConfig, b: CaptureConfig)
    requires a.fps == b.fps && a.seconds == b.seconds && a.crf == b.crf
    ensures Validate(a) == Validate(b)
  {
  }

  /** The repository's validation test: the default validates; a zero frame
      rate, a zero duration and the rate factors 10 and 30 are each
      rejected; putting the field back makes the configuration valid
      again. */
  lemma ValidationTestSequence()
    ensures Validate(Default()).Ok?
    ensures Validate(Default().(fps := 0)) == Err(FPS_ZERO)
    ensures Validate(Default().(seconds := 0)) == Err(SECONDS_ZERO)
    ensures Validate(Default().(crf := 10)) == Err(CRF_RANGE)
    ensures Validate(Default().(crf := 30)) == Err(CRF_RANGE)
    ensures Validate(Default().(crf := 30).(crf := 23)).Ok?
  {
  }

  /** Any single invalid field of a valid configuration is reported by its
      own message, and restoring it makes the configuration valid again. */
  lemma OneBadFieldIsReported(c: CaptureConfig, fps: nat, seconds: nat, crf: byte)
    requires IsValid(c)
    ensures Validate(c.(fps := fps)).Err? <==> fps == 0
    ensures Validate(c.(seconds := seconds)).Err? <==> seconds == 0
    ensures Validate(c.(crf := crf)).Err? <==> (crf < CRF_MIN || crf > CRF_MAX)
    ensures Validate(c.(crf := crf)).Err? ==> Validate(c.(crf := crf)) == Err(CRF_RANGE)
    ensures Validate(c.(fps := fps).(fps := c.fps)).Ok?
  {
  }
}
