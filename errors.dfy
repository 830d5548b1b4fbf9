// The crate's structured error: sixteen variants, each carrying an error
// context, and the tables that classify an error as retryable,
// recoverable, transient or fatal and rank it by severity.
//
// The context's wall-clock timestamp is a parameter. Payloads that wrap
// foreign errors (an I/O error, a boxed library error, a JSON value) are
// left out; the classifiers never look at them.

module Errors {
  import opened Common

  /** `ErrorSeverity`, in declaration order. */
  datatype Severity = Debug | Info | Warning | Error | Critical | Fatal

  /** The declaration order that the derived `Ord` compares by. */
  const SEVERITIES: seq<Severity> := [Debug, Info, Warning, Error, Critical, Fatal]

  /** The derived `Ord`: `a` is declared no later than `b`. */
  ghost predicate SeverityLe(a: Severity, b: Severity)
  {
    exists i, j :: 0 <= i <= j < |SEVERITIES| && SEVERITIES[i] == a && SEVERITIES[j] == b
  }

  /** `ErrorContext`. */
  datatype ErrorContext = ErrorContext(
    timestamp: nat,
    operation: Option<string>,
    context: Option<string>,
    recoverySuggestion: Option<string>,
    sourceLocation: Option<string>,
    severity: Severity,
    retryable: bool,
    recoverable: bool,
    metadata: map<string, string>)

  /** `ErrorContext::new` (and `default`) at the time `now`: severity
      `Error`, neither retryable nor recoverable, nothing else set. */
  function NewContext(now: nat): (c: ErrorContext)
    ensures c.timestamp == now && c.severity == Error && !c.retryable && !c.recoverable
    ensures c.operation == None && c.context == None && c.recoverySuggestion == None && c.sourceLocation == None
    ensures c.metadata == map[]
  {
    ErrorContext(now, None, None, None, None, Error, false, false, map[])
  }

  /** One builder call on a context: the `with_*` methods, `retryable()`,
      `recoverable()` and `with_metadata`. */
  datatype ContextUpdate =
    | SetOperation(operation: string)
    | SetContext(context: string)
    | SetRecoverySuggestion(suggestion: string)
    | SetSourceLocation(location: string)
    | SetSeverity(severity: Severity)
    | MarkRetryable
    | MarkRecoverable
    | AddMetadata(key: string, value: string)

  /** The parts of a context a builder call can set; each metadata key is a
      part of its own. */
  datatype Field = FOperation | FContext | FSuggestion | FLocation | FSeverity | FRetryable | FRecoverable | FMeta(key: string)

  datatype FieldValue = Text(text: Option<string>) | Level(level: Severity) | Flag(flag: bool)

  function FieldOf(u: ContextUpdate): Field
  {
    match u
    case SetOperation(_) => FOperation
    case SetContext(_) => FContext
    case SetRecoverySuggestion(_) => FSuggestion
    case SetSourceLocation(_) => FLocation
    case SetSeverity(_) => FSeverity
    case MarkRetryable => FRetryable
    case MarkRecoverable => FRecoverable
    case AddMetadata(k, _) => FMeta(k)
  }

  /** The value a builder call leaves in its field. */
  function ValueOf(u: ContextUpdate): FieldValue
  {
    match u
    case SetOperation(s) => Text(Some(s))
    case SetContext(s) => Text(Some(s))
    case SetRecoverySuggestion(s) => Text(Some(s))
    case SetSourceLocation(s) => Text(Some(s))
    case SetSeverity(s) => Level(s)
    case MarkRetryable => Flag(true)
    case MarkRecoverable => Flag(true)
    case AddMetadata(_, v) => Text(Some(v))
  }

  /** A field's current value; a metadata key's is the entry, if any. */
  function Get(c: ErrorContext, f: Field): FieldValue
  {
    match f
    case FOperation => Text(c.operation)
    case FContext => Text(c.context)
    case FSuggestion => Text(c.recoverySuggestion)
    case FLocation => Text(c.sourceLocation)
    case FSeverity => Level(c.severity)
    case FRetryable => Flag(c.retryable)
    case FRecoverable => Flag(c.recoverable)
    case FMeta(k) => Text(if k in c.metadata then Some(c.metadata[k]) else None)
  }

  /** Contexts are equal when their time and all their fields are. */
  lemma ContextExtensionality(a: ErrorContext, b: ErrorContext)
    requires a.timestamp == b.timestamp
    requires forall f :: Get(a, f) == Get(b, f)
    ensures a == b
  {
    assert Get(a, FOperation) == Get(b, FOperation) && Get(a, FContext) == Get(b, FContext);
    assert Get(a, FSuggestion) == Get(b, FSuggestion) && Get(a, FLocation) == Get(b, FLocation);
    assert Get(a, FSeverity) == Get(b, FSeverity);
    assert Get(a, FRetryable) == Get(b, FRetryable) && Get(a, FRecoverable) == Get(b, FRecoverable);
    forall k
      ensures (k in a.metadata <==> k in b.metadata) && (k in a.metadata ==> a.metadata[k] == b.metadata[k])
    {
      assert Get(a, FMeta(k)) == Get(b, FMeta(k));
    }
    assert a.metadata == b.metadata;
  }

  /** A builder call sets its own field to its value and leaves the time
      and every other field as they were. */
  function Apply(c: ErrorContext, u: ContextUpdate): (r: ErrorContext)
    ensures Get(r, FieldOf(u)) == ValueOf(u)
    ensures forall f :: f != FieldOf(u) ==> Get(r, f) == Get(c, f)
    ensures r.timestamp == c.timestamp
  {
    match u
    case SetOperation(s) => c.(operation := Some(s))
    case SetContext(s) => c.(context := Some(s))
    case SetRecoverySuggestion(s) => c.(recoverySuggestion := Some(s))
    case SetSourceLocation(s) => c.(sourceLocation := Some(s))
    case SetSeverity(s) => c.(severity := s)
    case MarkRetryable => c.(retryable := true)
    case MarkRecoverable => c.(recoverable := true)
    case AddMetadata(k, v) => c.(metadata := c.metadata[k := v])
  }

  /** Builder calls on different fields can be made in either order. */
  lemma {:induction false} UpdatesCommute(c: ErrorContext, u: ContextUpdate, v: ContextUpdate)
    requires FieldOf(u) != FieldOf(v)
    ensures Apply(Apply(c, u), v) == Apply(Apply(c, v), u)
  {
    var a, b := Apply(Apply(c, u), v), Apply(Apply(c, v), u);
    forall f
      ensures Get(a, f) == Get(b, f)
    {
    }
    ContextExtensionality(a, b);
  }

  /** Of two builder calls on the same field, the later one wins. */
  lemma {:induction false} LaterUpdateWins(c: ErrorContext, u: ContextUpdate, v: ContextUpdate)
    requires FieldOf(u) == FieldOf(v)
    ensures Apply(Apply(c, u), v) == Apply(c, v)
  {
    var a, b := Apply(Apply(c, u), v), Apply(c, v);
    forall f
      ensures Get(a, f) == Get(b, f)
    {
    }
    ContextExtensionality(a, b);
  }

  /** `CaptureError`'s variants with the payloads the model keeps. */
  datatype Kind =
    | Config(field: string, value: string, reason: string)
    | CaptureInit(platform: string, reason: string)
    | FrameCapture(reason: string)
    | Processing(operation: string, reason: string)
    | Streaming(target: string, reason: string)
    | Resource(resource: string, reason: string)
    | Platform(platform: string, code: Option<int>, reason: string)
    | Io(operation: string, path: Option<string>)
    | GStreamer(element: Option<string>, message: string)
    | External(library: string)
    | Timeout(operation: string, durationMs: nat)
    | Validation(field: string, constraint: string, value: string)
    | State(currentState: string, attemptedOperation: string, reason: string)
    | Network(operation: string, address: Option<string>)
    | Auth(operation: string, reason: string)
    | Custom(category: string, message: string)

  /** A `CaptureError`: its variant and its context. Each of the source's
      constructors (`config`, `timeout`, `network`, ...) is
      `CaptureError(kind, NewContext(now))`. */
  datatype CaptureError = CaptureError(kind: Kind, ctx: ErrorContext)

  /** The error's own builder calls go through `context_mut` to its
      context: the variant and payload are kept. The error has no builder
      for the source location, which is only set on a bare context. */
  function Update(e: CaptureError, u: ContextUpdate): (r: CaptureError)
    requires !u.SetSourceLocation?
    ensures r.kind == e.kind && r.ctx == Apply(e.ctx, u)
  {
    e.(ctx := Apply(e.ctx, u))
  }

  /** The two errors are the same variant. */
  predicate SameVariant(a: Kind, b: Kind)
  {
    || (a.Config? && b.Config?) || (a.CaptureInit? && b.CaptureInit?)
    || (a.FrameCapture? && b.FrameCapture?) || (a.Processing? && b.Processing?)
    || (a.Streaming? && b.Streaming?) || (a.Resource? && b.Resource?)
    || (a.Platform? && b.Platform?) || (a.Io? && b.Io?)
    || (a.GStreamer? && b.GStreamer?) || (a.External? && b.External?)
    || (a.Timeout? && b.Timeout?) || (a.Validation? && b.Validation?)
    || (a.State? && b.State?) || (a.Network? && b.Network?)
    || (a.Auth? && b.Auth?) || (a.Custom? && b.Custom?)
  }

  /** `category`: the variant's fixed lower-case tag. */
  function Category(e: CaptureError): (tag: string)
    ensures |tag| > 0
  {
    match e.kind
    case Config(_, _, _) => "config"
    case CaptureInit(_, _) => "capture_init"
    case FrameCapture(_) => "frame_capture"
    case Processing(_, _) => "processing"
    case Streaming(_, _) => "streaming"
    case Resource(_, _) => "resource"
    case Platform(_, _, _) => "platform"
    case Io(_, _) => "io"
    case GStreamer(_, _) => "gstreamer"
    case External(_) => "external"
    case Timeout(_, _) => "timeout"
    case Validation(_, _, _) => "validation"
    case State(_, _, _) => "state"
    case Network(_, _) => "network"
    case Auth(_, _) => "auth"
    case Custom(_, _) => "custom"
  }

  /** The tag names the variant: two errors share a tag exactly when they
      are the same variant. */
  lemma CategoryNamesVariant(a: CaptureError, b: CaptureError)
    ensures Category(a) == Category(b) <==> SameVariant(a.kind, b.kind)
  {
    if Category(a) == Category(b) {
      var t := Category(a);
      assert |t| == |Category(b)| && t[0] == Category(b)[0] && t[1] == Category(b)[1];
    }
  }

  /** `retry_delay_ms`: the recommended wait before a retry, for the
      variants that have one. */
  function RetryDelayMs(e: CaptureError): (d: Option<nat>)
    ensures d.Some? <==> MaxRetries(e).Some?
    ensures d.Some? ==> 100 <= d.value <= 2000
  {
    match e.kind
    case Timeout(_, _) => Some(1000)
    case Network(_, _) => Some(2000)
    case Resource(_, _) => Some(500)
    case Io(_, _) => Some(100)
    case _ => None
  }

  /** `max_retries`: the retry budget, for the same variants. */
  function MaxRetries(e: CaptureError): (n: Option<nat>)
    ensures n.Some? ==> 3 <= n.value <= 10
  {
    match e.kind
    case Timeout(_, _) => Some(3)
    case Network(_, _) => Some(5)
    case Resource(_, _) => Some(10)
    case Io(_, _) => Some(3)
    case _ => None
  }

  /** `is_retryable`: retryable exactly when marked so or when its variant
      comes with a recommended retry delay. */
  function IsRetryable(e: CaptureError): (b: bool)
    ensures b <==> e.ctx.retryable || RetryDelayMs(e).Some?
  {
    e.ctx.retryable || e.kind.Timeout? || e.kind.Network? || e.kind.Resource? || e.kind.Io?
  }

  /** `RecoveryStrategy`. */
  datatype RecoveryStrategy =
    | Retry(maxAttempts: nat, delayMs: nat)
    | Fallback(description: string)
    | Reinitialize(component: string)
    | Skip(reason: string)
    | Degrade(description: string)

  /** `recovery_strategies`: two strategies for the timeout, network,
      resource, processing and streaming variants, none for the rest. */
  function RecoveryStrategies(e: CaptureError): (r: seq<RecoveryStrategy>)
    ensures |r| == 0 || |r| == 2
    ensures r != [] <==> (IsTransient(e) || e.kind.Processing? || e.kind.Streaming?)
  {
    match e.kind
    case Timeout(_, _) => [Retry(3, 1000), Fallback("Use synchronous operation")]
    case Network(_, _) => [Retry(5, 2000), Reinitialize("network_connection")]
    case Resource(_, _) => [Retry(3, 500), Degrade("Reduce resource usage")]
    case Processing(_, _) => [Skip("Skip current frame"), Reinitialize("processing_pipeline")]
    case Streaming(_, _) => [Retry(3, 1000), Fallback("Switch to file output")]
    case _ => []
  }

  /** `is_recoverable`: recoverable exactly when marked so or when its
      variant has recovery strategies. */
  function IsRecoverable(e: CaptureError): (b: bool)
    ensures b <==> e.ctx.recoverable || RecoveryStrategies(e) != []
  {
    e.ctx.recoverable || e.kind.Timeout? || e.kind.Network? || e.kind.Resource? || e.kind.Processing? || e.kind.Streaming?
  }

  /** `classify::is_transient`: exactly the errors with a retry delay
      that are not I/O errors. */
  function IsTransient(e: CaptureError): (b: bool)
    ensures b <==> RetryDelayMs(e).Some? && !e.kind.Io?
  {
    e.kind.Timeout? || e.kind.Network? || e.kind.Resource?
  }

  /** A transient error is retryable and recoverable whatever its flags. */
  lemma TransientIsRetryableAndRecoverable(e: CaptureError)
    requires IsTransient(e)
    ensures IsRetryable(e) && IsRecoverable(e)
  {
  }

  /** `classify::is_fatal`: a configuration, authentication or validation
      error, or any error of severity `Fatal`. */
  function IsFatal(e: CaptureError): (b: bool)
    ensures b <==> e.kind.Config? || e.kind.Auth? || e.kind.Validation? || e.ctx.severity == Fatal
  {
    match e.kind
    case Config(_, _, _) => true
    case Auth(_, _) => true
    case Validation(_, _, _) => true
    case _ => e.ctx.severity == Fatal
  }

  /** `classify::priority`: 0 for `Debug` up to 5 for `Fatal`. */
  function Priority(e: CaptureError): (p: nat)
    ensures p < |SEVERITIES| && SEVERITIES[p] == e.ctx.severity
  {
    match e.ctx.severity
    case Debug => 0
    case Info => 1
    case Warning => 2
    case Error => 3
    case Critical => 4
    case Fatal => 5
  }

  /** Priorities follow the derived order of severities. */
  lemma PriorityFollowsOrder(a: CaptureError, b: CaptureError)
    ensures SeverityLe(a.ctx.severity, b.ctx.severity) <==> Priority(a) <= Priority(b)
  {
    if SeverityLe(a.ctx.severity, b.ctx.severity) {
      var i, j :| 0 <= i <= j < |SEVERITIES| && SEVERITIES[i] == a.ctx.severity && SEVERITIES[j] == b.ctx.severity;
      SeveritiesDistinct(i, Priority(a));
      SeveritiesDistinct(j, Priority(b));
    }
  }

  /** Each severity is declared once. */
  lemma SeveritiesDistinct(i: nat, j: nat)
    requires i < |SEVERITIES| && j < |SEVERITIES| && SEVERITIES[i] == SEVERITIES[j]
    ensures i == j
  {
  }

  /** `classify::requires_user_intervention`: severity `Critical` or
      above in the derived order, that is, priority 4 or more. */
  function RequiresUserIntervention(e: CaptureError): (b: bool)
    ensures b <==> Priority(e) >= 4
  {
    e.ctx.severity == Critical || e.ctx.severity == Fatal
  }

  lemma UserInterventionByOrder(e: CaptureError)
    ensures RequiresUserIntervention(e) <==> SeverityLe(Critical, e.ctx.severity)
  {
    PriorityFollowsOrder(CaptureError(e.kind, e.ctx.(severity := Critical)), e);
  }

  /** For the timeout and network variants the first recovery strategy is
      a retry with exactly the recommended budget and delay. For the
      resource variant the strategy's budget (3) and `max_retries` (10)
      disagree, and a streaming error offers a retry although it is not
      retryable unless marked so. */
  lemma RetryStrategyAgreement(e: CaptureError)
    ensures (e.kind.Timeout? || e.kind.Network?) ==>
      RecoveryStrategies(e)[0] == Retry(MaxRetries(e).value, RetryDelayMs(e).value)
    ensures e.kind.Resource? ==> RecoveryStrategies(e)[0].maxAttempts != MaxRetries(e).value
    ensures e.kind.Streaming? && !e.ctx.retryable ==> RecoveryStrategies(e)[0].Retry? && !IsRetryable(e)
  {
  }

  /** A configuration, authentication or validation error that is neither
      marked recoverable nor of severity `Fatal` has no way out: no
      strategies, not recoverable, not transient. */
  lemma FatalKindsHaveNoRecovery(e: CaptureError)
    requires IsFatal(e) && e.ctx.severity != Fatal && !e.ctx.recoverable
    ensures RecoveryStrategies(e) == [] && !IsRecoverable(e) && !IsTransient(e)
  {
  }

  /** An error of severity `Fatal` is fatal, needs the user, and has the
      highest priority, whatever its variant. */
  lemma FatalSeverityDominates(e: CaptureError)
    requires e.ctx.severity == Fatal
    ensures IsFatal(e) && RequiresUserIntervention(e)
    ensures forall k, c :: Priority(CaptureError(k, c)) <= Priority(e)
  {
  }

  /** Errors of the same variant, severity and flags are classified
      alike: the classifiers read nothing else. */
  lemma ClassifiersReadVariantSeverityFlags(a: CaptureError, b: CaptureError)
    requires a.kind == b.kind && a.ctx.severity == b.ctx.severity
    requires a.ctx.retryable == b.ctx.retryable && a.ctx.recoverable == b.ctx.recoverable
    ensures Category(a) == Category(b) && IsRetryable(a) == IsRetryable(b)
    ensures IsRecoverable(a) == IsRecoverable(b) && IsFatal(a) == IsFatal(b)
    ensures Priority(a) == Priority(b) && RetryDelayMs(a) == RetryDelayMs(b)
  {
    assert a == CaptureError(b.kind, a.ctx);
  }

  /** Builder calls other than the two flags and the severity leave every
      classification as it was. */
  lemma ClassificationIgnoresDescriptions(e: CaptureError, u: ContextUpdate)
    requires !u.MarkRetryable? && !u.MarkRecoverable? && !u.SetSeverity? && !u.SetSourceLocation?
    ensures var r := Update(e, u);
      && Category(r) == Category(e) && IsRetryable(r) == IsRetryable(e)
      && IsRecoverable(r) == IsRecoverable(e) && IsFatal(r) == IsFatal(e)
      && Priority(r) == Priority(e) && RetryDelayMs(r) == RetryDelayMs(e)
  {
    var r := Update(e, u);
    assert Get(r.ctx, FRetryable) == Get(e.ctx, FRetryable);
    assert Get(r.ctx, FRecoverable) == Get(e.ctx, FRecoverable);
    assert Get(r.ctx, FSeverity) == Get(e.ctx, FSeverity);
    ClassifiersReadVariantSeverityFlags(r, e);
  }

  /** The repository's creation test: a configuration error is tagged
      `config`, is not retryable, and (classification test) is fatal. */
  lemma ConfigErrorTest(now: nat)
    ensures var e := CaptureError(Config("fps", "0", "must be greater than 0"), NewContext(now));
      Category(e) == "config" && !IsRetryable(e) && IsFatal(e)
  {
  }

  /** The context test: a processing error given a context, a suggestion
      and the retryable mark keeps its tag and suggestion and is
      retryable. */
  lemma ProcessingContextTest(now: nat)
    ensures var e := Update(Update(Update(
        CaptureError(Processing("resize", "invalid dimensions"), NewContext(now)),
        SetContext("resizing frame for display")),
        SetRecoverySuggestion("check frame dimensions before resize")),
        MarkRetryable);
      Category(e) == "processing" && IsRetryable(e)
      && e.ctx.recoverySuggestion == Some("check frame dimensions before resize")
  {
    var e0 := CaptureError(Processing("resize", "invalid dimensions"), NewContext(now));
    var e1 := Update(e0, SetContext("resizing frame for display"));
    var e2 := Update(e1, SetRecoverySuggestion("check frame dimensions before resize"));
    var e3 := Update(e2, MarkRetryable);
    assert e3.kind == e0.kind && e3.ctx.retryable;
    assert Get(e3.ctx, FSuggestion) == Get(e2.ctx, FSuggestion);
  }

  /** The traits test: a timeout marked retryable waits one second between
      at most three retries. */
  lemma TimeoutTraitsTest(now: nat)
    ensures var e := Update(CaptureError(Timeout("network_request", 5000), NewContext(now)), MarkRetryable);
      IsRetryable(e) && RetryDelayMs(e) == Some(1000) && MaxRetries(e) == Some(3)
  {
  }

  /** The classification test: a network error is transient. */
  lemma NetworkTransientTest(now: nat)
    ensures IsTransient(CaptureError(Network("connect", None), NewContext(now)))
  {
  }
}
