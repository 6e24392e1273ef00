/** What the rendered resources say (internal/renderer/istio.go:182-460,
    internal/renderer/cilium.go:107-228): for each resource the settings that its renderer
    reads. Everything else in a resource is the same for all policies of that name. */
module Bodies {
  import opened Api
  import opened Options
  import opened SuccessCodes

  /** The settings of the admission control filter. */
  datatype Shedding = Shedding(
    enabled: bool, threshold: real, speed: real, window: string,
    minRequestsPerSecond: int32, maxRejectionPercent: real, successCodes: seq<HttpStatusRange>)

  /** The settings of the adaptive concurrency filter. */
  datatype Gradient = Gradient(enabled: bool, percentile: Percentile, limit: Option<int32>, rest: seq<string>)

  datatype Body =
    | AdmissionBody(selector: map<string, string>, shedding: Shedding)
    | ConcurrencyBody(selector: map<string, string>, gradient: Gradient)
    | StatsFlushBody(selector: map<string, string>)
    | SkipPathsBody(selector: map<string, string>, paths: seq<string>)
    | StreamingBody(selector: map<string, string>, streams: int32, pending: int32, timeout: int32)
    | CiliumBody(selector: map<string, string>, filter: Option<Shedding>, limiter: Option<Gradient>)

  /** `threshold` is in percent on Istio and a fraction on Cilium. */
  function SheddingOf(spec: PolicySpec, threshold: real): Shedding
    requires spec.admissionControl.Some?
  {
    var cfg := spec.admissionControl.value;
    Shedding(!spec.dryRun, threshold, spec.EffectiveSheddingSpeed(), spec.EffectiveSuccessRateWindow(),
             cfg.minRequestsPerSecond, cfg.maxRejectionPercent,
             if cfg.successCodes == [] then DEFAULT_RANGES else cfg.successCodes)
  }

  function GradientOf(spec: PolicySpec): Gradient
    requires spec.adaptiveConcurrency.Some?
  {
    var cfg := spec.adaptiveConcurrency.value;
    Gradient(!spec.dryRun, spec.EffectiveLatencyPercentile(), if cfg.limit > 0 then Some(cfg.limit) else None, cfg.rest)
  }

  function RenderAdmissionControl(spec: PolicySpec): Body
    requires spec.admissionControl.Some?
  {
    AdmissionBody(spec.selector, SheddingOf(spec, spec.EffectiveSuccessRateThreshold()))
  }

  function RenderAdaptiveConcurrency(spec: PolicySpec): Body
    requires spec.adaptiveConcurrency.Some?
  {
    ConcurrencyBody(spec.selector, GradientOf(spec))
  }

  function RenderStatsFlush(spec: PolicySpec): Body {
    StatsFlushBody(spec.selector)
  }

  function RenderSkipPaths(spec: PolicySpec): Body
    requires spec.admissionControl.Some?
  {
    SkipPathsBody(spec.selector, spec.admissionControl.value.skipPaths)
  }

  function RenderStreamingProtection(spec: PolicySpec): Body
    requires spec.streamingProtection.Some?
  {
    var cfg := spec.streamingProtection.value;
    StreamingBody(spec.selector, cfg.maxConcurrentStreams, cfg.maxPendingRequests, cfg.streamTimeoutSeconds)
  }

  function BuildCiliumEnvoyConfig(spec: PolicySpec): Body {
    CiliumBody(
      spec.selector,
      if spec.HasAdmissionControl() then Some(SheddingOf(spec, spec.EffectiveSuccessRateThreshold() / 100.0)) else None,
      if spec.HasAdaptiveConcurrency() then Some(GradientOf(spec)) else None)
  }

  // ---------------------------------------------------------------- profiles

  /** The specs have the same effective admission control settings. */
  predicate SheddingAgrees(s: PolicySpec, t: PolicySpec) {
    && s.EffectiveSuccessRateThreshold() == t.EffectiveSuccessRateThreshold()
    && s.EffectiveSheddingSpeed() == t.EffectiveSheddingSpeed()
    && s.EffectiveSuccessRateWindow() == t.EffectiveSuccessRateWindow()
  }

  predicate PercentileAgrees(s: PolicySpec, t: PolicySpec) {
    s.EffectiveLatencyPercentile() == t.EffectiveLatencyPercentile()
  }

  /** An override takes effect whatever the baseline is; where there is none, the baseline
      does, and then the default. */
  lemma OverridesWin(spec: PolicySpec, p: Profile)
    requires spec.ActiveProfileConfig() == Some(p)
    ensures p.threshold.Some? ==> spec.EffectiveSuccessRateThreshold() == p.threshold.value
    ensures p.speed.Some? ==> spec.EffectiveSheddingSpeed() == p.speed.value
    ensures p.window.Some? ==> spec.EffectiveSuccessRateWindow() == p.window.value
    ensures p.percentile.Some? ==> spec.EffectiveLatencyPercentile() == p.percentile.value
    ensures p == Profile(None, None, None, None) ==>
              SheddingAgrees(spec, spec.(activeProfile := "")) && PercentileAgrees(spec, spec.(activeProfile := ""))
  {
  }

  // ---------------------------------------------------------------- runtime layers

  /** What a push sends for a filter: its runtime keys. */
  datatype Layer = AdmissionLayer(enabled: bool, threshold: real, speed: real) | ConcurrencyLayer(enabled: bool)

  /** The threshold is pushed as a fraction. */
  function AdmissionLayerOf(spec: PolicySpec): Layer {
    AdmissionLayer(!spec.dryRun, spec.EffectiveSuccessRateThreshold() / 100.0, spec.EffectiveSheddingSpeed())
  }

  function ConcurrencyLayerOf(spec: PolicySpec): Layer {
    ConcurrencyLayer(!spec.dryRun)
  }

  /** The filter under a runtime layer: the pushed keys replace the defaults in its body. */
  function Enforced(b: Body, l: Layer): Body {
    match (b, l)
    case (AdmissionBody(selector, shedding), AdmissionLayer(enabled, threshold, speed)) =>
      AdmissionBody(selector, shedding.(enabled := enabled, threshold := threshold, speed := speed))
    case (ConcurrencyBody(selector, gradient), ConcurrencyLayer(enabled)) =>
      ConcurrencyBody(selector, gradient.(enabled := enabled))
    case _ => b
  }

  /** After a switch whose push succeeded, the admission filter enforces what the next apply
      would make it enforce if and only if the profiles agree on the window, which no push
      carries, and the threshold is 0: the push sends it as a fraction and the filter has it
      in percent. Nothing else is amiss. */
  lemma PushedAdmissionIsCurrentIff(spec: PolicySpec, profile: string)
    requires spec.admissionControl.Some?
    ensures var next := spec.(activeProfile := profile);
            var enforced := Enforced(RenderAdmissionControl(spec), AdmissionLayerOf(next));
            && (enforced == RenderAdmissionControl(next) <==>
                  && spec.EffectiveSuccessRateWindow() == next.EffectiveSuccessRateWindow()
                  && next.EffectiveSuccessRateThreshold() == 0.0)
            && enforced.shedding.(threshold := next.EffectiveSuccessRateThreshold(),
                                  window := next.EffectiveSuccessRateWindow())
               == RenderAdmissionControl(next).shedding
  {
    var next := spec.(activeProfile := profile);
    assert next.EffectiveSuccessRateThreshold() / 100.0 == next.EffectiveSuccessRateThreshold()
      <==> next.EffectiveSuccessRateThreshold() == 0.0;
  }

  /** The concurrency filter enforces what the next apply would make it enforce if and only
      if the profiles agree on the percentile: its layer carries the enabled flag alone. */
  lemma PushedConcurrencyIsCurrentIff(spec: PolicySpec, profile: string)
    requires spec.adaptiveConcurrency.Some?
    ensures var next := spec.(activeProfile := profile);
            Enforced(RenderAdaptiveConcurrency(spec), ConcurrencyLayerOf(next)) == RenderAdaptiveConcurrency(next)
            <==> PercentileAgrees(spec, next)
  {
  }
}
