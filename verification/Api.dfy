/** The part of the AdaptivePolicy resource that the modelled code reads
    (api/v1alpha1/adaptivepolicy_types.go).

    Threshold strings such as "0.90" are represented by the number they denote
    and the empty string, which means "no bound", by None. */
module Api {
  import opened Options

  type int32 = x: int | -0x8000_0000 <= x <= 0x7FFF_FFFF

  /** Bounds on the success rate, with the number of samples that must agree. */
  datatype RateCondition = RateCondition(below: Option<real>, above: Option<real>, consecutiveSamples: int32)

  /** Bounds on a latency, with the number of samples that must agree. */
  datatype ThresholdCondition =
    ThresholdCondition(above: Option<real>, below: Option<real>, consecutiveSamples: int32)

  datatype Condition = Condition(
    successRate: Option<RateCondition>,
    serviceLatencyMs: Option<ThresholdCondition>,
    rpsAbove: Option<int32>)

  datatype Trigger = Trigger(
    name: string, when: Condition, switchTo: string, fromProfiles: seq<string>, cooldownSeconds: int32)

  /** What one scrape of the fleet reports. */
  datatype Signals = Signals(
    successRate: real, serviceLatencyMs: real, rps: real, sampleCount: int, shedRejectedRps: real, collectedAt: int)

  datatype HttpStatusRange = HttpStatusRange(start: int32, end: int32)

  datatype Percentile = P50 | P75 | P90 | P99

  datatype AdmissionControl = AdmissionControl(
    enabled: bool,
    threshold: Option<real>,
    speed: Option<real>,
    window: Option<string>,
    minRequestsPerSecond: int32,
    maxRejectionPercent: real,
    successCodes: seq<HttpStatusRange>,
    skipPaths: seq<string>)

  /** `rest` holds the intervals, sample size and jitter, which no profile overrides. */
  datatype AdaptiveConcurrency = AdaptiveConcurrency(
    enabled: bool, percentile: Option<Percentile>, limit: int32, rest: seq<string>)

  datatype StreamingProtection = StreamingProtection(
    enabled: bool, maxConcurrentStreams: int32, maxPendingRequests: int32, streamTimeoutSeconds: int32)

  /** What a profile overrides. A section that is not there overrides nothing. */
  datatype Profile = Profile(
    threshold: Option<real>, speed: Option<real>, window: Option<string>, percentile: Option<Percentile>)

  datatype MeshBackend = Auto | Istio | Cilium

  datatype PolicySpec = PolicySpec(
    meshBackend: MeshBackend,
    selector: map<string, string>,
    dryRun: bool,
    admissionControl: Option<AdmissionControl>,
    adaptiveConcurrency: Option<AdaptiveConcurrency>,
    streamingProtection: Option<StreamingProtection>,
    profiles: map<string, Profile>,
    activeProfile: string,
    triggers: seq<Trigger>,
    schedules: seq<string>,
    humanOverride: bool)
  {
    predicate HasAdmissionControl() {
      admissionControl.Some? && admissionControl.value.enabled
    }

    predicate HasAdaptiveConcurrency() {
      adaptiveConcurrency.Some? && adaptiveConcurrency.value.enabled
    }

    predicate HasStreamingProtection() {
      streamingProtection.Some? && streamingProtection.value.enabled
    }

    function ActiveProfileConfig(): Option<Profile> {
      if activeProfile == "" then None else Lookup(profiles, activeProfile)
    }

    function EffectiveSuccessRateThreshold(): real {
      var p := ActiveProfileConfig();
      if p.Some? && p.value.threshold.Some? then p.value.threshold.value
      else if admissionControl.Some? && admissionControl.value.threshold.Some? then
        admissionControl.value.threshold.value
      else 95.0
    }

    function EffectiveSheddingSpeed(): real {
      var p := ActiveProfileConfig();
      if p.Some? && p.value.speed.Some? then p.value.speed.value
      else if admissionControl.Some? && admissionControl.value.speed.Some? then admissionControl.value.speed.value
      else 1.5
    }

    function EffectiveSuccessRateWindow(): string {
      var p := ActiveProfileConfig();
      if p.Some? && p.value.window.Some? then p.value.window.value
      else if admissionControl.Some? && admissionControl.value.window.Some? then admissionControl.value.window.value
      else "30s"
    }

    function EffectiveLatencyPercentile(): Percentile {
      var p := ActiveProfileConfig();
      if p.Some? && p.value.percentile.Some? then p.value.percentile.value
      else if adaptiveConcurrency.Some? && adaptiveConcurrency.value.percentile.Some?
      then adaptiveConcurrency.value.percentile.value
      else P50
    }
  }

  /** Trigger names identify triggers within one policy. */
  ghost predicate UniqueNames(ts: seq<Trigger>) {
    forall i, j | 0 <= i < j < |ts| :: ts[i].name != ts[j].name
  }
}
