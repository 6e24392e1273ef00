/** What the rendered resources are called and say, in the terms of the policy's own fields:
    an override of the active profile, else the baseline, else the default
    (api/v1alpha1/adaptivepolicy_types.go:1019-1082). */
module RenderedSettings {
  import opened Api
  import opened Options
  import opened Bodies
  import opened Resources

  // ---------------------------------------------------------------- effective settings

  /** What the active profile overrides, if it is set and defined. */
  function Overrides(spec: PolicySpec): Profile {
    if spec.activeProfile != "" && spec.activeProfile in spec.profiles then spec.profiles[spec.activeProfile]
    else Profile(None, None, None, None)
  }

  function FirstSet<T>(override: Option<T>, baseline: Option<T>, otherwise: T): T {
    match (override, baseline)
    case (Some(x), _) => x
    case (None, Some(x)) => x
    case (None, None) => otherwise
  }

  /** The admission control settings that the fields call for. */
  function AskedShedding(spec: PolicySpec, cfg: AdmissionControl): Shedding {
    var over := Overrides(spec);
    Shedding(!spec.dryRun, FirstSet(over.threshold, cfg.threshold, 95.0), FirstSet(over.speed, cfg.speed, 1.5),
             FirstSet(over.window, cfg.window, "30s"), cfg.minRequestsPerSecond, cfg.maxRejectionPercent,
             if cfg.successCodes == [] then [HttpStatusRange(100, 399)] else cfg.successCodes)
  }

  /** The adaptive concurrency settings that the fields call for. */
  function AskedGradient(spec: PolicySpec, cfg: AdaptiveConcurrency): Gradient {
    Gradient(!spec.dryRun, FirstSet(Overrides(spec).percentile, cfg.percentile, P50),
             if cfg.limit > 0 then Some(cfg.limit) else None, cfg.rest)
  }

  /** Every setting of the two filters is the override, else the baseline, else the default. */
  lemma FiltersGetTheirSettings(spec: PolicySpec)
    ensures spec.admissionControl.Some? ==>
              var asked := AskedShedding(spec, spec.admissionControl.value);
              && RenderAdmissionControl(spec) == AdmissionBody(spec.selector, asked)
              && SheddingOf(spec, spec.EffectiveSuccessRateThreshold() / 100.0)
                 == asked.(threshold := asked.threshold / 100.0)
    ensures spec.adaptiveConcurrency.Some? ==>
              RenderAdaptiveConcurrency(spec)
              == ConcurrencyBody(spec.selector, AskedGradient(spec, spec.adaptiveConcurrency.value))
  {
  }

  // ---------------------------------------------------------------- the resources

  /** The resource is rendered with this body; None is that it is not rendered. */
  ghost predicate Shows(refs: seq<Ref>, bodies: seq<Body>, r: Ref, body: Option<Body>) {
    && |bodies| == |refs|
    && (r in refs <==> body.Some?)
    && forall i | 0 <= i < |refs| && refs[i] == r :: body == Some(bodies[i])
  }

  /** A role's resource is rendered, with its body, exactly if the role is wanted. */
  lemma ShowsRole(id: PolicyId, backend: Backend, spec: PolicySpec, refs: seq<Ref>, bodies: seq<Body>, role: Role)
    requires Lists(id, backend, spec, refs) && Renders(id, backend, spec, refs, bodies)
    ensures Shows(refs, bodies, RefOf(id, role),
                  if Wanted(backend, spec, role) then Some(BodyOf(backend, spec, role)) else None)
  {
    hide RefOf, Wanted, BodyOf;
    var r := RefOf(id, role);
    if r in refs {
      var other :| Wanted(backend, spec, other) && r == RefOf(id, other);
      RefsAreInjective(id, role, id, other);
    }
    forall i | 0 <= i < |refs| && refs[i] == r
      ensures Wanted(backend, spec, role) && bodies[i] == BodyOf(backend, spec, role)
    {
      assert RenderedAs(id, backend, spec, refs[i], bodies[i]);
      var other :| Wanted(backend, spec, other) && r == RefOf(id, other) && bodies[i] == BodyOf(backend, spec, other);
      RefsAreInjective(id, role, id, other);
    }
  }

  function EnvoyFilter(id: PolicyId, suffix: string): Ref {
    Ref("networking.istio.io/v1alpha3", "EnvoyFilter", id.name + suffix, id.namespace)
  }

  function DestinationRule(id: PolicyId): Ref {
    Ref("networking.istio.io/v1alpha3", "DestinationRule", id.name + "-streaming", id.namespace)
  }

  function CiliumEnvoyConfig(id: PolicyId): Ref {
    Ref("cilium.io/v2alpha1", "CiliumEnvoyConfig", "shedpilot-" + id.name, id.namespace)
  }

  lemma RefsAreThese(id: PolicyId)
    ensures RefOf(id, AdmissionFilter) == EnvoyFilter(id, "-admission-control")
    ensures RefOf(id, ConcurrencyFilter) == EnvoyFilter(id, "-adaptive-concurrency")
    ensures RefOf(id, StatsFlush) == EnvoyFilter(id, "-stats-flush")
    ensures RefOf(id, SkipPaths) == EnvoyFilter(id, "-skip-paths")
    ensures RefOf(id, Streaming) == DestinationRule(id) && RefOf(id, CiliumConfig) == CiliumEnvoyConfig(id)
  {
  }

  /** Whether the policy has this filter, and it is enabled. */
  predicate AdmissionIsOn(spec: PolicySpec) {
    spec.admissionControl.Some? && spec.admissionControl.value.enabled
  }

  predicate ConcurrencyIsOn(spec: PolicySpec) {
    spec.adaptiveConcurrency.Some? && spec.adaptiveConcurrency.value.enabled
  }

  predicate StreamingIsOn(spec: PolicySpec) {
    spec.streamingProtection.Some? && spec.streamingProtection.value.enabled
  }

  function AskedStreaming(spec: PolicySpec, cfg: StreamingProtection): Body {
    StreamingBody(spec.selector, cfg.maxConcurrentStreams, cfg.maxPendingRequests, cfg.streamTimeoutSeconds)
  }

  /** Which resources a policy has on Istio, by name, and what each of them says. */
  lemma IstioShowsTheFields(id: PolicyId, spec: PolicySpec, refs: seq<Ref>, bodies: seq<Body>)
    requires Lists(id, IstioMesh, spec, refs) && Renders(id, IstioMesh, spec, refs, bodies)
    ensures Shows(refs, bodies, EnvoyFilter(id, "-admission-control"),
                  if AdmissionIsOn(spec)
                  then Some(AdmissionBody(spec.selector, AskedShedding(spec, spec.admissionControl.value))) else None)
    ensures Shows(refs, bodies, EnvoyFilter(id, "-adaptive-concurrency"),
                  if ConcurrencyIsOn(spec)
                  then Some(ConcurrencyBody(spec.selector, AskedGradient(spec, spec.adaptiveConcurrency.value)))
                  else None)
    ensures Shows(refs, bodies, EnvoyFilter(id, "-stats-flush"),
                  if AdmissionIsOn(spec) || ConcurrencyIsOn(spec) then Some(StatsFlushBody(spec.selector)) else None)
    ensures Shows(refs, bodies, EnvoyFilter(id, "-skip-paths"),
                  if AdmissionIsOn(spec) && spec.admissionControl.value.skipPaths != []
                  then Some(SkipPathsBody(spec.selector, spec.admissionControl.value.skipPaths)) else None)
    ensures Shows(refs, bodies, DestinationRule(id),
                  if StreamingIsOn(spec) then Some(AskedStreaming(spec, spec.streamingProtection.value)) else None)
    ensures CiliumEnvoyConfig(id) !in refs
  {
    RefsAreThese(id);
    FiltersGetTheirSettings(spec);
    hide Shows, RefOf, Lists, Renders, EnvoyFilter, DestinationRule, CiliumEnvoyConfig, AskedShedding, AskedGradient;
    forall role
      ensures Shows(refs, bodies, RefOf(id, role),
                    if Wanted(IstioMesh, spec, role) then Some(BodyOf(IstioMesh, spec, role)) else None)
    {
      ShowsRole(id, IstioMesh, spec, refs, bodies, role);
    }
    hide RenderAdmissionControl, RenderAdaptiveConcurrency;
    NotShown(refs, bodies, RefOf(id, CiliumConfig));
  }

  lemma NotShown(refs: seq<Ref>, bodies: seq<Body>, r: Ref)
    ensures Shows(refs, bodies, r, None) ==> r !in refs
  {
  }

  /** On Cilium there is at most one resource, with the threshold as a fraction. */
  lemma CiliumShowsTheFields(id: PolicyId, spec: PolicySpec, refs: seq<Ref>, bodies: seq<Body>)
    requires Lists(id, CiliumMesh, spec, refs) && Renders(id, CiliumMesh, spec, refs, bodies)
    ensures var filter :=
              if AdmissionIsOn(spec) then Some(AskedShedding(spec, spec.admissionControl.value)) else None;
            Shows(refs, bodies, CiliumEnvoyConfig(id),
                  if AdmissionIsOn(spec) || ConcurrencyIsOn(spec)
                  then Some(CiliumBody(
                    spec.selector,
                    if filter.Some? then Some(filter.value.(threshold := filter.value.threshold / 100.0)) else None,
                    if ConcurrencyIsOn(spec) then Some(AskedGradient(spec, spec.adaptiveConcurrency.value)) else None))
                  else None)
    ensures |refs| <= 1
  {
    RefsAreThese(id);
    FiltersGetTheirSettings(spec);
    ShowsRole(id, CiliumMesh, spec, refs, bodies, CiliumConfig);
    hide RefOf, Renders, EnvoyFilter, DestinationRule, CiliumEnvoyConfig, AskedShedding, AskedGradient;
    forall r | r in refs
      ensures r == RefOf(id, CiliumConfig)
    {
    }
    TwoAreDifferent(refs);
  }

  lemma TwoAreDifferent(refs: seq<Ref>)
    requires forall i, j | 0 <= i < j < |refs| :: refs[i] != refs[j]
    ensures |refs| > 1 ==> exists r, q :: r in refs && q in refs && r != q
  {
    if |refs| > 1 {
      assert refs[0] in refs && refs[1] in refs && refs[0] != refs[1];
    }
  }

  /** The runtime layers by name. */
  lemma LayersShowTheFields(id: PolicyId, spec: PolicySpec)
    ensures LayersOf(id, spec)
         == (if AdmissionIsOn(spec) then {"shedpilot-" + id.name + "-admission-control"} else {})
            + (if ConcurrencyIsOn(spec) then {"shedpilot-" + id.name + "-adaptive-concurrency"} else {})
  {
    LayersAre(id, spec);
    assert "shedpilot-" + (id.name + "-admission-control") == "shedpilot-" + id.name + "-admission-control";
    assert "shedpilot-" + (id.name + "-adaptive-concurrency") == "shedpilot-" + id.name + "-adaptive-concurrency";
  }

  /** Pruning compares kinds and names, and nothing else. */
  lemma KeyIsKindAndName(r: Ref, q: Ref)
    requires '/' !in r.kind && '/' !in q.kind
    ensures Key(r) == Key(q) <==> r.kind == q.kind && r.name == q.name
  {
    if |r.kind| < |q.kind| {
      assert Key(r)[|r.kind|] == '/' && Key(q)[|r.kind|] == q.kind[|r.kind|];
    } else if |q.kind| < |r.kind| {
      assert Key(q)[|q.kind|] == '/' && Key(r)[|q.kind|] == r.kind[|q.kind|];
    } else if Key(r) == Key(q) {
      KeySplits(r, q);
    }
  }
}
