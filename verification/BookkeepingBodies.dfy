/** What the resources say, over runs: a pass that switches the profile applies nothing
    (internal/controller/adaptivepolicy_controller.go:226), so the mesh keeps what the
    profile before asked for until the next pass that applies. */
module BookkeepingBodies {
  import opened Api
  import opened Options
  import opened Bodies
  import opened Resources
  import opened Bookkeeping
  import opened BookkeepingRuns
  import AutoSwitch

  // ---------------------------------------------------------------- bodies over runs

  ghost function NextContents(c: Contents, w: World, e: Event): Contents {
    match e
    case Reconciled(id, _, _, pass) => ContentsAfter(c, Managed(w, id), pass)
    case Removed(gone) => c - gone
    case PolicyDeleted(id) => map r | r in c && !Owns(id, r) :: c[r]
  }

  /** The resources in the cluster after a run, with what they say. */
  ghost function ContentsIn(start: Contents, events: seq<Event>): Contents {
    if events == [] then start
    else
      var before := events[..|events| - 1];
      NextContents(ContentsIn(start, before), Exec(start.Keys, before), events[|events| - 1])
  }

  lemma {:induction false} ContentsAreOfTheRun(start: Contents, events: seq<Event>)
    requires AllPossible(events)
    ensures ContentsIn(start, events).Keys == Exec(start.Keys, events).cluster
  {
    if events == [] {
    } else {
      var before, e := events[..|events| - 1], events[|events| - 1];
      ContentsAreOfTheRun(start, before);
      assert Possible(e);
      hide Owns, ContentsAfter, ClusterAfter, Lists;
      if e.Reconciled? {
        ContentsAreOfTheCluster(ContentsIn(start, before), Managed(Exec(start.Keys, before), e.id), e.pass);
      }
    }
  }

  /** The event applied this resource. */
  ghost predicate Applies(e: Event, r: Ref) {
    && e.Reconciled?
    && match e.pass.outcome
       case Halted => false
       case ApplyFailed(applied) => applied <= |e.pass.refs| && r in e.pass.refs[..applied]
       case Completed(_, _) => !e.pass.switched && r in e.pass.refs
  }

  lemma {:induction false} AppliedContents(c: Contents, refs: seq<Ref>, bodies: seq<Body>, r: Ref)
    requires |bodies| == |refs|
    ensures r in refs ==>
              && r in Applied(c, refs, bodies)
              && exists i | 0 <= i < |refs| :: refs[i] == r && Applied(c, refs, bodies)[r] == bodies[i]
    ensures r !in refs ==> (r in c <==> r in Applied(c, refs, bodies))
    ensures r !in refs && r in c ==> Applied(c, refs, bodies)[r] == c[r]
  {
    if refs == [] {
    } else {
      var n := |refs| - 1;
      AppliedContents(c, refs[..n], bodies[..n], r);
      assert refs == refs[..n] + [refs[n]];
    }
  }

  /** What an applied resource says. */
  lemma AppliedAsRendered(e: Event, c: Contents, role: Role, k: nat)
    requires Possible(e) && e.Reconciled? && k <= |e.pass.refs| && RefOf(e.id, role) in e.pass.refs[..k]
    ensures var r := RefOf(e.id, role);
            && |e.pass.bodies| == |e.pass.refs| && r in Applied(c, e.pass.refs[..k], e.pass.bodies[..k])
            && Wanted(e.backend, e.spec, role)
            && Applied(c, e.pass.refs[..k], e.pass.bodies[..k])[r] == BodyOf(e.backend, e.spec, role)
  {
    var r, refs, bodies := RefOf(e.id, role), e.pass.refs, e.pass.bodies;
    RendersLength(e.id, e.backend, e.spec, refs, bodies);
    AppliedContents(c, refs[..k], bodies[..k], r);
    hide Applied, Lists, Wanted, BodyOf, RefOf;
    var i :| 0 <= i < k && refs[i] == r && Applied(c, refs[..k], bodies[..k])[r] == bodies[i];
    assert RenderedAs(e.id, e.backend, e.spec, refs[i], bodies[i]);
    var other :| Wanted(e.backend, e.spec, other) && r == RefOf(e.id, other)
                 && bodies[i] == BodyOf(e.backend, e.spec, other);
    RefsAreInjective(e.id, role, e.id, other);
  }

  /** The last event that applied the resource. */
  ghost function LastApplied(events: seq<Event>, r: Ref): (e: Option<Event>)
    ensures e.Some? ==> e.value in events && Applies(e.value, r)
  {
    if events == [] then None
    else if Applies(events[|events| - 1], r) then Some(events[|events| - 1])
    else LastApplied(events[..|events| - 1], r)
  }

  /** One event either applies a resource of its policy as rendered, or leaves what is there. */
  lemma BodyStep(c: Contents, w: World, e: Event, id: PolicyId, role: Role)
    requires Possible(e) && RefOf(id, role) in NextContents(c, w, e)
    ensures var r := RefOf(id, role);
            if Applies(e, r)
            then e.id == id && Wanted(e.backend, e.spec, role)
                 && NextContents(c, w, e)[r] == BodyOf(e.backend, e.spec, role)
            else r in c && NextContents(c, w, e)[r] == c[r]
  {
    var r := RefOf(id, role);
    if e.Reconciled? {
      var refs, bodies := e.pass.refs, e.pass.bodies;
      RendersLength(e.id, e.backend, e.spec, refs, bodies);
      var k := if e.pass.outcome.ApplyFailed? then e.pass.outcome.applied else |refs|;
      assert refs[..|refs|] == refs && bodies[..|bodies|] == bodies;
      if k <= |refs| {
        AppliedContents(c, refs[..k], bodies[..k], r);
        if r in refs[..k] {
          assert r in refs;
          RenderedIsOwn(e, id, role);
          AppliedAsRendered(e, c, role, k);
        }
      }
      hide Orphans, Applied, Lists, Renders, RefOf, Wanted, BodyOf, RenderedAs;
    }
  }

  lemma RenderedIsOwn(e: Event, id: PolicyId, role: Role)
    requires Possible(e) && e.Reconciled? && RefOf(id, role) in e.pass.refs
    ensures e.id == id
  {
    hide Wanted, RefOf, Renders;
    var other :| Wanted(e.backend, e.spec, other) && RefOf(id, role) == RefOf(e.id, other);
    RefsAreInjective(id, role, e.id, other);
  }

  /** In every run, whatever fails, a resource says what the last pass that applied it
      rendered for its role; before its first apply it is as it was at the start. */
  lemma {:induction false} BodyIsLastApplied(start: Contents, events: seq<Event>, id: PolicyId, role: Role)
    requires AllPossible(events) && RefOf(id, role) in ContentsIn(start, events)
    ensures var r := RefOf(id, role);
            match LastApplied(events, r)
            case None => r in start && ContentsIn(start, events)[r] == start[r]
            case Some(e) => e.id == id && Wanted(e.backend, e.spec, role)
                            && ContentsIn(start, events)[r] == BodyOf(e.backend, e.spec, role)
  {
    if events == [] {
    } else {
      var before, e := events[..|events| - 1], events[|events| - 1];
      assert Possible(e);
      hide NextContents, Applies, Possible, Wanted, BodyOf, RefOf;
      BodyStep(ContentsIn(start, before), Exec(start.Keys, before), e, id, role);
      if !Applies(e, RefOf(id, role)) {
        BodyIsLastApplied(start, before, id, role);
      }
    }
  }

  // ---------------------------------------------------------------- switches

  /** The two specs agree on the profile settings that the role's renderer reads. Stats
      flush, skip paths and streaming protection read none. */
  predicate SettingsAgree(role: Role, s: PolicySpec, t: PolicySpec) {
    match role
    case AdmissionFilter => SheddingAgrees(s, t)
    case ConcurrencyFilter => PercentileAgrees(s, t)
    case CiliumConfig =>
      (s.HasAdmissionControl() ==> SheddingAgrees(s, t)) && (s.HasAdaptiveConcurrency() ==> PercentileAgrees(s, t))
    case _ => true
  }

  /** Switching the profile changes what a resource should say exactly if the profiles'
      effective settings for its role differ. */
  lemma SwitchChangesBodyIff(backend: Backend, spec: PolicySpec, profile: string, role: Role)
    requires Wanted(backend, spec, role)
    ensures var next := spec.(activeProfile := profile);
            && Wanted(backend, next, role)
            && (BodyOf(backend, next, role) == BodyOf(backend, spec, role) <==> SettingsAgree(role, spec, next))
  {
    var next := spec.(activeProfile := profile);
    hide Api.PolicySpec.EffectiveSuccessRateThreshold, Api.PolicySpec.EffectiveSheddingSpeed;
    hide Api.PolicySpec.EffectiveSuccessRateWindow, Api.PolicySpec.EffectiveLatencyPercentile;
    assert next.EffectiveSuccessRateThreshold() / 100.0 == spec.EffectiveSuccessRateThreshold() / 100.0
      <==> next.EffectiveSuccessRateThreshold() == spec.EffectiveSuccessRateThreshold();
  }

  lemma RenderedIsNoOrphan(managed: seq<Ref>, refs: seq<Ref>, r: Ref)
    requires r in refs
    ensures r !in Orphans(managed, refs)
  {
    var i :| 0 <= i < |refs| && refs[i] == r;
    assert Key(refs[i]) == Key(r);
  }

  /** What a full pass does to a rendered resource that is there. */
  lemma FullPass(c: Contents, w: World, e: Event, role: Role)
    requires Possible(e) && e.Reconciled? && e.pass.outcome.Completed?
    requires RefOf(e.id, role) in e.pass.refs && RefOf(e.id, role) in c
    ensures var r := RefOf(e.id, role);
            && Wanted(e.backend, e.spec, role) && r in NextContents(c, w, e)
            && NextContents(c, w, e)[r] == if e.pass.switched then c[r] else BodyOf(e.backend, e.spec, role)
  {
    var r, refs := RefOf(e.id, role), e.pass.refs;
    RenderedIsNoOrphan(Managed(w, e.id), refs, r);
    RendersLength(e.id, e.backend, e.spec, refs, e.pass.bodies);
    assert refs[..|refs|] == refs && e.pass.bodies[..|refs|] == e.pass.bodies;
    AppliedAsRendered(e, c, role, |refs|);
    hide Orphans, Applied, Lists, Renders, RefOf, Wanted, BodyOf;
  }

  /** After a full pass that did not switch, a resource says what the policy asks for; after
      one that switched it does so exactly if it did not need to change. */
  lemma BodyIsCurrentIff(start: Contents, events: seq<Event>, e: Event, role: Role)
    requires AllPossible(events) && Possible(e) && e.Reconciled? && e.pass.outcome.Completed?
    requires RefOf(e.id, role) in e.pass.refs && RefOf(e.id, role) in ContentsIn(start, events)
    ensures var r, c := RefOf(e.id, role), ContentsIn(start, events);
            var after := NextContents(c, Exec(start.Keys, events), e);
            && Wanted(e.backend, e.spec, role) && r in after
            && (after[r] == BodyOf(e.backend, e.spec, role)
                <==> !e.pass.switched || c[r] == BodyOf(e.backend, e.spec, role))
  {
    FullPass(ContentsIn(start, events), Exec(start.Keys, events), e, role);
  }

  /** The pass `e` switched the profile of the policy that `a` was the last one to apply, and
      nothing else changed in between. */
  ghost predicate SwitchesFrom(events: seq<Event>, e: Event, a: Event, role: Role) {
    && Possible(e) && e.Reconciled? && e.pass.outcome.Completed? && e.pass.switched
    && LastApplied(events, RefOf(e.id, role)) == Some(a)
    && e.backend == a.backend && e.spec == a.spec.(activeProfile := e.spec.activeProfile)
  }

  /** In any run, after a pass that switches the profile, a resource says what the policy
      asks for if and only if the two profiles agree on the effective settings of its role.
      The stats flush, skip paths and streaming resources so always do; the filters wait. */
  lemma SwitchedBodyIsCurrentIffSettingsAgree(start: Contents, events: seq<Event>, e: Event, a: Event, role: Role)
    requires AllPossible(events) && SwitchesFrom(events, e, a, role)
    requires RefOf(e.id, role) in e.pass.refs && RefOf(e.id, role) in ContentsIn(start, events)
    ensures var r, after := RefOf(e.id, role), NextContents(ContentsIn(start, events), Exec(start.Keys, events), e);
            && Wanted(e.backend, e.spec, role) && r in after
            && (after[r] == BodyOf(e.backend, e.spec, role) <==> SettingsAgree(role, a.spec, e.spec))
  {
    BodyIsLastApplied(start, events, e.id, role);
    BodyIsCurrentIff(start, events, e, role);
    hide Exec, ContentsIn, NextContents, LastApplied, RefOf, BodyOf, Wanted, SettingsAgree, Possible;
    assert a.id == e.id && a.Reconciled?;
    SwitchChangesBodyIff(a.backend, a.spec, e.spec.activeProfile, role);
  }

  /** What the profiles disagree on reaches the mesh one applying pass late: it is missing
      after the switch, and there after the next full pass that does not switch. */
  lemma SwitchIsAppliedOnePassLate(start: Contents, events: seq<Event>, e: Event, a: Event, next: Event, role: Role)
    requires AllPossible(events) && SwitchesFrom(events, e, a, role) && !SettingsAgree(role, a.spec, e.spec)
    requires RefOf(e.id, role) in e.pass.refs && RefOf(e.id, role) in ContentsIn(start, events)
    requires Possible(next) && next.Reconciled? && next.pass.outcome.Completed? && !next.pass.switched
    requires next.id == e.id && next.backend == e.backend && next.spec == e.spec && RefOf(e.id, role) in next.pass.refs
    ensures var r, during := RefOf(e.id, role), ContentsIn(start, events + [e]);
            var after := ContentsIn(start, events + [e] + [next]);
            && Wanted(e.backend, e.spec, role)
            && r in during && during[r] != BodyOf(e.backend, e.spec, role)
            && r in after && after[r] == BodyOf(e.backend, e.spec, role)
  {
    assert (events + [e])[..|events|] == events && (events + [e] + [next])[..|events| + 1] == events + [e];
    SwitchedBodyIsCurrentIffSettingsAgree(start, events, e, a, role);
    hide Exec, NextContents, LastApplied, RefOf, BodyOf, Wanted, SettingsAgree, Possible;
    FullPass(ContentsIn(start, events + [e]), Exec(start.Keys, events + [e]), next, role);
  }

  // ---------------------------------------------------------------- a switch that waits

  const DEGRADED := Profile(Some(85.0), None, None, None)
  const BASELINE :=
    PolicySpec(Istio, map[], false, Some(AdmissionControl(true, Some(99.0), None, None, 5, 80.0, [], [])), None, None,
               map["degraded" := DEGRADED], "", [], [], false)
  const SWITCHED := BASELINE.(activeProfile := "degraded")

  function AdmissionRefs(id: PolicyId): seq<Ref> {
    [RefOf(id, AdmissionFilter), RefOf(id, StatsFlush)]
  }

  function AdmissionBodies(spec: PolicySpec): seq<Body>
    requires spec.admissionControl.Some?
  {
    [RenderAdmissionControl(spec), RenderStatsFlush(spec)]
  }

  /** A full pass of the baseline, and one that switches to the profile. */
  function SwitchRun(id: PolicyId): seq<Event> {
    [Reconciled(id, IstioMesh, BASELINE,
                Pass(AdmissionRefs(id), AdmissionBodies(BASELINE), false, Completed({}, true)))]
    + [Reconciled(id, IstioMesh, SWITCHED,
                  Pass(AdmissionRefs(id), AdmissionBodies(SWITCHED), true, Completed({}, true)))]
  }

  lemma AdmissionIsListed(id: PolicyId, spec: PolicySpec)
    requires spec == BASELINE || spec == SWITCHED
    ensures Lists(id, IstioMesh, spec, AdmissionRefs(id))
    ensures Renders(id, IstioMesh, spec, AdmissionRefs(id), AdmissionBodies(spec))
  {
    RefsAreInjective(id, AdmissionFilter, id, StatsFlush);
    hide RefOf, RenderAdmissionControl, RenderStatsFlush;
    assert Wanted(IstioMesh, spec, AdmissionFilter) && Wanted(IstioMesh, spec, StatsFlush);
    RendersNone(id, IstioMesh, spec);
    RendersOne(id, IstioMesh, spec, [], [], AdmissionFilter);
    RendersOne(id, IstioMesh, spec, [RefOf(id, AdmissionFilter)], AdmissionBodies(spec)[..1], StatsFlush);
    assert forall role :: Wanted(IstioMesh, spec, role) ==> role in {AdmissionFilter, StatsFlush};
  }

  lemma SwitchRunIsPossible(id: PolicyId)
    ensures AllPossible(SwitchRun(id))
  {
    AdmissionIsListed(id, BASELINE);
    AdmissionIsListed(id, SWITCHED);
    hide RefOf, Lists, Renders, AdmissionBodies;
    assert AutoSwitch.WellConfigured(BASELINE);
  }

  /** No call fails, and yet after the switch the filter in the cluster has the threshold of
      the baseline, while the policy asks for that of the profile. */
  lemma SwitchLeavesOldThreshold(id: PolicyId)
    ensures AllPossible(SwitchRun(id))
    ensures var c, r := ContentsIn(map[], SwitchRun(id)), RefOf(id, AdmissionFilter);
            && r in c && c[r].AdmissionBody? && c[r].shedding.threshold == 99.0
            && RenderAdmissionControl(SWITCHED).shedding.threshold == 85.0
  {
    SwitchRunIsPossible(id);
    var events := SwitchRun(id);
    var r, first := RefOf(id, AdmissionFilter), events[..1];
    assert first == [events[0]] && events[..|events| - 1] == first && first[..0] == [];
    FirstPassApplies(id);
    hide RefOf, AdmissionBodies, Possible, BodyOf, Exec;
    assert Possible(events[1]);
    FullPass(ContentsIn(map[], first), Exec({}, first), events[1], AdmissionFilter);
  }

  lemma FirstPassApplies(id: PolicyId)
    ensures var c, r := ContentsIn(map[], SwitchRun(id)[..1]), RefOf(id, AdmissionFilter);
            r in c && c[r] == RenderAdmissionControl(BASELINE)
  {
    SwitchRunIsPossible(id);
    var events := SwitchRun(id);
    var e, first := events[0], events[..1];
    var refs := e.pass.refs;
    assert first == [e] && first[..0] == [];
    assert Possible(e) && refs[..2] == refs && e.pass.bodies[..2] == e.pass.bodies;
    hide RefOf, AdmissionBodies, Possible, Orphans, RenderAdmissionControl;
    AppliedAsRendered(e, map[], AdmissionFilter, 2);
    RenderedIsNoOrphan(Managed(World({}, map[]), id), refs, RefOf(id, AdmissionFilter));
    hide Applied, BodyOf;
    assert ContentsIn(map[], first) == NextContents(map[], Exec({}, []), e);
  }
}
