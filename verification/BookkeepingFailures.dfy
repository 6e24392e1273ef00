/** Three runs, one for each kind of failed call, after which status.managedResources no
    longer lists a resource that the controller created. */
module BookkeepingFailures {
  import opened Api
  import opened Options
  import opened Bodies
  import opened Resources
  import opened Bookkeeping
  import opened BookkeepingRuns

  const WITH_CONCURRENCY :=
    PolicySpec(Istio, map[], false, None, Some(AdaptiveConcurrency(true, None, 0, [])), None, map[], "", [], [], false)

  const WITH_STREAMING :=
    PolicySpec(Istio, map[], false, None, None, Some(StreamingProtection(true, 200, 1024, 300)),
               map[], "", [], [], false)

  function ConcurrencyRefs(id: PolicyId): seq<Ref> {
    [RefOf(id, ConcurrencyFilter), RefOf(id, StatsFlush)]
  }

  function ConcurrencyBodies(): seq<Body> {
    [RenderAdaptiveConcurrency(WITH_CONCURRENCY), RenderStatsFlush(WITH_CONCURRENCY)]
  }

  function StreamingBodies(): seq<Body> {
    [RenderStreamingProtection(WITH_STREAMING)]
  }

  lemma ConcurrencyIsListed(id: PolicyId)
    ensures Lists(id, IstioMesh, WITH_CONCURRENCY, ConcurrencyRefs(id))
    ensures Renders(id, IstioMesh, WITH_CONCURRENCY, ConcurrencyRefs(id), ConcurrencyBodies())
  {
    RefsAreInjective(id, ConcurrencyFilter, id, StatsFlush);
    hide RefOf;
    assert Wanted(IstioMesh, WITH_CONCURRENCY, ConcurrencyFilter) && Wanted(IstioMesh, WITH_CONCURRENCY, StatsFlush);
    RendersNone(id, IstioMesh, WITH_CONCURRENCY);
    RendersOne(id, IstioMesh, WITH_CONCURRENCY, [], [], ConcurrencyFilter);
    RendersOne(id, IstioMesh, WITH_CONCURRENCY, [RefOf(id, ConcurrencyFilter)], ConcurrencyBodies()[..1], StatsFlush);
    assert forall role :: Wanted(IstioMesh, WITH_CONCURRENCY, role) ==> role in {ConcurrencyFilter, StatsFlush};
  }

  lemma StreamingIsListed(id: PolicyId)
    ensures Lists(id, IstioMesh, WITH_STREAMING, [RefOf(id, Streaming)])
    ensures Renders(id, IstioMesh, WITH_STREAMING, [RefOf(id, Streaming)], StreamingBodies())
  {
    hide RefOf;
    assert Wanted(IstioMesh, WITH_STREAMING, Streaming);
    RendersNone(id, IstioMesh, WITH_STREAMING);
    RendersOne(id, IstioMesh, WITH_STREAMING, [], [], Streaming);
    assert forall role :: Wanted(IstioMesh, WITH_STREAMING, role) ==> role == Streaming;
  }

  lemma OwnsOwn(id: PolicyId, role: Role)
    ensures Owns(id, RefOf(id, role))
  {
    hide RefOf;
  }

  /** The first apply succeeds and the second one fails. */
  function PartialApply(id: PolicyId): Event {
    Reconciled(id, IstioMesh, WITH_CONCURRENCY, Pass(ConcurrencyRefs(id), ConcurrencyBodies(), false, ApplyFailed(1)))
  }

  lemma PartialApplyEscapes(id: PolicyId)
    ensures AllPossible([PartialApply(id)])
    ensures Escaped(Exec({}, [PartialApply(id)]), id, RefOf(id, ConcurrencyFilter))
  {
    ConcurrencyIsListed(id);
    OwnsOwn(id, ConcurrencyFilter);
    assert [PartialApply(id)][..0] == [];
    hide RefOf, Owns, Lists, Renders;
    assert ConcurrencyRefs(id)[..1] == [RefOf(id, ConcurrencyFilter)];
  }

  /** The resource is applied, but the status patch fails. */
  function Unsaved(id: PolicyId): Event {
    Reconciled(id, IstioMesh, WITH_STREAMING,
               Pass([RefOf(id, Streaming)], StreamingBodies(), false, Completed({}, false)))
  }

  lemma FailedStatusPatchEscapes(id: PolicyId)
    ensures AllPossible([Unsaved(id)])
    ensures Escaped(Exec({}, [Unsaved(id)]), id, RefOf(id, Streaming))
  {
    StreamingIsListed(id);
    OwnsOwn(id, Streaming);
    assert [Unsaved(id)][..0] == [];
    hide RefOf, Owns, Lists, Renders;
  }

  /** A full pass, and then an edit that replaces the filter, with a failed deletion. */
  function Undeleted(id: PolicyId): seq<Event> {
    [Reconciled(id, IstioMesh, WITH_STREAMING,
                Pass([RefOf(id, Streaming)], StreamingBodies(), false, Completed({}, true)))]
    + [Reconciled(id, IstioMesh, WITH_CONCURRENCY,
                  Pass(ConcurrencyRefs(id), ConcurrencyBodies(), false, Completed({RefOf(id, Streaming)}, true)))]
  }

  lemma UndeletedIsPossible(id: PolicyId)
    ensures AllPossible(Undeleted(id))
  {
    StreamingIsListed(id);
    ConcurrencyIsListed(id);
    hide RefOf, Lists, Renders, Key;
  }

  lemma StreamingIsApplied(id: PolicyId)
    ensures RefOf(id, Streaming) in Exec({}, Undeleted(id)[..1]).cluster
  {
    hide RefOf, Active;
    var first := Undeleted(id)[..1];
    assert first[..0] == [];
    assert Exec({}, first) == After(World({}, map[]), Undeleted(id)[0]);
  }

  lemma FailedDeletionRunEscapes(id: PolicyId)
    ensures AllPossible(Undeleted(id))
    ensures Escaped(Exec({}, Undeleted(id)), id, RefOf(id, Streaming))
  {
    UndeletedIsPossible(id);
    StreamingIsApplied(id);
    OwnsOwn(id, Streaming);
    RefsAreInjective(id, Streaming, id, ConcurrencyFilter);
    RefsAreInjective(id, Streaming, id, StatsFlush);
    var events := Undeleted(id);
    hide RefOf, Owns, Possible, Escaped, After, StreamingBodies, ConcurrencyBodies;
    assert events[..|events| - 1] == events[..1];
    FailedDeletionEscapes({}, events[..1], events[1], RefOf(id, Streaming));
  }

  /** All three start without any resource and end with an orphan. */
  lemma FailuresLeaveOrphans(id: PolicyId)
    ensures NoneOwned({})
    ensures !AllTracked(Exec({}, [PartialApply(id)])) && !AllTracked(Exec({}, [Unsaved(id)]))
    ensures !AllTracked(Exec({}, Undeleted(id)))
  {
    PartialApplyEscapes(id);
    FailedStatusPatchEscapes(id);
    FailedDeletionRunEscapes(id);
    hide Exec, Owns, RefOf;
    assert !Tracked(id, Exec({}, [PartialApply(id)]).cluster, Managed(Exec({}, [PartialApply(id)]), id));
    assert !Tracked(id, Exec({}, [Unsaved(id)]).cluster, Managed(Exec({}, [Unsaved(id)]), id));
    assert !Tracked(id, Exec({}, Undeleted(id)).cluster, Managed(Exec({}, Undeleted(id)), id));
  }

  // ---------------------------------------------------------------- the last filter

  const WITHOUT_FILTERS := WITH_STREAMING.(streamingProtection := None)

  /** A full pass, and then an edit that disables the policy's only filter. */
  function LastFilterDisabled(id: PolicyId): seq<Event> {
    [Reconciled(id, IstioMesh, WITH_STREAMING,
                Pass([RefOf(id, Streaming)], StreamingBodies(), false, Completed({}, true)))]
    + [Reconciled(id, IstioMesh, WITHOUT_FILTERS, Pass([], [], false, Halted))]
  }

  /** No call fails, and every pass ends as the code ends it; but a policy without filters
      is not well configured, so the second pass halts and the resource stays. */
  lemma LastFilterStays(id: PolicyId)
    ensures AllPossible(LastFilterDisabled(id)) && AllClean(LastFilterDisabled(id))
    ensures var w := Exec({}, LastFilterDisabled(id));
            RefOf(id, Streaming) in w.cluster && !Wanted(IstioMesh, WITHOUT_FILTERS, Streaming)
  {
    StreamingIsListed(id);
    var events := LastFilterDisabled(id);
    NothingIsListed(id);
    assert events[..1][..0] == [] && events[..|events| - 1] == events[..1];
    hide RefOf, Lists, Renders, Active, Key;
    assert Exec({}, events[..1]) == After(World({}, map[]), events[0]);
    assert Exec({}, events) == After(Exec({}, events[..1]), events[1]);
  }

  lemma NothingIsListed(id: PolicyId)
    ensures Lists(id, IstioMesh, WITHOUT_FILTERS, []) && Renders(id, IstioMesh, WITHOUT_FILTERS, [], [])
  {
    hide RefOf;
    assert forall role :: !Wanted(IstioMesh, WITHOUT_FILTERS, role);
  }
}
