/** Which resources exist over runs of reconciles of many policies, with spec edits,
    mesh changes, failed API calls, outside deletions and deleted policies. */
module BookkeepingRuns {
  import opened Api
  import opened Resources
  import opened Bookkeeping
  import AutoSwitch

  // ---------------------------------------------------------------- one pass

  /** The reference is named for this policy. */
  ghost predicate Owns(id: PolicyId, r: Ref) {
    exists role :: r == RefOf(id, role)
  }

  ghost predicate OwnsAll(id: PolicyId, refs: seq<Ref>) {
    forall r | r in refs :: Owns(id, r)
  }

  /** Every resource of the policy in the cluster is among the managed ones. */
  ghost predicate Tracked(id: PolicyId, cluster: set<Ref>, managed: seq<Ref>) {
    forall r | r in cluster && Owns(id, r) :: r in managed
  }

  lemma OwnerIsUnique(id: PolicyId, other: PolicyId, r: Ref)
    requires Owns(id, r) && Owns(other, r)
    ensures id == other
  {
    hide RefOf;
    var role :| r == RefOf(id, role);
    var otherRole :| r == RefOf(other, otherRole);
    RefsAreInjective(id, role, other, otherRole);
  }

  lemma ListedIsOwned(id: PolicyId, backend: Backend, spec: PolicySpec, refs: seq<Ref>)
    requires Lists(id, backend, spec, refs)
    ensures OwnsAll(id, refs)
  {
    hide RefOf, Wanted;
    forall r | r in refs
      ensures Owns(id, r)
    {
      var role :| Wanted(backend, spec, role) && r == RefOf(id, role);
    }
  }

  /** Among a policy's own references, the pruning keys compare like the references. */
  lemma ActiveIsMembership(id: PolicyId, refs: seq<Ref>, r: Ref)
    requires OwnsAll(id, refs) && Owns(id, r)
    ensures Active(refs, r) <==> r in refs
  {
    hide RefOf, Key;
    if Active(refs, r) {
      var i :| 0 <= i < |refs| && Key(refs[i]) == Key(r);
      assert refs[i] in refs;
      var p :| refs[i] == RefOf(id, p);
      var q :| r == RefOf(id, q);
      KeysAreInjective(id, p, id, q);
    }
    if r in refs {
      var i :| 0 <= i < |refs| && refs[i] == r;
      assert Key(refs[i]) == Key(r);
    }
  }

  lemma OrphansAreTheDifference(id: PolicyId, managed: seq<Ref>, refs: seq<Ref>)
    requires OwnsAll(id, managed) && OwnsAll(id, refs)
    ensures Orphans(managed, refs) == ToSet(managed) - ToSet(refs)
  {
    hide Owns, Active;
    forall r | r in managed
      ensures Active(refs, r) <==> r in refs
    {
      ActiveIsMembership(id, refs, r);
    }
  }

  /** A pass leaves no untracked resource behind: what was applied before a failure was
      managed already, a failed deletion hit nothing, and if the status was not saved
      nothing new was applied. */
  ghost predicate SafePass(cluster: set<Ref>, managed: seq<Ref>, p: Pass) {
    match p.outcome
    case Halted => true
    case ApplyFailed(applied) => applied <= |p.refs| ==> ToSet(p.refs[..applied]) <= ToSet(managed)
    case Completed(kept, recorded) =>
      if recorded then forall r | r in kept && r in cluster :: r in managed ==> r in p.refs
      else p.switched || ToSet(p.refs) <= ToSet(managed)
  }

  lemma PrefixIsOwned(id: PolicyId, refs: seq<Ref>, k: nat)
    requires OwnsAll(id, refs) && k <= |refs|
    ensures OwnsAll(id, refs[..k])
  {
    hide Owns;
    assert forall r | r in refs[..k] :: r in refs;
  }

  /** Pass by pass, tracking is kept exactly by the safe passes. */
  lemma PassTracksIffSafe(id: PolicyId, cluster: set<Ref>, managed: seq<Ref>, p: Pass)
    requires Tracked(id, cluster, managed) && OwnsAll(id, managed) && OwnsAll(id, p.refs)
    ensures Tracked(id, ClusterAfter(cluster, managed, p), ManagedAfter(managed, p)) <==> SafePass(cluster, managed, p)
  {
    OrphansAreTheDifference(id, managed, p.refs);
    hide Owns, Orphans;
    match p.outcome
    case Halted =>
    case ApplyFailed(applied) =>
      if applied <= |p.refs| {
        PrefixIsOwned(id, p.refs, applied);
      }
    case Completed(kept, recorded) =>
      var after := ClusterAfter(cluster, managed, p);
      forall r | r in p.refs
        ensures r in after <==> (p.switched ==> r in cluster)
      {
      }
      forall r | r !in p.refs
        ensures r in after <==> r in cluster && (r in managed ==> r in kept)
      {
      }
  }

  /** After a recorded pass in which every deletion of an existing orphan succeeded, the
      policy's resources are exactly the rendered ones, or, when the pass switched the
      profile and so applied nothing, exactly those of them that existed, if and only
      if no resource had escaped before. */
  lemma RecordedPassIsExact(id: PolicyId, cluster: set<Ref>, managed: seq<Ref>, p: Pass)
    requires OwnsAll(id, managed) && OwnsAll(id, p.refs)
    requires p.outcome.Completed? && p.outcome.recorded && SafePass(cluster, managed, p)
    ensures ManagedAfter(managed, p) == p.refs
    ensures (forall r | Owns(id, r) ::
               r in ClusterAfter(cluster, managed, p) <==> r in p.refs && (p.switched ==> r in cluster))
            <==> (forall r | r in cluster && Owns(id, r) :: r in managed || r in p.refs)
  {
    OrphansAreTheDifference(id, managed, p.refs);
    hide Owns, Orphans;
    var after := ClusterAfter(cluster, managed, p);
    assert forall r | r in p.refs :: r in after <==> (p.switched ==> r in cluster);
    assert forall r | r !in p.refs && r in managed :: r !in after;
    assert forall r | r !in p.refs && r !in managed :: r in after <==> r in cluster;
  }

  /** A pass touches nothing that is not named for its policy. */
  lemma PassLeavesOthersAlone(id: PolicyId, cluster: set<Ref>, managed: seq<Ref>, p: Pass, r: Ref)
    requires OwnsAll(id, managed) && OwnsAll(id, p.refs) && !Owns(id, r)
    ensures r in ClusterAfter(cluster, managed, p) <==> r in cluster
  {
    OrphansAreTheDifference(id, managed, p.refs);
    hide Owns, Orphans;
    if p.outcome.ApplyFailed? && p.outcome.applied <= |p.refs| {
      PrefixIsOwned(id, p.refs, p.outcome.applied);
    }
  }

  // ---------------------------------------------------------------- runs

  datatype Event =
    | Reconciled(id: PolicyId, backend: Backend, spec: PolicySpec, pass: Pass)
    | Removed(gone: set<Ref>)
    | PolicyDeleted(id: PolicyId)

  datatype World = World(cluster: set<Ref>, managed: map<PolicyId, seq<Ref>>)

  function Managed(w: World, id: PolicyId): seq<Ref> {
    if id in w.managed then w.managed[id] else []
  }

  ghost predicate Possible(e: Event) {
    e.Reconciled? ==> WellFormed(e.id, e.backend, e.spec, e.pass)
  }

  /** Owner references make the garbage collector remove a deleted policy's resources. */
  ghost function After(w: World, e: Event): World {
    match e
    case Reconciled(id, _, _, pass) =>
      World(ClusterAfter(w.cluster, Managed(w, id), pass), w.managed[id := ManagedAfter(Managed(w, id), pass)])
    case Removed(gone) => w.(cluster := w.cluster - gone)
    case PolicyDeleted(id) => World((set r | r in w.cluster && !Owns(id, r)), w.managed - {id})
  }

  /** The run that starts without policies in a cluster that holds `start`. */
  ghost function Exec(start: set<Ref>, events: seq<Event>): World {
    if events == [] then World(start, map[])
    else After(Exec(start, events[..|events| - 1]), events[|events| - 1])
  }

  ghost predicate AllPossible(events: seq<Event>) {
    forall k | 0 <= k < |events| :: Possible(events[k])
  }

  lemma ExecOne(start: set<Ref>, events: seq<Event>, k: nat)
    requires k < |events|
    ensures Exec(start, events[..k + 1]) == After(Exec(start, events[..k]), events[k])
  {
    assert events[..k + 1][..k] == events[..k];
  }

  /** Whatever fails, status.managedResources only ever lists the policy's own names. */
  lemma {:induction false} ManagedIsOwned(start: set<Ref>, events: seq<Event>, id: PolicyId)
    requires AllPossible(events)
    ensures OwnsAll(id, Managed(Exec(start, events), id))
  {
    if events != [] {
      var before, e := events[..|events| - 1], events[|events| - 1];
      ManagedIsOwned(start, before, id);
      hide OwnsAll, Lists, ClusterAfter, Owns;
      assert Possible(e);
      if e.Reconciled? && e.id == id {
        ListedIsOwned(id, e.backend, e.spec, e.pass.refs);
      }
    } else {
      assert OwnsAll(id, []);
    }
  }

  /** In every run over many policies, with any failures, an event of one policy leaves
      every resource and record of the others as they were. */
  lemma PoliciesAreIsolated(start: set<Ref>, events: seq<Event>, e: Event, other: PolicyId)
    requires AllPossible(events) && Possible(e) && !e.Removed? && e.id != other
    ensures var w := Exec(start, events);
            && Managed(After(w, e), other) == Managed(w, other)
            && forall r | Owns(other, r) :: r in After(w, e).cluster <==> r in w.cluster
  {
    var w := Exec(start, events);
    ManagedIsOwned(start, events, e.id);
    hide Exec, AllPossible, Lists, ClusterAfter, Owns;
    if e.Reconciled? {
      ListedIsOwned(e.id, e.backend, e.spec, e.pass.refs);
    }
    hide OwnsAll;
    forall r | Owns(other, r)
      ensures r in After(w, e).cluster <==> r in w.cluster
    {
      assert !Owns(e.id, r) by {
        if Owns(e.id, r) {
          OwnerIsUnique(e.id, other, r);
        }
      }
      if e.Reconciled? {
        PassLeavesOthersAlone(e.id, w.cluster, Managed(w, e.id), e.pass, r);
      }
    }
  }

  /** Resources that are not named for any policy are never applied or deleted. */
  lemma ForeignResourcesAreUntouched(start: set<Ref>, events: seq<Event>, e: Event, r: Ref)
    requires AllPossible(events) && Possible(e) && !e.Removed? && forall id :: !Owns(id, r)
    ensures r in After(Exec(start, events), e).cluster <==> r in Exec(start, events).cluster
  {
    var w := Exec(start, events);
    ManagedIsOwned(start, events, e.id);
    hide Exec, AllPossible, Lists, ClusterAfter, Owns;
    if e.Reconciled? {
      ListedIsOwned(e.id, e.backend, e.spec, e.pass.refs);
      PassLeavesOthersAlone(e.id, w.cluster, Managed(w, e.id), e.pass, r);
    }
  }

  // ---------------------------------------------------------------- no orphans

  ghost predicate AllTracked(w: World) {
    forall id :: Tracked(id, w.cluster, Managed(w, id))
  }

  ghost predicate SafeEvent(w: World, e: Event) {
    e.Reconciled? ==> SafePass(w.cluster, Managed(w, e.id), e.pass)
  }

  /** One event keeps every policy's resources tracked exactly if it is safe. */
  lemma EventTracksIffSafe(start: set<Ref>, events: seq<Event>, e: Event)
    requires AllPossible(events) && Possible(e) && AllTracked(Exec(start, events))
    ensures AllTracked(After(Exec(start, events), e)) <==> SafeEvent(Exec(start, events), e)
  {
    var w := Exec(start, events);
    var t := After(w, e);
    if e.Reconciled? {
      OwnPassTracksIffSafe(start, events, e);
    }
    hide Exec, AllPossible, ClusterAfter, SafePass, Owns;
    forall id | SafeEvent(w, e)
      ensures Tracked(id, t.cluster, Managed(t, id))
    {
      assert Tracked(id, w.cluster, Managed(w, id));
      if !e.Removed? && e.id != id {
        PoliciesAreIsolated(start, events, e, id);
      }
    }
  }

  lemma OwnPassTracksIffSafe(start: set<Ref>, events: seq<Event>, e: Event)
    requires AllPossible(events) && Possible(e) && AllTracked(Exec(start, events)) && e.Reconciled?
    ensures var w := Exec(start, events);
            Tracked(e.id, After(w, e).cluster, Managed(After(w, e), e.id)) <==> SafeEvent(w, e)
  {
    var w := Exec(start, events);
    ManagedIsOwned(start, events, e.id);
    ListedIsOwned(e.id, e.backend, e.spec, e.pass.refs);
    hide Exec, AllPossible, Lists, OwnsAll, ClusterAfter, ManagedAfter, SafePass, Owns;
    assert Tracked(e.id, w.cluster, Managed(w, e.id));
    PassTracksIffSafe(e.id, w.cluster, Managed(w, e.id), e.pass);
    hide Tracked;
    assert Managed(After(w, e), e.id) == ManagedAfter(Managed(w, e.id), e.pass);
  }

  ghost predicate AlwaysTracked(start: set<Ref>, events: seq<Event>) {
    forall k | 0 <= k <= |events| :: AllTracked(Exec(start, events[..k]))
  }

  ghost predicate AllSafe(start: set<Ref>, events: seq<Event>) {
    forall k | 0 <= k < |events| :: SafeEvent(Exec(start, events[..k]), events[k])
  }

  ghost predicate NoneOwned(start: set<Ref>) {
    forall r, id | r in start :: !Owns(id, r)
  }

  lemma {:induction false} SafePrefixIsTracked(start: set<Ref>, events: seq<Event>, k: nat)
    requires NoneOwned(start) && AllPossible(events) && AllSafe(start, events) && k <= |events|
    ensures AllTracked(Exec(start, events[..k]))
  {
    hide AllTracked, SafeEvent, Possible, After, Owns;
    if k == 0 {
      assert AllTracked(World(start, map[])) by {
        NothingOwnedIsTracked(start);
      }
    } else {
      SafePrefixIsTracked(start, events, k - 1);
      ExecOne(start, events, k - 1);
      hide Exec;
      EventTracksIffSafe(start, events[..k - 1], events[k - 1]);
    }
  }

  lemma NothingOwnedIsTracked(start: set<Ref>)
    requires NoneOwned(start)
    ensures AllTracked(World(start, map[]))
  {
  }

  /** A run never has an orphan, that is, every resource of every policy is always listed
      in that policy's status.managedResources, if and only if every pass in it is safe. */
  lemma NoOrphansIffAllPassesSafe(start: set<Ref>, events: seq<Event>)
    requires NoneOwned(start) && AllPossible(events)
    ensures AlwaysTracked(start, events) <==> AllSafe(start, events)
  {
    hide AllTracked, SafeEvent, Possible, After, Exec;
    if AllSafe(start, events) {
      forall k | 0 <= k <= |events|
        ensures AllTracked(Exec(start, events[..k]))
      {
        SafePrefixIsTracked(start, events, k);
      }
    }
    if AlwaysTracked(start, events) {
      forall k | 0 <= k < |events|
        ensures SafeEvent(Exec(start, events[..k]), events[k])
      {
        assert AllTracked(Exec(start, events[..k])) && AllTracked(Exec(start, events[..k + 1]));
        ExecOne(start, events, k);
        EventTracksIffSafe(start, events[..k], events[k]);
      }
    }
  }

  // ---------------------------------------------------------------- when API calls succeed

  /** No API call of the pass failed. */
  ghost predicate Succeeds(e: Event) {
    e.Reconciled? ==> e.pass.outcome.Halted? || e.pass.outcome == Completed({}, true)
  }

  ghost predicate AllSucceed(events: seq<Event>) {
    forall k | 0 <= k < |events| :: Succeeds(events[k])
  }

  lemma SuccessIsSafe(start: set<Ref>, events: seq<Event>)
    requires AllSucceed(events)
    ensures AllSafe(start, events)
  {
    hide Exec;
    forall k | 0 <= k < |events|
      ensures SafeEvent(Exec(start, events[..k]), events[k])
    {
      assert Succeeds(events[k]);
    }
  }

  /** As long as API calls succeed, a full pass leaves the policy with exactly the
      resources that its filters and mesh call for, whatever edits, mesh changes,
      switches and outside deletions came before. A pass that switched the profile
      applies nothing: it keeps those of them that existed. */
  lemma CompletedPassLeavesExactlyTheRendered(start: set<Ref>, events: seq<Event>, e: Event, role: Role)
    requires NoneOwned(start) && AllPossible(events) && AllSucceed(events)
    requires Possible(e) && e.Reconciled? && e.pass.outcome == Completed({}, true)
    ensures var w := Exec(start, events);
            var r := RefOf(e.id, role);
            && (r in After(w, e).cluster <==> Wanted(e.backend, e.spec, role) && (e.pass.switched ==> r in w.cluster))
            && (r in Managed(After(w, e), e.id) <==> Wanted(e.backend, e.spec, role))
  {
    var w, r := Exec(start, events), RefOf(e.id, role);
    ManagedIsOwned(start, events, e.id);
    ListedIsOwned(e.id, e.backend, e.spec, e.pass.refs);
    SuccessIsSafe(start, events);
    SafePrefixIsTracked(start, events, |events|);
    assert events[..|events|] == events;
    hide Exec, AllPossible, AllSucceed, AllSafe, NoneOwned;
    assert Tracked(e.id, w.cluster, Managed(w, e.id));
    RecordedPassIsExact(e.id, w.cluster, Managed(w, e.id), e.pass);
    ListedIffWanted(e.id, e.backend, e.spec, e.pass.refs, role);
    assert Owns(e.id, r);
    hide ClusterAfter, Owns, OwnsAll, Lists, Wanted, RefOf;
    assert After(w, e).cluster == ClusterAfter(w.cluster, Managed(w, e.id), e.pass);
  }

  lemma ListedIffWanted(id: PolicyId, backend: Backend, spec: PolicySpec, refs: seq<Ref>, role: Role)
    requires Lists(id, backend, spec, refs)
    ensures RefOf(id, role) in refs <==> Wanted(backend, spec, role)
  {
    hide RefOf, Wanted;
    if RefOf(id, role) in refs {
      var other :| Wanted(backend, spec, other) && RefOf(id, role) == RefOf(id, other);
      RefsAreInjective(id, role, id, other);
    }
  }

  /** The pass ended as one without failed calls ends in the code. */
  ghost predicate Clean(e: Event) {
    e.Reconciled? ==> e.pass.outcome == CleanOutcome(e.spec, e.pass.switched)
  }

  ghost predicate AllClean(events: seq<Event>) {
    forall k | 0 <= k < |events| :: Clean(events[k])
  }

  /** The policy has exactly the resources that its filters and mesh call for. */
  ghost predicate Matches(w: World, id: PolicyId, backend: Backend, spec: PolicySpec) {
    forall role :: RefOf(id, role) in w.cluster <==> Wanted(backend, spec, role)
  }

  /** Without failed calls, a reconcile that does not switch leaves exactly the wanted
      resources if and only if the policy is well configured, or they matched already.
      (Disabling the last filter makes a policy not well configured, so that its resources
      stay.) */
  lemma CleanPassMatchesIffWellConfigured(start: set<Ref>, events: seq<Event>, e: Event)
    requires NoneOwned(start) && AllPossible(events) && AllClean(events)
    requires Possible(e) && Clean(e) && e.Reconciled? && !e.pass.switched
    ensures Matches(After(Exec(start, events), e), e.id, e.backend, e.spec)
       <==> AutoSwitch.WellConfigured(e.spec) || Matches(Exec(start, events), e.id, e.backend, e.spec)
  {
    assert AllSucceed(events) by {
      assert forall k | 0 <= k < |events| :: Clean(events[k]) ==> Succeeds(events[k]);
    }
    hide Exec, AllPossible, AllClean, AllSucceed, NoneOwned, Wanted, RefOf, WellFormed, AutoSwitch.WellConfigured;
    if e.pass.outcome.Completed? {
      forall role
        ensures RefOf(e.id, role) in After(Exec(start, events), e).cluster <==> Wanted(e.backend, e.spec, role)
      {
        CompletedPassLeavesExactlyTheRendered(start, events, e, role);
      }
    }
  }

  /** An automatic switch in a settled policy neither adds nor removes a resource: the set
      of rendered references does not depend on the active profile. (Their bodies do.) */
  lemma SwitchInSettledPolicyKeepsResources(e: Event, cluster: set<Ref>, managed: seq<Ref>, profile: string)
    requires Possible(e) && e.Reconciled? && e.pass.switched && e.pass.outcome.Completed?
    requires Lists(e.id, e.backend, e.spec.(activeProfile := profile), managed)
    ensures ClusterAfter(cluster, managed, e.pass) == cluster
    ensures ToSet(ManagedAfter(managed, e.pass)) == ToSet(managed)
  {
    var spec := e.spec.(activeProfile := profile);
    ListedIsOwned(e.id, e.backend, e.spec, e.pass.refs);
    ListedIsOwned(e.id, e.backend, spec, managed);
    OrphansAreTheDifference(e.id, managed, e.pass.refs);
    assert forall role :: Wanted(e.backend, spec, role) == Wanted(e.backend, e.spec, role);
    SameListing(e.id, e.backend, spec, e.spec, managed, e.pass.refs);
  }

  lemma SameListing(
    id: PolicyId, backend: Backend, spec: PolicySpec, other: PolicySpec, refs: seq<Ref>, otherRefs: seq<Ref>)
    requires Lists(id, backend, spec, refs) && Lists(id, backend, other, otherRefs)
    requires forall role :: Wanted(backend, spec, role) == Wanted(backend, other, role)
    ensures ToSet(refs) == ToSet(otherRefs)
  {
    hide RefOf, Wanted;
    assert forall r | r in refs :: r in otherRefs;
    assert forall r | r in otherRefs :: r in refs;
  }

  // ---------------------------------------------------------------- escaped resources

  /** The event neither renders `r` nor removes it from outside. */
  ghost predicate Ignores(e: Event, id: PolicyId, r: Ref) {
    match e
    case Reconciled(other, _, _, pass) => other == id ==> r !in pass.refs
    case Removed(gone) => r !in gone
    case PolicyDeleted(other) => other != id
  }

  ghost predicate AllIgnore(events: seq<Event>, id: PolicyId, r: Ref) {
    forall k | 0 <= k < |events| :: Ignores(events[k], id, r)
  }

  /** The resource exists, belongs to the policy, and its status does not list it. */
  ghost predicate Escaped(w: World, id: PolicyId, r: Ref) {
    r in w.cluster && Owns(id, r) && r !in Managed(w, id)
  }

  lemma EscapedStep(start: set<Ref>, events: seq<Event>, e: Event, id: PolicyId, r: Ref)
    requires AllPossible(events) && Possible(e) && Ignores(e, id, r) && Escaped(Exec(start, events), id, r)
    ensures Escaped(After(Exec(start, events), e), id, r)
  {
    var w := Exec(start, events);
    if !e.Removed? && e.id != id {
      PoliciesAreIsolated(start, events, e, id);
    } else {
      hide Exec, Owns, Lists, Active;
      assert e.Reconciled? ==> r !in Orphans(Managed(w, id), e.pass.refs);
    }
  }

  /** Nothing the controller does later removes an escaped resource: it stays, enforcing
      its old configuration, until it is rendered again, deleted by hand, or the policy
      is deleted. */
  lemma {:induction false} EscapedResourceStays(
    start: set<Ref>, events: seq<Event>, later: seq<Event>, id: PolicyId, r: Ref)
    requires AllPossible(events + later) && AllIgnore(later, id, r) && Escaped(Exec(start, events), id, r)
    ensures Escaped(Exec(start, events + later), id, r)
  {
    hide Escaped, Ignores, Possible, After;
    if later == [] {
      assert events + later == events;
    } else {
      var before, e := later[..|later| - 1], later[|later| - 1];
      assert (events + later)[..|events + later| - 1] == events + before;
      assert (events + later)[|events + later| - 1] == e;
      assert AllPossible(events + before) by {
        assert forall k | 0 <= k < |events + before| :: (events + before)[k] == (events + later)[k];
      }
      EscapedResourceStays(start, events, before, id, r);
      assert Possible(e) && Ignores(e, id, r);
      EscapedStep(start, events + before, e, id, r);
    }
  }

  /** How a resource escapes in any run: the deletion of a resource that is no longer
      rendered fails, and the status is saved. */
  lemma FailedDeletionEscapes(start: set<Ref>, events: seq<Event>, e: Event, r: Ref)
    requires AllPossible(events) && Possible(e) && e.Reconciled?
    requires e.pass.outcome.Completed? && e.pass.outcome.recorded && r in e.pass.outcome.kept && r !in e.pass.refs
    requires r in Exec(start, events).cluster && Owns(e.id, r)
    ensures Escaped(After(Exec(start, events), e), e.id, r)
  {
    hide Owns, Active, Exec;
  }
}
