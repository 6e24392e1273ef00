/** What one reconcile pass does to the cluster and to status.managedResources
    (internal/controller/adaptivepolicy_controller.go:211-249, 286, 391-393, 533-563). */
module Bookkeeping {
  import opened Api
  import opened Bodies
  import opened Resources
  import AutoSwitch

  /** How a pass ends: it stops before it applies anything, an apply fails after
      `applied` resources, or it gets through; then `kept` are the orphans whose
      deletion failed, and `recorded` says whether the status was saved. */
  datatype Outcome = Halted | ApplyFailed(applied: nat) | Completed(kept: set<Ref>, recorded: bool)

  /** One pass: the rendered references and bodies, and whether it switched the profile. */
  datatype Pass = Pass(refs: seq<Ref>, bodies: seq<Body>, switched: bool, outcome: Outcome)

  function ToSet(s: seq<Ref>): set<Ref> {
    set r | r in s
  }

  /** Some rendered resource has the key of `r`. */
  predicate Active(refs: seq<Ref>, r: Ref) {
    exists i | 0 <= i < |refs| :: Key(refs[i]) == Key(r)
  }

  function Orphans(managed: seq<Ref>, refs: seq<Ref>): set<Ref> {
    set r | r in managed && !Active(refs, r)
  }

  function ClusterAfter(cluster: set<Ref>, managed: seq<Ref>, p: Pass): set<Ref> {
    match p.outcome
    case Halted => cluster
    case ApplyFailed(applied) => if applied <= |p.refs| then cluster + ToSet(p.refs[..applied]) else cluster
    case Completed(kept, _) =>
      (if p.switched then cluster else cluster + ToSet(p.refs)) - (Orphans(managed, p.refs) - kept)
  }

  function ManagedAfter(managed: seq<Ref>, p: Pass): seq<Ref> {
    if p.outcome.Completed? && p.outcome.recorded then p.refs else managed
  }

  /** The mesh resources in the cluster, with what they say. */
  type Contents = map<Ref, Body>

  /** The resources after these were applied, each with its own body. */
  function Applied(c: Contents, refs: seq<Ref>, bodies: seq<Body>): Contents {
    if refs == [] || |bodies| < |refs| then c
    else
      var n := |refs| - 1;
      Applied(c, refs[..n], bodies[..n])[refs[n] := bodies[n]]
  }

  function ContentsAfter(c: Contents, managed: seq<Ref>, p: Pass): Contents {
    if |p.bodies| != |p.refs| then c
    else
      match p.outcome
      case Halted => c
      case ApplyFailed(applied) =>
        if applied <= |p.refs| then Applied(c, p.refs[..applied], p.bodies[..applied]) else c
      case Completed(kept, _) =>
        (if p.switched then c else Applied(c, p.refs, p.bodies)) - (Orphans(managed, p.refs) - kept)
  }

  lemma {:induction false} AppliedKeys(c: Contents, refs: seq<Ref>, bodies: seq<Body>)
    requires |bodies| == |refs|
    ensures Applied(c, refs, bodies).Keys == c.Keys + ToSet(refs)
  {
    if refs == [] {
    } else {
      var n := |refs| - 1;
      AppliedKeys(c, refs[..n], bodies[..n]);
      assert refs == refs[..n] + [refs[n]];
    }
  }

  lemma ContentsAreOfTheCluster(c: Contents, managed: seq<Ref>, p: Pass)
    requires |p.bodies| == |p.refs|
    ensures ContentsAfter(c, managed, p).Keys == ClusterAfter(c.Keys, managed, p)
  {
    AppliedKeys(c, p.refs, p.bodies);
    if p.outcome.ApplyFailed? && p.outcome.applied <= |p.refs| {
      AppliedKeys(c, p.refs[..p.outcome.applied], p.bodies[..p.outcome.applied]);
    }
    hide Orphans, Applied;
  }

  // ---------------------------------------------------------------- in place

  datatype Deletion = Deleted | NotFound | Failed

  class Status {
    var managed: seq<Ref>

    constructor ()
      ensures managed == []
    {
      managed := [];
    }
  }

  /** The API server's view of the mesh resources. Any call can fail. */
  class Cluster {
    var contents: Contents
    /** How many calls have failed so far. */
    ghost var failures: nat

    constructor (contents: Contents)
      ensures this.contents == contents && failures == 0
    {
      this.contents, failures := contents, 0;
    }

    method Patch(r: Ref, body: Body) returns (ok: bool)
      modifies this
      ensures contents == if ok then old(contents)[r := body] else old(contents)
      ensures failures == old(failures) + if ok then 0 else 1
    {
      ok := *;
      if ok {
        contents := contents[r := body];
      } else {
        failures := failures + 1;
      }
    }

    method Delete(r: Ref) returns (result: Deletion)
      modifies this
      ensures result.Deleted? ==> r in old(contents) && contents == old(contents) - {r}
      ensures result.NotFound? ==> r !in old(contents)
      ensures !result.Deleted? ==> contents == old(contents)
      ensures failures == old(failures) + if result.Failed? then 1 else 0
    {
      var ok := *;
      if !ok {
        failures := failures + 1;
        return Failed;
      }
      if r !in contents {
        return NotFound;
      }
      contents := contents - {r};
      return Deleted;
    }

    method PatchStatus(status: Status, managed: seq<Ref>) returns (ok: bool)
      modifies this, status
      ensures contents == old(contents)
      ensures status.managed == if ok then managed else old(status.managed)
      ensures failures == old(failures) + if ok then 0 else 1
    {
      ok := *;
      if ok {
        status.managed := managed;
      } else {
        failures := failures + 1;
      }
    }
  }

  /** Applies the resources in order and stops at the first failure. */
  method Apply(cluster: Cluster, refs: seq<Ref>, bodies: seq<Body>) returns (applied: nat)
    requires |bodies| == |refs|
    modifies cluster
    ensures applied <= |refs| && cluster.contents == Applied(old(cluster.contents), refs[..applied], bodies[..applied])
    ensures cluster.failures == old(cluster.failures) + if applied < |refs| then 1 else 0
  {
    AppliedNone(cluster.contents, refs, bodies);
    hide Applied;
    applied := 0;
    while applied < |refs|
      invariant applied <= |refs|
      invariant cluster.contents == Applied(old(cluster.contents), refs[..applied], bodies[..applied])
      invariant cluster.failures == old(cluster.failures)
    {
      var ok := cluster.Patch(refs[applied], bodies[applied]);
      if !ok {
        return;
      }
      AppliedOne(old(cluster.contents), refs, bodies, applied);
      applied := applied + 1;
    }
  }

  lemma AppliedOne(c: Contents, refs: seq<Ref>, bodies: seq<Body>, k: nat)
    requires k < |refs| == |bodies|
    ensures Applied(c, refs[..k + 1], bodies[..k + 1]) == Applied(c, refs[..k], bodies[..k])[refs[k] := bodies[k]]
  {
    assert refs[..k + 1][..k] == refs[..k] && bodies[..k + 1][..k] == bodies[..k];
  }

  lemma AppliedNone(c: Contents, refs: seq<Ref>, bodies: seq<Body>)
    ensures Applied(c, refs[..0], bodies[..0]) == c
  {
  }

  /** Deletes what was managed and is no longer rendered; a failed deletion is skipped. */
  method PruneOrphanedResources(cluster: Cluster, managed: seq<Ref>, current: seq<Ref>) returns (ghost kept: set<Ref>)
    modifies cluster
    ensures cluster.contents == old(cluster.contents) - (Orphans(managed, current) - kept)
    ensures kept <= Orphans(managed, current)
    ensures cluster.failures >= old(cluster.failures) + if kept == {} then 0 else 1
  {
    hide Key;
    var active: set<string> := {};
    var i := 0;
    while i < |current|
      invariant i <= |current|
      invariant forall k :: k in active <==> exists j | 0 <= j < i :: Key(current[j]) == k
    {
      active := active + {Key(current[i])};
      i := i + 1;
    }
    ghost var before := cluster.contents;
    kept := {};
    i := 0;
    while i < |managed|
      invariant i <= |managed|
      invariant kept <= Orphans(managed[..i], current)
      invariant cluster.contents == before - (Orphans(managed[..i], current) - kept)
      invariant cluster.failures >= old(cluster.failures) + if kept == {} then 0 else 1
    {
      var prev := managed[i];
      assert Key(prev) in active <==> Active(current, prev);
      OrphansOfNext(managed, current, i);
      if Key(prev) !in active {
        var result := cluster.Delete(prev);
        kept := KeptAfter(kept, prev, result.Failed? && prev in cluster.contents);
      }
      i := i + 1;
    }
    assert managed[..i] == managed;
  }

  ghost function KeptAfter(kept: set<Ref>, r: Ref, failed: bool): set<Ref> {
    if failed then kept + {r} else kept - {r}
  }

  lemma OrphansOfNext(managed: seq<Ref>, current: seq<Ref>, i: nat)
    requires i < |managed|
    ensures Orphans(managed[..i + 1], current)
         == Orphans(managed[..i], current) + if Active(current, managed[i]) then {} else {managed[i]}
  {
    hide Active;
    assert managed[..i + 1] == managed[..i] + [managed[i]];
  }

  /** The validation, apply, prune and record steps of one reconcile. One that switched was
      validated before the switch; the spec is the one fetched after it. */
  method Reconcile(id: PolicyId, backend: Backend, spec: PolicySpec, switched: bool, cluster: Cluster, status: Status)
    returns (done: bool, ghost pass: Pass)
    modifies cluster, status
    ensures WellFormed(id, backend, spec, pass) && pass.switched == switched
    ensures done <==> pass.outcome.Completed?
    ensures cluster.contents == ContentsAfter(old(cluster.contents), old(status.managed), pass)
    ensures cluster.contents.Keys == ClusterAfter(old(cluster.contents.Keys), old(status.managed), pass)
    ensures status.managed == ManagedAfter(old(status.managed), pass)
    ensures cluster.failures == old(cluster.failures) ==> pass.outcome == CleanOutcome(spec, switched)
  {
    hide Lists, Orphans, Applied, Renders;
    var refs, bodies, layers;
    if backend.IstioMesh? {
      refs, bodies, layers := RenderIstio(id, spec);
    } else {
      refs, bodies, layers := RenderCilium(id, spec);
    }
    RendersLength(id, backend, spec, refs, bodies);
    if !switched {
      var m := AutoSwitch.ValidatePolicy(spec);
      if m.Some? {
        return false, Pass(refs, bodies, switched, Halted);
      }
      var applied := Apply(cluster, refs, bodies);
      if applied < |refs| {
        pass := Pass(refs, bodies, switched, ApplyFailed(applied));
        ContentsAreOfTheCluster(old(cluster.contents), old(status.managed), pass);
        return false, pass;
      }
      assert refs[..applied] == refs && bodies[..applied] == bodies;
    }
    ghost var kept := PruneOrphanedResources(cluster, status.managed, refs);
    var recorded := cluster.PatchStatus(status, refs);
    pass := Pass(refs, bodies, switched, Completed(kept, recorded));
    ContentsAreOfTheCluster(old(cluster.contents), old(status.managed), pass);
    done := true;
  }

  lemma RendersLength(id: PolicyId, backend: Backend, spec: PolicySpec, refs: seq<Ref>, bodies: seq<Body>)
    requires Renders(id, backend, spec, refs, bodies)
    ensures |bodies| == |refs|
  {
  }

  /** How a pass ends when no call fails: a policy that is not well configured halts it. */
  ghost function CleanOutcome(spec: PolicySpec, switched: bool): Outcome {
    if switched || AutoSwitch.WellConfigured(spec) then Completed({}, true) else Halted
  }

  /** The pass rendered this policy; only one that did not switch can fail to apply, and
      then it gets past validation only with a well configured policy. */
  ghost predicate WellFormed(id: PolicyId, backend: Backend, spec: PolicySpec, p: Pass) {
    && Lists(id, backend, spec, p.refs) && Renders(id, backend, spec, p.refs, p.bodies)
    && (p.outcome.ApplyFailed? ==> !p.switched && p.outcome.applied < |p.refs|)
    && (!p.switched && !p.outcome.Halted? ==> AutoSwitch.WellConfigured(spec))
  }
}
