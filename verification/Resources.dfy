/** Which mesh resources a policy renders to, and how they are named
    (internal/renderer/istio.go, internal/renderer/cilium.go). A resource is represented by
    its reference and its body, which holds the settings that its renderer reads. */
module Resources {
  import opened Api
  import opened Bodies
  import opened Options

  datatype PolicyId = PolicyId(namespace: string, name: string)

  datatype Backend = IstioMesh | CiliumMesh

  /** What a policy can own. */
  datatype Role = AdmissionFilter | ConcurrencyFilter | StatsFlush | SkipPaths | Streaming | CiliumConfig

  datatype Ref = Ref(apiVersion: string, kind: string, name: string, namespace: string)

  // ---------------------------------------------------------------- names

  function AdmissionControlName(id: PolicyId): string { id.name + "-admission-control" }

  function AdaptiveConcurrencyName(id: PolicyId): string { id.name + "-adaptive-concurrency" }

  function StatsFlushName(id: PolicyId): string { id.name + "-stats-flush" }

  function SkipPathsName(id: PolicyId): string { id.name + "-skip-paths" }

  function StreamingProtectionName(id: PolicyId): string { id.name + "-streaming" }

  function CiliumEnvoyConfigName(id: PolicyId): string { "shedpilot-" + id.name }

  const ISTIO_VERSION := "networking.istio.io/v1alpha3"

  const CILIUM_VERSION := "cilium.io/v2alpha1"

  function NameOf(id: PolicyId, role: Role): string {
    match role
    case AdmissionFilter => AdmissionControlName(id)
    case ConcurrencyFilter => AdaptiveConcurrencyName(id)
    case StatsFlush => StatsFlushName(id)
    case SkipPaths => SkipPathsName(id)
    case Streaming => StreamingProtectionName(id)
    case CiliumConfig => CiliumEnvoyConfigName(id)
  }

  function KindOf(role: Role): string {
    match role
    case Streaming => "DestinationRule"
    case CiliumConfig => "CiliumEnvoyConfig"
    case _ => "EnvoyFilter"
  }

  function RefOf(id: PolicyId, role: Role): Ref {
    Ref(if role.CiliumConfig? then CILIUM_VERSION else ISTIO_VERSION, KindOf(role), NameOf(id, role), id.namespace)
  }

  /** The key by which pruning compares resources. */
  function Key(r: Ref): string {
    r.kind + "/" + r.name
  }

  // ---------------------------------------------------------------- naming is injective

  /** The last character of a resource name, which tells the roles of one kind apart. */
  function Mark(role: Role): char {
    match role
    case AdmissionFilter => 'l'
    case ConcurrencyFilter => 'y'
    case StatsFlush => 'h'
    case SkipPaths => 's'
    case Streaming => 'g'
    case CiliumConfig => '?'
  }

  function SuffixLength(role: Role): nat {
    match role
    case AdmissionFilter => 18
    case ConcurrencyFilter => 21
    case StatsFlush => 12
    case SkipPaths => 11
    case Streaming => 10
    case CiliumConfig => 0
  }

  lemma NameShape(id: PolicyId, role: Role)
    requires !role.CiliumConfig?
    ensures var name := NameOf(id, role);
            |name| == |id.name| + SuffixLength(role) && name[..|id.name|] == id.name && name[|name| - 1] == Mark(role)
  {
    match role
    case AdmissionFilter => assert NameOf(id, role) == id.name + "-admission-control";
    case ConcurrencyFilter => assert NameOf(id, role) == id.name + "-adaptive-concurrency";
    case StatsFlush => assert NameOf(id, role) == id.name + "-stats-flush";
    case SkipPaths => assert NameOf(id, role) == id.name + "-skip-paths";
    case Streaming => assert NameOf(id, role) == id.name + "-streaming";
  }

  lemma KindsDiffer(p: Role, q: Role)
    requires KindOf(p)[0] == KindOf(q)[0]
    ensures p.CiliumConfig? == q.CiliumConfig? && p.Streaming? == q.Streaming?
  {
  }

  lemma KindHasFirst(p: Role)
    ensures |KindOf(p)| > 0 && KindOf(p)[0] != '/'
  {
  }

  /** The part of a key after the kind. */
  lemma KeySplits(r: Ref, q: Ref)
    requires Key(r) == Key(q) && |r.kind| == |q.kind|
    ensures r.kind == q.kind && r.name == q.name
  {
    assert Key(r)[..|r.kind|] == r.kind && Key(q)[..|q.kind|] == q.kind;
    assert Key(r)[|r.kind| + 1..] == r.name && Key(q)[|q.kind| + 1..] == q.name;
  }

  lemma CiliumNameIsInjective(id: PolicyId, other: PolicyId)
    requires CiliumEnvoyConfigName(id) == CiliumEnvoyConfigName(other)
    ensures id.name == other.name
  {
    assert CiliumEnvoyConfigName(id)[10..] == id.name && CiliumEnvoyConfigName(other)[10..] == other.name;
  }

  lemma NameIsInjective(id: PolicyId, role: Role, other: PolicyId, otherRole: Role)
    requires role.CiliumConfig? == otherRole.CiliumConfig?
    requires NameOf(id, role) == NameOf(other, otherRole)
    ensures id.name == other.name && role == otherRole
  {
    if role.CiliumConfig? {
      CiliumNameIsInjective(id, other);
    } else {
      NameShape(id, role);
      NameShape(other, otherRole);
      hide NameOf;
      assert Mark(role) == Mark(otherRole);
    }
  }

  /** Within one namespace the pruning key identifies the policy and the role, for all
      policy names: no policy's prune can hit a resource of another one. */
  lemma KeysAreInjective(id: PolicyId, role: Role, other: PolicyId, otherRole: Role)
    requires Key(RefOf(id, role)) == Key(RefOf(other, otherRole))
    ensures id.name == other.name && role == otherRole
  {
    var r, q := RefOf(id, role), RefOf(other, otherRole);
    KindHasFirst(role);
    KindHasFirst(otherRole);
    assert Key(r)[0] == KindOf(role)[0] && Key(q)[0] == KindOf(otherRole)[0];
    KindsDiffer(role, otherRole);
    assert KindOf(role) == KindOf(otherRole);
    hide NameOf, KindOf, ISTIO_VERSION, CILIUM_VERSION, Key;
    KeySplits(r, q);
    NameIsInjective(id, role, other, otherRole);
  }

  /** References identify the policy and the role. */
  lemma RefsAreInjective(id: PolicyId, role: Role, other: PolicyId, otherRole: Role)
    ensures RefOf(id, role) == RefOf(other, otherRole) <==> id == other && role == otherRole
  {
    if RefOf(id, role) == RefOf(other, otherRole) {
      KeysAreInjective(id, role, other, otherRole);
      hide NameOf, KindOf, ISTIO_VERSION, CILIUM_VERSION, Key;
    }
  }

  // ---------------------------------------------------------------- rendering

  /** The roles a policy needs: decided by its filters and the mesh alone. */
  predicate Wanted(backend: Backend, spec: PolicySpec, role: Role) {
    match role
    case AdmissionFilter => backend.IstioMesh? && spec.HasAdmissionControl()
    case ConcurrencyFilter => backend.IstioMesh? && spec.HasAdaptiveConcurrency()
    case StatsFlush => backend.IstioMesh? && (spec.HasAdmissionControl() || spec.HasAdaptiveConcurrency())
    case SkipPaths => backend.IstioMesh? && spec.HasAdmissionControl() && spec.admissionControl.value.skipPaths != []
    case Streaming => backend.IstioMesh? && spec.HasStreamingProtection()
    case CiliumConfig => backend.CiliumMesh? && (spec.HasAdmissionControl() || spec.HasAdaptiveConcurrency())
  }

  /** `refs` lists exactly the wanted references, each once. */
  ghost predicate Lists(id: PolicyId, backend: Backend, spec: PolicySpec, refs: seq<Ref>) {
    && (forall role :: Wanted(backend, spec, role) ==> RefOf(id, role) in refs)
    && (forall r | r in refs :: exists role :: Wanted(backend, spec, role) && r == RefOf(id, role))
    && (forall i, j | 0 <= i < j < |refs| :: refs[i] != refs[j])
  }

  /** The wanted references of these roles, in this order. */
  ghost function Chosen(id: PolicyId, backend: Backend, spec: PolicySpec, order: seq<Role>): seq<Ref> {
    if order == [] then []
    else
      var role := order[|order| - 1];
      Chosen(id, backend, spec, order[..|order| - 1]) + if Wanted(backend, spec, role) then [RefOf(id, role)] else []
  }

  /** The order in which the Istio renderer emits its resources. */
  const ISTIO_ORDER := [AdmissionFilter, ConcurrencyFilter, StatsFlush, SkipPaths, Streaming]

  lemma ChosenOne(id: PolicyId, backend: Backend, spec: PolicySpec, order: seq<Role>, role: Role)
    ensures Chosen(id, backend, spec, order + [role])
         == if Wanted(backend, spec, role) then Chosen(id, backend, spec, order) + [RefOf(id, role)]
            else Chosen(id, backend, spec, order)
  {
    assert (order + [role])[..|order|] == order;
  }

  ghost predicate ComesFrom(id: PolicyId, backend: Backend, spec: PolicySpec, order: seq<Role>, r: Ref) {
    exists role | role in order :: Wanted(backend, spec, role) && r == RefOf(id, role)
  }

  lemma {:induction false} ChosenComesFrom(id: PolicyId, backend: Backend, spec: PolicySpec, order: seq<Role>, r: Ref)
    ensures r in Chosen(id, backend, spec, order) <==> ComesFrom(id, backend, spec, order, r)
  {
    hide RefOf, Wanted;
    if order == [] {
    } else {
      var before, role := order[..|order| - 1], order[|order| - 1];
      ChosenComesFrom(id, backend, spec, before, r);
      hide Chosen;
      assert order == before + [role];
      ChosenOne(id, backend, spec, before, role);
    }
  }

  lemma {:induction false} ChosenIsDistinct(id: PolicyId, backend: Backend, spec: PolicySpec, order: seq<Role>)
    requires forall i, j | 0 <= i < j < |order| :: order[i] != order[j]
    ensures var refs := Chosen(id, backend, spec, order);
            forall i, j | 0 <= i < j < |refs| :: refs[i] != refs[j]
  {
    hide RefOf, Wanted;
    if order == [] {
    } else {
      var before, role := order[..|order| - 1], order[|order| - 1];
      ChosenIsDistinct(id, backend, spec, before);
      ChosenOne(id, backend, spec, before, role);
      var refs := Chosen(id, backend, spec, before);
      assert before + [role] == order;
      hide Chosen;
      forall i | 0 <= i < |refs|
        ensures refs[i] != RefOf(id, role)
      {
        ChosenComesFrom(id, backend, spec, before, refs[i]);
        var other :| other in before && refs[i] == RefOf(id, other);
        RefsAreInjective(id, other, id, role);
      }
    }
  }

  lemma ChosenLists(id: PolicyId, backend: Backend, spec: PolicySpec, order: seq<Role>)
    requires forall i, j | 0 <= i < j < |order| :: order[i] != order[j]
    requires forall role | Wanted(backend, spec, role) :: role in order
    ensures Lists(id, backend, spec, Chosen(id, backend, spec, order))
  {
    ChosenIsDistinct(id, backend, spec, order);
    forall r
      ensures r in Chosen(id, backend, spec, order) <==> ComesFrom(id, backend, spec, order, r)
    {
      ChosenComesFrom(id, backend, spec, order, r);
    }
    hide RefOf, Wanted, Chosen;
  }

  /** The runtime layer of a filter. The policy's namespace is not part of it. */
  function LayerName(id: PolicyId, role: Role): string
    requires role.AdmissionFilter? || role.ConcurrencyFilter?
  {
    "shedpilot-" + NameOf(id, role)
  }

  /** The runtime layers of a policy's filters. */
  ghost function LayersOf(id: PolicyId, spec: PolicySpec): set<string> {
    set role | role in {AdmissionFilter, ConcurrencyFilter} && Wanted(IstioMesh, spec, role) :: LayerName(id, role)
  }

  /** What the resource of a wanted role says. */
  ghost function BodyOf(backend: Backend, spec: PolicySpec, role: Role): Body
    requires Wanted(backend, spec, role)
  {
    match role
    case AdmissionFilter => RenderAdmissionControl(spec)
    case ConcurrencyFilter => RenderAdaptiveConcurrency(spec)
    case StatsFlush => RenderStatsFlush(spec)
    case SkipPaths => RenderSkipPaths(spec)
    case Streaming => RenderStreamingProtection(spec)
    case CiliumConfig => BuildCiliumEnvoyConfig(spec)
  }

  /** A rendered resource: where it goes and what it says. */
  ghost predicate RenderedAs(id: PolicyId, backend: Backend, spec: PolicySpec, r: Ref, body: Body) {
    exists role :: Wanted(backend, spec, role) && r == RefOf(id, role) && body == BodyOf(backend, spec, role)
  }

  /** Every resource has its own body. */
  ghost predicate Renders(id: PolicyId, backend: Backend, spec: PolicySpec, refs: seq<Ref>, bodies: seq<Body>) {
    |bodies| == |refs| && forall i | 0 <= i < |refs| :: RenderedAs(id, backend, spec, refs[i], bodies[i])
  }

  lemma RendersOne(
    id: PolicyId, backend: Backend, spec: PolicySpec, refs: seq<Ref>, bodies: seq<Body>, role: Role)
    requires Renders(id, backend, spec, refs, bodies) && Wanted(backend, spec, role)
    ensures Renders(id, backend, spec, refs + [RefOf(id, role)], bodies + [BodyOf(backend, spec, role)])
  {
    hide RefOf, Wanted, BodyOf;
    assert RenderedAs(id, backend, spec, RefOf(id, role), BodyOf(backend, spec, role));
  }

  lemma RendersNone(id: PolicyId, backend: Backend, spec: PolicySpec)
    ensures Renders(id, backend, spec, [], [])
  {
  }

  method RenderIstio(id: PolicyId, spec: PolicySpec) returns (refs: seq<Ref>, bodies: seq<Body>, layers: set<string>)
    ensures refs == Chosen(id, IstioMesh, spec, [AdmissionFilter, ConcurrencyFilter, StatsFlush, SkipPaths, Streaming])
    ensures Lists(id, IstioMesh, spec, refs)
    ensures Renders(id, IstioMesh, spec, refs, bodies)
    ensures layers == LayersOf(id, spec)
  {
    refs, bodies, layers := [], [], {};
    IstioIsOrdered(id, spec);
    LayersAre(id, spec);
    IstioIsListed(id, spec);
    RendersNone(id, IstioMesh, spec);
    ghost var a := [AdmissionFilter];
    ghost var b := a + [ConcurrencyFilter];
    ghost var c := b + [StatsFlush];
    ghost var d := c + [SkipPaths];
    hide RefOf, LayerName, Lists, Chosen, LayersOf, Renders;
    hide RenderAdmissionControl, RenderAdaptiveConcurrency, RenderStatsFlush, RenderSkipPaths;
    hide RenderStreamingProtection;
    if spec.HasAdmissionControl() {
      RendersOne(id, IstioMesh, spec, refs, bodies, AdmissionFilter);
      refs, bodies := refs + [RefOf(id, AdmissionFilter)], bodies + [RenderAdmissionControl(spec)];
      layers := layers + {LayerName(id, AdmissionFilter)};
    }
    assert refs == Chosen(id, IstioMesh, spec, a);
    if spec.HasAdaptiveConcurrency() {
      RendersOne(id, IstioMesh, spec, refs, bodies, ConcurrencyFilter);
      refs, bodies := refs + [RefOf(id, ConcurrencyFilter)], bodies + [RenderAdaptiveConcurrency(spec)];
      layers := layers + {LayerName(id, ConcurrencyFilter)};
    }
    assert refs == Chosen(id, IstioMesh, spec, b);
    if spec.HasAdmissionControl() || spec.HasAdaptiveConcurrency() {
      RendersOne(id, IstioMesh, spec, refs, bodies, StatsFlush);
      refs, bodies := refs + [RefOf(id, StatsFlush)], bodies + [RenderStatsFlush(spec)];
    }
    assert refs == Chosen(id, IstioMesh, spec, c);
    if spec.HasAdmissionControl() && |spec.admissionControl.value.skipPaths| > 0 {
      RendersOne(id, IstioMesh, spec, refs, bodies, SkipPaths);
      refs, bodies := refs + [RefOf(id, SkipPaths)], bodies + [RenderSkipPaths(spec)];
    }
    assert refs == Chosen(id, IstioMesh, spec, d);
    if spec.HasStreamingProtection() {
      RendersOne(id, IstioMesh, spec, refs, bodies, Streaming);
      refs, bodies := refs + [RefOf(id, Streaming)], bodies + [RenderStreamingProtection(spec)];
    }
  }

  /** The rendering order, one role at a time. */
  lemma IstioIsOrdered(id: PolicyId, spec: PolicySpec)
    ensures var a := [AdmissionFilter];
            var b := a + [ConcurrencyFilter];
            var c := b + [StatsFlush];
            var d := c + [SkipPaths];
            && Chosen(id, IstioMesh, spec, a) == Add([], id, spec, AdmissionFilter)
            && Chosen(id, IstioMesh, spec, b) == Add(Chosen(id, IstioMesh, spec, a), id, spec, ConcurrencyFilter)
            && Chosen(id, IstioMesh, spec, c) == Add(Chosen(id, IstioMesh, spec, b), id, spec, StatsFlush)
            && Chosen(id, IstioMesh, spec, d) == Add(Chosen(id, IstioMesh, spec, c), id, spec, SkipPaths)
            && Chosen(id, IstioMesh, spec, ISTIO_ORDER) == Add(Chosen(id, IstioMesh, spec, d), id, spec, Streaming)
  {
    var a := [AdmissionFilter];
    var b := a + [ConcurrencyFilter];
    var c := b + [StatsFlush];
    var d := c + [SkipPaths];
    assert [] + [AdmissionFilter] == a && d + [Streaming] == ISTIO_ORDER;
    ChosenNone(id, IstioMesh, spec);
    hide *;
    AddOne(id, spec, [], AdmissionFilter);
    AddOne(id, spec, a, ConcurrencyFilter);
    AddOne(id, spec, b, StatsFlush);
    AddOne(id, spec, c, SkipPaths);
    AddOne(id, spec, d, Streaming);
  }

  lemma IstioIsListed(id: PolicyId, spec: PolicySpec)
    ensures Lists(id, IstioMesh, spec, Chosen(id, IstioMesh, spec, ISTIO_ORDER))
  {
    ChosenLists(id, IstioMesh, spec, ISTIO_ORDER);
  }

  lemma AddOne(id: PolicyId, spec: PolicySpec, order: seq<Role>, role: Role)
    ensures Chosen(id, IstioMesh, spec, order + [role]) == Add(Chosen(id, IstioMesh, spec, order), id, spec, role)
  {
    hide Wanted, RefOf, Chosen;
    ChosenOne(id, IstioMesh, spec, order, role);
  }

  lemma ChosenNone(id: PolicyId, backend: Backend, spec: PolicySpec)
    ensures Chosen(id, backend, spec, []) == []
  {
  }

  ghost function Add(refs: seq<Ref>, id: PolicyId, spec: PolicySpec, role: Role): seq<Ref> {
    if Wanted(IstioMesh, spec, role) then refs + [RefOf(id, role)] else refs
  }

  lemma LayersAre(id: PolicyId, spec: PolicySpec)
    ensures LayersOf(id, spec)
         == (if spec.HasAdmissionControl() then {LayerName(id, AdmissionFilter)} else {})
            + (if spec.HasAdaptiveConcurrency() then {LayerName(id, ConcurrencyFilter)} else {})
  {
    hide LayerName;
  }

  /** One CiliumEnvoyConfig holds both filters; streaming protection has no counterpart. */
  method RenderCilium(id: PolicyId, spec: PolicySpec) returns (refs: seq<Ref>, bodies: seq<Body>, layers: set<string>)
    ensures refs == Chosen(id, CiliumMesh, spec, [CiliumConfig]) && Lists(id, CiliumMesh, spec, refs)
    ensures Renders(id, CiliumMesh, spec, refs, bodies)
    ensures layers == LayersOf(id, spec)
  {
    hide RefOf, LayerName, Lists, Renders;
    ChosenOne(id, CiliumMesh, spec, [], CiliumConfig);
    assert [] + [CiliumConfig] == [CiliumConfig] && Chosen(id, CiliumMesh, spec, []) == [];
    ChosenLists(id, CiliumMesh, spec, [CiliumConfig]);
    LayersAre(id, spec);
    RendersNone(id, CiliumMesh, spec);
    hide Chosen, LayersOf;
    refs, bodies, layers := [], [], {};
    var filter, limiter := None, None;
    if spec.HasAdmissionControl() {
      filter := Some(SheddingOf(spec, spec.EffectiveSuccessRateThreshold() / 100.0));
      layers := layers + {LayerName(id, AdmissionFilter)};
    }
    if spec.HasAdaptiveConcurrency() {
      limiter := Some(GradientOf(spec));
      layers := layers + {LayerName(id, ConcurrencyFilter)};
    }
    if filter.Some? || limiter.Some? {
      RendersOne(id, CiliumMesh, spec, refs, bodies, CiliumConfig);
      refs, bodies := refs + [RefOf(id, CiliumConfig)], bodies + [CiliumBody(spec.selector, filter, limiter)];
    }
  }

  /** The two filters of two policies share a runtime layer exactly when the policies
      have the same name and the filter is the same, whatever their namespaces are. */
  lemma LayersIgnoreNamespaces(id: PolicyId, role: Role, other: PolicyId, otherRole: Role)
    requires role.AdmissionFilter? || role.ConcurrencyFilter?
    requires otherRole.AdmissionFilter? || otherRole.ConcurrencyFilter?
    ensures LayerName(id, role) == LayerName(other, otherRole) <==> id.name == other.name && role == otherRole
  {
    hide NameOf;
    assert LayerName(id, role)[10..] == NameOf(id, role);
    assert LayerName(other, otherRole)[10..] == NameOf(other, otherRole);
    if NameOf(id, role) == NameOf(other, otherRole) {
      NameIsInjective(id, role, other, otherRole);
    }
    if id.name == other.name {
      NameIgnoresNamespace(id, other, role);
    }
  }

  lemma NameIgnoresNamespace(id: PolicyId, other: PolicyId, role: Role)
    requires id.name == other.name
    ensures NameOf(id, role) == NameOf(other, role)
  {
  }
}
