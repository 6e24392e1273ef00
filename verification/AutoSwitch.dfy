/** Validation, automatic profile switches and the decision history of one policy
    (internal/controller/adaptivepolicy_controller.go:124-130, 195-213, 298-318, 409-445, 624-674). */
module AutoSwitch {
  import opened Api
  import opened Options
  import opened Evaluator
  import EvaluatorHistory

  // ---------------------------------------------------------------- validation

  datatype Misconfiguration =
    | NoActiveFilters
    | InvalidActiveProfile
    | InvalidTrigger(index: nat)
    | InvalidSchedule(index: nat)

  predicate HasFilter(spec: PolicySpec) {
    spec.HasAdmissionControl() || spec.HasAdaptiveConcurrency() || spec.HasStreamingProtection()
  }

  predicate ActiveDefined(spec: PolicySpec) {
    spec.activeProfile == "" || spec.activeProfile in spec.profiles
  }

  /** What reconciliation requires of a policy: it has a filter, and every profile it names is defined. */
  ghost predicate WellConfigured(spec: PolicySpec) {
    && HasFilter(spec) && ActiveDefined(spec)
    && (forall t | t in spec.triggers :: t.switchTo in spec.profiles)
    && (forall s | s in spec.schedules :: s in spec.profiles)
  }

  /** The first violation found, in the order in which they are looked for. */
  method ValidatePolicy(spec: PolicySpec) returns (m: Option<Misconfiguration>)
    ensures m.None? <==> WellConfigured(spec)
    ensures m.None? <==>
              && (|| (spec.admissionControl.Some? && spec.admissionControl.value.enabled)
                  || (spec.adaptiveConcurrency.Some? && spec.adaptiveConcurrency.value.enabled)
                  || (spec.streamingProtection.Some? && spec.streamingProtection.value.enabled))
              && (spec.activeProfile == "" || spec.activeProfile in spec.profiles)
              && (forall t | t in spec.triggers :: t.switchTo in spec.profiles)
              && (forall s | s in spec.schedules :: s in spec.profiles)
    ensures m == Some(NoActiveFilters) <==> !HasFilter(spec)
    ensures m == Some(InvalidActiveProfile) <==> HasFilter(spec) && !ActiveDefined(spec)
    ensures m.Some? && m.value.InvalidTrigger? ==>
              && HasFilter(spec) && ActiveDefined(spec)
              && m.value.index < |spec.triggers| && spec.triggers[m.value.index].switchTo !in spec.profiles
              && forall j | 0 <= j < m.value.index :: spec.triggers[j].switchTo in spec.profiles
    ensures m.Some? && m.value.InvalidSchedule? ==>
              && HasFilter(spec) && ActiveDefined(spec)
              && (forall t | t in spec.triggers :: t.switchTo in spec.profiles)
              && m.value.index < |spec.schedules| && spec.schedules[m.value.index] !in spec.profiles
              && forall j | 0 <= j < m.value.index :: spec.schedules[j] in spec.profiles
  {
    if !spec.HasAdmissionControl() && !spec.HasAdaptiveConcurrency() && !spec.HasStreamingProtection() {
      return Some(NoActiveFilters);
    }
    if spec.activeProfile != "" {
      if spec.activeProfile !in spec.profiles {
        return Some(InvalidActiveProfile);
      }
    }
    for i := 0 to |spec.triggers|
      invariant forall j | 0 <= j < i :: spec.triggers[j].switchTo in spec.profiles
    {
      if spec.triggers[i].switchTo !in spec.profiles {
        return Some(InvalidTrigger(i));
      }
    }
    for i := 0 to |spec.schedules|
      invariant forall j | 0 <= j < i :: spec.schedules[j] in spec.profiles
    {
      if spec.schedules[i] !in spec.profiles {
        return Some(InvalidSchedule(i));
      }
    }
    m := None;
  }

  // ---------------------------------------------------------------- one reconcile

  datatype Record = Record(timestamp: int, triggerName: string, profileBefore: string, profileAfter: string, rtds: bool)

  const HISTORY_LIMIT := 10

  /** What the cluster stores about one policy. */
  datatype Stored = Stored(spec: PolicySpec, lastDecision: Option<Record>, history: seq<Record>)

  /** The inputs of one reconcile, and which of its two writes reached the API server:
      the patch of the active profile and, at the end, that of the status. `memory` is
      the evaluator's state, which may be any. */
  datatype Inputs = Inputs(
    signals: Signals, clock: seq<int>, memory: Memory, now: int, rtds: bool, patched: bool, saved: bool)

  ghost predicate Suits(spec: PolicySpec, inputs: Inputs) {
    |inputs.clock| == 2 * |spec.triggers| && Bounded(inputs.memory)
  }

  /** The triggers are evaluated at all. */
  ghost predicate Considers(spec: PolicySpec) {
    WellConfigured(spec) && !spec.humanOverride && spec.triggers != []
  }

  /** What the evaluation in a reconcile of this policy gives. */
  ghost function EvaluationOf(spec: PolicySpec, inputs: Inputs): (r: Scanned)
    requires Suits(spec, inputs)
    ensures Bounded(r.memory)
  {
    if Considers(spec)
    then Evaluated(spec.triggers, Call(spec.activeProfile, inputs.signals, inputs.clock), inputs.memory)
    else Scanned(inputs.memory, NO_DECISION, None)
  }

  ghost function DecisionOf(spec: PolicySpec, inputs: Inputs): Decision
    requires Suits(spec, inputs)
  {
    EvaluationOf(spec, inputs).decision
  }

  ghost function RecordOf(spec: PolicySpec, inputs: Inputs): Record
    requires Suits(spec, inputs)
  {
    var d := DecisionOf(spec, inputs);
    Record(inputs.now, d.triggerName, spec.activeProfile, d.targetProfile, inputs.rtds && inputs.patched)
  }

  /** The stored policy after the reconcile. */
  ghost function Reconciled(s: Stored, inputs: Inputs): Stored
    requires Suits(s.spec, inputs)
  {
    var d := DecisionOf(s.spec, inputs);
    if !d.shouldSwitch then s
    else
      var switched := if inputs.patched then s.(spec := s.spec.(activeProfile := d.targetProfile)) else s;
      if inputs.saved then
        var r := RecordOf(s.spec, inputs);
        switched.(lastDecision := Some(r), history := Newest(r, s.history))
      else switched
  }

  /** The record is put in front, and the oldest ones beyond the limit are dropped. */
  function Newest(r: Record, history: seq<Record>): seq<Record> {
    if |history| < HISTORY_LIMIT then [r] + history else [r] + history[..HISTORY_LIMIT - 1]
  }

  /** The policy object of one reconcile and the API server behind it. */
  class Policy {
    var spec: PolicySpec
    var lastDecision: Option<Record>
    var history: seq<Record>

    constructor (spec: PolicySpec)
      ensures View() == Stored(spec, None, [])
    {
      this.spec := spec;
      lastDecision, history := None, [];
    }

    ghost function View(): Stored
      reads this
    {
      Stored(spec, lastDecision, history)
    }

    /** Evaluates the triggers and patches the active profile if one fires; `ok` says
        whether such a patch would succeed. */
    method EvaluateAndSwitch(signals: Signals, clock: seq<int>, state: State, ok: bool)
      returns (d: Decision, switched: bool)
      requires |clock| == 2 * |spec.triggers| && state.Valid()
      modifies `spec, state
      ensures state.Valid()
      ensures if old(spec).humanOverride || old(spec).triggers == []
              then d == NO_DECISION && state.View() == old(state.View())
              else
                var call := Call(old(spec).activeProfile, signals, clock);
                var r := Evaluated(old(spec).triggers, call, old(state.View()));
                d == r.decision && state.View() == r.memory
      ensures switched <==> d.shouldSwitch && ok
      ensures spec == if switched then old(spec).(activeProfile := d.targetProfile) else old(spec)
    {
      if spec.humanOverride {
        return NO_DECISION, false;
      }
      if |spec.triggers| == 0 {
        return NO_DECISION, false;
      }
      d := Evaluate(spec.triggers, Call(spec.activeProfile, signals, clock), state);
      if !d.shouldSwitch {
        return d, false;
      }
      if !ok {
        return d, false;
      }
      spec := spec.(activeProfile := d.targetProfile);
      switched := true;
    }

    /** Puts a decision into the status. */
    method RecordDecision(r: Record)
      modifies `lastDecision, `history
      ensures lastDecision == Some(r) && history == Newest(r, old(history))
    {
      lastDecision := Some(r);
      history := [r] + history;
      if |history| > HISTORY_LIMIT {
        history := history[..HISTORY_LIMIT];
      }
    }

    /** The deciding and recording steps of a reconcile. */
    method Reconcile(signals: Signals, clock: seq<int>, state: State, now: int, rtds: bool, patched: bool, saved: bool)
      requires |clock| == 2 * |spec.triggers| && state.Valid()
      modifies this, state
      ensures state.Valid()
      ensures var inputs := Inputs(signals, clock, old(state.View()), now, rtds, patched, saved);
              && View() == Reconciled(old(View()), inputs)
              && state.View() == EvaluationOf(old(spec), inputs).memory
    {
      hide Evaluated, Bounded;
      var m := ValidatePolicy(spec);
      if m.Some? {
        return;
      }
      var original := spec.activeProfile;
      var d, switched := EvaluateAndSwitch(signals, clock, state, patched);
      if d.shouldSwitch && saved {
        RecordDecision(Record(now, d.triggerName, original, d.targetProfile, rtds && switched));
      }
    }
  }

  // ---------------------------------------------------------------- one switch

  /** An automatic switch goes to another, defined profile, by a trigger that names it. */
  lemma SwitchTargetIsDefined(spec: PolicySpec, inputs: Inputs)
    requires Suits(spec, inputs) && DecisionOf(spec, inputs).shouldSwitch
    ensures var d := DecisionOf(spec, inputs);
            && WellConfigured(spec) && !spec.humanOverride
            && d.targetProfile in spec.profiles && d.targetProfile != spec.activeProfile
            && exists t | t in spec.triggers :: t.name == d.triggerName && t.switchTo == d.targetProfile
  {
    var call := Call(spec.activeProfile, inputs.signals, inputs.clock);
    ScanSwitches(spec.triggers, call, 0, inputs.memory, None);
    var f := EvaluationOf(spec, inputs).fired;
    hide Scan;
    assert spec.triggers[f.value] in spec.triggers;
  }

  /** What a deciding reconcile stores: the record says which trigger switched from where to
      where and when, and that it was delivered by RTDS only if the profile patch succeeded;
      the profile becomes the trigger's target exactly if it did. */
  lemma DecidedIsStored(s: Stored, inputs: Inputs) returns (t: Trigger)
    requires Suits(s.spec, inputs) && DecisionOf(s.spec, inputs).shouldSwitch
    ensures t in s.spec.triggers && ConditionHolds(t.when, inputs.signals)
    ensures (t.fromProfiles == [] || s.spec.activeProfile in t.fromProfiles) && t.switchTo != s.spec.activeProfile
    ensures var r := Reconciled(s, inputs);
            && r.spec == s.spec.(activeProfile := if inputs.patched then t.switchTo else s.spec.activeProfile)
            && r.lastDecision == if inputs.saved
                                 then Some(Record(inputs.now, t.name, s.spec.activeProfile, t.switchTo,
                                                  inputs.rtds && inputs.patched))
                                 else s.lastDecision
  {
    var call := Call(s.spec.activeProfile, inputs.signals, inputs.clock);
    ScanSwitches(s.spec.triggers, call, 0, inputs.memory, None);
    t := s.spec.triggers[EvaluationOf(s.spec, inputs).fired.value];
    hide Scan;
  }

  /** Reconciling keeps a well configured policy well configured, and changes nothing
      but the active profile in its spec. */
  lemma ReconcileKeepsWellConfigured(s: Stored, inputs: Inputs)
    requires Suits(s.spec, inputs)
    ensures var t := Reconciled(s, inputs);
            && t.spec == s.spec.(activeProfile := t.spec.activeProfile)
            && (WellConfigured(s.spec) <==> WellConfigured(t.spec))
            && (!WellConfigured(s.spec) ==> t == s)
  {
    if DecisionOf(s.spec, inputs).shouldSwitch {
      SwitchTargetIsDefined(s.spec, inputs);
    }
    hide Evaluated;
  }

  /** The trigger of this name is retried by these inputs: there are samples, one is all
      that it needs, its condition holds, its cooldown since the first try is over, and no
      earlier trigger is due. */
  ghost predicate Retried(spec: PolicySpec, inputs: Inputs, next: Inputs, f: nat)
    requires Suits(spec, inputs) && Suits(spec, next) && f < |spec.triggers|
  {
    var ts, call, later := spec.triggers, CallOf(spec, inputs), CallOf(spec, next);
    && next.signals.sampleCount != 0 && RequiredSamples(ts[f].when) == 1
    && ConditionHolds(ts[f].when, next.signals)
    && next.clock[2 * f] - inputs.clock[2 * f + 1] >= Cooldown(ts[f])
    && forall j | 0 <= j < f :: !Due(ts, later, After(ts, call, SeenIn(ts, inputs.memory)), j)
  }

  /** A switch whose patch failed costs as much as one that succeeded: the trigger's count
      and cooldown have restarted. The policy stays as it is, and the next reconcile tries
      the same trigger again if and only if it is retried by the new inputs. */
  lemma FailedPatchPaysAgain(s: Stored, inputs: Inputs, next: Inputs) returns (f: nat)
    requires UniqueNames(s.spec.triggers) && Suits(s.spec, inputs) && DecisionOf(s.spec, inputs).shouldSwitch
    requires !inputs.patched && Suits(s.spec, next) && next.memory == EvaluationOf(s.spec, inputs).memory
    ensures Reconciled(s, inputs).spec == s.spec
    ensures f < |s.spec.triggers| && s.spec.triggers[f].name == DecisionOf(s.spec, inputs).triggerName
    ensures var d, again := DecisionOf(s.spec, inputs), DecisionOf(s.spec, next);
            again.shouldSwitch && again.triggerName == d.triggerName <==> Retried(s.spec, inputs, next, f)
  {
    var ts := s.spec.triggers;
    var call, later := CallOf(s.spec, inputs), CallOf(s.spec, next);
    EvaluatedRefines(ts, call, inputs.memory);
    EvaluatedRefines(ts, later, next.memory);
    var seen := SeenIn(ts, inputs.memory);
    var afterwards := After(ts, call, seen);
    EvaluatorHistory.ClosestIsNoSwitch(ts, call, seen, |ts|);
    EvaluatorHistory.ClosestIsNoSwitch(ts, later, afterwards, |ts|);
    f := FirstDue(ts, call, seen, 0);
    FiredRestarts(ts, call, seen);
    DueAgainIff(ts, call, later, seen, f);
    hide Evaluated, Closest, SeenIn, After, WellConfigured, Due, ConditionHolds, Cooldown, RequiredSamples;
    var g := FirstDue(ts, later, afterwards, 0);
    hide FirstDue;
    assert g < |ts| && ts[g].name == ts[f].name ==> g == f;
  }

  /** A trigger that fired is due again, in the same profile, exactly if one sample is all
      that it needs, its condition holds and its cooldown is over. */
  lemma DueAgainIff(ts: seq<Trigger>, call: Call, later: Call, seen: Seen, f: nat)
    requires Fits(ts, call, seen) && |later.clock| == 2 * |ts| && later.profile == call.profile
    requires call.signals.sampleCount != 0 && f == FirstDue(ts, call, seen, 0) < |ts|
    ensures Due(ts, later, After(ts, call, seen), f)
       <==> && RequiredSamples(ts[f].when) == 1 && ConditionHolds(ts[f].when, later.signals)
            && later.clock[2 * f] - call.clock[2 * f + 1] >= Cooldown(ts[f])
  {
    FiredRestarts(ts, call, seen);
    assert Due(ts, call, seen, f);
    hide FirstDue, After, ConditionHolds, Cooldown, RequiredSamples;
  }

  ghost function CallOf(spec: PolicySpec, inputs: Inputs): Call {
    Call(spec.activeProfile, inputs.signals, inputs.clock)
  }

  lemma FiredRestarts(ts: seq<Trigger>, call: Call, seen: Seen)
    requires Fits(ts, call, seen) && call.signals.sampleCount != 0 && FirstDue(ts, call, seen, 0) < |ts|
    ensures var f := FirstDue(ts, call, seen, 0);
            After(ts, call, seen).count[f] == 0 && After(ts, call, seen).fired[f] == Some(call.clock[2 * f + 1])
  {
    hide Due;
    var f := FirstDue(ts, call, seen, 0);
    assert OutcomeAt(ts, call, seen, f) == Fired(call.clock[2 * f + 1]);
    hide OutcomeAt, FirstDue;
  }
}
