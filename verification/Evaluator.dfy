/** Trigger evaluation (internal/trigger/evaluator.go). Times are integers of
    nanoseconds and every clock reading is an input, so a call may observe the
    clock advancing while it runs. */
module Evaluator {
  import opened Options
  import opened Api

  const MAX_INT32: int32 := 0x7FFF_FFFF

  /** What one evaluation decided. The reason text is not modelled. */
  datatype Decision = Decision(
    shouldSwitch: bool, targetProfile: string, triggerName: string, consecutiveBadSamples: int)

  const NO_DECISION := Decision(false, "", "", 0)

  /** The inputs of one evaluation. `clock[2 * i]` is the reading that the
      cooldown test of trigger `i` makes, `clock[2 * i + 1]` the one it stores if
      it fires. */
  datatype Call = Call(profile: string, signals: Signals, clock: seq<int>)

  /** What one evaluation did with one trigger. */
  datatype Outcome = NotReached | Skipped | Unmet | Met | Fired(at: int)

  /** The per-trigger state as the evaluator sees it, indexed like the triggers. */
  datatype Seen = Seen(count: seq<int>, fired: seq<Option<int>>)

  ghost predicate Fits(ts: seq<Trigger>, call: Call, seen: Seen) {
    |call.clock| == 2 * |ts| && |seen.count| == |ts| && |seen.fired| == |ts|
  }

  // ---------------------------------------------------------------- conditions

  predicate InBounds(x: real, below: Option<real>, above: Option<real>) {
    (below.Some? ==> x < below.value) && (above.Some? ==> x > above.value)
  }

  /** A condition holds if it has at least one bound and meets all of them. */
  predicate ConditionHolds(c: Condition, s: Signals) {
    && (|| (c.successRate.Some? && (c.successRate.value.below.Some? || c.successRate.value.above.Some?))
        || (c.serviceLatencyMs.Some? && (c.serviceLatencyMs.value.above.Some? || c.serviceLatencyMs.value.below.Some?))
        || c.rpsAbove.Some?)
    && (c.successRate.Some? ==> InBounds(s.successRate, c.successRate.value.below, c.successRate.value.above))
    && (c.serviceLatencyMs.Some? ==>
          InBounds(s.serviceLatencyMs, c.serviceLatencyMs.value.below, c.serviceLatencyMs.value.above))
    && (c.rpsAbove.Some? ==> s.rps > c.rpsAbove.value as real)
  }

  /** One result per bound that is set. */
  function BoundResults(x: real, below: Option<real>, above: Option<real>): (rs: seq<bool>)
    ensures false !in rs <==> InBounds(x, below, above)
    ensures rs == [] <==> below.None? && above.None?
  {
    match (below, above)
    case (None, None) => []
    case (Some(b), None) => [x < b]
    case (None, Some(a)) => [x > a]
    case (Some(b), Some(a)) => [x < b, x > a]
  }

  /** ANDs the collected results, stopping at the first one that fails. */
  method AllMet(results: seq<bool>) returns (allMet: bool)
    ensures allMet == (false !in results)
  {
    allMet := true;
    for i := 0 to |results|
      invariant allMet && false !in results[..i]
    {
      if !results[i] {
        allMet := false;
        break;
      }
    }
  }

  /** Collects one result per bound and then ANDs them, as the source does. */
  method ConditionMet(c: Condition, s: Signals) returns (met: bool)
    ensures met == ConditionHolds(c, s)
  {
    var rate: seq<bool>, latency: seq<bool>, rps: seq<bool> := [], [], [];
    if c.successRate.Some? {
      rate := BoundResults(s.successRate, c.successRate.value.below, c.successRate.value.above);
    }
    if c.serviceLatencyMs.Some? {
      latency := BoundResults(s.serviceLatencyMs, c.serviceLatencyMs.value.below, c.serviceLatencyMs.value.above);
    }
    if c.rpsAbove.Some? {
      rps := [s.rps > c.rpsAbove.value as real];
    }
    var results := rate + latency + rps;
    assert false !in results <==> false !in rate && false !in latency && false !in rps;
    var allMet := AllMet(results);
    met := |results| > 0 && allMet;
    assert |results| == |rate| + |latency| + |rps|;
  }

  function RequiredSamples(c: Condition): (n: int32)
    ensures 1 <= n
  {
    if c.successRate.Some? && c.successRate.value.consecutiveSamples > 0 then
      c.successRate.value.consecutiveSamples
    else if c.serviceLatencyMs.Some? && c.serviceLatencyMs.value.consecutiveSamples > 0 then
      c.serviceLatencyMs.value.consecutiveSamples
    else
      1
  }

  /** The cooldown in nanoseconds. */
  function Cooldown(t: Trigger): (c: int)
    ensures c > 0 <==> t.cooldownSeconds > 0
  {
    t.cooldownSeconds * 1_000_000_000
  }

  // ---------------------------------------------------------------- specification

  /** The trigger may be evaluated: source profile, target profile and cooldown allow it. */
  predicate Eligible(ts: seq<Trigger>, call: Call, seen: Seen, i: nat)
    requires Fits(ts, call, seen) && i < |ts|
  {
    && (ts[i].fromProfiles == [] || call.profile in ts[i].fromProfiles)
    && call.profile != ts[i].switchTo
    && (seen.fired[i].Some? ==> call.clock[2 * i] - seen.fired[i].value >= Cooldown(ts[i]))
  }

  /** The trigger would fire in this call, were no earlier trigger to fire first. */
  predicate Due(ts: seq<Trigger>, call: Call, seen: Seen, i: nat)
    requires Fits(ts, call, seen) && i < |ts|
  {
    && Eligible(ts, call, seen, i)
    && ConditionHolds(ts[i].when, call.signals)
    && seen.count[i] + 1 >= RequiredSamples(ts[i].when)
  }

  /** The least due trigger at or after `i`, or `|ts|`. */
  function FirstDue(ts: seq<Trigger>, call: Call, seen: Seen, i: nat): (f: nat)
    requires Fits(ts, call, seen) && i <= |ts|
    ensures i <= f <= |ts|
    ensures forall j | i <= j < f :: !Due(ts, call, seen, j)
    ensures f < |ts| ==> Due(ts, call, seen, f)
    decreases |ts| - i
  {
    if i == |ts| || Due(ts, call, seen, i) then i else FirstDue(ts, call, seen, i + 1)
  }

  /** What the call does with trigger `i`. It depends only on the state before the call. */
  function OutcomeAt(ts: seq<Trigger>, call: Call, seen: Seen, i: nat): Outcome
    requires Fits(ts, call, seen) && i < |ts|
  {
    var f := FirstDue(ts, call, seen, 0);
    if call.signals.sampleCount == 0 || f < i then NotReached
    else if i == f then Fired(call.clock[2 * i + 1])
    else if !Eligible(ts, call, seen, i) then Skipped
    else if ConditionHolds(ts[i].when, call.signals) then Met
    else Unmet
  }

  function CountAfter(n: int, o: Outcome): int {
    match o
    case NotReached => n
    case Skipped => n
    case Unmet => 0
    case Met => n + 1
    case Fired(_) => 0
  }

  function FiredAfter(last: Option<int>, o: Outcome): Option<int> {
    if o.Fired? then Some(o.at) else last
  }

  /** The state after a call. */
  function After(ts: seq<Trigger>, call: Call, seen: Seen): (r: Seen)
    requires Fits(ts, call, seen)
    ensures Fits(ts, call, r)
  {
    Seen(seq(|ts|, i requires 0 <= i < |ts| => CountAfter(seen.count[i], OutcomeAt(ts, call, seen, i))),
         seq(|ts|, i requires 0 <= i < |ts| => FiredAfter(seen.fired[i], OutcomeAt(ts, call, seen, i))))
  }

  /** The report on the first of the first `n` triggers that made partial progress. */
  function Closest(ts: seq<Trigger>, call: Call, seen: Seen, n: nat): Option<Decision>
    requires Fits(ts, call, seen) && n <= |ts|
  {
    if n == 0 then None
    else if Closest(ts, call, seen, n - 1).Some? then Closest(ts, call, seen, n - 1)
    else if OutcomeAt(ts, call, seen, n - 1) == Met then
      Some(Decision(false, "", ts[n - 1].name, seen.count[n - 1] + 1))
    else None
  }

  /** What the evaluation loop keeps as the closest trigger after looking at one more. */
  function Closer(closest: Option<Decision>, name: string, consecutive: int): Option<Decision> {
    if consecutive > 0 && closest.None? then Some(Decision(false, "", name, consecutive)) else closest
  }

  lemma ClosestStep(ts: seq<Trigger>, call: Call, seen: Seen, i: nat)
    requires Fits(ts, call, seen) && i < |ts| && seen.count[i] >= 0
    ensures Closest(ts, call, seen, i + 1)
            == Closer(Closest(ts, call, seen, i), ts[i].name,
                      if OutcomeAt(ts, call, seen, i) == Met then seen.count[i] + 1 else 0)
  {
  }

  /** The decision: the least due trigger fires; if there is none, the first one
      that made progress is reported. */
  function Decide(ts: seq<Trigger>, call: Call, seen: Seen): Decision
    requires Fits(ts, call, seen)
  {
    var f := FirstDue(ts, call, seen, 0);
    if call.signals.sampleCount == 0 then NO_DECISION
    else if f < |ts| then Decision(true, ts[f].switchTo, ts[f].name, seen.count[f] + 1)
    else
      match Closest(ts, call, seen, |ts|)
      case Some(d) => d
      case None => NO_DECISION
  }

  // ---------------------------------------------------------------- one scan of the triggers

  /** What is kept between calls, by trigger name. */
  datatype Memory = Memory(bad: map<string, int32>, fired: map<string, int>)

  /** Every stored count leaves room for one more, so the 32-bit increment never wraps. */
  ghost predicate Bounded(m: Memory) {
    forall n | n in m.bad :: 0 <= m.bad[n] < MAX_INT32
  }

  function CountIn(bad: map<string, int32>, name: string): int {
    if name in bad then bad[name] else 0
  }

  predicate Skips(ts: seq<Trigger>, call: Call, i: nat, m: Memory)
    requires i < |ts| && |call.clock| == 2 * |ts|
  {
    || (ts[i].fromProfiles != [] && call.profile !in ts[i].fromProfiles)
    || call.profile == ts[i].switchTo
    || (ts[i].name in m.fired && call.clock[2 * i] - m.fired[ts[i].name] < Cooldown(ts[i]))
  }

  /** The trigger's count after this sample. */
  function Advanced(t: Trigger, call: Call, m: Memory): int {
    if ConditionHolds(t.when, call.signals) then CountIn(m.bad, t.name) + 1 else 0
  }

  /** The trigger is reached, not skipped, and completes its samples. */
  predicate Fires(ts: seq<Trigger>, call: Call, i: nat, m: Memory)
    requires i < |ts| && |call.clock| == 2 * |ts|
  {
    && !Skips(ts, call, i, m) && ConditionHolds(ts[i].when, call.signals)
    && Advanced(ts[i], call, m) >= RequiredSamples(ts[i].when)
  }

  /** The memory after trigger `i` has been looked at. */
  ghost function Remembered(ts: seq<Trigger>, call: Call, i: nat, m: Memory): (r: Memory)
    requires i < |ts| && |call.clock| == 2 * |ts| && Bounded(m)
    ensures Bounded(r)
  {
    var t := ts[i];
    if Skips(ts, call, i, m) then m
    else if Fires(ts, call, i, m) then Memory(m.bad[t.name := 0], m.fired[t.name := call.clock[2 * i + 1]])
    else m.(bad := m.bad[t.name := Advanced(t, call, m)])
  }

  /** The result of a call: the new memory, the decision, and the index of the trigger that fired. */
  datatype Scanned = Scanned(memory: Memory, decision: Decision, fired: Option<nat>)

  /** The rest of a call that has reached trigger `i`. Names may be repeated. */
  ghost function Scan(ts: seq<Trigger>, call: Call, i: nat, m: Memory, closest: Option<Decision>): (r: Scanned)
    requires i <= |ts| && |call.clock| == 2 * |ts| && Bounded(m)
    requires closest.Some? ==> !closest.value.shouldSwitch
    ensures Bounded(r.memory)
    ensures r.decision.shouldSwitch <==> r.fired.Some?
    ensures r.fired.Some? ==> r.fired.value < |ts|
    decreases |ts| - i
  {
    if i == |ts| then Scanned(m, if closest.Some? then closest.value else NO_DECISION, None)
    else
      var t, consecutive := ts[i], Advanced(ts[i], call, m);
      var next := Remembered(ts, call, i, m);
      if Skips(ts, call, i, m) then Scan(ts, call, i + 1, next, closest)
      else if Fires(ts, call, i, m) then Scanned(next, Decision(true, t.switchTo, t.name, consecutive), Some(i))
      else Scan(ts, call, i + 1, next, Closer(closest, t.name, consecutive))
  }

  /** A whole call. Without samples it does nothing. */
  ghost function Evaluated(ts: seq<Trigger>, call: Call, m: Memory): (r: Scanned)
    requires |call.clock| == 2 * |ts| && Bounded(m)
    ensures Bounded(r.memory)
    ensures r.decision.shouldSwitch <==> r.fired.Some?
    ensures r.fired.Some? ==> r.fired.value < |ts|
  {
    if call.signals.sampleCount == 0 then Scanned(m, NO_DECISION, None) else Scan(ts, call, 0, m, None)
  }

  /** Per-trigger state that persists across reconciles. */
  class State {
    var consecutiveBadSamples: map<string, int32>
    var lastTriggerFireTime: map<string, int>

    constructor ()
      ensures View() == Memory(map[], map[]) && Valid()
    {
      consecutiveBadSamples := map[];
      lastTriggerFireTime := map[];
    }

    ghost predicate Valid()
      reads this
    {
      Bounded(View())
    }

    ghost function View(): Memory
      reads this
    {
      Memory(consecutiveBadSamples, lastTriggerFireTime)
    }
  }

  /** One iteration of the evaluation loop. `consecutive` is the trigger's count after
      the sample, or 0 if the trigger was skipped. */
  method EvaluateOne(ts: seq<Trigger>, call: Call, i: nat, state: State) returns (fires: bool, consecutive: int)
    requires i < |ts| && |call.clock| == 2 * |ts| && state.Valid()
    modifies state
    ensures state.Valid() && state.View() == Remembered(ts, call, i, old(state.View()))
    ensures fires == Fires(ts, call, i, old(state.View()))
    ensures consecutive == if Skips(ts, call, i, old(state.View())) then 0 else Advanced(ts[i], call, old(state.View()))
  {
    var t := ts[i];
    if |t.fromProfiles| > 0 && call.profile !in t.fromProfiles {
      return false, 0;
    }
    if call.profile == t.switchTo {
      return false, 0;
    }
    if t.name in state.lastTriggerFireTime {
      if call.clock[2 * i] - state.lastTriggerFireTime[t.name] < Cooldown(t) {
        return false, 0;
      }
    }
    var met := ConditionMet(t.when, call.signals);
    consecutive := 0;
    if met {
      consecutive := CountIn(state.consecutiveBadSamples, t.name) + 1;
    }
    state.consecutiveBadSamples := state.consecutiveBadSamples[t.name := consecutive];
    fires := met && consecutive >= RequiredSamples(t.when);
    if fires {
      state.lastTriggerFireTime := state.lastTriggerFireTime[t.name := call.clock[2 * i + 1]];
      state.consecutiveBadSamples := state.consecutiveBadSamples[t.name := 0];
    }
  }

  method Evaluate(ts: seq<Trigger>, call: Call, state: State) returns (d: Decision)
    requires |call.clock| == 2 * |ts| && state.Valid()
    modifies state
    ensures state.Valid()
    ensures var r := Evaluated(ts, call, old(state.View()));
            d == r.decision && state.View() == r.memory
  {
    if call.signals.sampleCount == 0 {
      return NO_DECISION;
    }
    hide Remembered, Skips, Fires, Advanced, Bounded;
    ghost var r := Scan(ts, call, 0, state.View(), None);
    var closest: Option<Decision> := None;
    for i := 0 to |ts|
      invariant state.Valid() && (closest.Some? ==> !closest.value.shouldSwitch)
      invariant Scan(ts, call, i, state.View(), closest) == r
    {
      var fires, consecutive := EvaluateOne(ts, call, i, state);
      if fires {
        return Decision(true, ts[i].switchTo, ts[i].name, consecutive);
      }
      closest := Closer(closest, ts[i].name, consecutive);
    }
    return if closest.Some? then closest.value else NO_DECISION;
  }

  /** A scan leaves the entries of all other names alone. */
  lemma {:induction false} ScanKeepsOthers(
    ts: seq<Trigger>, call: Call, i: nat, m: Memory, closest: Option<Decision>, name: string)
    requires i <= |ts| && |call.clock| == 2 * |ts| && Bounded(m)
    requires closest.Some? ==> !closest.value.shouldSwitch
    requires forall t | t in ts :: t.name != name
    ensures var r := Scan(ts, call, i, m, closest).memory;
            Lookup(r.bad, name) == Lookup(m.bad, name) && Lookup(r.fired, name) == Lookup(m.fired, name)
    decreases |ts| - i
  {
    if i < |ts| {
      assert ts[i] in ts;
      var next := Remembered(ts, call, i, m);
      hide Fires, Advanced, Skips;
      if Skips(ts, call, i, m) {
        ScanKeepsOthers(ts, call, i + 1, next, closest, name);
      } else if !Fires(ts, call, i, m) {
        ScanKeepsOthers(ts, call, i + 1, next, Closer(closest, ts[i].name, Advanced(ts[i], call, m)), name);
      }
    }
  }

  /** A switch is to the target of a trigger that fires from this profile, never to the
      active one. */
  lemma {:induction false} ScanSwitches(ts: seq<Trigger>, call: Call, i: nat, m: Memory, closest: Option<Decision>)
    requires i <= |ts| && |call.clock| == 2 * |ts| && Bounded(m)
    requires closest.Some? ==> !closest.value.shouldSwitch
    ensures var r := Scan(ts, call, i, m, closest);
            r.fired.Some? ==>
              var t := ts[r.fired.value];
              && r.decision.triggerName == t.name && r.decision.targetProfile == t.switchTo != call.profile
              && r.memory.fired == r.memory.fired[t.name := call.clock[2 * r.fired.value + 1]]
              && r.memory.bad == r.memory.bad[t.name := 0]
              && ConditionHolds(t.when, call.signals)
              && (t.fromProfiles == [] || call.profile in t.fromProfiles)
    decreases |ts| - i
  {
    if i < |ts| {
      var next := Remembered(ts, call, i, m);
      hide Advanced, ConditionHolds;
      if Skips(ts, call, i, m) {
        ScanSwitches(ts, call, i + 1, next, closest);
      } else if !Fires(ts, call, i, m) {
        ScanSwitches(ts, call, i + 1, next, Closer(closest, ts[i].name, Advanced(ts[i], call, m)));
      }
    }
  }

  // ---------------------------------------------------------------- refinement for distinct names

  /** The memory as the specification sees it, indexed like the triggers. */
  ghost function SeenIn(ts: seq<Trigger>, m: Memory): Seen {
    Seen(seq(|ts|, i requires 0 <= i < |ts| => CountIn(m.bad, ts[i].name)),
         seq(|ts|, i requires 0 <= i < |ts| => Lookup(m.fired, ts[i].name)))
  }

  /** Looking at a trigger changes the view of that one trigger. */
  lemma RememberedSeen(ts: seq<Trigger>, call: Call, i: nat, m: Memory)
    requires UniqueNames(ts) && i < |ts| && |call.clock| == 2 * |ts| && Bounded(m)
    ensures var seen, next := SeenIn(ts, m), SeenIn(ts, Remembered(ts, call, i, m));
            if Skips(ts, call, i, m) then next == seen
            else if Fires(ts, call, i, m)
            then next == Seen(seen.count[i := 0], seen.fired[i := Some(call.clock[2 * i + 1])])
            else next == seen.(count := seen.count[i := Advanced(ts[i], call, m)])
  {
    hide Skips, Fires, Advanced;
    assert forall j | 0 <= j < |ts| && j != i :: ts[j].name != ts[i].name;
  }

  /** The state when the scan reaches trigger `i` and nothing has fired. */
  ghost function Partway(ts: seq<Trigger>, call: Call, seen: Seen, i: nat): Seen
    requires Fits(ts, call, seen) && i <= |ts|
  {
    seen.(count := After(ts, call, seen).count[..i] + seen.count[i..])
  }

  /** One step that does not fire. */
  lemma PartwayStep(ts: seq<Trigger>, call: Call, seen: Seen, i: nat)
    requires Fits(ts, call, seen) && i < |ts|
    ensures var p := Partway(ts, call, seen, i);
            Partway(ts, call, seen, i + 1)
            == p.(count := p.count[i := CountAfter(seen.count[i], OutcomeAt(ts, call, seen, i))])
  {
  }

  /** A call in which nothing fires leaves the fully advanced state. */
  lemma PartwayEnd(ts: seq<Trigger>, call: Call, seen: Seen)
    requires Fits(ts, call, seen) && FirstDue(ts, call, seen, 0) == |ts|
    ensures Partway(ts, call, seen, |ts|) == After(ts, call, seen)
  {
    assert After(ts, call, seen).fired == seen.fired;
  }

  /** A firing resets the trigger, stamps it and leaves the later ones alone. */
  lemma PartwayFire(ts: seq<Trigger>, call: Call, seen: Seen, i: nat)
    requires Fits(ts, call, seen) && FirstDue(ts, call, seen, 0) == i < |ts| && call.signals.sampleCount != 0
    ensures var p := Partway(ts, call, seen, i);
            After(ts, call, seen)
            == Seen(p.count[i := 0], p.fired[i := Some(call.clock[2 * i + 1])])
  {
    var p, a := Partway(ts, call, seen, i), After(ts, call, seen);
    forall j | 0 <= j < |ts|
      ensures a.count[j] == p.count[i := 0][j]
      ensures a.fired[j] == p.fired[i := Some(call.clock[2 * i + 1])][j]
    {
      var o := OutcomeAt(ts, call, seen, j);
      assert a.count[j] == CountAfter(seen.count[j], o) && a.fired[j] == FiredAfter(seen.fired[j], o);
      assert j > i ==> o == NotReached;
      assert j < i ==> !o.Fired? && p.count[j] == a.count[j];
    }
  }

  /** The scan's tests on trigger `i` are those of the specification. */
  lemma TestsAgree(ts: seq<Trigger>, call: Call, seen: Seen, i: nat, m: Memory)
    requires Fits(ts, call, seen) && i < |ts| && Bounded(m)
    requires CountIn(m.bad, ts[i].name) == seen.count[i] && Lookup(m.fired, ts[i].name) == seen.fired[i]
    ensures Skips(ts, call, i, m) <==> !Eligible(ts, call, seen, i)
    ensures Fires(ts, call, i, m) <==> Due(ts, call, seen, i)
    ensures Advanced(ts[i], call, m) == if ConditionHolds(ts[i].when, call.signals) then seen.count[i] + 1 else 0
    ensures seen.count[i] >= 0
  {
    hide ConditionHolds, RequiredSamples, Cooldown;
  }

  /** One step of the scan is one step of the specification. */
  lemma StepRefines(ts: seq<Trigger>, call: Call, seen: Seen, i: nat, m: Memory)
    requires UniqueNames(ts) && Fits(ts, call, seen) && i < |ts| && Bounded(m)
    requires call.signals.sampleCount != 0 && i <= FirstDue(ts, call, seen, 0)
    requires SeenIn(ts, m) == Partway(ts, call, seen, i)
    ensures var next := SeenIn(ts, Remembered(ts, call, i, m));
            && (Fires(ts, call, i, m) <==> FirstDue(ts, call, seen, 0) == i)
            && next == if Fires(ts, call, i, m) then After(ts, call, seen) else Partway(ts, call, seen, i + 1)
  {
    assert CountIn(m.bad, ts[i].name) == SeenIn(ts, m).count[i] == seen.count[i];
    assert Lookup(m.fired, ts[i].name) == SeenIn(ts, m).fired[i] == seen.fired[i];
    TestsAgree(ts, call, seen, i, m);
    RememberedSeen(ts, call, i, m);
    assert Fires(ts, call, i, m) ==> !Skips(ts, call, i, m);
    hide Skips, Fires, Advanced, Remembered, SeenIn, Eligible, ConditionHolds, UniqueNames, After;
    if Fires(ts, call, i, m) {
      PartwayFire(ts, call, seen, i);
    } else {
      PartwayStep(ts, call, seen, i);
    }
  }

  lemma ClosestRefines(ts: seq<Trigger>, call: Call, seen: Seen, i: nat, m: Memory)
    requires UniqueNames(ts) && Fits(ts, call, seen) && i < |ts| && Bounded(m)
    requires call.signals.sampleCount != 0 && i <= FirstDue(ts, call, seen, 0) && !Fires(ts, call, i, m)
    requires SeenIn(ts, m) == Partway(ts, call, seen, i)
    ensures Closest(ts, call, seen, i + 1)
         == if Skips(ts, call, i, m) then Closest(ts, call, seen, i)
            else Closer(Closest(ts, call, seen, i), ts[i].name, Advanced(ts[i], call, m))
  {
    assert CountIn(m.bad, ts[i].name) == SeenIn(ts, m).count[i] == seen.count[i];
    assert Lookup(m.fired, ts[i].name) == SeenIn(ts, m).fired[i] == seen.fired[i];
    TestsAgree(ts, call, seen, i, m);
    ClosestStep(ts, call, seen, i);
    hide Skips, Fires, Advanced, SeenIn, Eligible, ConditionHolds, UniqueNames, After, Closest, Partway;
  }

  /** The rest of a scan that has fired nothing yet does what the specification says. */
  lemma {:induction false} ScanRefines(
    ts: seq<Trigger>, call: Call, seen: Seen, i: nat, m: Memory, closest: Option<Decision>)
    requires UniqueNames(ts) && Fits(ts, call, seen) && i <= |ts| && Bounded(m)
    requires call.signals.sampleCount != 0 && i <= FirstDue(ts, call, seen, 0)
    requires SeenIn(ts, m) == Partway(ts, call, seen, i)
    requires closest == Closest(ts, call, seen, i) && (closest.Some? ==> !closest.value.shouldSwitch)
    ensures var r := Scan(ts, call, i, m, closest);
            r.decision == Decide(ts, call, seen) && SeenIn(ts, r.memory) == After(ts, call, seen)
    decreases |ts| - i
  {
    if i == |ts| {
      PartwayEnd(ts, call, seen);
    } else {
      var next := Remembered(ts, call, i, m);
      StepRefines(ts, call, seen, i, m);
      assert Fires(ts, call, i, m) ==> !Skips(ts, call, i, m);
      if Fires(ts, call, i, m) {
        FiredCount(ts, call, seen, i, m);
      } else {
        ClosestRefines(ts, call, seen, i, m);
      }
      hide Skips, Fires, Advanced, Remembered, SeenIn, Due, Partway, Closest, UniqueNames, After, Bounded, FirstDue;
      if Skips(ts, call, i, m) {
        ScanRefines(ts, call, seen, i + 1, next, closest);
      } else if !Fires(ts, call, i, m) {
        ScanRefines(ts, call, seen, i + 1, next, Closer(closest, ts[i].name, Advanced(ts[i], call, m)));
      }
    }
  }

  lemma FiredCount(ts: seq<Trigger>, call: Call, seen: Seen, i: nat, m: Memory)
    requires Fits(ts, call, seen) && i < |ts| && Bounded(m) && Fires(ts, call, i, m)
    requires SeenIn(ts, m) == Partway(ts, call, seen, i)
    ensures Advanced(ts[i], call, m) == seen.count[i] + 1
  {
    assert CountIn(m.bad, ts[i].name) == SeenIn(ts, m).count[i] == seen.count[i];
    hide ConditionHolds;
  }

  /** When trigger names are distinct, a call decides and remembers what the specification says. */
  lemma EvaluatedRefines(ts: seq<Trigger>, call: Call, m: Memory)
    requires UniqueNames(ts) && |call.clock| == 2 * |ts| && Bounded(m)
    ensures var r, seen := Evaluated(ts, call, m), SeenIn(ts, m);
            r.decision == Decide(ts, call, seen) && SeenIn(ts, r.memory) == After(ts, call, seen)
  {
    var seen := SeenIn(ts, m);
    if call.signals.sampleCount == 0 {
      assert After(ts, call, seen) == seen;
    } else {
      assert Partway(ts, call, seen, 0) == seen;
      ScanRefines(ts, call, seen, 0, m, None);
    }
  }
}
