/** The decision history over runs of reconciles and manual edits. */
module AutoSwitchRuns {
  import opened Api
  import opened Options
  import opened AutoSwitch

  datatype Event = Edit(spec: PolicySpec) | Reconcile(inputs: Inputs)

  /** A policy with, as bookkeeping, all decisions ever recorded. */
  datatype World = World(stored: Stored, recorded: seq<Record>)

  ghost predicate Possible(w: World, e: Event) {
    e.Reconcile? ==> Suits(w.stored.spec, e.inputs)
  }

  /** The reconcile decides to switch. */
  ghost predicate Decides(w: World, e: Event) {
    e.Reconcile? && Suits(w.stored.spec, e.inputs) && DecisionOf(w.stored.spec, e.inputs).shouldSwitch
  }

  ghost function After(w: World, e: Event): World {
    if !Possible(w, e) then w
    else
      match e
      case Edit(spec) => w.(stored := w.stored.(spec := spec))
      case Reconcile(inputs) =>
        World(Reconciled(w.stored, inputs),
              if Decides(w, e) && inputs.saved then w.recorded + [RecordOf(w.stored.spec, inputs)] else w.recorded)
  }

  ghost function Exec(spec: PolicySpec, events: seq<Event>): World {
    if events == [] then World(Stored(spec, None, []), [])
    else After(Exec(spec, events[..|events| - 1]), events[|events| - 1])
  }

  lemma ExecOne(spec: PolicySpec, events: seq<Event>, k: nat)
    requires k < |events|
    ensures Exec(spec, events[..k + 1]) == After(Exec(spec, events[..k]), events[k])
  {
    assert events[..k + 1][..k] == events[..k];
  }

  // ---------------------------------------------------------------- history

  /** The history holds the newest recorded decisions, at most ten, newest first, and
      lastDecision is the newest one. */
  ghost predicate HoldsNewest(s: Stored, recorded: seq<Record>) {
    var n := |recorded|;
    && |s.history| == (if n < 10 then n else 10)
    && (forall i | 0 <= i < |s.history| :: s.history[i] == recorded[n - 1 - i])
    && s.lastDecision == if n == 0 then None else Some(recorded[n - 1])
  }

  lemma RecordedOneMore(s: Stored, recorded: seq<Record>, r: Record, t: Stored)
    requires HoldsNewest(s, recorded)
    requires t.history == Newest(r, s.history) && t.lastDecision == Some(r)
    ensures HoldsNewest(t, recorded + [r])
  {
    var all := recorded + [r];
    forall i | 0 <= i < |t.history|
      ensures t.history[i] == all[|all| - 1 - i]
    {
      if i > 0 {
        assert t.history[i] == s.history[i - 1] == recorded[|recorded| - 1 - (i - 1)];
      }
    }
  }

  lemma {:induction false} HistoryIsNewestTen(spec: PolicySpec, events: seq<Event>)
    ensures HoldsNewest(Exec(spec, events).stored, Exec(spec, events).recorded)
  {
    if events == [] {
    } else {
      var before, e := events[..|events| - 1], events[|events| - 1];
      HistoryIsNewestTen(spec, before);
      var w := Exec(spec, before);
      hide Exec, DecisionOf, Newest;
      if Decides(w, e) && e.inputs.saved {
        RecordedOneMore(w.stored, w.recorded, RecordOf(w.stored.spec, e.inputs), After(w, e).stored);
      }
    }
  }

  // ---------------------------------------------------------------- frozen policies

  /** No switch is considered: a person has taken over, there are no triggers, no filter is
      enabled, or a profile is named that is not defined. */
  ghost predicate Frozen(spec: PolicySpec) {
    || spec.humanOverride || spec.triggers == []
    || (&& (spec.admissionControl.None? || !spec.admissionControl.value.enabled)
        && (spec.adaptiveConcurrency.None? || !spec.adaptiveConcurrency.value.enabled)
        && (spec.streamingProtection.None? || !spec.streamingProtection.value.enabled))
    || (spec.activeProfile != "" && spec.activeProfile !in spec.profiles)
    || (exists t | t in spec.triggers :: t.switchTo !in spec.profiles)
    || (exists s | s in spec.schedules :: s !in spec.profiles)
  }

  /** A frozen policy is not evaluated, and any other one is. */
  lemma EvaluatedUnlessFrozen(spec: PolicySpec, inputs: Inputs)
    requires Suits(spec, inputs)
    ensures EvaluationOf(spec, inputs)
         == if Frozen(spec) then Evaluator.Scanned(inputs.memory, Evaluator.Decision(false, "", "", 0), None)
            else Evaluator.Evaluated(
              spec.triggers, Evaluator.Call(spec.activeProfile, inputs.signals, inputs.clock), inputs.memory)
  {
    hide Evaluator.Evaluated;
  }

  /** The spec as its authors left it. */
  ghost function LastEdit(spec: PolicySpec, events: seq<Event>): PolicySpec {
    if events == [] then spec
    else if events[|events| - 1].Edit? then events[|events| - 1].spec
    else LastEdit(spec, events[..|events| - 1])
  }

  /** While a policy is frozen, through any edits and reconciles, its spec is what its authors
      last wrote, and nothing is recorded. */
  lemma {:induction false} FrozenStaysAsWritten(spec: PolicySpec, events: seq<Event>)
    requires Frozen(spec) && forall k | 0 <= k < |events| && events[k].Edit? :: Frozen(events[k].spec)
    ensures Exec(spec, events).stored == Stored(LastEdit(spec, events), None, []) && Frozen(LastEdit(spec, events))
  {
    if events == [] {
    } else {
      var before, e := events[..|events| - 1], events[|events| - 1];
      FrozenStaysAsWritten(spec, before);
      var w := Exec(spec, before);
      hide Frozen, Exec;
      if e.Reconcile? && Possible(w, e) {
        EvaluatedUnlessFrozen(w.stored.spec, e.inputs);
      }
    }
  }

  /** In a run whose edits are all well configured, the policy always is. */
  lemma {:induction false} RunsStayWellConfigured(spec: PolicySpec, events: seq<Event>)
    requires WellConfigured(spec) && forall k | 0 <= k < |events| && events[k].Edit? :: WellConfigured(events[k].spec)
    ensures WellConfigured(Exec(spec, events).stored.spec)
  {
    if events == [] {
    } else {
      var before, e := events[..|events| - 1], events[|events| - 1];
      RunsStayWellConfigured(spec, before);
      var w := Exec(spec, before);
      hide WellConfigured, Exec, Reconciled;
      if e.Reconcile? && Possible(w, e) {
        ReconcileKeepsWellConfigured(w.stored, e.inputs);
      }
    }
  }

  // ---------------------------------------------------------------- faithful records

  /** A switch as an onlooker sees it: a reconcile after which another profile is active. */
  datatype Switch = Switch(at: int, before: string, after: string)

  /** The switches of a run, read off the stored profiles alone. */
  ghost function Made(spec: PolicySpec, events: seq<Event>): seq<Switch> {
    if events == [] then []
    else
      var before, e := events[..|events| - 1], events[|events| - 1];
      Made(spec, before) + Seen(Exec(spec, before).stored, e, Exec(spec, events).stored)
  }

  ghost function Seen(s: Stored, e: Event, t: Stored): seq<Switch> {
    if e.Reconcile? && s.spec.activeProfile != t.spec.activeProfile
    then [Switch(e.inputs.now, s.spec.activeProfile, t.spec.activeProfile)]
    else []
  }

  ghost predicate Tells(r: Record, s: Switch) {
    r.timestamp == s.at && r.profileBefore == s.before && r.profileAfter == s.after
  }

  /** The status shows exactly the newest switches, at most ten, newest first, and
      lastDecision is the newest one. */
  ghost predicate StatusTells(s: Stored, made: seq<Switch>) {
    var n := |made|;
    && |s.history| == (if n < 10 then n else 10)
    && (forall i | 0 <= i < |s.history| :: Tells(s.history[i], made[n - 1 - i]))
    && if n == 0 then s.lastDecision.None? else s.lastDecision.Some? && Tells(s.lastDecision.value, made[n - 1])
  }

  ghost predicate AlwaysTells(spec: PolicySpec, events: seq<Event>) {
    forall k | 0 <= k <= |events| :: StatusTells(Exec(spec, events[..k]).stored, Made(spec, events[..k]))
  }

  /** Both writes of a deciding reconcile had the same fate. */
  ghost predicate BothOrNeither(w: World, e: Event) {
    Decides(w, e) ==> (e.inputs.patched <==> e.inputs.saved)
  }

  ghost predicate AllBothOrNeither(spec: PolicySpec, events: seq<Event>) {
    forall k | 0 <= k < |events| :: BothOrNeither(Exec(spec, events[..k]), events[k])
  }

  /** Later reconciles stamp their records with later times. */
  ghost predicate ClockMovesOn(events: seq<Event>) {
    forall i, j | 0 <= i < j < |events| && events[i].Reconcile? && events[j].Reconcile? ::
      events[i].inputs.now < events[j].inputs.now
  }

  lemma MadeOne(spec: PolicySpec, events: seq<Event>, k: nat)
    requires k < |events|
    ensures var s, t := Exec(spec, events[..k]).stored, Exec(spec, events[..k + 1]).stored;
            Made(spec, events[..k + 1]) == Made(spec, events[..k]) + Seen(s, events[k], t)
  {
    assert events[..k + 1][..k] == events[..k];
  }

  /** What an onlooker sees of one event: a switch exactly if it decided and its patch succeeded. */
  lemma SeenIffPatched(w: World, e: Event)
    ensures Seen(w.stored, e, After(w, e).stored)
         == if Decides(w, e) && e.inputs.patched
            then var r := RecordOf(w.stored.spec, e.inputs);
                 [Switch(r.timestamp, r.profileBefore, r.profileAfter)]
            else []
  {
    if Decides(w, e) {
      SwitchTargetIsDefined(w.stored.spec, e.inputs);
    }
    hide DecisionOf, WellConfigured;
  }

  lemma ToldOneMore(s: Stored, made: seq<Switch>, r: Record, t: Stored)
    requires StatusTells(s, made)
    requires t.history == Newest(r, s.history) && t.lastDecision == Some(r)
    ensures StatusTells(t, made + [Switch(r.timestamp, r.profileBefore, r.profileAfter)])
  {
    var all := made + [Switch(r.timestamp, r.profileBefore, r.profileAfter)];
    forall i | 0 <= i < |t.history|
      ensures Tells(t.history[i], all[|all| - 1 - i])
    {
      assert i > 0 ==> t.history[i] == s.history[i - 1] && Tells(s.history[i - 1], made[|made| - 1 - (i - 1)]);
    }
  }

  /** A switch that is not in the status, or a record without a switch, shows at once. */
  lemma TellsStep(w: World, e: Event, made: seq<Switch>)
    requires StatusTells(w.stored, made)
    ensures BothOrNeither(w, e) ==> StatusTells(After(w, e).stored, made + Seen(w.stored, e, After(w, e).stored))
    ensures (e.Reconcile? && made != [] ==> made[|made| - 1].at < e.inputs.now) ==>
              StatusTells(After(w, e).stored, made + Seen(w.stored, e, After(w, e).stored)) ==> BothOrNeither(w, e)
  {
    SeenIffPatched(w, e);
    var t := After(w, e).stored;
    hide DecisionOf, Newest, Seen;
    if Decides(w, e) {
      var r := RecordOf(w.stored.spec, e.inputs);
      if e.inputs.patched && e.inputs.saved {
        ToldOneMore(w.stored, made, r, t);
      }
    } else {
      assert made + [] == made && t.history == w.stored.history && t.lastDecision == w.stored.lastDecision;
    }
    assert made + [] == made;
  }

  lemma {:induction false} TellsPrefix(spec: PolicySpec, events: seq<Event>, k: nat)
    requires AllBothOrNeither(spec, events) && k <= |events|
    ensures StatusTells(Exec(spec, events[..k]).stored, Made(spec, events[..k]))
  {
    hide BothOrNeither, After, StatusTells, Seen;
    if k == 0 {
      assert StatusTells(Stored(spec, None, []), []) by {
        NothingToTell(spec);
      }
    } else {
      TellsPrefix(spec, events, k - 1);
      ExecOne(spec, events, k - 1);
      MadeOne(spec, events, k - 1);
      TellsStep(Exec(spec, events[..k - 1]), events[k - 1], Made(spec, events[..k - 1]));
    }
  }

  lemma NothingToTell(spec: PolicySpec)
    ensures StatusTells(Stored(spec, None, []), [])
  {
  }

  /** The newest switch of a prefix was made by one of its reconciles. */
  lemma {:induction false} MadeEarlier(spec: PolicySpec, events: seq<Event>, k: nat)
    requires k <= |events| && Made(spec, events[..k]) != []
    ensures exists j | 0 <= j < k :: events[j].Reconcile?
              && events[j].inputs.now == Made(spec, events[..k])[|Made(spec, events[..k])| - 1].at
  {
    if k == 0 {
    } else {
      MadeOne(spec, events, k - 1);
      var e := events[k - 1];
      hide Exec, Made;
      if Seen(Exec(spec, events[..k - 1]).stored, e, Exec(spec, events[..k]).stored) == [] {
        assert Made(spec, events[..k]) == Made(spec, events[..k - 1]);
        MadeEarlier(spec, events, k - 1);
      }
    }
  }

  /** The status always shows exactly the switches that changed the profile if, and on a
      clock that moves on only if, in every deciding reconcile the profile patch and the
      status patch both succeed or both fail. (The source records a decision even when its
      profile patch failed.) */
  lemma RecordsAreSwitchesIffWritesAgree(spec: PolicySpec, events: seq<Event>)
    ensures AllBothOrNeither(spec, events) ==> AlwaysTells(spec, events)
    ensures ClockMovesOn(events) && AlwaysTells(spec, events) ==> AllBothOrNeither(spec, events)
  {
    hide BothOrNeither, After, Exec, Made, StatusTells;
    if AllBothOrNeither(spec, events) {
      forall k | 0 <= k <= |events|
        ensures StatusTells(Exec(spec, events[..k]).stored, Made(spec, events[..k]))
      {
        TellsPrefix(spec, events, k);
      }
    }
    if ClockMovesOn(events) && AlwaysTells(spec, events) {
      forall k | 0 <= k < |events|
        ensures BothOrNeither(Exec(spec, events[..k]), events[k])
      {
        DisagreementShows(spec, events, k);
      }
    }
  }

  lemma DisagreementShows(spec: PolicySpec, events: seq<Event>, k: nat)
    requires ClockMovesOn(events) && AlwaysTells(spec, events) && k < |events|
    ensures BothOrNeither(Exec(spec, events[..k]), events[k])
  {
    ExecOne(spec, events, k);
    MadeOne(spec, events, k);
    var made := Made(spec, events[..k]);
    if made != [] && events[k].Reconcile? {
      MadeEarlier(spec, events, k);
    }
    hide BothOrNeither, After, Exec, Made, StatusTells, Seen;
    assert StatusTells(Exec(spec, events[..k]).stored, made);
    assert StatusTells(Exec(spec, events[..k + 1]).stored, Made(spec, events[..k + 1]));
    TellsStep(Exec(spec, events[..k]), events[k], made);
  }

  // ---------------------------------------------------------------- chained records

  /** The last decision in the status led to the profile that is active now. */
  ghost predicate AtLastTarget(s: Stored) {
    s.lastDecision.Some? ==> s.lastDecision.value.profileAfter == s.spec.activeProfile
  }

  /** Once the status shows a decision, the profile changes only by recorded switches. */
  ghost predicate KeepsChain(w: World, e: Event) {
    var decided := w.stored.lastDecision.Some?;
    match e
    case Edit(spec) => decided ==> spec.activeProfile == w.stored.spec.activeProfile
    case Reconcile(inputs) =>
      Decides(w, e) ==> (inputs.saved ==> inputs.patched) && (inputs.patched && !inputs.saved ==> !decided)
  }

  ghost predicate AlwaysAtLastTarget(spec: PolicySpec, events: seq<Event>) {
    forall k | 0 <= k <= |events| :: AtLastTarget(Exec(spec, events[..k]).stored)
  }

  ghost predicate AllKeepChain(spec: PolicySpec, events: seq<Event>) {
    forall k | 0 <= k < |events| :: KeepsChain(Exec(spec, events[..k]), events[k])
  }

  lemma ChainStep(w: World, e: Event)
    requires AtLastTarget(w.stored)
    ensures AtLastTarget(After(w, e).stored) <==> KeepsChain(w, e)
  {
    if Decides(w, e) {
      SwitchTargetIsDefined(w.stored.spec, e.inputs);
    }
    hide DecisionOf, WellConfigured;
  }

  lemma {:induction false} ChainPrefix(spec: PolicySpec, events: seq<Event>, k: nat)
    requires AllKeepChain(spec, events) && k <= |events|
    ensures AtLastTarget(Exec(spec, events[..k]).stored)
  {
    hide KeepsChain, After;
    if k == 0 {
      assert Exec(spec, []).stored.lastDecision.None?;
    } else {
      ChainPrefix(spec, events, k - 1);
      ExecOne(spec, events, k - 1);
      ChainStep(Exec(spec, events[..k - 1]), events[k - 1]);
    }
  }

  /** The active profile is always the one of lastDecision if and only if, from the first
      recorded decision on, no edit changes it, no unsuccessful switch is recorded and no
      successful one goes unrecorded. */
  lemma ActiveProfileIsLastTargetIff(spec: PolicySpec, events: seq<Event>)
    ensures AlwaysAtLastTarget(spec, events) <==> AllKeepChain(spec, events)
  {
    hide KeepsChain, After, Exec, AtLastTarget;
    if AllKeepChain(spec, events) {
      forall k | 0 <= k <= |events|
        ensures AtLastTarget(Exec(spec, events[..k]).stored)
      {
        ChainPrefix(spec, events, k);
      }
    }
    if AlwaysAtLastTarget(spec, events) {
      forall k | 0 <= k < |events|
        ensures KeepsChain(Exec(spec, events[..k]), events[k])
      {
        ExecOne(spec, events, k);
        ChainStep(Exec(spec, events[..k]), events[k]);
      }
    }
  }

  ghost predicate Chained(recorded: seq<Record>) {
    forall i | 0 <= i < |recorded| - 1 :: recorded[i].profileAfter == recorded[i + 1].profileBefore
  }

  ghost predicate EachSwitches(recorded: seq<Record>) {
    forall i | 0 <= i < |recorded| :: recorded[i].profileBefore != recorded[i].profileAfter
  }

  lemma ChainedAppend(recorded: seq<Record>, r: Record)
    requires Chained(recorded) && (recorded != [] ==> recorded[|recorded| - 1].profileAfter == r.profileBefore)
    ensures Chained(recorded + [r])
  {
  }

  lemma ChainedStep(w: World, e: Event)
    requires AtLastTarget(w.stored) && HoldsNewest(w.stored, w.recorded)
    requires Chained(w.recorded) && EachSwitches(w.recorded)
    ensures Chained(After(w, e).recorded) && EachSwitches(After(w, e).recorded)
  {
    hide DecisionOf, Reconciled, WellConfigured, Chained;
    if Decides(w, e) && e.inputs.saved {
      SwitchTargetIsDefined(w.stored.spec, e.inputs);
      ChainedAppend(w.recorded, RecordOf(w.stored.spec, e.inputs));
    }
  }

  /** Then the records chain: each decision starts from the profile that the one before
      led to, and leads to another one. */
  lemma {:induction false} RecordsChain(spec: PolicySpec, events: seq<Event>, k: nat)
    requires AllKeepChain(spec, events) && k <= |events|
    ensures Chained(Exec(spec, events[..k]).recorded) && EachSwitches(Exec(spec, events[..k]).recorded)
  {
    hide After, Chained, EachSwitches, AtLastTarget, HoldsNewest;
    if k > 0 {
      HistoryIsNewestTen(spec, events[..k - 1]);
      RecordsChain(spec, events, k - 1);
      ChainPrefix(spec, events, k - 1);
      ExecOne(spec, events, k - 1);
      ChainedStep(Exec(spec, events[..k - 1]), events[k - 1]);
    } else {
      assert Chained([]) && EachSwitches([]) by {
        NoRecords();
      }
    }
  }

  lemma NoRecords()
    ensures Chained([]) && EachSwitches([])
  {
  }

  // ---------------------------------------------------------------- a record without a switch

  const BUSY := Trigger("t", Condition(None, None, Some(0)), "p", [], 0)
  const ONE_TRIGGER :=
    PolicySpec(Istio, map[], false, None, None, Some(StreamingProtection(true, 200, 1024, 300)),
               map["p" := Profile(None, None, None, None)], "", [BUSY], [], false)
  const UNPATCHED :=
    Inputs(Signals(1.0, 0.0, 1.0, 1, 0.0, 0), [0, 0], Evaluator.Memory(map[], map[]), 0, false, false, true)

  /** One reconcile whose profile patch fails while its status patch succeeds: the status
      tells of a switch to `p`, but no profile is active and no switch was made. */
  lemma FailedPatchIsRecorded()
    ensures var events := [Reconcile(UNPATCHED)];
            var s := Exec(ONE_TRIGGER, events).stored;
            && s.spec.activeProfile == "" && Made(ONE_TRIGGER, events) == []
            && s.lastDecision == Some(Record(0, "t", "", "p", false)) && s.history == [s.lastDecision.value]
  {
    var events := [Reconcile(UNPATCHED)];
    assert events[..0] == [];
    var w := Exec(ONE_TRIGGER, []);
    BusyDecides();
    hide DecisionOf;
    assert Exec(ONE_TRIGGER, events) == After(w, Reconcile(UNPATCHED));
    assert Made(ONE_TRIGGER, []) == [];
  }

  lemma BusyDecides()
    ensures Suits(ONE_TRIGGER, UNPATCHED)
    ensures DecisionOf(ONE_TRIGGER, UNPATCHED) == Evaluator.Decision(true, "p", "t", 1)
  {
    var call := Evaluator.Call("", UNPATCHED.signals, UNPATCHED.clock);
    assert Evaluator.ConditionHolds(BUSY.when, UNPATCHED.signals);
    assert Evaluator.Fires([BUSY], call, 0, UNPATCHED.memory);
  }
}
