/** The status conditions of a policy (internal/controller/adaptivepolicy_controller.go:320-389,
    448-469, 690-705). */
module Conditions {
  import opened Options

  datatype Status = True | False | Unknown

  /** What a caller wants a condition to say. */
  datatype Report = Report(kind: string, status: Status, reason: string, message: string, observedGeneration: int)

  datatype Condition = Condition(report: Report, lastTransitionTime: int)

  /** One call of SetCondition. */
  datatype Call = Call(report: Report, now: int)

  // ---------------------------------------------------------------- one call

  ghost predicate UniqueKinds(cs: seq<Condition>) {
    forall i, j | 0 <= i < j < |cs| :: cs[i].report.kind != cs[j].report.kind
  }

  /** The first condition of this kind. */
  ghost function IndexOf(cs: seq<Condition>, kind: string): (i: Option<nat>)
    ensures i.Some? ==> i.value < |cs| && cs[i.value].report.kind == kind
    ensures forall j | 0 <= j < |cs| && (i.Some? ==> j < i.value) :: cs[j].report.kind != kind
  {
    if cs == [] then None
    else if cs[0].report.kind == kind then Some(0)
    else
      var i := IndexOf(cs[1..], kind);
      assert forall j | 0 < j < |cs| :: cs[j] == cs[1..][j - 1];
      if i.Some? then Some(i.value + 1) else None
  }

  ghost function Find(cs: seq<Condition>, kind: string): Option<Condition> {
    var i := IndexOf(cs, kind);
    if i.Some? then Some(cs[i.value]) else None
  }

  /** The new condition: its time is the old one's if the status stays. */
  ghost function Merged(before: Option<Condition>, call: Call): Condition {
    if before.Some? && before.value.report.status == call.report.status
    then Condition(call.report, before.value.lastTransitionTime)
    else Condition(call.report, call.now)
  }

  /** The list after a call: the condition of its kind is updated where it stands, or appended. */
  ghost function Upsert(cs: seq<Condition>, call: Call): seq<Condition> {
    var i := IndexOf(cs, call.report.kind);
    if i.Some? then cs[i.value := Merged(Some(cs[i.value]), call)] else cs + [Merged(None, call)]
  }

  /** The conditions list in the status, which the calls update in place. */
  class ConditionList {
    var items: seq<Condition>

    constructor ()
      ensures items == []
    {
      items := [];
    }

    method SetCondition(report: Report, now: int)
      modifies this
      ensures items == Upsert(old(items), Call(report, now))
    {
      ghost var at := IndexOf(items, report.kind);
      var i := 0;
      while i < |items|
        invariant 0 <= i <= |items| && items == old(items)
        invariant forall j | 0 <= j < i :: items[j].report.kind != report.kind
      {
        if items[i].report.kind == report.kind {
          assert at == Some(i);
          if items[i].report.status != report.status {
            items := items[i := Condition(report, now)];
          } else {
            items := items[i := items[i].(report := items[i].report.(
              message := report.message, reason := report.reason, observedGeneration := report.observedGeneration))];
          }
          return;
        }
        i := i + 1;
      }
      items := items + [Condition(report, now)];
    }

    /** An error stopped the reconcile. The status patch stores both conditions, or fails. */
    method MarkDegraded(reason: string, message: string, generation: int, degradedAt: int, readyAt: int, saved: bool)
      modifies this
      ensures items == After(old(items), CallsOf(Stopped(reason, message, generation, degradedAt, readyAt, saved)))
    {
      hide Upsert, CallsOf;
      StoppedCalls(reason, message, generation, degradedAt, readyAt, saved);
      AfterTwo(items, Call(Report(DEGRADED, True, reason, message, generation), degradedAt),
               Call(Report(READY, False, reason, message, generation), readyAt));
      var stored := items;
      SetCondition(Report(DEGRADED, True, reason, message, generation), degradedAt);
      SetCondition(Report(READY, False, reason, message, generation), readyAt);
      if !saved {
        items := stored;
      }
    }
  }

  lemma StoppedCalls(reason: string, message: string, generation: int, degradedAt: int, readyAt: int, saved: bool)
    ensures CallsOf(Stopped(reason, message, generation, degradedAt, readyAt, saved))
         == if !saved then [] else
              [Call(Report(DEGRADED, True, reason, message, generation), degradedAt)]
              + [Call(Report(READY, False, reason, message, generation), readyAt)]
  {
  }

  lemma AfterTwo(cs: seq<Condition>, a: Call, b: Call)
    ensures After(cs, [a] + [b]) == Upsert(Upsert(cs, a), b)
  {
    assert ([a] + [b])[..1] == [a] && [a][..0] == [];
    hide Upsert;
    assert After(cs, [a]) == Upsert(cs, a);
  }

  // ---------------------------------------------------------------- runs of calls

  /** The list `cs` after a run of calls. */
  ghost function After(cs: seq<Condition>, calls: seq<Call>): seq<Condition> {
    if calls == [] then cs else Upsert(After(cs, calls[..|calls| - 1]), calls[|calls| - 1])
  }

  /** The calls about one kind. */
  ghost function About(calls: seq<Call>, kind: string): (r: seq<Call>)
    ensures forall i | 0 <= i < |r| :: r[i] in calls && r[i].report.kind == kind
  {
    if calls == [] then []
    else
      var before := About(calls[..|calls| - 1], kind);
      if calls[|calls| - 1].report.kind == kind then before + [calls[|calls| - 1]] else before
  }

  /** From call `k` on, and not before, all calls have the status of the last one. */
  ghost predicate StartsTrailingRun(calls: seq<Call>, k: int) {
    && 0 <= k < |calls|
    && (forall j | k <= j < |calls| :: calls[j].report.status == calls[|calls| - 1].report.status)
    && (k > 0 ==> calls[k - 1].report.status != calls[|calls| - 1].report.status)
  }

  /** The condition says what the last call about its kind said, and dates from the
      first call of the trailing run of equal statuses. */
  ghost predicate Reflects(calls: seq<Call>, c: Option<Condition>) {
    if calls == [] then c.None?
    else
      && c.Some? && c.value.report == calls[|calls| - 1].report
      && exists k :: StartsTrailingRun(calls, k) && c.value.lastTransitionTime == calls[k].now
  }

  /** One call replaces the condition of its kind and leaves all others alone. */
  lemma UpsertFinds(cs: seq<Condition>, call: Call, kind: string)
    requires UniqueKinds(cs)
    ensures UniqueKinds(Upsert(cs, call))
    ensures Find(Upsert(cs, call), kind) ==
            if kind == call.report.kind then Some(Merged(Find(cs, kind), call)) else Find(cs, kind)
  {
    var after := Upsert(cs, call);
    var i, j := IndexOf(cs, kind), IndexOf(after, kind);
    hide IndexOf;
    assert forall k | 0 <= k < |cs| :: after[k].report.kind == cs[k].report.kind;
    assert i.Some? ==> after[i.value].report.kind == kind;
    assert j.Some? && j.value < |cs| ==> cs[j.value].report.kind == kind;
    assert i.None? && kind == call.report.kind ==> after[|cs|].report.kind == kind;
  }

  lemma MergeReflects(calls: seq<Call>, c: Option<Condition>, call: Call)
    requires Reflects(calls, c)
    ensures Reflects(calls + [call], Some(Merged(c, call)))
  {
    var all := calls + [call];
    if calls != [] && calls[|calls| - 1].report.status == call.report.status {
      var k :| StartsTrailingRun(calls, k) && c.value.lastTransitionTime == calls[k].now;
      assert all[k] == calls[k] && StartsTrailingRun(all, k);
    } else {
      assert StartsTrailingRun(all, |calls|);
    }
  }

  /** After any run of calls the kinds are unique and every condition reflects the calls
      about its kind: a kind that no call was about has no condition. */
  lemma {:induction false} ConditionsReflectTheirCalls(calls: seq<Call>, kind: string)
    ensures UniqueKinds(After([], calls)) && Reflects(About(calls, kind), Find(After([], calls), kind))
  {
    if calls == [] {
    } else {
      var before, call := calls[..|calls| - 1], calls[|calls| - 1];
      ConditionsReflectTheirCalls(before, kind);
      UpsertFinds(After([], before), call, kind);
      hide Reflects, Upsert, Find, UniqueKinds;
      if call.report.kind == kind {
        MergeReflects(About(before, kind), Find(After([], before), kind), call);
      }
    }
  }

  // ---------------------------------------------------------------- the reconciler's calls

  const READY := "Ready"

  const DEGRADED := "Degraded"

  const SIGNAL_COLLECTION_AVAILABLE := "SignalCollectionAvailable"

  const FILTER_EFFECTIVE := "FilterEffective"

  /** How a reconcile ended: stopped by an error, or complete; then `filter` is what it
      found out, if anything, about the filter's effect. Every condition has its own clock
      reading; `saved` says whether the status patch succeeded. */
  datatype Outcome =
    | Stopped(reason: string, message: string, generation: int, degradedAt: int, readyAt: int, saved: bool)
    | Complete(message: string, generation: int, readyAt: int, scraped: bool, scrapedAt: int,
               filter: Option<(bool, string, int)>, saved: bool)

  /** The conditions that a reconcile stores, in order. */
  ghost function CallsOf(o: Outcome): seq<Call> {
    if !o.saved then []
    else
      match o
      case Stopped(reason, message, generation, degradedAt, readyAt, _) =>
        [Call(Report(DEGRADED, True, reason, message, generation), degradedAt),
         Call(Report(READY, False, reason, message, generation), readyAt)]
      case Complete(message, generation, readyAt, scraped, scrapedAt, filter, _) =>
        [Call(Report(READY, True, "Reconciled", message, generation), readyAt)]
        + [Call(Report(SIGNAL_COLLECTION_AVAILABLE, if scraped then True else False,
                       if scraped then "ScrapingOK" else "ScrapingFailed", "", generation), scrapedAt)]
        + match filter
          case None => []
          case Some((ejecting, text, at)) =>
            [Call(Report(FILTER_EFFECTIVE, if ejecting then True else False,
                         if ejecting then "EjectionsObserved" else "ZeroEjections", text, generation), at)]
  }

  ghost function AllCalls(outcomes: seq<Outcome>): seq<Call> {
    if outcomes == [] then [] else AllCalls(outcomes[..|outcomes| - 1]) + CallsOf(outcomes[|outcomes| - 1])
  }

  lemma {:induction false} AboutConcat(a: seq<Call>, b: seq<Call>, kind: string)
    ensures About(a + b, kind) == About(a, kind) + About(b, kind)
  {
    if b == [] {
      assert a + b == a;
    } else {
      assert (a + b)[..|a + b| - 1] == a + b[..|b| - 1];
      AboutConcat(a, b[..|b| - 1], kind);
    }
  }

  lemma KindsAreDistinct()
    ensures READY != DEGRADED && READY != SIGNAL_COLLECTION_AVAILABLE && READY != FILTER_EFFECTIVE
    ensures DEGRADED != SIGNAL_COLLECTION_AVAILABLE && DEGRADED != FILTER_EFFECTIVE
  {
    assert |READY| == 5 && |DEGRADED| == 8 && |FILTER_EFFECTIVE| == 15;
    assert |SIGNAL_COLLECTION_AVAILABLE| == 25;
  }

  /** What one reconcile reports about a condition, if anything. */
  ghost function Said(o: Outcome, kind: string): Option<Report> {
    if !o.saved then None
    else
      match o
      case Stopped(reason, message, generation, _, _, _) =>
        if kind == "Degraded" then Some(Report("Degraded", True, reason, message, generation))
        else if kind == "Ready" then Some(Report("Ready", False, reason, message, generation))
        else None
      case Complete(message, generation, _, scraped, _, filter, _) =>
        if kind == "Ready" then Some(Report("Ready", True, "Reconciled", message, generation))
        else if kind == "SignalCollectionAvailable" then
          Some(if scraped then Report("SignalCollectionAvailable", True, "ScrapingOK", "", generation)
               else Report("SignalCollectionAvailable", False, "ScrapingFailed", "", generation))
        else if kind == "FilterEffective" && filter.Some? then
          var (ejecting, text, _) := filter.value;
          Some(if ejecting then Report("FilterEffective", True, "EjectionsObserved", text, generation)
               else Report("FilterEffective", False, "ZeroEjections", text, generation))
        else None
  }

  lemma NamesAreThese()
    ensures READY == "Ready" && DEGRADED == "Degraded"
    ensures SIGNAL_COLLECTION_AVAILABLE == "SignalCollectionAvailable" && FILTER_EFFECTIVE == "FilterEffective"
  {
  }

  lemma {:induction false} AboutParts(calls: seq<Call>, kind: string)
    requires |calls| <= 3
    ensures About(calls, kind)
            == (if |calls| > 0 && calls[0].report.kind == kind then [calls[0]] else [])
               + (if |calls| > 1 && calls[1].report.kind == kind then [calls[1]] else [])
               + (if |calls| > 2 && calls[2].report.kind == kind then [calls[2]] else [])
  {
    if calls == [] {
    } else {
      AboutParts(calls[..|calls| - 1], kind);
    }
  }

  /** A reconcile makes at most one call about a condition. */
  lemma OutcomeSays(o: Outcome, kind: string)
    ensures var calls := About(CallsOf(o), kind);
            if Said(o, kind).None? then calls == []
            else |calls| == 1 && calls[0].report == Said(o, kind).value
  {
    KindsAreDistinct();
    NamesAreThese();
    hide About, READY, DEGRADED, SIGNAL_COLLECTION_AVAILABLE, FILTER_EFFECTIVE;
    AboutParts(CallsOf(o), kind);
  }

  /** Some reconcile was stopped, and said so in the status. */
  ghost predicate SomeStopped(outcomes: seq<Outcome>) {
    exists i | 0 <= i < |outcomes| :: outcomes[i].Stopped? && outcomes[i].saved
  }

  /** The last reconcile whose status was saved. */
  ghost function LastSaved(outcomes: seq<Outcome>): Option<Outcome> {
    if outcomes == [] then None
    else if outcomes[|outcomes| - 1].saved then Some(outcomes[|outcomes| - 1])
    else LastSaved(outcomes[..|outcomes| - 1])
  }

  ghost predicate AllTrue(calls: seq<Call>) {
    forall i | 0 <= i < |calls| :: calls[i].report.status == True
  }

  lemma SomeStoppedStep(outcomes: seq<Outcome>)
    requires outcomes != []
    ensures var n := |outcomes| - 1;
            SomeStopped(outcomes) <==> SomeStopped(outcomes[..n]) || (outcomes[n].Stopped? && outcomes[n].saved)
  {
    var n := |outcomes| - 1;
    assert forall i | 0 <= i < n :: outcomes[..n][i] == outcomes[i];
  }

  lemma AboutLast(outcomes: seq<Outcome>, kind: string)
    requires outcomes != []
    ensures var n := |outcomes| - 1;
            About(AllCalls(outcomes), kind) == About(AllCalls(outcomes[..n]), kind) + About(CallsOf(outcomes[n]), kind)
  {
    hide About, CallsOf;
    AboutConcat(AllCalls(outcomes[..|outcomes| - 1]), CallsOf(outcomes[|outcomes| - 1]), kind);
  }

  lemma {:induction false} DegradedCalls(outcomes: seq<Outcome>)
    ensures var calls := About(AllCalls(outcomes), DEGRADED);
            (calls != [] <==> SomeStopped(outcomes)) && AllTrue(calls)
  {
    if outcomes == [] {
    } else {
      var n := |outcomes| - 1;
      DegradedCalls(outcomes[..n]);
      AboutLast(outcomes, DEGRADED);
      NamesAreThese();
      hide AllCalls, About, CallsOf, DEGRADED, READY, SomeStopped;
      OutcomeSays(outcomes[n], DEGRADED);
      SomeStoppedStep(outcomes);
    }
  }

  lemma {:induction false} ReadyCalls(outcomes: seq<Outcome>)
    ensures var calls, last := About(AllCalls(outcomes), READY), LastSaved(outcomes);
            if last.None? then calls == []
            else calls != [] && calls[|calls| - 1].report.status == if last.value.Stopped? then False else True
  {
    if outcomes == [] {
    } else {
      var n := |outcomes| - 1;
      ReadyCalls(outcomes[..n]);
      AboutLast(outcomes, READY);
      NamesAreThese();
      hide AllCalls, About, CallsOf, DEGRADED, READY;
      OutcomeSays(outcomes[n], READY);
    }
  }

  /** Ready follows the last saved reconcile, but Degraded, once stored, is never cleared:
      after any run of reconciles the policy is reported as degraded if and only if some
      stopped reconcile ever said so. It is then Ready and Degraded at once whenever a
      complete reconcile was saved last. */
  lemma DegradedIsNeverCleared(outcomes: seq<Outcome>)
    ensures var cs := After([], AllCalls(outcomes));
            var degraded, ready, last := Find(cs, "Degraded"), Find(cs, "Ready"), LastSaved(outcomes);
            && (degraded.Some? <==> SomeStopped(outcomes))
            && (degraded.Some? ==> degraded.value.report.status == True)
            && (ready.Some? <==> last.Some?)
            && (ready.Some? ==> ready.value.report.status == if last.value.Stopped? then False else True)
  {
    NamesAreThese();
    DegradedCalls(outcomes);
    ReadyCalls(outcomes);
    ConditionsReflectTheirCalls(AllCalls(outcomes), DEGRADED);
    ConditionsReflectTheirCalls(AllCalls(outcomes), READY);
    hide After, AllCalls, About, Find, READY, DEGRADED, StartsTrailingRun, SomeStopped, LastSaved;
  }

  /** The last report about a condition that was saved. */
  ghost function LastSaid(outcomes: seq<Outcome>, kind: string): Option<Report> {
    if outcomes == [] then None
    else if Said(outcomes[|outcomes| - 1], kind).Some? then Said(outcomes[|outcomes| - 1], kind)
    else LastSaid(outcomes[..|outcomes| - 1], kind)
  }

  lemma {:induction false} CallsSay(outcomes: seq<Outcome>, kind: string)
    ensures var calls, last := About(AllCalls(outcomes), kind), LastSaid(outcomes, kind);
            if last.None? then calls == [] else calls != [] && calls[|calls| - 1].report == last.value
  {
    if outcomes == [] {
    } else {
      var n := |outcomes| - 1;
      CallsSay(outcomes[..n], kind);
      AboutLast(outcomes, kind);
      hide AllCalls, About, CallsOf, Said;
      OutcomeSays(outcomes[n], kind);
    }
  }

  /** After any run of reconciles each condition is what the last saved reconcile that reports
      about it says: its status, reason, message and generation. */
  lemma ConditionsFollowReconciles(outcomes: seq<Outcome>, kind: string)
    ensures var c, last := Find(After([], AllCalls(outcomes)), kind), LastSaid(outcomes, kind);
            if last.None? then c.None? else c.Some? && c.value.report == last.value
  {
    CallsSay(outcomes, kind);
    ConditionsReflectTheirCalls(AllCalls(outcomes), kind);
    hide After, AllCalls, About, Find, StartsTrailingRun, LastSaid;
  }
}
