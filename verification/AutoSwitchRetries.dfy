/** How soon a switch is tried again, over the reconciles of a policy that is not edited.
    Their patches may fail or succeed in any pattern. */
module AutoSwitchRetries {
  import opened Api
  import opened Options
  import opened Evaluator
  import opened EvaluatorHistory
  import opened EvaluatorEdits
  import opened AutoSwitch

  ghost function StoredAfter(s: Stored, rs: seq<Inputs>): Stored {
    if rs == [] then s
    else
      var before := StoredAfter(s, rs[..|rs| - 1]);
      if Suits(before.spec, rs[|rs| - 1]) then Reconciled(before, rs[|rs| - 1]) else before
  }

  /** What reconcile `k` evaluates. */
  ghost function CallAt(s: Stored, rs: seq<Inputs>, k: nat): Call
    requires k < |rs|
  {
    CallOf(StoredAfter(s, rs[..k]).spec, rs[k])
  }

  ghost function Calls(s: Stored, rs: seq<Inputs>): (calls: seq<Call>)
    ensures |calls| == |rs|
  {
    seq(|rs|, k requires 0 <= k < |rs| => CallAt(s, rs, k))
  }

  /** The inputs of reconcile `k` carry on from those before it. */
  ghost predicate CarriesOn(s: Stored, rs: seq<Inputs>, k: nat)
    requires k < |rs|
  {
    var spec := StoredAfter(s, rs[..k]).spec;
    && Suits(spec, rs[k]) && ClockAdvances(CallAt(s, rs, k))
    && if k == 0 then rs[k].memory == Memory(map[], map[])
       else Suits(StoredAfter(s, rs[..k - 1]).spec, rs[k - 1])
            && rs[k].memory == EvaluationOf(StoredAfter(s, rs[..k - 1]).spec, rs[k - 1]).memory
  }

  /** The reconciles of a policy with triggers, from its first one on, without edits. */
  ghost predicate Session(s: Stored, rs: seq<Inputs>) {
    UniqueNames(s.spec.triggers) && Considers(s.spec) && forall k | 0 <= k < |rs| :: CarriesOn(s, rs, k)
  }

  /** Reconcile `k` decides to switch by trigger `f`. */
  ghost predicate DecidesBy(s: Stored, rs: seq<Inputs>, f: nat, k: nat)
    requires k < |rs| && f < |s.spec.triggers|
  {
    var spec := StoredAfter(s, rs[..k]).spec;
    && Suits(spec, rs[k]) && DecisionOf(spec, rs[k]).shouldSwitch
    && DecisionOf(spec, rs[k]).triggerName == s.spec.triggers[f].name
  }

  /** Reconciling changes nothing but the active profile, so the triggers stay in force. */
  lemma {:induction false} SpecStays(s: Stored, rs: seq<Inputs>, k: nat)
    requires Considers(s.spec) && k <= |rs|
    ensures var spec := StoredAfter(s, rs[..k]).spec;
            spec == s.spec.(activeProfile := spec.activeProfile) && Considers(spec)
  {
    if k == 0 {
    } else {
      SpecStays(s, rs, k - 1);
      assert rs[..k][..k - 1] == rs[..k - 1];
      var before := StoredAfter(s, rs[..k - 1]);
      hide WellConfigured, Reconciled;
      if Suits(before.spec, rs[k - 1]) {
        ReconcileKeepsWellConfigured(before, rs[k - 1]);
      }
    }
  }

  lemma SessionIsRun(s: Stored, rs: seq<Inputs>, k: nat)
    requires Session(s, rs) && k <= |rs|
    ensures IsRun(s.spec.triggers, Calls(s, rs)[..k])
  {
    forall j | 0 <= j < |rs|
      ensures |CallAt(s, rs, j).clock| == 2 * |s.spec.triggers| && ClockAdvances(CallAt(s, rs, j))
    {
      assert CarriesOn(s, rs, j);
      SpecStays(s, rs, j);
    }
    hide ClockAdvances, CarriesOn;
  }

  /** A reconcile hands on the memory of its call. */
  lemma HandsOn(s: Stored, rs: seq<Inputs>, k: nat)
    requires Session(s, rs) && 0 < k < |rs|
    ensures var call, memory := CallAt(s, rs, k - 1), rs[k - 1].memory;
            && |call.clock| == 2 * |s.spec.triggers| && Bounded(memory)
            && rs[k].memory == Evaluated(s.spec.triggers, call, memory).memory
  {
    assert CarriesOn(s, rs, k);
    SpecStays(s, rs, k - 1);
    hide Evaluated, ClockAdvances, StoredAfter, WellConfigured;
  }

  lemma MemoryOne(ts: seq<Trigger>, calls: seq<Call>, call: Call)
    requires IsHistory(Unedited(ts, calls)) && IsHistory(Unedited(ts, calls + [call]))
    ensures |call.clock| == 2 * |ts|
    ensures MemoryAfter(Unedited(ts, calls + [call]))
         == Evaluated(ts, call, MemoryAfter(Unedited(ts, calls))).memory
  {
    var rounds := Unedited(ts, calls + [call]);
    hide Evaluated, ClockAdvances;
    assert rounds[|calls|] == Round(ts, call) && rounds[..|calls|] == Unedited(ts, calls);
  }

  lemma RunIsHistory(ts: seq<Trigger>, calls: seq<Call>)
    requires IsRun(ts, calls)
    ensures IsHistory(Unedited(ts, calls))
  {
    hide ClockAdvances;
  }

  /** The memory that a reconcile starts with is what the calls before it leave. */
  lemma {:induction false} MemoryIsOfTheCalls(s: Stored, rs: seq<Inputs>, k: nat)
    requires Session(s, rs) && k < |rs|
    ensures IsRun(s.spec.triggers, Calls(s, rs)[..k])
    ensures IsHistory(Unedited(s.spec.triggers, Calls(s, rs)[..k]))
    ensures rs[k].memory == MemoryAfter(Unedited(s.spec.triggers, Calls(s, rs)[..k]))
  {
    var ts, calls := s.spec.triggers, Calls(s, rs);
    SessionIsRun(s, rs, k);
    RunIsHistory(ts, calls[..k]);
    if k == 0 {
      assert CarriesOn(s, rs, k);
    } else {
      MemoryIsOfTheCalls(s, rs, k - 1);
      HandsOn(s, rs, k);
      assert calls[..k] == calls[..k - 1] + [calls[k - 1]] && calls[k - 1] == CallAt(s, rs, k - 1);
      hide *;
      MemoryOne(ts, calls[..k - 1], calls[k - 1]);
    }
  }

  lemma FiredIffDecided(ts: seq<Trigger>, call: Call, m: Memory, f: nat)
    requires UniqueNames(ts) && |call.clock| == 2 * |ts| && Bounded(m) && f < |ts|
    ensures var d := Evaluated(ts, call, m).decision;
            OutcomeAt(ts, call, SeenIn(ts, m), f).Fired? <==> d.shouldSwitch && d.triggerName == ts[f].name
  {
    var seen := SeenIn(ts, m);
    EvaluatedRefines(ts, call, m);
    ClosestIsNoSwitch(ts, call, seen, |ts|);
    hide Evaluated, SeenIn, Closest, After, Due, Bounded;
    var g := FirstDue(ts, call, seen, 0);
    hide FirstDue;
    assert g < |ts| && ts[g].name == ts[f].name ==> g == f;
  }

  /** The log has for each reconcile what its evaluation did. */
  lemma LoggedAsEvaluated(s: Stored, rs: seq<Inputs>, f: nat, k: nat)
    requires Session(s, rs) && k < |rs| && f < |s.spec.triggers|
    ensures IsRun(s.spec.triggers, Calls(s, rs))
    ensures var ts, call, seen := s.spec.triggers, CallAt(s, rs, k), SeenIn(s.spec.triggers, rs[k].memory);
            Fits(ts, call, seen) && Log(ts, Calls(s, rs))[k][f] == OutcomeAt(ts, call, seen, f)
  {
    var ts, calls := s.spec.triggers, Calls(s, rs);
    assert calls[..|rs|] == calls && calls[k] == CallAt(s, rs, k);
    SessionIsRun(s, rs, |rs|);
    MemoryIsOfTheCalls(s, rs, k);
    hide Session, CallAt, ClockAdvances;
    MemoryIsHistory(ts, calls[..k]);
    hide MemoryAfter, SeenIn, Iterate, SeenInLog, Log;
    RowOfLog(ts, calls, k);
    hide OutcomeAt;
  }

  /** A reconcile decides by a trigger exactly if the log of its calls has it fire. */
  lemma DecidesIffFired(s: Stored, rs: seq<Inputs>, f: nat, k: nat)
    requires Session(s, rs) && k < |rs| && f < |s.spec.triggers|
    ensures IsRun(s.spec.triggers, Calls(s, rs))
    ensures DecidesBy(s, rs, f, k) <==> Log(s.spec.triggers, Calls(s, rs))[k][f].Fired?
  {
    LoggedAsEvaluated(s, rs, f, k);
    assert CarriesOn(s, rs, k);
    SpecStays(s, rs, k);
    hide Evaluated, Log, SeenIn, WellConfigured, StoredAfter, ClockAdvances, OutcomeAt, Bounded, IsRun;
    FiredIffDecided(s.spec.triggers, CallAt(s, rs, k), rs[k].memory, f);
  }

  /** The last fire time is that of the last firing. */
  lemma {:induction false} LastFireTime(col: seq<Outcome>, k: nat)
    requires k < |col| && col[k].Fired? && forall j | k < j < |col| :: !col[j].Fired?
    ensures LastOf(FireTimes(col)) == Some(col[k].at)
  {
    if k == |col| - 1 {
    } else {
      LastFireTime(col[..|col| - 1], k);
    }
  }

  lemma LastFireTimeInLog(n: nat, log: seq<seq<Outcome>>, f: nat, k: nat)
    requires IsLog(n, log) && f < n && k < |log|
    requires log[k][f].Fired? && forall j | k < j < |log| :: !log[j][f].Fired?
    ensures SeenInLog(n, log).fired[f] == Some(log[k][f].at)
  {
    var col := Column(n, log, f);
    assert SeenInLog(n, log).fired[f] == LastOf(FireTimes(col));
    hide FireTimes, SeenInLog, Column, IsLog;
    LastFireTime(col, k);
  }

  lemma LastFireTimeInRun(ts: seq<Trigger>, calls: seq<Call>, f: nat, k1: nat, k2: nat)
    requires IsRun(ts, calls) && f < |ts| && k1 < k2 < |calls|
    requires Log(ts, calls)[k1][f].Fired? && forall k | k1 < k < k2 :: !Log(ts, calls)[k][f].Fired?
    ensures IsRun(ts, calls[..k2]) && Iterate(ts, calls[..k2]).fired[f] == Some(Log(ts, calls)[k1][f].at)
  {
    hide Log, Iterate, FireTimes, SeenInLog, Column, ClockAdvances;
    LogPrefix(ts, calls, k2);
    StateIsHistory(ts, calls[..k2]);
    hide IsRun;
    LastFireTimeInLog(|ts|, Log(ts, calls)[..k2], f, k1);
  }

  /** A firing of a run waits for the cooldown since the one before. */
  lemma FiringWaits(ts: seq<Trigger>, calls: seq<Call>, f: nat, k1: nat, k2: nat)
    requires IsRun(ts, calls) && f < |ts| && k1 < k2 < |calls|
    requires Log(ts, calls)[k1][f].Fired? && Log(ts, calls)[k2][f].Fired?
    requires forall k | k1 < k < k2 :: !Log(ts, calls)[k][f].Fired?
    ensures calls[k2].clock[2 * f] - calls[k1].clock[2 * f + 1] >= Cooldown(ts[f])
  {
    LastFireTimeInRun(ts, calls, f, k1, k2);
    RowOfLog(ts, calls, k1);
    RowOfLog(ts, calls, k2);
    hide Log, Iterate, FirstDue, Cooldown, ConditionHolds, ClockAdvances;
    FiredIsEligible(ts, calls[k2], Iterate(ts, calls[..k2]), f);
  }

  lemma FiredIsEligible(ts: seq<Trigger>, call: Call, seen: Seen, f: nat)
    requires Fits(ts, call, seen) && f < |ts| && OutcomeAt(ts, call, seen, f).Fired?
    ensures Eligible(ts, call, seen, f)
  {
    hide Eligible;
  }

  /** Whether or not the patch of a decided switch succeeded, the trigger decides again only
      after its cooldown, and after another run of its required samples, of which the last is
      that of the deciding reconcile itself. */
  lemma RetriesArePaid(s: Stored, rs: seq<Inputs>, f: nat, k1: nat, k2: nat)
    requires Session(s, rs) && f < |s.spec.triggers| && k1 < k2 < |rs|
    requires DecidesBy(s, rs, f, k1) && DecidesBy(s, rs, f, k2) && forall k | k1 < k < k2 :: !DecidesBy(s, rs, f, k)
    ensures var ts, calls := s.spec.triggers, Calls(s, rs);
            && IsRun(ts, calls) && |rs[k1].clock| == |rs[k2].clock| == 2 * |ts|
            && rs[k2].clock[2 * f] - rs[k1].clock[2 * f + 1] >= Cooldown(ts[f])
            && |MetBetween(|ts|, Log(ts, calls), f, k1, k2)| >= RequiredSamples(ts[f].when) - 1
  {
    var ts, calls := s.spec.triggers, Calls(s, rs);
    forall k | k1 <= k <= k2
      ensures IsRun(ts, calls) && (DecidesBy(s, rs, f, k) <==> Log(ts, calls)[k][f].Fired?)
    {
      DecidesIffFired(s, rs, f, k);
    }
    hide DecidesBy, Session, Log, StoredAfter, ClockAdvances;
    FiringWaits(ts, calls, f, k1, k2);
    FiringsNeedTheirSamples(ts, calls, f, k1, k2);
    assert calls[k1] == CallAt(s, rs, k1) && calls[k2] == CallAt(s, rs, k2);
  }
}
