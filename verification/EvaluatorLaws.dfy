/** Trigger evaluation in the terms of the policy's own fields: when a condition holds, what a
    call does with a trigger, and what it decides, for every run of calls. */
module EvaluatorLaws {
  import opened Options
  import opened Api
  import opened Evaluator
  import opened EvaluatorHistory

  // ---------------------------------------------------------------- conditions

  function RateBelow(b: real, n: int32): Condition {
    Condition(Some(RateCondition(Some(b), None, n)), None, None)
  }

  function RateAbove(b: real, n: int32): Condition {
    Condition(Some(RateCondition(None, Some(b), n)), None, None)
  }

  function LatencyAbove(b: real, n: int32): Condition {
    Condition(None, Some(ThresholdCondition(Some(b), None, n)), None)
  }

  function LatencyBelow(b: real, n: int32): Condition {
    Condition(None, Some(ThresholdCondition(None, Some(b), n)), None)
  }

  function RpsAbove(b: int32): Condition {
    Condition(None, None, Some(b))
  }

  /** A condition with one bound holds exactly if its signal is strictly on the right side of it. */
  lemma OneBoundIsStrict(b: real, rps: int32, n: int32, s: Signals)
    ensures ConditionHolds(RateBelow(b, n), s) <==> s.successRate < b
    ensures ConditionHolds(RateAbove(b, n), s) <==> s.successRate > b
    ensures ConditionHolds(LatencyAbove(b, n), s) <==> s.serviceLatencyMs > b
    ensures ConditionHolds(LatencyBelow(b, n), s) <==> s.serviceLatencyMs < b
    ensures ConditionHolds(RpsAbove(rps), s) <==> s.rps > rps as real
  {
  }

  /** The conditions with one bound of `c` each. */
  function Parts(c: Condition): seq<Condition> {
    RateParts(c.successRate) + LatencyParts(c.serviceLatencyMs)
    + if c.rpsAbove.Some? then [RpsAbove(c.rpsAbove.value)] else []
  }

  ghost predicate AllHold(cs: seq<Condition>, s: Signals) {
    forall c | c in cs :: ConditionHolds(c, s)
  }

  lemma AllHoldConcat(cs: seq<Condition>, ds: seq<Condition>, s: Signals)
    ensures AllHold(cs + ds, s) <==> AllHold(cs, s) && AllHold(ds, s)
  {
    hide ConditionHolds;
    assert forall c :: c in cs + ds <==> c in cs || c in ds;
  }

  function RateParts(r: Option<RateCondition>): seq<Condition> {
    if r.None? then []
    else
      (if r.value.below.Some? then [RateBelow(r.value.below.value, r.value.consecutiveSamples)] else [])
      + if r.value.above.Some? then [RateAbove(r.value.above.value, r.value.consecutiveSamples)] else []
  }

  function LatencyParts(l: Option<ThresholdCondition>): seq<Condition> {
    if l.None? then []
    else
      (if l.value.above.Some? then [LatencyAbove(l.value.above.value, l.value.consecutiveSamples)] else [])
      + if l.value.below.Some? then [LatencyBelow(l.value.below.value, l.value.consecutiveSamples)] else []
  }

  lemma RatePart(r: Option<RateCondition>, s: Signals)
    ensures AllHold(RateParts(r), s)
       <==> (r.Some? ==> (r.value.below.Some? ==> s.successRate < r.value.below.value)
                         && (r.value.above.Some? ==> s.successRate > r.value.above.value))
    ensures RateParts(r) == [] <==> r.None? || (r.value.below.None? && r.value.above.None?)
  {
    if r.Some? {
      var below := if r.value.below.Some? then [RateBelow(r.value.below.value, r.value.consecutiveSamples)] else [];
      var above := if r.value.above.Some? then [RateAbove(r.value.above.value, r.value.consecutiveSamples)] else [];
      AllHoldConcat(below, above, s);
      assert r.value.below.Some? ==> below[0] in below;
      assert r.value.above.Some? ==> above[0] in above;
    }
  }

  lemma LatencyPart(l: Option<ThresholdCondition>, s: Signals)
    ensures AllHold(LatencyParts(l), s)
       <==> (l.Some? ==> (l.value.above.Some? ==> s.serviceLatencyMs > l.value.above.value)
                         && (l.value.below.Some? ==> s.serviceLatencyMs < l.value.below.value))
    ensures LatencyParts(l) == [] <==> l.None? || (l.value.below.None? && l.value.above.None?)
  {
    if l.Some? {
      var above := if l.value.above.Some? then [LatencyAbove(l.value.above.value, l.value.consecutiveSamples)] else [];
      var below := if l.value.below.Some? then [LatencyBelow(l.value.below.value, l.value.consecutiveSamples)] else [];
      AllHoldConcat(above, below, s);
      assert l.value.below.Some? ==> below[0] in below;
      assert l.value.above.Some? ==> above[0] in above;
    }
  }

  lemma RpsPart(r: Option<int32>, s: Signals)
    ensures AllHold(if r.Some? then [RpsAbove(r.value)] else [], s) <==> (r.Some? ==> s.rps > r.value as real)
  {
    if r.Some? {
      assert [RpsAbove(r.value)][0] in [RpsAbove(r.value)];
    }
  }

  /** A condition holds exactly if it has a bound and each of its bounds holds alone. */
  lemma HoldsIffAllPartsHold(c: Condition, s: Signals)
    ensures ConditionHolds(c, s) <==> Parts(c) != [] && AllHold(Parts(c), s)
  {
    var rate, latency := RateParts(c.successRate), LatencyParts(c.serviceLatencyMs);
    var rps := if c.rpsAbove.Some? then [RpsAbove(c.rpsAbove.value)] else [];
    AllHoldConcat(rate + latency, rps, s);
    AllHoldConcat(rate, latency, s);
    RatePart(c.successRate, s);
    LatencyPart(c.serviceLatencyMs, s);
    RpsPart(c.rpsAbove, s);
    hide AllHold, RateParts, LatencyParts, RpsAbove;
  }

  // ---------------------------------------------------------------- one trigger in a run

  /** The number of consecutive samples that the condition's own fields ask for. */
  ghost predicate Asks(c: Condition, n: int) {
    if c.successRate.Some? && c.successRate.value.consecutiveSamples > 0 then
      n == c.successRate.value.consecutiveSamples
    else if c.serviceLatencyMs.Some? && c.serviceLatencyMs.value.consecutiveSamples > 0 then
      n == c.serviceLatencyMs.value.consecutiveSamples
    else n == 1
  }

  /** The trigger is not to be evaluated: its source profiles leave out the active one, it would
      switch to where the policy is, or it fired less than its cooldown ago. */
  ghost predicate Barred(t: Trigger, profile: string, last: Option<int>, now: int) {
    || (t.fromProfiles != [] && profile !in t.fromProfiles)
    || profile == t.switchTo
    || (last.Some? && now - last.value < t.cooldownSeconds * 1_000_000_000)
  }

  /** Whether call `k` of the run came to trigger `i`. */
  ghost predicate Reached(ts: seq<Trigger>, calls: seq<Call>, i: nat, k: nat)
    requires IsRun(ts, calls) && i < |ts| && k < |calls|
  {
    calls[k].signals.sampleCount != 0 && forall j | 0 <= j < i :: !Log(ts, calls)[k][j].Fired?
  }

  /** Whether the earlier calls and the trigger's profiles let call `k` evaluate trigger `i`. */
  ghost predicate IsBarred(ts: seq<Trigger>, calls: seq<Call>, i: nat, k: nat)
    requires IsRun(ts, calls) && i < |ts| && k < |calls|
  {
    Barred(ts[i], calls[k].profile, LastOf(FireTimes(Before(ts, calls, i, k))), calls[k].clock[2 * i])
  }

  /** What the calls before `k` did with trigger `i`. */
  ghost function Before(ts: seq<Trigger>, calls: seq<Call>, i: nat, k: nat): seq<Outcome>
    requires IsRun(ts, calls) && i < |ts| && k < |calls|
  {
    Column(|ts|, Log(ts, calls)[..k], i)
  }

  lemma StateBefore(ts: seq<Trigger>, calls: seq<Call>, i: nat, k: nat)
    requires IsRun(ts, calls) && i < |ts| && k < |calls|
    ensures IsRun(ts, calls[..k])
    ensures var seen, col := Iterate(ts, calls[..k]), Before(ts, calls, i, k);
            && Fits(ts, calls[k], seen)
            && seen.count[i] == |TrailingRun(col)| && seen.fired[i] == LastOf(FireTimes(col))
            && Log(ts, calls)[k] == Row(ts, calls[k], seen)
            && 0 <= seen.count[i] < RequiredSamples(ts[i].when)
  {
    LogPrefix(ts, calls, k);
    StateIsHistory(ts, calls[..k]);
    RowOfLog(ts, calls, k);
    CountsStayBelowRequired(ts, calls[..k]);
    hide Log, Iterate, TrailingRun, FireTimes, Row;
  }

  lemma AsksIsRequired(c: Condition, n: int)
    requires Asks(c, n)
    ensures n == RequiredSamples(c)
  {
  }

  /** One outcome of the specification in the terms of the fields. */
  lemma OutcomeOnFields(ts: seq<Trigger>, call: Call, seen: Seen, i: nat, n: int)
    requires Fits(ts, call, seen) && i < |ts| && Asks(ts[i].when, n) && seen.count[i] < n
    ensures var o, t := OutcomeAt(ts, call, seen, i), ts[i];
            var barred := Barred(t, call.profile, seen.fired[i], call.clock[2 * i]);
            o == if call.signals.sampleCount == 0 || exists j | 0 <= j < i :: OutcomeAt(ts, call, seen, j).Fired?
                 then NotReached
                 else if barred then Skipped
                 else if !ConditionHolds(t.when, call.signals) then Unmet
                 else if seen.count[i] + 1 < n then Met
                 else Fired(call.clock[2 * i + 1])
  {
    AsksIsRequired(ts[i].when, n);
    var f := FirstDue(ts, call, seen, 0);
    hide FirstDue, ConditionHolds, RequiredSamples;
    assert Due(ts, call, seen, i) ==> f <= i;
    assert Barred(ts[i], call.profile, seen.fired[i], call.clock[2 * i]) <==> !Eligible(ts, call, seen, i) by {
      assert Cooldown(ts[i]) == ts[i].cooldownSeconds * 1_000_000_000;
    }
    if call.signals.sampleCount != 0 && f < i {
      assert OutcomeAt(ts, call, seen, f).Fired?;
    }
  }

  /** In every run, a call does not come to a trigger exactly if it has no samples or an earlier
      trigger fires; otherwise it skips the trigger exactly if that is barred; otherwise the
      condition decides, and the trigger fires exactly at the n-th met evaluation of its
      trailing run, where n is the number of samples in the trigger's own fields. */
  lemma OutcomeInRun(ts: seq<Trigger>, calls: seq<Call>, i: nat, k: nat, n: int)
    requires IsRun(ts, calls) && i < |ts| && k < |calls| && Asks(ts[i].when, n)
    ensures Log(ts, calls)[k][i]
         == if !Reached(ts, calls, i, k) then NotReached
            else if IsBarred(ts, calls, i, k) then Skipped
            else if !ConditionHolds(ts[i].when, calls[k].signals) then Unmet
            else if |TrailingRun(Before(ts, calls, i, k))| + 1 < n then Met
            else Fired(calls[k].clock[2 * i + 1])
    ensures |TrailingRun(Before(ts, calls, i, k))| < n
  {
    StateBefore(ts, calls, i, k);
    AsksIsRequired(ts[i].when, n);
    hide Log, Iterate, TrailingRun, FireTimes, ConditionHolds, RequiredSamples, Barred, Asks, OutcomeAt, Before;
    var seen := Iterate(ts, calls[..k]);
    OutcomeOnFields(ts, calls[k], seen, i, n);
    assert forall j | 0 <= j < |ts| :: Log(ts, calls)[k][j] == OutcomeAt(ts, calls[k], seen, j);
  }

  /** Where the trailing run of a column starts. */
  ghost function RunStart(col: seq<Outcome>): (j: nat)
    ensures j <= |col|
    ensures forall m | j <= m < |col| :: col[m].Met? || col[m].Skipped? || col[m].NotReached?
    ensures j > 0 ==> col[j - 1].Unmet? || col[j - 1].Fired?
  {
    if col == [] then 0
    else
      var n := |col| - 1;
      if col[n].Unmet? || col[n].Fired? then |col| else RunStart(col[..n])
  }

  lemma TrailingRunIsMetSince(col: seq<Outcome>)
    ensures TrailingRun(col) == set m: nat | RunStart(col) <= m < |col| && col[m].Met?
  {
    var j := RunStart(col);
    forall m: nat | m < j
      ensures m !in TrailingRun(col)
    {
      if m < j - 1 {
        assert !KeepsRun(col[j - 1]);
      }
    }
  }

  /** A trigger that fires had been found met n - 1 times since it was last found unmet or
      fired, and at no call in between. */
  lemma FiringNeedsItsSamples(ts: seq<Trigger>, calls: seq<Call>, i: nat, k: nat, n: int)
    requires IsRun(ts, calls) && i < |ts| && k < |calls| && Asks(ts[i].when, n) && Log(ts, calls)[k][i].Fired?
    ensures var col := Before(ts, calls, i, k);
            var met := set m: nat | RunStart(col) <= m < |col| && col[m].Met?;
            |met| == n - 1 && ConditionHolds(ts[i].when, calls[k].signals)
  {
    OutcomeInRun(ts, calls, i, k, n);
    TrailingRunIsMetSince(Before(ts, calls, i, k));
    hide Log, TrailingRun, ConditionHolds, IsBarred, Reached, Asks, Before, RunStart;
  }

  // ---------------------------------------------------------------- what is decided

  /** The decision that a row of the log calls for. */
  ghost predicate DecidedBy(ts: seq<Trigger>, row: seq<Outcome>, counts: seq<int>, d: Decision)
    requires |row| == |counts| == |ts|
  {
    || (exists i | 0 <= i < |ts| :: row[i].Fired? && d == Decision(true, ts[i].switchTo, ts[i].name, counts[i] + 1))
    || (&& (forall i | 0 <= i < |ts| :: !row[i].Fired?)
        && exists i | 0 <= i < |ts| :: FirstMet(row, i) && d == Decision(false, "", ts[i].name, counts[i] + 1))
    || ((forall i | 0 <= i < |ts| :: !row[i].Fired? && !row[i].Met?) && d == Decision(false, "", "", 0))
  }

  ghost predicate FirstMet(row: seq<Outcome>, i: nat) {
    i < |row| && row[i].Met? && forall j | 0 <= j < i :: !row[j].Met?
  }

  /** The first of the first `n` triggers that the row has as met is reported. */
  ghost predicate Reports(ts: seq<Trigger>, row: seq<Outcome>, counts: seq<int>, n: nat, closest: Option<Decision>)
    requires |row| == |counts| == |ts| && n <= |ts|
  {
    if closest.None? then forall i | 0 <= i < n :: !row[i].Met?
    else
      exists i | 0 <= i < n :: FirstMet(row, i) && closest.value == Decision(false, "", ts[i].name, counts[i] + 1)
  }

  lemma {:induction false} ClosestIsFirstMet(ts: seq<Trigger>, call: Call, seen: Seen, n: nat)
    requires Fits(ts, call, seen) && n <= |ts|
    ensures Reports(ts, Row(ts, call, seen), seen.count, n, Closest(ts, call, seen, n))
  {
    if n == 0 {
    } else {
      ClosestIsFirstMet(ts, call, seen, n - 1);
      hide OutcomeAt;
      var row, before := Row(ts, call, seen), Closest(ts, call, seen, n - 1);
      assert row[n - 1] == OutcomeAt(ts, call, seen, n - 1);
      if before.None? && row[n - 1].Met? {
        assert FirstMet(row, n - 1);
      }
    }
  }

  lemma DecideOnRow(ts: seq<Trigger>, call: Call, seen: Seen)
    requires Fits(ts, call, seen)
    ensures DecidedBy(ts, Row(ts, call, seen), seen.count, Decide(ts, call, seen))
  {
    ClosestIsFirstMet(ts, call, seen, |ts|);
    var row, f := Row(ts, call, seen), FirstDue(ts, call, seen, 0);
    assert forall i | 0 <= i < |ts| :: row[i] == OutcomeAt(ts, call, seen, i);
    assert f < |ts| && call.signals.sampleCount != 0 ==> row[f].Fired?;
    hide Row, Closest, FirstDue, FirstMet;
    assert f == |ts| || call.signals.sampleCount == 0 ==> forall i | 0 <= i < |ts| :: !row[i].Fired?;
  }

  /** The decision of a call of any run: the target, name and sample number of the trigger that
      fires in it; else a report on the first trigger that it finds met; else nothing. */
  lemma DecisionInRun(ts: seq<Trigger>, calls: seq<Call>, k: nat)
    requires IsRun(ts, calls) && k < |calls|
    ensures IsRun(ts, calls[..k])
    ensures var d := Decide(ts, calls[k], Iterate(ts, calls[..k]));
            DecidedBy(ts, Log(ts, calls)[k], RunLengths(ts, calls, k), d)
  {
    var seen, lengths := Iterate(ts, calls[..k]), RunLengths(ts, calls, k);
    assert Fits(ts, calls[k], seen);
    RowOfLog(ts, calls, k);
    forall i | 0 <= i < |ts|
      ensures seen.count[i] == lengths[i]
    {
      StateBefore(ts, calls, i, k);
    }
    hide Decide, DecidedBy, Row, Log, Iterate, RunLengths;
    assert seen.count == lengths;
    DecideOnRow(ts, calls[k], seen);
  }

  /** The lengths of the trailing runs before call `k`. */
  ghost function RunLengths(ts: seq<Trigger>, calls: seq<Call>, k: nat): (r: seq<int>)
    requires IsRun(ts, calls) && k < |calls|
    ensures |r| == |ts|
  {
    seq(|ts|, i requires 0 <= i < |ts| => |TrailingRun(Before(ts, calls, i, k))|)
  }

  // ---------------------------------------------------------------- two samples

  /** The trigger of the API's own example. */
  const EXAMPLE := Trigger("t", Condition(Some(RateCondition(Some(0.90), None, 2)), None, None), "degraded", [], 300)

  function FailingCall(at: int): Call {
    Call("", Signals(0.80, 0.0, 1.0, 100, 0.0, at), [at, at])
  }

  function TwoCalls(): seq<Call> {
    [FailingCall(0), FailingCall(1)]
  }

  lemma ExampleHolds(k: nat)
    requires k < 2
    ensures IsRun([EXAMPLE], TwoCalls()) && Reached([EXAMPLE], TwoCalls(), 0, k)
    ensures ConditionHolds(EXAMPLE.when, TwoCalls()[k].signals)
    ensures !Barred(EXAMPLE, TwoCalls()[k].profile, None, k)
  {
  }

  lemma ExampleIsCounted()
    ensures IsRun([EXAMPLE], TwoCalls()) && Log([EXAMPLE], TwoCalls())[0][0] == Met
  {
    ExampleHolds(0);
    NothingIsNoRun(Before([EXAMPLE], TwoCalls(), 0, 0));
    OutcomeInRun([EXAMPLE], TwoCalls(), 0, 0, 2);
    hide Log, TrailingRun, FireTimes, ConditionHolds, Reached, Barred, IsRun;
  }

  /** Two failing samples: the first is only counted, and the second one fires. */
  lemma SecondSampleFires()
    ensures IsRun([EXAMPLE], TwoCalls())
    ensures Log([EXAMPLE], TwoCalls())[0][0] == Met && Log([EXAMPLE], TwoCalls())[1][0] == Fired(1)
  {
    ExampleIsCounted();
    ExampleHolds(1);
    OneMetIsARun(Before([EXAMPLE], TwoCalls(), 0, 1));
    OutcomeInRun([EXAMPLE], TwoCalls(), 0, 1, 2);
    hide Log, TrailingRun, FireTimes, ConditionHolds, Reached, Barred, IsRun;
  }

  lemma OneMetIsARun(col: seq<Outcome>)
    ensures col == [Met] ==> |TrailingRun(col)| == 1 && FireTimes(col) == []
  {
    if col == [Met] {
      assert TrailingRun(col) == {0};
    }
  }

  lemma NothingIsNoRun(col: seq<Outcome>)
    ensures col == [] ==> |TrailingRun(col)| == 0 && FireTimes(col) == []
  {
    if col == [] {
      assert TrailingRun(col) == {};
    }
  }
}
