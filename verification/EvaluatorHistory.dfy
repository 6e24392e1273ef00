/** What the counters and fire times of the evaluator mean over whole runs.

    A log records, for every call, what the call did with every trigger. The
    history machine `Log` decides from the log alone and keeps no counters; the
    evaluator's stored state is proved to be a function of it. */
module EvaluatorHistory {
  import opened Options
  import opened Api
  import opened Evaluator

  ghost predicate IsLog(n: nat, log: seq<seq<Outcome>>) {
    forall k | 0 <= k < |log| :: |log[k]| == n
  }

  /** The clock readings of a call never go backwards. */
  ghost predicate ClockAdvances(call: Call) {
    forall i, j | 0 <= i <= j < |call.clock| :: call.clock[i] <= call.clock[j]
  }

  ghost predicate IsRun(ts: seq<Trigger>, calls: seq<Call>) {
    forall k | 0 <= k < |calls| :: |calls[k].clock| == 2 * |ts| && ClockAdvances(calls[k])
  }

  /** What happened to trigger `i`, call by call. */
  ghost function Column(n: nat, log: seq<seq<Outcome>>, i: nat): (col: seq<Outcome>)
    requires IsLog(n, log) && i < n
    ensures |col| == |log| && forall k | 0 <= k < |log| :: col[k] == log[k][i]
  {
    if log == [] then [] else Column(n, log[..|log| - 1], i) + [log[|log| - 1][i]]
  }

  /** Outcomes that do not end a run of met evaluations. */
  ghost predicate KeepsRun(o: Outcome) {
    o.NotReached? || o.Skipped? || o.Met?
  }

  ghost predicate RunLasts(col: seq<Outcome>, k: nat) {
    forall m | k < m < |col| :: KeepsRun(col[m])
  }

  /** The met evaluations since which there has been neither an unmet one nor a firing. */
  ghost function TrailingRun(col: seq<Outcome>): set<nat> {
    set k: nat | k < |col| && col[k] == Met && RunLasts(col, k)
  }

  /** The times of all firings, in order. */
  ghost function FireTimes(col: seq<Outcome>): seq<int> {
    if col == [] then []
    else
      var before := FireTimes(col[..|col| - 1]);
      match col[|col| - 1]
      case Fired(at) => before + [at]
      case _ => before
  }

  ghost function LastOf(times: seq<int>): Option<int> {
    if times == [] then None else Some(times[|times| - 1])
  }

  /** The counts and fire times that the log determines. */
  ghost function SeenInLog(n: nat, log: seq<seq<Outcome>>): Seen
    requires IsLog(n, log)
  {
    Seen(seq(n, i requires 0 <= i < n => |TrailingRun(Column(n, log, i))|),
         seq(n, i requires 0 <= i < n => LastOf(FireTimes(Column(n, log, i)))))
  }

  ghost function Row(ts: seq<Trigger>, call: Call, seen: Seen): (row: seq<Outcome>)
    requires Fits(ts, call, seen)
    ensures |row| == |ts|
  {
    seq(|ts|, i requires 0 <= i < |ts| => OutcomeAt(ts, call, seen, i))
  }

  /** The history machine: every call is decided by the log so far. */
  ghost function Log(ts: seq<Trigger>, calls: seq<Call>): (log: seq<seq<Outcome>>)
    requires IsRun(ts, calls)
    ensures IsLog(|ts|, log) && |log| == |calls|
  {
    if calls == [] then []
    else
      var before := Log(ts, calls[..|calls| - 1]);
      before + [Row(ts, calls[|calls| - 1], SeenInLog(|ts|, before))]
  }

  /** The evaluator: every call is decided by the stored counters and fire times. */
  ghost function Iterate(ts: seq<Trigger>, calls: seq<Call>): (seen: Seen)
    requires IsRun(ts, calls)
    ensures |seen.count| == |seen.fired| == |ts|
  {
    if calls == [] then SeenIn(ts, Memory(map[], map[]))
    else After(ts, calls[|calls| - 1], Iterate(ts, calls[..|calls| - 1]))
  }

  // ---------------------------------------------------------------- refinement

  lemma RunLastsStep(col: seq<Outcome>, o: Outcome, k: nat)
    requires k < |col|
    ensures RunLasts(col + [o], k) <==> RunLasts(col, k) && KeepsRun(o)
  {
    var all := col + [o];
    assert all[|col|] == o;
    if RunLasts(all, k) {
      assert forall m | k < m < |col| :: col[m] == all[m];
    }
  }

  lemma TrailingRunStep(col: seq<Outcome>, o: Outcome)
    ensures |TrailingRun(col + [o])| == CountAfter(|TrailingRun(col)|, o)
  {
    var all := col + [o];
    forall k: nat | k < |col|
      ensures RunLasts(all, k) <==> RunLasts(col, k) && KeepsRun(o)
    {
      RunLastsStep(col, o, k);
    }
    hide RunLasts;
    assert RunLasts(all, |col|) by {
      RunLastsAtEnd(all, |col|);
    }
    if o == Met {
      assert TrailingRun(all) == TrailingRun(col) + {|col|};
    } else if KeepsRun(o) {
      assert TrailingRun(all) == TrailingRun(col);
    } else {
      assert TrailingRun(all) == {};
    }
  }

  lemma RunLastsAtEnd(col: seq<Outcome>, k: nat)
    requires k + 1 >= |col|
    ensures RunLasts(col, k)
  {
  }

  lemma ColumnStep(n: nat, log: seq<seq<Outcome>>, row: seq<Outcome>, i: nat)
    requires IsLog(n, log) && |row| == n && i < n
    ensures Column(n, log + [row], i) == Column(n, log, i) + [row[i]]
  {
    assert (log + [row])[..|log|] == log;
  }

  lemma FireTimesStep(col: seq<Outcome>, o: Outcome)
    ensures FireTimes(col + [o]) == FireTimes(col) + if o.Fired? then [o.at] else []
  {
    assert (col + [o])[..|col|] == col;
  }

  lemma SeenInLogStep(ts: seq<Trigger>, call: Call, log: seq<seq<Outcome>>)
    requires IsLog(|ts|, log) && |call.clock| == 2 * |ts|
    ensures var seen := SeenInLog(|ts|, log);
            SeenInLog(|ts|, log + [Row(ts, call, seen)]) == After(ts, call, seen)
  {
    var n, seen := |ts|, SeenInLog(|ts|, log);
    var row := Row(ts, call, seen);
    var now, next := SeenInLog(n, log + [row]), After(ts, call, seen);
    forall i | 0 <= i < n
      ensures now.count[i] == next.count[i] && now.fired[i] == next.fired[i]
    {
      ColumnStep(n, log, row, i);
      TrailingRunStep(Column(n, log, i), row[i]);
      FireTimesStep(Column(n, log, i), row[i]);
    }
    assert now.count == next.count && now.fired == next.fired;
  }

  /** The stored state is the length of the trailing run and the last fire time,
      for every run and every trigger. */
  lemma {:induction false} StateIsHistory(ts: seq<Trigger>, calls: seq<Call>)
    requires IsRun(ts, calls)
    ensures Iterate(ts, calls) == SeenInLog(|ts|, Log(ts, calls))
  {
    if calls == [] {
      assert forall i | 0 <= i < |ts| :: TrailingRun(Column(|ts|, [], i)) == {};
      assert Iterate(ts, calls).count == SeenInLog(|ts|, []).count;
      assert Iterate(ts, calls).fired == SeenInLog(|ts|, []).fired;
    } else {
      var prev := calls[..|calls| - 1];
      StateIsHistory(ts, prev);
      SeenInLogStep(ts, calls[|calls| - 1], Log(ts, prev));
    }
  }

  /** A stored count is never negative and always below what the trigger requires. */
  lemma {:induction false} CountsStayBelowRequired(ts: seq<Trigger>, calls: seq<Call>)
    requires IsRun(ts, calls)
    ensures forall i | 0 <= i < |ts| :: 0 <= Iterate(ts, calls).count[i] < RequiredSamples(ts[i].when)
  {
    if calls == [] {
    } else {
      var prev, call := calls[..|calls| - 1], calls[|calls| - 1];
      CountsStayBelowRequired(ts, prev);
      var seen := Iterate(ts, prev);
      forall i | 0 <= i < |ts|
        ensures 0 <= After(ts, call, seen).count[i] < RequiredSamples(ts[i].when)
      {
        var f := FirstDue(ts, call, seen, 0);
        assert OutcomeAt(ts, call, seen, i) == Met ==> i < f && !Due(ts, call, seen, i);
      }
    }
  }

  /** A call after any run switches exactly when some trigger is due. */
  lemma SwitchesIffSomeTriggerIsDue(ts: seq<Trigger>, calls: seq<Call>, call: Call)
    requires IsRun(ts, calls) && |call.clock| == 2 * |ts| && call.signals.sampleCount != 0
    ensures var seen := Iterate(ts, calls);
            Decide(ts, call, seen).shouldSwitch <==> exists i | 0 <= i < |ts| :: Due(ts, call, seen, i)
  {
    var f := FirstDue(ts, call, Iterate(ts, calls), 0);
    ClosestIsNoSwitch(ts, call, Iterate(ts, calls), |ts|);
  }

  lemma {:induction false} ClosestIsNoSwitch(ts: seq<Trigger>, call: Call, seen: Seen, n: nat)
    requires Fits(ts, call, seen) && n <= |ts|
    ensures Closest(ts, call, seen, n).Some? ==> !Closest(ts, call, seen, n).value.shouldSwitch
  {
    if n == 0 {
    } else {
      ClosestIsNoSwitch(ts, call, seen, n - 1);
    }
  }

  /** The call looked at the trigger's condition and stored its count. */
  ghost predicate Evaluates(o: Outcome) {
    o.Unmet? || o.Met? || o.Fired?
  }

  /** A call updates the counters of all triggers if and only if there are none, or it has
      samples, may evaluate each of them, and none but the last one is due: a firing leaves
      the later ones untouched. */
  lemma AllCountersUpdateIff(ts: seq<Trigger>, call: Call, seen: Seen)
    requires Fits(ts, call, seen)
    ensures (forall i | 0 <= i < |ts| :: Evaluates(OutcomeAt(ts, call, seen, i)))
       <==> || ts == []
            || (&& call.signals.sampleCount != 0
                && (forall i | 0 <= i < |ts| :: Eligible(ts, call, seen, i))
                && (forall i | 0 <= i < |ts| - 1 :: !Due(ts, call, seen, i)))
  {
    var f := FirstDue(ts, call, seen, 0);
    if ts != [] && forall i | 0 <= i < |ts| :: Evaluates(OutcomeAt(ts, call, seen, i)) {
      assert Evaluates(OutcomeAt(ts, call, seen, |ts| - 1));
      assert f >= |ts| - 1;
      hide FirstDue;
      forall i | 0 <= i < |ts|
        ensures Eligible(ts, call, seen, i)
      {
        assert Evaluates(OutcomeAt(ts, call, seen, i));
      }
    }
  }

  function AnyTraffic(name: string, switchTo: string): Trigger {
    Trigger(name, Condition(None, None, Some(0)), switchTo, [], 0)
  }

  /** Two triggers whose conditions both hold: the first one fires, and the second one's
      counter stays where it was, though its condition was met. */
  lemma FiringLeavesLaterCounterStale(seen: Seen)
    requires seen.count == [0, 0] && seen.fired == [None, None]
    ensures var ts := [AnyTraffic("a", "p"), AnyTraffic("b", "q")];
            var call := Call("", Signals(1.0, 0.0, 1.0, 1, 0.0, 0), [0, 0, 0, 0]);
            && ConditionHolds(ts[1].when, call.signals) && Eligible(ts, call, seen, 1)
            && Decide(ts, call, seen).triggerName == "a" && After(ts, call, seen).count == [0, 0]
            && OutcomeAt(ts, call, seen, 1) == NotReached
  {
    var ts := [AnyTraffic("a", "p"), AnyTraffic("b", "q")];
    var call := Call("", Signals(1.0, 0.0, 1.0, 1, 0.0, 0), [0, 0, 0, 0]);
    assert Due(ts, call, seen, 0);
    assert FirstDue(ts, call, seen, 0) == 0;
  }

  /** A due trigger's trailing run has length `required - 1`, so that the call completes it. */
  lemma DueCompletesRun(ts: seq<Trigger>, calls: seq<Call>, call: Call, i: nat)
    requires IsRun(ts, calls) && |call.clock| == 2 * |ts|
    requires i < |ts| && Due(ts, call, Iterate(ts, calls), i)
    ensures |TrailingRun(Column(|ts|, Log(ts, calls), i))| + 1 == RequiredSamples(ts[i].when)
    ensures Iterate(ts, calls).count[i] + 1 == RequiredSamples(ts[i].when)
  {
    CountsStayBelowRequired(ts, calls);
    StateIsHistory(ts, calls);
    assert SeenInLog(|ts|, Log(ts, calls)).count[i] == |TrailingRun(Column(|ts|, Log(ts, calls), i))|;
  }

  /** The least due trigger fires: its count restarts, the call's clock reading
      becomes its fire time, and the later triggers keep their state. */
  lemma TheLeastDueTriggerFires(ts: seq<Trigger>, calls: seq<Call>, call: Call, i: nat)
    requires IsRun(ts, calls) && |call.clock| == 2 * |ts| && call.signals.sampleCount != 0
    requires i < |ts| && Due(ts, call, Iterate(ts, calls), i)
    requires forall j | 0 <= j < i :: !Due(ts, call, Iterate(ts, calls), j)
    ensures Decide(ts, call, Iterate(ts, calls))
            == Decision(true, ts[i].switchTo, ts[i].name, RequiredSamples(ts[i].when))
    ensures After(ts, call, Iterate(ts, calls)).fired == Iterate(ts, calls).fired[i := Some(call.clock[2 * i + 1])]
    ensures forall j | i < j < |ts| :: After(ts, call, Iterate(ts, calls)).count[j] == Iterate(ts, calls).count[j]
    ensures After(ts, call, Iterate(ts, calls)).count[i] == 0
  {
    var seen := Iterate(ts, calls);
    DueCompletesRun(ts, calls, call, i);
    assert FirstDue(ts, call, seen, 0) == i;
    PartwayFire(ts, call, seen, i);
  }

  // ---------------------------------------------------------------- spacing of firings

  /** Consecutive times are at least `gap` apart. */
  ghost predicate Spaced(times: seq<int>, gap: int) {
    forall k | 0 <= k < |times| - 1 :: times[k] + gap <= times[k + 1]
  }

  lemma SpacedAppend(times: seq<int>, gap: int, at: int)
    requires Spaced(times, gap) && (times != [] ==> times[|times| - 1] + gap <= at)
    ensures Spaced(times + [at], gap)
  {
  }

  /** A firing happens no earlier than the cooldown after the previous one. */
  lemma FiringIsLate(ts: seq<Trigger>, call: Call, seen: Seen, i: nat)
    requires Fits(ts, call, seen) && i < |ts| && ClockAdvances(call)
    requires OutcomeAt(ts, call, seen, i).Fired? && seen.fired[i].Some?
    ensures seen.fired[i].value + Cooldown(ts[i]) <= OutcomeAt(ts, call, seen, i).at
  {
    assert Eligible(ts, call, seen, i);
    assert call.clock[2 * i] <= call.clock[2 * i + 1];
  }

  lemma CooldownStep(ts: seq<Trigger>, call: Call, seen: Seen, i: nat, col: seq<Outcome>)
    requires Fits(ts, call, seen) && i < |ts| && ClockAdvances(call)
    requires seen.fired[i] == LastOf(FireTimes(col)) && Spaced(FireTimes(col), Cooldown(ts[i]))
    ensures Spaced(FireTimes(col + [OutcomeAt(ts, call, seen, i)]), Cooldown(ts[i]))
  {
    var o := OutcomeAt(ts, call, seen, i);
    FireTimesStep(col, o);
    if o.Fired? {
      if FireTimes(col) != [] {
        FiringIsLate(ts, call, seen, i);
      }
      SpacedAppend(FireTimes(col), Cooldown(ts[i]), o.at);
    }
  }

  /** Successive firings of a trigger are at least its cooldown apart. */
  lemma {:induction false} FiringsRespectCooldown(ts: seq<Trigger>, calls: seq<Call>, i: nat)
    requires IsRun(ts, calls) && i < |ts|
    ensures Spaced(FireTimes(Column(|ts|, Log(ts, calls), i)), Cooldown(ts[i]))
  {
    hide Spaced, FireTimes, OutcomeAt, TrailingRun;
    if calls != [] {
      var prev, call := calls[..|calls| - 1], calls[|calls| - 1];
      FiringsRespectCooldown(ts, prev, i);
      var log := Log(ts, prev);
      var seen := SeenInLog(|ts|, log);
      ColumnStep(|ts|, log, Row(ts, call, seen), i);
      CooldownStep(ts, call, seen, i, Column(|ts|, log, i));
    } else {
      assert Spaced(FireTimes([]), Cooldown(ts[i])) by {
        NeverFired(Cooldown(ts[i]));
      }
    }
  }

  lemma NeverFired(gap: int)
    ensures Spaced(FireTimes([]), gap)
  {
  }

  /** Row `k` of a log is decided by the log of the first `k` calls. */
  lemma RowOfLog(ts: seq<Trigger>, calls: seq<Call>, k: nat)
    requires IsRun(ts, calls) && k < |calls|
    ensures Log(ts, calls)[k] == Row(ts, calls[k], Iterate(ts, calls[..k]))
  {
    LogPrefix(ts, calls, k + 1);
    assert calls[..k + 1][..k] == calls[..k];
    assert Log(ts, calls)[k] == Log(ts, calls)[..k + 1][k];
    StateIsHistory(ts, calls[..k]);
  }

  /** A trigger fires when its trailing run has length `required - 1` and is met once more. */
  lemma FiringCompletesRun(ts: seq<Trigger>, calls: seq<Call>, i: nat, k: nat)
    requires IsRun(ts, calls) && i < |ts| && k < |calls| && Log(ts, calls)[k][i].Fired?
    ensures |TrailingRun(Column(|ts|, Log(ts, calls[..k]), i))| == RequiredSamples(ts[i].when) - 1
  {
    RowOfLog(ts, calls, k);
    assert OutcomeAt(ts, calls[k], Iterate(ts, calls[..k]), i).Fired?;
    DueCompletesRun(ts, calls[..k], calls[k], i);
  }

  /** The calls strictly between `k1` and `k2` that evaluated trigger `i` and found it met. */
  ghost function MetBetween(n: nat, log: seq<seq<Outcome>>, i: nat, k1: nat, k2: nat): set<nat>
    requires IsLog(n, log) && i < n && k2 <= |log|
  {
    set k: nat | k1 < k < k2 && log[k][i] == Met
  }

  /** Between two firings of a trigger lie at least `required - 1` met evaluations
      of it (the second firing is itself the last of the run). */
  lemma FiringsNeedTheirSamples(ts: seq<Trigger>, calls: seq<Call>, i: nat, k1: nat, k2: nat)
    requires IsRun(ts, calls) && i < |ts| && k1 < k2 < |calls|
    requires Log(ts, calls)[k1][i].Fired? && Log(ts, calls)[k2][i].Fired?
    ensures |MetBetween(|ts|, Log(ts, calls), i, k1, k2)| >= RequiredSamples(ts[i].when) - 1
  {
    FiringCompletesRun(ts, calls, i, k2);
    LogPrefix(ts, calls, k2);
    MetSinceFiring(|ts|, Log(ts, calls), i, k1, k2);
  }

  /** The trailing run lies after every firing. */
  lemma MetSinceFiring(n: nat, log: seq<seq<Outcome>>, i: nat, k1: nat, k2: nat)
    requires IsLog(n, log) && i < n && k1 < k2 <= |log| && log[k1][i].Fired?
    ensures |TrailingRun(Column(n, log[..k2], i))| <= |MetBetween(n, log, i, k1, k2)|
  {
    var col := Column(n, log[..k2], i);
    assert forall k | 0 <= k < k2 :: col[k] == log[k][i];
    SubsetSize(TrailingRun(col), MetBetween(n, log, i, k1, k2));
  }

  lemma SubsetSize(a: set<nat>, b: set<nat>)
    requires a <= b
    ensures |a| <= |b|
  {
    if a != {} {
      var k :| k in a;
      SubsetSize(a - {k}, b - {k});
    }
  }

  lemma {:induction false} LogPrefix(ts: seq<Trigger>, calls: seq<Call>, k: nat)
    requires IsRun(ts, calls) && k <= |calls|
    ensures Log(ts, calls)[..k] == Log(ts, calls[..k])
  {
    if k == |calls| {
      assert calls[..k] == calls;
    } else {
      var prev := calls[..|calls| - 1];
      LogPrefix(ts, prev, k);
      assert prev[..k] == calls[..k];
    }
  }

  // ---------------------------------------------------------------- switch rate

  ghost function CountInWindow(times: seq<int>, from: int, to: int): nat {
    if times == [] then 0
    else
      CountInWindow(times[..|times| - 1], from, to) + if from <= times[|times| - 1] <= to then 1 else 0
  }

  /** At most `length / gap + 1` times that are `gap` apart fit into a window. */
  lemma {:induction false} SpacedTimesAreFew(times: seq<int>, gap: int, from: int, to: int)
    requires Spaced(times, gap) && gap > 0
    ensures CountInWindow(times, from, to) == 0 || (CountInWindow(times, from, to) - 1) * gap <= to - from
    decreases |times|
  {
    if |times| > 0 {
      var n := |times|;
      var last, rest := times[n - 1], times[..n - 1];
      assert Spaced(rest, gap);
      if from <= last <= to {
        if n == 1 {
          assert CountInWindow(rest, from, to) == 0;
        } else {
          Narrow(rest, gap, from, to, last - gap);
          SpacedTimesAreFew(rest, gap, from, last - gap);
          var c := CountInWindow(rest, from, to);
          if c > 0 {
            assert (c + 1 - 1) * gap == (c - 1) * gap + gap;
          }
        }
      } else {
        SpacedTimesAreFew(rest, gap, from, to);
      }
    }
  }

  /** Spaced times all lie at or below their last one. */
  lemma {:induction false} Narrow(times: seq<int>, gap: int, from: int, to: int, top: int)
    requires Spaced(times, gap) && gap > 0 && |times| > 0 && times[|times| - 1] <= top <= to
    ensures CountInWindow(times, from, to) == CountInWindow(times, from, top)
  {
    if |times| > 1 {
      Narrow(times[..|times| - 1], gap, from, to, top);
    }
  }

  ghost predicate InWindow(o: Outcome, from: int, to: int) {
    o.Fired? && from <= o.at <= to
  }

  ghost predicate Switches(row: seq<Outcome>, from: int, to: int) {
    exists i | 0 <= i < |row| :: InWindow(row[i], from, to)
  }

  /** The number of profile switches decided within a window. */
  ghost function SwitchCount(log: seq<seq<Outcome>>, from: int, to: int): nat {
    if log == [] then 0
    else SwitchCount(log[..|log| - 1], from, to) + if Switches(log[|log| - 1], from, to) then 1 else 0
  }

  /** The firings of one trigger within a window. */
  ghost function Firings(width: nat, log: seq<seq<Outcome>>, i: nat, from: int, to: int): nat
    requires IsLog(width, log) && i < width
  {
    CountInWindow(FireTimes(Column(width, log, i)), from, to)
  }

  /** The firings of the first `n` triggers within a window. */
  ghost function FiringCount(width: nat, log: seq<seq<Outcome>>, n: nat, from: int, to: int): nat
    requires IsLog(width, log) && n <= width
  {
    if n == 0 then 0
    else FiringCount(width, log, n - 1, from, to) + Firings(width, log, n - 1, from, to)
  }

  lemma FiringsStep(width: nat, log: seq<seq<Outcome>>, row: seq<Outcome>, i: nat, from: int, to: int)
    requires IsLog(width, log) && |row| == width && i < width
    ensures Firings(width, log + [row], i, from, to)
            == Firings(width, log, i, from, to) + if InWindow(row[i], from, to) then 1 else 0
  {
    ColumnStep(width, log, row, i);
    CountStep(Column(width, log, i), row[i], from, to);
  }

  lemma CountStep(col: seq<Outcome>, o: Outcome, from: int, to: int)
    ensures CountInWindow(FireTimes(col + [o]), from, to)
            == CountInWindow(FireTimes(col), from, to) + if InWindow(o, from, to) then 1 else 0
  {
    FireTimesStep(col, o);
    if o.Fired? {
      assert (FireTimes(col) + [o.at])[..|FireTimes(col)|] == FireTimes(col);
    } else {
      assert FireTimes(col) + [] == FireTimes(col);
    }
  }

  /** Some trigger among the first `n` fired in the window. */
  ghost predicate SwitchAmong(row: seq<Outcome>, n: nat, from: int, to: int)
    requires n <= |row|
  {
    n > 0 && (SwitchAmong(row, n - 1, from, to) || InWindow(row[n - 1], from, to))
  }

  lemma {:induction false} SwitchAmongAll(row: seq<Outcome>, n: nat, from: int, to: int)
    requires n <= |row|
    ensures SwitchAmong(row, n, from, to) <==> exists i | 0 <= i < n :: InWindow(row[i], from, to)
  {
    if n == 0 {
    } else {
      SwitchAmongAll(row, n - 1, from, to);
    }
  }

  /** The firings that a row adds to those in the log. */
  ghost predicate AddsRow(
    width: nat, log: seq<seq<Outcome>>, longer: seq<seq<Outcome>>, row: seq<Outcome>, from: int, to: int)
    requires IsLog(width, log) && IsLog(width, longer) && |row| == width
  {
    forall i | 0 <= i < width ::
      Firings(width, longer, i, from, to)
      == Firings(width, log, i, from, to) + if InWindow(row[i], from, to) then 1 else 0
  }

  lemma {:induction false} FiringCountStep(
    width: nat, log: seq<seq<Outcome>>, longer: seq<seq<Outcome>>, row: seq<Outcome>, n: nat, from: int, to: int)
    requires IsLog(width, log) && IsLog(width, longer) && |row| == width && n <= width
    requires AddsRow(width, log, longer, row, from, to)
    ensures FiringCount(width, longer, n, from, to)
            >= FiringCount(width, log, n, from, to) + if SwitchAmong(row, n, from, to) then 1 else 0
  {
    hide IsLog, Firings, FiringCount, SwitchAmong, InWindow;
    FiringCountOne(width, log, n, from, to);
    FiringCountOne(width, longer, n, from, to);
    SwitchAmongOne(row, n, from, to);
    if n == 0 {
    } else {
      FiringCountStep(width, log, longer, row, n - 1, from, to);
    }
  }

  lemma RowIsAdded(width: nat, log: seq<seq<Outcome>>, row: seq<Outcome>, from: int, to: int)
    requires IsLog(width, log) && |row| == width
    ensures IsLog(width, log + [row]) && AddsRow(width, log, log + [row], row, from, to)
  {
    hide Firings, InWindow;
    forall i | 0 <= i < width
      ensures Firings(width, log + [row], i, from, to)
           == Firings(width, log, i, from, to) + if InWindow(row[i], from, to) then 1 else 0
    {
      FiringsStep(width, log, row, i, from, to);
    }
  }

  lemma FiringCountOne(width: nat, log: seq<seq<Outcome>>, n: nat, from: int, to: int)
    requires IsLog(width, log) && n <= width
    ensures FiringCount(width, log, n, from, to)
            == if n == 0 then 0 else FiringCount(width, log, n - 1, from, to) + Firings(width, log, n - 1, from, to)
  {
  }

  lemma SwitchAmongOne(row: seq<Outcome>, n: nat, from: int, to: int)
    requires n <= |row|
    ensures SwitchAmong(row, n, from, to)
       <==> n > 0 && (SwitchAmong(row, n - 1, from, to) || InWindow(row[n - 1], from, to))
  {
  }

  lemma SwitchCountStep(log: seq<seq<Outcome>>, row: seq<Outcome>, from: int, to: int)
    ensures SwitchCount(log + [row], from, to)
            == SwitchCount(log, from, to) + if SwitchAmong(row, |row|, from, to) then 1 else 0
  {
    SwitchAmongAll(row, |row|, from, to);
    assert (log + [row])[..|log|] == log;
  }

  lemma {:induction false} SwitchesAreFirings(width: nat, log: seq<seq<Outcome>>, from: int, to: int)
    requires IsLog(width, log)
    ensures SwitchCount(log, from, to) <= FiringCount(width, log, width, from, to)
  {
    hide FiringCount, SwitchAmong, Switches, AddsRow;
    if log == [] {
    } else {
      var before, row := log[..|log| - 1], log[|log| - 1];
      assert log == before + [row];
      SwitchesAreFirings(width, before, from, to);
      SwitchCountStep(before, row, from, to);
      assert AddsRow(width, before, log, row, from, to) by {
        RowIsAdded(width, before, row, from, to);
      }
      FiringCountStep(width, before, log, row, width, from, to);
    }
  }

  ghost predicate AllCoolDown(ts: seq<Trigger>) {
    forall i | 0 <= i < |ts| :: Cooldown(ts[i]) > 0
  }

  /** How many times spaced by `gap` fit into a closed window of this length. */
  ghost function Fitting(length: nat, gap: int): nat
    requires gap > 0
  {
    length / gap + 1
  }

  /** The sum of `length / cooldown + 1` over the first `n` triggers. */
  ghost function RateBound(ts: seq<Trigger>, n: nat, length: nat): nat
    requires AllCoolDown(ts) && n <= |ts|
  {
    if n == 0 then 0 else RateBound(ts, n - 1, length) + Fitting(length, Cooldown(ts[n - 1]))
  }

  lemma MulMonotone(a: int, b: int, g: nat)
    requires a <= b
    ensures a * g <= b * g
  {
    assert b * g == a * g + (b - a) * g;
  }

  lemma FewFit(m: nat, gap: int, length: nat)
    requires gap > 0 && m * gap <= length
    ensures m + 1 <= Fitting(length, gap)
  {
    var q := length / gap;
    if m > q {
      MulMonotone(q + 1, m, gap);
    }
  }

  /** A window holds at most `length / cooldown + 1` firings of one trigger. */
  lemma TriggerFiringsAreBounded(ts: seq<Trigger>, calls: seq<Call>, i: nat, from: int, length: nat)
    requires IsRun(ts, calls) && i < |ts| && Cooldown(ts[i]) > 0
    ensures Firings(|ts|, Log(ts, calls), i, from, from + length) <= Fitting(length, Cooldown(ts[i]))
  {
    hide Column, FireTimes, CountInWindow, Log, Spaced, Fitting;
    var times := FireTimes(Column(|ts|, Log(ts, calls), i));
    FiringsRespectCooldown(ts, calls, i);
    SpacedTimesAreFew(times, Cooldown(ts[i]), from, from + length);
    var c := CountInWindow(times, from, from + length);
    if c > 0 {
      FewFit(c - 1, Cooldown(ts[i]), length);
    } else {
      FewFit(0, Cooldown(ts[i]), length);
    }
  }

  lemma {:induction false} FiringsAddUp(
    ts: seq<Trigger>, log: seq<seq<Outcome>>, n: nat, from: int, length: nat)
    requires IsLog(|ts|, log) && AllCoolDown(ts) && n <= |ts|
    requires forall i | 0 <= i < n :: Firings(|ts|, log, i, from, from + length) <= Fitting(length, Cooldown(ts[i]))
    ensures FiringCount(|ts|, log, n, from, from + length) <= RateBound(ts, n, length)
  {
    if n == 0 {
    } else {
      hide Firings, Fitting;
      FiringsAddUp(ts, log, n - 1, from, length);
    }
  }

  /** Over any run, the switches within any window number at most the sum over the
      triggers of (window / cooldown + 1). */
  lemma SwitchRateIsBounded(ts: seq<Trigger>, calls: seq<Call>, from: int, length: nat)
    requires IsRun(ts, calls) && AllCoolDown(ts)
    ensures SwitchCount(Log(ts, calls), from, from + length) <= RateBound(ts, |ts|, length)
  {
    hide Firings, Fitting, FiringCount, SwitchCount, RateBound, Log;
    SwitchesAreFirings(|ts|, Log(ts, calls), from, from + length);
    forall i | 0 <= i < |ts|
      ensures Firings(|ts|, Log(ts, calls), i, from, from + length) <= Fitting(length, Cooldown(ts[i]))
    {
      TriggerFiringsAreBounded(ts, calls, i, from, length);
    }
    FiringsAddUp(ts, Log(ts, calls), |ts|, from, length);
  }
}
