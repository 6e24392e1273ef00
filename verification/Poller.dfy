/** The detection poller (internal/signal/poller.go): debounce counters, the
    breach test and the capacity-1 output channel of one policy. */
module Poller {
  import opened Options
  import opened Api
  import Evaluator

  const MILLISECOND := 1_000_000
  const DEFAULT_POLL_INTERVAL := 500 * MILLISECOND
  const DEFAULT_CONSECUTIVE_BREACHES := 3
  const DEFAULT_CONSECUTIVE_RECOVERIES := 4
  const MIN_POLL_INTERVAL := 100 * MILLISECOND
  const MAX_POLL_INTERVAL := 10_000 * MILLISECOND

  datatype PollerConfig = PollerConfig(pollInterval: int, consecutiveBreaches: int, consecutiveRecoveries: int)
  {
    ghost predicate InRange() {
      && MIN_POLL_INTERVAL <= pollInterval <= MAX_POLL_INTERVAL
      && 1 <= consecutiveBreaches <= 20
      && 1 <= consecutiveRecoveries <= 20
    }

    /** The configuration that a poller runs with when it is given this one. */
    function Defaulted(): PollerConfig {
      PollerConfig(
        if MIN_POLL_INTERVAL <= pollInterval <= MAX_POLL_INTERVAL then pollInterval else DEFAULT_POLL_INTERVAL,
        if 1 <= consecutiveBreaches <= 20 then consecutiveBreaches else DEFAULT_CONSECUTIVE_BREACHES,
        if 1 <= consecutiveRecoveries <= 20 then consecutiveRecoveries else DEFAULT_CONSECUTIVE_RECOVERIES)
    }

    /** Every field that is in range is kept, every other one has its default. */
    ghost predicate Defaults(given: PollerConfig) {
      && InRange()
      && pollInterval in {given.pollInterval, DEFAULT_POLL_INTERVAL}
      && (pollInterval != given.pollInterval ==> !(MIN_POLL_INTERVAL <= given.pollInterval <= MAX_POLL_INTERVAL))
      && consecutiveBreaches in {given.consecutiveBreaches, DEFAULT_CONSECUTIVE_BREACHES}
      && (consecutiveBreaches != given.consecutiveBreaches ==> !(1 <= given.consecutiveBreaches <= 20))
      && consecutiveRecoveries in {given.consecutiveRecoveries, DEFAULT_CONSECUTIVE_RECOVERIES}
      && (consecutiveRecoveries != given.consecutiveRecoveries ==> !(1 <= given.consecutiveRecoveries <= 20))
    }

    method WithDefaults() returns (c: PollerConfig)
      ensures c.Defaults(this)
      ensures c == Defaulted() && (InRange() ==> c == this)
      ensures c.pollInterval == if 100_000_000 <= pollInterval <= 10_000_000_000 then pollInterval else 500_000_000
      ensures c.consecutiveBreaches == if 1 <= consecutiveBreaches <= 20 then consecutiveBreaches else 3
      ensures c.consecutiveRecoveries == if 1 <= consecutiveRecoveries <= 20 then consecutiveRecoveries else 4
    {
      c := this;
      if c.pollInterval < MIN_POLL_INTERVAL || c.pollInterval > MAX_POLL_INTERVAL {
        c := c.(pollInterval := DEFAULT_POLL_INTERVAL);
      }
      if c.consecutiveBreaches <= 0 || c.consecutiveBreaches > 20 {
        c := c.(consecutiveBreaches := DEFAULT_CONSECUTIVE_BREACHES);
      }
      if c.consecutiveRecoveries <= 0 || c.consecutiveRecoveries > 20 {
        c := c.(consecutiveRecoveries := DEFAULT_CONSECUTIVE_RECOVERIES);
      }
    }
  }

  // ---------------------------------------------------------------- breach test

  /** The Below bound of a trigger on the success rate, if it has one. */
  function BelowBound(t: Trigger): Option<real> {
    if t.when.successRate.Some? then t.when.successRate.value.below else None
  }

  /** The largest Below bound of any trigger, or 0 if there is none. */
  function LargestBelow(ts: seq<Trigger>): (m: real)
    ensures m >= 0.0
    ensures forall t | t in ts && BelowBound(t).Some? :: BelowBound(t).value <= m
    ensures m == 0.0 || exists t | t in ts :: BelowBound(t) == Some(m)
  {
    if ts == [] then 0.0
    else
      var rest := LargestBelow(ts[1..]);
      assert forall t | t in ts :: t == ts[0] || t in ts[1..];
      if BelowBound(ts[0]).Some? && BelowBound(ts[0]).value > rest then
        assert ts[0] in ts;
        BelowBound(ts[0]).value
      else rest
  }

  predicate Breaches(ts: seq<Trigger>, rate: real) {
    exists t | t in ts :: BelowBound(t).Some? && BelowBound(t).value > 0.0 && rate < BelowBound(t).value
  }

  method IsBreaching(ts: seq<Trigger>, rate: real) returns (b: bool)
    ensures b == Breaches(ts, rate)
  {
    for i := 0 to |ts|
      invariant !Breaches(ts[..i], rate)
    {
      assert forall t | t in ts[..i + 1] :: t in ts[..i] || t == ts[i];
      var t := ts[i];
      if t.when.successRate.None? {
        continue;
      }
      var below := t.when.successRate.value.below;
      if below.Some? {
        if below.value > 0.0 && rate < below.value {
          assert t in ts && BelowBound(t) == below;
          return true;
        }
      }
    }
    assert ts[..|ts|] == ts;
    return false;
  }

  /** The gate opens exactly below the largest Below bound of any trigger. */
  lemma BreachIsBelowLargestBound(ts: seq<Trigger>, rate: real)
    requires rate >= 0.0
    ensures Breaches(ts, rate) <==> rate < LargestBelow(ts)
  {
    var m := LargestBelow(ts);
    if rate < m {
      var t :| t in ts && BelowBound(t) == Some(m);
    }
  }

  /** The smallest Below bound of any trigger, if there is one. */
  ghost function SmallestBelow(ts: seq<Trigger>): (m: Option<real>)
    ensures forall t | t in ts && BelowBound(t).Some? :: m.Some? && m.value <= BelowBound(t).value
    ensures m.Some? ==> exists t | t in ts :: BelowBound(t) == m
  {
    if ts == [] then None
    else
      var rest, own := SmallestBelow(ts[1..]), BelowBound(ts[0]);
      assert ts[0] in ts && forall t | t in ts :: t == ts[0] || t in ts[1..];
      if own.None? || (rest.Some? && rest.value <= own.value) then rest else own
  }

  /** The rate is below the lowest threshold of all triggers. */
  ghost predicate BelowLowest(ts: seq<Trigger>, rate: real) {
    SmallestBelow(ts).Some? && rate < SmallestBelow(ts).value
  }

  /** All Below bounds are the same, but for those that no rate can be below. */
  ghost predicate BoundsAgree(ts: seq<Trigger>) {
    forall t, u | t in ts && u in ts && BelowBound(t).Some? && BelowBound(u).Some? ::
      BelowBound(t) == BelowBound(u) || (BelowBound(t).value <= 0.0 && BelowBound(u).value <= 0.0)
  }

  lemma AgreeingBounds(ts: seq<Trigger>)
    requires BoundsAgree(ts)
    ensures LargestBelow(ts) > 0.0 ==> SmallestBelow(ts) == Some(LargestBelow(ts))
    ensures LargestBelow(ts) == 0.0 && SmallestBelow(ts).Some? ==> SmallestBelow(ts).value <= 0.0
  {
    var low, high := SmallestBelow(ts), LargestBelow(ts);
    hide SmallestBelow, LargestBelow;
    if high > 0.0 {
      var t :| t in ts && BelowBound(t) == Some(high);
      var u :| u in ts && BelowBound(u) == low;
    }
  }

  lemma DisagreeingBounds(ts: seq<Trigger>)
    requires !BoundsAgree(ts)
    ensures SmallestBelow(ts).Some? && LargestBelow(ts) > 0.0 && SmallestBelow(ts).value < LargestBelow(ts)
  {
    hide SmallestBelow, LargestBelow;
    var t, u :| t in ts && u in ts && BelowBound(t).Some? && BelowBound(u).Some?
                && BelowBound(t).value < BelowBound(u).value && BelowBound(u).value > 0.0;
  }

  /** A breach means a rate below the lowest threshold, for all rates, if and only if the
      triggers do not have different thresholds. */
  lemma BreachIsBelowLowestIffBoundsAgree(ts: seq<Trigger>)
    ensures (forall rate | rate >= 0.0 :: Breaches(ts, rate) <==> BelowLowest(ts, rate)) <==> BoundsAgree(ts)
  {
    forall rate | rate >= 0.0
      ensures Breaches(ts, rate) <==> rate < LargestBelow(ts)
    {
      BreachIsBelowLargestBound(ts, rate);
    }
    hide Breaches, SmallestBelow, LargestBelow, BoundsAgree;
    if BoundsAgree(ts) {
      AgreeingBounds(ts);
    } else {
      DisagreeingBounds(ts);
      var low := SmallestBelow(ts).value;
      var rate := if low > 0.0 then low else 0.0;
      assert Breaches(ts, rate) && !BelowLowest(ts, rate);
    }
  }

  function Watcher(name: string, below: real): Trigger {
    Trigger(name, Condition(Some(RateCondition(Some(below), None, 1)), None, None), "p", [], 0)
  }

  /** With thresholds of 0.90 and 0.95 a rate of 0.92 breaches, though it is above the lowest. */
  lemma RateBetweenThresholdsBreaches()
    ensures var ts := [Watcher("low", 0.90), Watcher("high", 0.95)];
            Breaches(ts, 0.92) && !BelowLowest(ts, 0.92)
  {
    var ts := [Watcher("low", 0.90), Watcher("high", 0.95)];
    assert ts[0] in ts && ts[1] in ts;
    assert BelowBound(ts[0]) == Some(0.90) && BelowBound(ts[1]) == Some(0.95);
  }

  /** The gate agrees with the evaluator: whenever the condition of a trigger with a
      Below bound holds, the poller counts the scrape as a breach. */
  lemma HoldingConditionBreaches(ts: seq<Trigger>, t: Trigger, s: Signals)
    requires t in ts && BelowBound(t).Some? && s.successRate >= 0.0
    requires Evaluator.ConditionHolds(t.when, s)
    ensures Breaches(ts, s.successRate)
  {
    assert s.successRate < BelowBound(t).value;
  }

  // ---------------------------------------------------------------- debounce

  datatype Emission = Nothing | Breach | Recovery

  /** The debounce counters. */
  datatype Debounce = Debounce(breach: nat, clean: nat, firing: bool)

  const QUIET := Debounce(0, 0, false)

  function Observed(d: Debounce, breaching: bool): Debounce {
    if breaching then d.(clean := 0, breach := d.breach + 1) else d.(breach := 0, clean := d.clean + 1)
  }

  /** What an observation with the counters already advanced emits. */
  function Emitted(d: Debounce, b: int, r: int): Emission {
    if !d.firing && d.breach >= b then Breach
    else if d.firing && d.clean >= r then Recovery
    else Nothing
  }

  function Step(d: Debounce, breaching: bool, b: int, r: int): (Debounce, Emission) {
    var n := Observed(d, breaching);
    match Emitted(n, b, r)
    case Breach => (n.(firing := true), Breach)
    case Recovery => (n.(firing := false), Recovery)
    case Nothing => (n, Nothing)
  }

  /** The poller of one policy. `output` is the channel of capacity 1. */
  class Poller {
    const cfg: PollerConfig
    const triggers: seq<Trigger>
    var state: Debounce
    var output: Option<Signals>

    constructor (ts: seq<Trigger>, c: PollerConfig)
      ensures cfg == c.Defaulted() && cfg.Defaults(c) && triggers == ts
      ensures state == QUIET && output == None
    {
      var d := c.WithDefaults();
      cfg := d;
      triggers := ts;
      state := QUIET;
      output := None;
    }

    /** Tries to send; if the channel is full, drains it and tries again. Without a
        concurrent receiver the fresh value always ends up in the channel. */
    method SendNonBlocking(sig: Signals)
      modifies `output
      ensures output == Some(sig)
    {
      if output.None? {
        output := Some(sig);
      } else {
        if output.Some? {
          output := None;
        }
        if output.None? {
          output := Some(sig);
        }
      }
    }

    /** One poll. A failed scrape (None) leaves everything as it was. */
    method Tick(scrape: Option<Signals>) returns (ghost e: Emission)
      modifies this`state, this`output
      ensures scrape.None? ==> state == old(state) && output == old(output) && e == Nothing
      ensures scrape.Some? ==>
                && (state, e) == Step(old(state), Breaches(triggers, scrape.value.successRate),
                                      cfg.consecutiveBreaches, cfg.consecutiveRecoveries)
                && output == if e == Nothing then old(output) else scrape
    {
      e := Nothing;
      if scrape.None? {
        return;
      }
      var breaching := IsBreaching(triggers, scrape.value.successRate);
      if breaching {
        state := state.(clean := 0);
        state := state.(breach := state.breach + 1);
      } else {
        state := state.(breach := 0);
        state := state.(clean := state.clean + 1);
      }
      if !state.firing && state.breach >= cfg.consecutiveBreaches {
        state := state.(firing := true);
        SendNonBlocking(scrape.value);
        e := Breach;
      } else if state.firing && state.clean >= cfg.consecutiveRecoveries {
        state := state.(firing := false);
        SendNonBlocking(scrape.value);
        e := Recovery;
      }
    }
  }

  // ---------------------------------------------------------------- whole runs

  /** One poll of a run: None is a failed scrape, Some(b) one that does or does not breach. */
  type Poll = Option<bool>

  /** The automaton over a run of polls, with what each poll emitted. */
  ghost function Run(polls: seq<Poll>, b: int, r: int): (result: (Debounce, seq<Emission>))
    ensures |result.1| == |polls|
  {
    if polls == [] then (QUIET, [])
    else
      var (d, es) := Run(polls[..|polls| - 1], b, r);
      match polls[|polls| - 1]
      case None => (d, es + [Nothing])
      case Some(breaching) => var (d', e) := Step(d, breaching, b, r); (d', es + [e])
  }

  /** The successful scrapes of a run. */
  ghost function Successes(polls: seq<Poll>): seq<bool> {
    if polls == [] then []
    else
      var before := Successes(polls[..|polls| - 1]);
      match polls[|polls| - 1]
      case None => before
      case Some(breaching) => before + [breaching]
  }

  /** The last `n` successful scrapes exist and all have this value. */
  ghost predicate LastAll(obs: seq<bool>, n: int, v: bool) {
    n <= |obs| && forall j | 0 <= j < |obs| && |obs| - n <= j :: obs[j] == v
  }

  /** The emissions proper, in order. */
  ghost function Emissions(es: seq<Emission>): seq<Emission> {
    if es == [] then []
    else
      var before := Emissions(es[..|es| - 1]);
      if es[|es| - 1] == Nothing then before else before + [es[|es| - 1]]
  }

  /** The counters count the trailing breaching and clean scrapes; failed scrapes do not matter. */
  lemma {:induction false} CountersAreTrailing(polls: seq<Poll>, b: int, r: int, n: nat)
    ensures var (d, es) := Run(polls, b, r);
            && (d.breach >= n <==> LastAll(Successes(polls), n, true))
            && (d.clean >= n <==> LastAll(Successes(polls), n, false))
  {
    if polls == [] {
    } else {
      var prev := polls[..|polls| - 1];
      CountersAreTrailing(prev, b, r, n);
      match polls[|polls| - 1]
      case None =>
      case Some(v) =>
        if n > 0 {
          CountersAreTrailing(prev, b, r, n - 1);
          LastAllStep(Successes(prev), v, n, true);
          LastAllStep(Successes(prev), v, n, false);
        }
    }
  }

  lemma LastAllStep(obs: seq<bool>, o: bool, n: nat, v: bool)
    requires n > 0
    ensures LastAll(obs + [o], n, v) <==> o == v && LastAll(obs, n - 1, v)
  {
    var all := obs + [o];
    if LastAll(all, n, v) {
      assert all[|obs|] == o;
      assert forall j | 0 <= j < |obs| :: all[j] == obs[j];
    }
  }

  /** A poll emits a breach exactly when the poller is not firing and the last `b`
      successful scrapes all breach, a recovery exactly when it is firing and the
      last `r` are all clean; a failed scrape emits nothing. */
  lemma DebounceRefinesHistory(polls: seq<Poll>, poll: Poll, b: nat, r: nat)
    requires b >= 1 && r >= 1
    ensures var es := Run(polls + [poll], b, r).1;
            var firing := |Emissions(Run(polls, b, r).1)| % 2 == 1;
            var obs := Successes(polls + [poll]);
            && (es[|polls|] == Breach <==> poll.Some? && !firing && LastAll(obs, b, true))
            && (es[|polls|] == Recovery <==> poll.Some? && firing && LastAll(obs, r, false))
  {
    var all := polls + [poll];
    assert all[..|polls|] == polls;
    CountersAreTrailing(all, b, r, b);
    CountersAreTrailing(all, b, r, r);
    EmissionsAlternate(polls, b, r);
  }

  /** Emissions strictly alternate, starting with a breach, and the poller is firing
      exactly after an odd number of them. */
  lemma {:induction false} EmissionsAlternate(polls: seq<Poll>, b: int, r: int)
    ensures var (d, es) := Run(polls, b, r);
            && d.firing == (|Emissions(es)| % 2 == 1)
            && forall k | 0 <= k < |Emissions(es)| :: Emissions(es)[k] == if k % 2 == 0 then Breach else Recovery
  {
    if polls == [] {
    } else {
      var prev := polls[..|polls| - 1];
      EmissionsAlternate(prev, b, r);
      var es := Run(prev, b, r).1;
      var e := Run(polls, b, r).1[|prev|];
      assert (es + [e])[..|es|] == es;
      assert Run(polls, b, r).1 == es + [e];
    }
  }

  /** ceil(k / 2) * b + floor(k / 2) * r. */
  ghost function Needed(k: nat, b: nat, r: nat): nat {
    if k == 0 then 0 else Needed(k - 1, b, r) + if k % 2 == 1 then b else r
  }

  lemma {:induction false} NeededIsLinear(k: nat, b: nat, r: nat)
    ensures Needed(k, b, r) == (k + 1) / 2 * b + k / 2 * r
  {
    if k == 0 {
    } else {
      NeededIsLinear(k - 1, b, r);
      if k % 2 == 1 {
        assert (k + 1) / 2 == k / 2 + 1 && k / 2 == (k - 1) / 2;
      } else {
        assert k / 2 == (k - 1) / 2 + 1 && (k + 1) / 2 == k / 2;
      }
    }
  }

  /** The streak that counts towards the next emission. */
  ghost function Streak(d: Debounce): nat {
    if d.firing then d.clean else d.breach
  }

  /** One successful scrape pays for its share of the next emission. */
  lemma StepIsPaidFor(d: Debounce, breaching: bool, k: nat, n: nat, b: nat, r: nat)
    requires b >= 1 && r >= 1 && d.firing == (k % 2 == 1) && Needed(k, b, r) + Streak(d) <= n
    ensures var (d', e) := Step(d, breaching, b, r);
            Needed(if e == Nothing then k else k + 1, b, r) + Streak(d') <= n + 1
  {
  }

  lemma EmissionsOne(es: seq<Emission>, e: Emission)
    ensures Emissions(es + [e]) == if e == Nothing then Emissions(es) else Emissions(es) + [e]
  {
    assert (es + [e])[..|es|] == es;
  }

  /** The current streak lies wholly after the emission that made the poller switch
      sides, so the scrapes before it still pay for the earlier emissions. */
  lemma {:induction false} StreakIsPaidFor(polls: seq<Poll>, b: nat, r: nat)
    requires b >= 1 && r >= 1
    ensures var (d, es) := Run(polls, b, r);
            Needed(|Emissions(es)|, b, r) + Streak(d) <= |Successes(polls)|
  {
    if polls == [] {
    } else {
      var prev, poll := polls[..|polls| - 1], polls[|polls| - 1];
      StreakIsPaidFor(prev, b, r);
      EmissionsAlternate(prev, b, r);
      var (d, es) := Run(prev, b, r);
      hide Emissions, Needed, Streak, Step;
      if poll.Some? {
        StepIsPaidFor(d, poll.value, |Emissions(es)|, |Successes(prev)|, b, r);
        EmissionsOne(es, Step(d, poll.value, b, r).1);
      } else {
        EmissionsOne(es, Nothing);
      }
    }
  }

  /** `k` emissions take at least ceil(k / 2) * b + floor(k / 2) * r successful scrapes. */
  lemma EmissionsNeedScrapes(polls: seq<Poll>, b: nat, r: nat)
    requires b >= 1 && r >= 1
    ensures var k := |Emissions(Run(polls, b, r).1)|;
            (k + 1) / 2 * b + k / 2 * r <= |Successes(polls)|
  {
    var k := |Emissions(Run(polls, b, r).1)|;
    StreakIsPaidFor(polls, b, r);
    NeededIsLinear(k, b, r);
  }

  // ---------------------------------------------------------------- recoveries

  /** The counters that reach their limits have made the poller switch sides. */
  lemma {:induction false} LimitsDecideSide(polls: seq<Poll>, b: nat, r: nat)
    requires b >= 1 && r >= 1
    ensures var d := Run(polls, b, r).0;
            (d.breach >= b ==> d.firing) && (d.clean >= r ==> !d.firing)
  {
    if polls == [] {
    } else {
      LimitsDecideSide(polls[..|polls| - 1], b, r);
      hide Run;
      RunOne(polls, b, r);
    }
  }

  /** The last poll of a run. */
  lemma RunOne(polls: seq<Poll>, b: nat, r: nat)
    requires polls != []
    ensures var n := |polls| - 1;
            var (d, es) := Run(polls[..n], b, r);
            Run(polls, b, r) == match polls[n]
                                case None => (d, es + [Nothing])
                                case Some(o) => (Step(d, o, b, r).0, es + [Step(d, o, b, r).1])
  {
  }

  /** The last `b` successful scrapes before poll `i` all breach. */
  ghost predicate Confirmed(polls: seq<Poll>, i: int, b: nat) {
    0 <= i <= |polls| && LastAll(Successes(polls[..i]), b, true)
  }

  /** The last `r` successful scrapes before poll `j` are all clean. */
  ghost predicate Cleared(polls: seq<Poll>, j: int, r: nat) {
    0 <= j <= |polls| && LastAll(Successes(polls[..j]), r, false)
  }

  lemma ConfirmedFires(polls: seq<Poll>, i: nat, b: nat, r: nat)
    requires b >= 1 && r >= 1 && i <= |polls|
    ensures Confirmed(polls, i, b) ==> Run(polls[..i], b, r).0.firing
    ensures Cleared(polls, i, r) ==> !Run(polls[..i], b, r).0.firing
  {
    CountersAreTrailing(polls[..i], b, r, b);
    CountersAreTrailing(polls[..i], b, r, r);
    LimitsDecideSide(polls[..i], b, r);
  }

  /** A firing poller has seen a confirmed breach. */
  lemma {:induction false} FiringWasConfirmed(polls: seq<Poll>, b: nat, r: nat)
    requires b >= 1 && r >= 1 && Run(polls, b, r).0.firing
    ensures exists i :: Confirmed(polls, i, b)
  {
    if polls == [] {
    } else {
      var n := |polls| - 1;
      if Run(polls[..n], b, r).0.firing {
        FiringWasConfirmed(polls[..n], b, r);
        var i :| Confirmed(polls[..n], i, b);
        assert polls[..n][..i] == polls[..i];
        assert Confirmed(polls, i, b);
      } else {
        CountersAreTrailing(polls, b, r, b);
        assert polls[..|polls|] == polls;
        assert Confirmed(polls, |polls|, b);
      }
    }
  }

  /** What poll `k` emits does not depend on the later polls. */
  lemma {:induction false} EmissionOfPrefix(polls: seq<Poll>, k: nat, b: nat, r: nat)
    requires k < |polls|
    ensures Run(polls[..k + 1], b, r).1[k] == Run(polls, b, r).1[k]
  {
    var n := |polls| - 1;
    if k == n {
      assert polls[..k + 1] == polls;
    } else {
      EmissionOfPrefix(polls[..n], k, b, r);
      assert polls[..n][..k + 1] == polls[..k + 1];
      RunOne(polls, b, r);
    }
  }

  /** Between two moments with a firing poller at the first and not at the second lies a recovery. */
  lemma {:induction false} StoppedByRecovery(polls: seq<Poll>, i: nat, b: nat, r: nat)
    requires i <= |polls| && Run(polls[..i], b, r).0.firing && !Run(polls, b, r).0.firing
    ensures Recovery in Run(polls, b, r).1
  {
    assert polls[..|polls|] == polls;
    if i < |polls| {
      var n := |polls| - 1;
      RunOne(polls, b, r);
      if Run(polls[..n], b, r).0.firing {
        assert Run(polls, b, r).1[n] == Recovery;
      } else {
        assert polls[..n][..i] == polls[..i];
        StoppedByRecovery(polls[..n], i, b, r);
      }
    }
  }

  /** The poll that emits a recovery finds a firing poller, and the last `r` scrapes clean. */
  lemma RecoveryWasCleared(polls: seq<Poll>, k: nat, b: nat, r: nat)
    requires b >= 1 && r >= 1 && k < |polls| && Run(polls, b, r).1[k] == Recovery
    ensures Run(polls[..k], b, r).0.firing && Cleared(polls, k + 1, r)
  {
    EmissionOfPrefix(polls, k, b, r);
    var prev := polls[..k + 1];
    assert prev[..k] == polls[..k];
    RunOne(prev, b, r);
    CountersAreTrailing(prev, b, r, r);
  }

  /** A run emits a recovery if and only if at some point the last `b` successful scrapes all
      breached, and at a later one the last `r` were all clean. */
  lemma RecoversIffClearedAfterConfirmed(polls: seq<Poll>, b: nat, r: nat)
    requires b >= 1 && r >= 1
    ensures Recovery in Run(polls, b, r).1 <==> exists i, j :: i < j && Confirmed(polls, i, b) && Cleared(polls, j, r)
  {
    var es := Run(polls, b, r).1;
    hide Run, LastAll;
    if Recovery in es {
      var k :| 0 <= k < |es| && es[k] == Recovery;
      RecoveryWasCleared(polls, k, b, r);
      FiringWasConfirmed(polls[..k], b, r);
      var i :| Confirmed(polls[..k], i, b);
      assert polls[..k][..i] == polls[..i];
      assert Confirmed(polls, i, b) && Cleared(polls, k + 1, r);
    }
    if i, j :| i < j && Confirmed(polls, i, b) && Cleared(polls, j, r) {
      ConfirmedFires(polls, i, b, r);
      ConfirmedFires(polls, j, b, r);
      assert polls[..j][..i] == polls[..i];
      StoppedByRecovery(polls[..j], i, b, r);
      var k :| 0 <= k < j && Run(polls[..j], b, r).1[k] == Recovery;
      EmissionOfPrefix(polls[..j], k, b, r);
      EmissionOfPrefix(polls, k, b, r);
      assert polls[..j][..k + 1] == polls[..k + 1];
      assert es[k] == Recovery;
    }
  }
}
