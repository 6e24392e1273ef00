/** What the scraper reports, in the numbers of the counters that it compares
    (internal/signal/scraper.go:109-201, 376-378), and what idle calls do to the poller. */
module ScraperSignals {
  import opened Options
  import opened Api
  import opened Exposition
  import opened SuccessCodes
  import opened Scraper
  import opened ScraperRuns
  import opened Poller

  // ---------------------------------------------------------------- one report

  /** The number of seconds that a call divides by. */
  function SecondsSince(oldest: int, now: int): real {
    if now - oldest < 1_000_000_000 then 30.0 else (now - oldest) as real / 1_000_000_000.0
  }

  /** Without contributors, or with less than one request, the report is healthy and says that
      nothing was sampled. */
  lemma IdleReport(total: Delta, contributors: nat, oldest: int, now: int, later: int)
    requires contributors == 0 || total.rq < 1.0
    ensures Report(total, contributors, oldest, now, later) == Signals(0.99, 0.0, 0.0, 0, 0.0, later)
  {
  }

  /** Otherwise rates times seconds are the totals, the samples are the whole requests, and the
      success rate is that of the totals, or 1 if there are more successes than requests. */
  lemma LiveReport(total: Delta, contributors: nat, oldest: int, now: int, later: int)
    requires contributors > 0 && total.rq >= 1.0
    ensures var s, seconds := Report(total, contributors, oldest, now, later), SecondsSince(oldest, now);
            && s.rps * seconds == total.rq && s.shedRejectedRps * seconds == total.shed
            && s.sampleCount >= 1 && s.sampleCount as real <= total.rq < s.sampleCount as real + 1.0
            && s.serviceLatencyMs == 0.0 && s.collectedAt == now
    ensures var s := Report(total, contributors, oldest, now, later);
            if total.success <= total.rq then s.successRate * total.rq == total.success else s.successRate == 1.0
  {
    hide Capped;
    var seconds := SecondsSince(oldest, now);
    assert Seconds(Interval(now, oldest)) == seconds > 0.0;
    Quotient(total.rq, seconds);
    Quotient(total.shed, seconds);
    CappedQuotient(total.success, total.rq);
  }

  lemma Quotient(x: real, y: real)
    requires y > 0.0
    ensures x / y * y == x
  {
  }

  lemma CappedQuotient(x: real, y: real)
    requires y > 0.0
    ensures if x <= y then Capped(x / y) * y == x else Capped(x / y) == 1.0
  {
    Quotient(x, y);
    CapIsIdleIff(Delta(y, x, 0.0));
  }

  // ---------------------------------------------------------------- the totals

  function Growth(before: real, after: real): real {
    if before < after then after - before else 0.0
  }

  /** Some success range contains this code. */
  predicate CountsAsSuccess(code: int, ranges: seq<HttpStatusRange>) {
    exists r | r in ranges :: r.start <= code <= r.end
  }

  function SuccessGrowth(p: Counters, c: Counters, ranges: seq<HttpStatusRange>): real {
    (if CountsAsSuccess(200, ranges) then Growth(p.rq2xx, c.rq2xx) else 0.0)
    + (if CountsAsSuccess(300, ranges) then Growth(p.rq3xx, c.rq3xx) else 0.0)
    + (if CountsAsSuccess(400, ranges) then Growth(p.rq4xx, c.rq4xx) else 0.0)
    + (if CountsAsSuccess(500, ranges) then Growth(p.rq5xx, c.rq5xx) else 0.0)
  }

  /** The pod was scraped, an earlier snapshot at least 0.1 s old is stored, and its total has
      not gone back. */
  predicate IsCounted(prev: map<string, Snapshot>, p: Pod) {
    && p.running && p.hasIp && p.response.Some? && p.name in prev
    && p.response.value.scrapedAt - prev[p.name].scrapedAt >= 100_000_000
    && prev[p.name].counters.rqTotal <= p.response.value.counters.rqTotal
  }

  /** By how much the counters of the counted pods among the first `n` have grown. */
  ghost function Grown(prev: map<string, Snapshot>, pods: seq<Pod>, n: nat, ranges: seq<HttpStatusRange>): Delta
    requires n <= |pods|
  {
    if n == 0 then Delta(0.0, 0.0, 0.0)
    else
      var before, p := Grown(prev, pods, n - 1, ranges), pods[n - 1];
      if !IsCounted(prev, p) then before
      else
        var first, second := prev[p.name].counters, p.response.value.counters;
        Delta(before.rq + second.rqTotal - first.rqTotal,
              before.success + SuccessGrowth(first, second, ranges),
              before.shed + Growth(first.shedTotal, second.shedTotal))
  }

  ghost function CountedPods(prev: map<string, Snapshot>, pods: seq<Pod>, n: nat): nat
    requires n <= |pods|
  {
    if n == 0 then 0 else CountedPods(prev, pods, n - 1) + if IsCounted(prev, pods[n - 1]) then 1 else 0
  }

  lemma ContributionIsGrowth(prev: map<string, Snapshot>, p: Pod, ranges: seq<HttpStatusRange>)
    ensures var d := if ScrapeOf(p).Some? then Contribution(Lookup(prev, p.name), ScrapeOf(p).value, ranges) else None;
            if IsCounted(prev, p)
            then var before, after := prev[p.name].counters, p.response.value.counters;
                 d == Some(Delta(after.rqTotal - before.rqTotal, SuccessGrowth(before, after, ranges),
                                 Growth(before.shedTotal, after.shedTotal)))
            else d.None?
  {
    if IsCounted(prev, p) {
      SuccessIsGrowth(prev[p.name].counters, p.response.value.counters, ranges);
    }
    hide SuccessGrowth, ClassSuccess;
  }

  lemma SuccessIsGrowth(p: Counters, c: Counters, ranges: seq<HttpStatusRange>)
    ensures ClassSuccess(ClassDeltas(p, c), ranges) == SuccessGrowth(p, c, ranges)
  {
    assert forall code :: InRanges(code, ranges) <==> CountsAsSuccess(code, ranges);
    hide InRanges, CountsAsSuccess;
  }

  /** The totals of a call are the growth of the counters of its counted pods: requests,
      successes by class, and ejected requests. */
  lemma {:induction false} TotalsAreGrowth(
    prev: map<string, Snapshot>, pods: seq<Pod>, n: nat, ranges: seq<HttpStatusRange>)
    requires UniquePods(pods) && n <= |pods|
    ensures Totals(prev, pods, n, ranges) == Grown(prev, pods, n, ranges)
    ensures Contributors(prev, pods, n, ranges) == CountedPods(prev, pods, n)
  {
    if n == 0 {
    } else {
      TotalsAreGrowth(prev, pods, n - 1, ranges);
      ContributionIsPerPod(prev, pods, n - 1, ranges);
      ContributionIsGrowth(prev, pods[n - 1], ranges);
      hide Contribution, PodDelta, Observe, PodCount, UniquePods, SuccessGrowth, Growth, IsCounted;
    }
  }

  /** Under the default ranges the successes are the responses of classes 2 and 3. */
  lemma DefaultSuccess(p: Counters, c: Counters)
    ensures SuccessGrowth(p, c, DEFAULT_RANGES) == Growth(p.rq2xx, c.rq2xx) + Growth(p.rq3xx, c.rq3xx)
  {
    DefaultIsAligned();
    assert forall code :: InRanges(code, DEFAULT_RANGES) <==> CountsAsSuccess(code, DEFAULT_RANGES);
    hide InRanges, CountsAsSuccess;
  }

  // ---------------------------------------------------------------- idle calls and the poller

  /** A call without contributors, or with less than one request, reports this. */
  ghost predicate IsIdle(s: Signals) {
    exists total: Delta, contributors: nat, oldest: int, now: int, later: int ::
      (contributors == 0 || total.rq < 1.0) && s == Report(total, contributors, oldest, now, later)
  }

  /** Some trigger has a Below bound above 0.99. */
  ghost predicate SomeBoundAbove99(ts: seq<Trigger>) {
    exists t | t in ts ::
      t.when.successRate.Some? && t.when.successRate.value.below.Some? && t.when.successRate.value.below.value > 0.99
  }

  /** An idle call counts as a breach if and only if some Below bound exceeds 0.99. */
  lemma IdleBreachesIff(ts: seq<Trigger>, s: Signals)
    requires IsIdle(s)
    ensures Breaches(ts, s.successRate) <==> SomeBoundAbove99(ts)
  {
    assert s.successRate == 0.99 by {
      var total: Delta, contributors: nat, oldest: int, now: int, later: int :|
        (contributors == 0 || total.rq < 1.0) && s == Report(total, contributors, oldest, now, later);
      IdleReport(total, contributors, oldest, now, later);
    }
  }

  /** What the poller makes of these scrapes; None is a failed one. */
  ghost function Polls(ts: seq<Trigger>, scrapes: seq<Option<Signals>>): (polls: seq<Poll>)
    ensures |polls| == |scrapes|
  {
    seq(|scrapes|, k requires 0 <= k < |scrapes| =>
      if scrapes[k].Some? then Some(Breaches(ts, scrapes[k].value.successRate)) else None)
  }

  ghost predicate AllSay(polls: seq<Poll>, v: bool) {
    forall k | 0 <= k < |polls| && polls[k].Some? :: polls[k].value == v
  }

  /** What a run of equal polls does: breaches only ever add up to one emission. */
  lemma {:induction false} EqualPolls(polls: seq<Poll>, v: bool, b: nat, r: nat)
    requires b >= 1 && r >= 1 && AllSay(polls, v)
    ensures var (d, es) := Run(polls, b, r);
            var n := |Successes(polls)|;
            && d.breach == (if v then n else 0) && (v ==> d.clean == 0) && (d.firing <==> v && n >= b)
            && (Breach in es <==> v && n >= b) && Recovery !in es
  {
    if polls == [] {
    } else {
      EqualPolls(polls[..|polls| - 1], v, b, r);
    }
  }

  /** A run of idle calls and failed scrapes emits a breach if and only if some Below bound
      exceeds 0.99 and enough of the scrapes succeeded. With bounds of at most 0.99 an idle
      fleet so never breaches. */
  lemma IdleRunBreachesIff(ts: seq<Trigger>, scrapes: seq<Option<Signals>>, b: nat, r: nat)
    requires b >= 1 && r >= 1
    requires forall k | 0 <= k < |scrapes| && scrapes[k].Some? :: IsIdle(scrapes[k].value)
    ensures var polls := Polls(ts, scrapes);
            Breach in Run(polls, b, r).1 <==> SomeBoundAbove99(ts) && |Successes(polls)| >= b
  {
    forall k | 0 <= k < |scrapes| && scrapes[k].Some?
      ensures Polls(ts, scrapes)[k] == Some(SomeBoundAbove99(ts))
    {
      IdleBreachesIff(ts, scrapes[k].value);
    }
    hide IsIdle, SomeBoundAbove99, Run, Successes;
    EqualPolls(Polls(ts, scrapes), SomeBoundAbove99(ts), b, r);
  }
}
