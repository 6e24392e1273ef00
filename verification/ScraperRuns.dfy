/** What the scraper's counters add up to: per pod over whole runs of one policy,
    and across the fleet within one call. */
module ScraperRuns {
  import opened Options
  import opened Api
  import opened Exposition
  import opened SuccessCodes
  import opened Scraper

  // ---------------------------------------------------------------- one pod at a time

  /** What a call sees of one pod. */
  datatype Obs = Absent | Unscraped | Scraped(snapshot: Snapshot)

  /** A call without pods (or with a failed discovery) returns early and counts as Unscraped. */
  function Observe(pods: seq<Pod>, name: string): Obs {
    if pods == [] then Unscraped
    else if name !in Names(pods) then Absent
    else
      match ScrapeIn(pods, name)
      case None => Unscraped
      case Some(s) => Scraped(s)
  }

  /** The last successful scrape of `name` in the list. */
  function ScrapeIn(pods: seq<Pod>, name: string): Option<Snapshot> {
    if pods == [] then None
    else
      var p := pods[|pods| - 1];
      if p.name == name && ScrapeOf(p).Some? then ScrapeOf(p) else ScrapeIn(pods[..|pods| - 1], name)
  }

  function PodNext(kept: Option<Snapshot>, o: Obs): Option<Snapshot> {
    match o
    case Absent => None
    case Unscraped => kept
    case Scraped(s) => Some(s)
  }

  /** The requests that an observation counts. */
  function PodCount(kept: Option<Snapshot>, o: Obs): real {
    if o.Scraped? && Contribution(kept, o.snapshot, []).Some? then
      o.snapshot.counters.rqTotal - kept.value.counters.rqTotal
    else 0.0
  }

  lemma {:induction false} StoredIsPerPod(prev: map<string, Snapshot>, pods: seq<Pod>, name: string)
    ensures Lookup(Stored(prev, pods), name)
            == if ScrapeIn(pods, name).Some? then ScrapeIn(pods, name) else Lookup(prev, name)
  {
    if pods == [] {
    } else {
      StoredIsPerPod(prev, pods[..|pods| - 1], name);
    }
  }

  lemma {:induction false} NotNamedNotScraped(pods: seq<Pod>, name: string)
    requires name !in Names(pods)
    ensures ScrapeIn(pods, name) == None
  {
    if pods == [] {
    } else {
      var rest := pods[..|pods| - 1];
      assert pods[|pods| - 1] in pods && forall p | p in rest :: p in pods;
      NotNamedNotScraped(rest, name);
    }
  }

  /** A call advances every pod's stored snapshot independently of all others. */
  lemma CallIsPerPod(prev: map<string, Snapshot>, pods: seq<Pod>, name: string)
    ensures Lookup(NextPrevious(prev, pods), name) == PodNext(Lookup(prev, name), Observe(pods, name))
  {
    StoredIsPerPod(prev, pods, name);
  }

  /** What a call adds for a pod depends on that pod's own snapshot only. */
  lemma ContributionIsPerPod(prev: map<string, Snapshot>, pods: seq<Pod>, i: nat, ranges: seq<HttpStatusRange>)
    requires UniquePods(pods) && i < |pods|
    ensures var d := PodDelta(prev, pods, i, ranges);
            var kept := Lookup(prev, pods[i].name);
            && d == (match ScrapeOf(pods[i]) case None => None case Some(cur) => Contribution(kept, cur, ranges))
            && Observe(pods, pods[i].name)
               == (match ScrapeOf(pods[i]) case None => Unscraped case Some(cur) => Scraped(cur))
            && PodCount(kept, Observe(pods, pods[i].name)) == if d.Some? then d.value.rq else 0.0
  {
    var name := pods[i].name;
    assert name !in Names(pods[..i]) && name !in Names(pods[i + 1..]);
    NotNamedNotScraped(pods[..i], name);
    StoredIsPerPod(prev, pods[..i], name);
    OnlyScrape(pods, i, |pods|);
    assert pods[i] in pods && pods[..|pods|] == pods;
  }

  lemma {:induction false} OnlyScrape(pods: seq<Pod>, i: nat, n: nat)
    requires UniquePods(pods) && i < n <= |pods|
    ensures ScrapeIn(pods[..n], pods[i].name) == ScrapeOf(pods[i])
  {
    assert pods[..n][..n - 1] == pods[..n - 1];
    if n == i + 1 {
      assert pods[i].name !in Names(pods[..i]);
      NotNamedNotScraped(pods[..i], pods[i].name);
    } else {
      OnlyScrape(pods, i, n - 1);
    }
  }

  // ---------------------------------------------------------------- conservation over runs

  /** What the scraper keeps of a pod after a run of observations. */
  ghost function Kept(run: seq<Obs>): Option<Snapshot> {
    if run == [] then None else PodNext(Kept(run[..|run| - 1]), run[|run| - 1])
  }

  /** The requests counted for a pod over a run. */
  ghost function Counted(run: seq<Obs>): real {
    if run == [] then 0.0 else Counted(run[..|run| - 1]) + PodCount(Kept(run[..|run| - 1]), run[|run| - 1])
  }

  /** The first and the newest snapshot of a run, pruned or not. */
  ghost function First(run: seq<Obs>): Option<Snapshot> {
    if run == [] then None
    else
      var before := First(run[..|run| - 1]);
      if before.None? && run[|run| - 1].Scraped? then Some(run[|run| - 1].snapshot) else before
  }

  ghost function Newest(run: seq<Obs>): Option<Snapshot> {
    if run == [] then None
    else if run[|run| - 1].Scraped? then Some(run[|run| - 1].snapshot)
    else Newest(run[..|run| - 1])
  }

  /** A scrape whose increment is dropped: the pod had been pruned, or the gap is short. */
  ghost predicate Drops(before: seq<Obs>, s: Snapshot) {
    Kept(before).None? || s.scrapedAt - Kept(before).value.scrapedAt < MIN_GAP
  }

  /** The increments that the run dropped. */
  ghost function Lost(run: seq<Obs>): real {
    if run == [] then 0.0
    else
      var (before, o) := (run[..|run| - 1], run[|run| - 1]);
      Lost(before) +
      if o.Scraped? && Newest(before).Some? && Drops(before, o.snapshot) then
        NonNegDelta(o.snapshot.counters.rqTotal, Newest(before).value.counters.rqTotal)
      else 0.0
  }

  /** By how much the counter fell, over all resets. */
  ghost function Fallen(run: seq<Obs>): real {
    if run == [] then 0.0
    else
      var (before, o) := (run[..|run| - 1], run[|run| - 1]);
      Fallen(before) +
      if o.Scraped? && Newest(before).Some? then
        NonNegDelta(Newest(before).value.counters.rqTotal, o.snapshot.counters.rqTotal)
      else 0.0
  }

  /** The pod's request counter never decreases. */
  ghost predicate Monotone(run: seq<Obs>) {
    run == [] ||
    (var (before, o) := (run[..|run| - 1], run[|run| - 1]);
     Monotone(before)
     && (o.Scraped? && Newest(before).Some? ==>
           Newest(before).value.counters.rqTotal <= o.snapshot.counters.rqTotal))
  }

  lemma {:induction false} KeptIsNewest(run: seq<Obs>)
    ensures Kept(run).Some? ==> Newest(run) == Kept(run)
    ensures First(run).Some? <==> Newest(run).Some?
  {
    if run == [] {
    } else {
      KeptIsNewest(run[..|run| - 1]);
    }
  }

  ghost function Gained(run: seq<Obs>): real {
    if First(run).Some? && Newest(run).Some? then
      Newest(run).value.counters.rqTotal - First(run).value.counters.rqTotal
    else 0.0
  }

  lemma GainStep(before: seq<Obs>, o: Obs)
    ensures Gained(before + [o])
            == Gained(before) + if o.Scraped? && Newest(before).Some? then
                                  o.snapshot.counters.rqTotal - Newest(before).value.counters.rqTotal
                                else 0.0
  {
    KeptIsNewest(before);
    assert (before + [o])[..|before|] == before;
  }

  /** The counted requests and the dropped increments together are exactly what the
      pod's counter gained from its first to its newest snapshot, plus what its resets
      took away: nothing is counted twice, and failed scrapes lose nothing. */
  lemma {:induction false} CountsAreConserved(run: seq<Obs>)
    ensures Counted(run) + Lost(run) == Gained(run) + Fallen(run)
    ensures Counted(run) >= 0.0 && Lost(run) >= 0.0 && Fallen(run) >= 0.0
    ensures Monotone(run) ==> Fallen(run) == 0.0
  {
    if run == [] {
    } else {
      var before, o := run[..|run| - 1], run[|run| - 1];
      CountsAreConserved(before);
      KeptIsNewest(before);
      GainStep(before, o);
      assert run == before + [o];
    }
  }

  /** Every rescrape of the pod found its snapshot still stored and at least 0.1 s old. */
  ghost predicate NothingDropped(run: seq<Obs>) {
    run == [] ||
    (var (before, o) := (run[..|run| - 1], run[|run| - 1]);
     NothingDropped(before) && (o.Scraped? && Newest(before).Some? ==> !Drops(before, o.snapshot)))
  }

  lemma {:induction false} NothingDroppedNothingLost(run: seq<Obs>)
    requires NothingDropped(run)
    ensures Lost(run) == 0.0
  {
    if run == [] {
    } else {
      NothingDroppedNothingLost(run[..|run| - 1]);
    }
  }

  /** The counted requests never exceed the counter's gain, corrected for its resets, and
      equal it when every stored gap is long enough and the pod was never pruned in between. */
  lemma CountedAtMostGained(run: seq<Obs>)
    ensures Counted(run) <= Gained(run) + Fallen(run)
    ensures NothingDropped(run) ==> Counted(run) == Gained(run) + Fallen(run)
    ensures Monotone(run) ==> Counted(run) <= Gained(run) && (NothingDropped(run) ==> Counted(run) == Gained(run))
  {
    CountsAreConserved(run);
    if NothingDropped(run) {
      NothingDroppedNothingLost(run);
    }
  }

  /** The truth behind the counters: at observation `k` the pod has served `served[k]`
      requests in all, `restarted[k]` of them before its last restart, and the counter
      shows the rest. */
  ghost predicate Explains(run: seq<Obs>, served: seq<real>, restarted: seq<real>) {
    && |served| == |run| && |restarted| == |run|
    && (forall i, j | 0 <= i < j < |run| :: served[i] <= served[j] && restarted[i] <= restarted[j])
    && (forall k | 0 <= k < |run| && run[k].Scraped? :: run[k].snapshot.counters.rqTotal == served[k] - restarted[k])
  }

  /** The observation that took the newest snapshot, or -1. */
  ghost function LastScrape(run: seq<Obs>): (j: int)
    ensures -1 <= j < |run|
    ensures j == -1 <==> Newest(run).None?
    ensures j >= 0 ==> run[j].Scraped? && Newest(run) == Some(run[j].snapshot)
  {
    if run == [] then -1
    else if run[|run| - 1].Scraped? then |run| - 1
    else LastScrape(run[..|run| - 1])
  }

  /** One observation counts at most the increment of the counter. */
  lemma CountedOne(kept: Option<Snapshot>, o: Obs)
    ensures PodCount(kept, o) == 0.0
         || (o.Scraped? && kept.Some?
             && PodCount(kept, o) == o.snapshot.counters.rqTotal - kept.value.counters.rqTotal)
  {
  }

  lemma {:induction false} CountedByLastScrape(run: seq<Obs>, served: seq<real>, restarted: seq<real>)
    requires Explains(run, served, restarted)
    ensures Counted(run) <= if LastScrape(run) >= 0 then served[LastScrape(run)] - served[0] else 0.0
  {
    if run == [] {
    } else {
      var n := |run| - 1;
      var before, o := run[..n], run[n];
      assert Explains(before, served[..n], restarted[..n]);
      CountedByLastScrape(before, served[..n], restarted[..n]);
      KeptIsNewest(before);
      CountedOne(Kept(before), o);
      hide PodCount, Kept, Newest;
      var i := LastScrape(before);
      assert i >= 0 ==> before[i] == run[i];
    }
  }

  /** Whatever restarts reset the counter, seen or unseen, the counted requests never
      exceed those that the pod served during the run. */
  lemma CountedAtMostServed(run: seq<Obs>, served: seq<real>, restarted: seq<real>)
    requires run != [] && Explains(run, served, restarted)
    ensures Counted(run) <= served[|run| - 1] - served[0]
  {
    CountedByLastScrape(run, served, restarted);
    hide Counted, LastScrape, Newest;
    var j := LastScrape(run);
    assert forall k | 0 <= k < |run| :: served[k] <= served[|run| - 1] && served[0] <= served[k];
  }

  // ---------------------------------------------------------------- runs of the scraper itself

  /** The stored snapshots after a run of calls, each with the pods it listed. */
  ghost function PreviousAfter(calls: seq<seq<Pod>>): map<string, Snapshot> {
    if calls == [] then map[] else NextPrevious(PreviousAfter(calls[..|calls| - 1]), calls[|calls| - 1])
  }

  /** What a run of calls sees of one pod. */
  ghost function ObsRun(calls: seq<seq<Pod>>, name: string): seq<Obs> {
    if calls == [] then [] else ObsRun(calls[..|calls| - 1], name) + [Observe(calls[|calls| - 1], name)]
  }

  /** The part of the request total over the first `n` pods that comes from `name`. */
  ghost function Share(prev: map<string, Snapshot>, pods: seq<Pod>, n: nat, name: string): real
    requires n <= |pods|
  {
    if n == 0 then 0.0
    else
      Share(prev, pods, n - 1, name)
      + if pods[n - 1].name == name && PodDelta(prev, pods, n - 1, []).Some?
        then PodDelta(prev, pods, n - 1, []).value.rq
        else 0.0
  }

  /** The requests that a run of calls reported for one pod. */
  ghost function Reported(calls: seq<seq<Pod>>, name: string): real {
    if calls == [] then 0.0
    else
      var (before, pods) := (calls[..|calls| - 1], calls[|calls| - 1]);
      Reported(before, name) + Share(PreviousAfter(before), pods, |pods|, name)
  }

  lemma {:induction false} RunIsPerPod(calls: seq<seq<Pod>>, name: string)
    ensures Lookup(PreviousAfter(calls), name) == Kept(ObsRun(calls, name))
  {
    if calls == [] {
    } else {
      hide NextPrevious, Observe;
      var before := calls[..|calls| - 1];
      RunIsPerPod(before, name);
      CallIsPerPod(PreviousAfter(before), calls[|calls| - 1], name);
      assert ObsRun(calls, name)[..|ObsRun(before, name)|] == ObsRun(before, name);
    }
  }

  lemma {:induction false} ShareOfOthers(prev: map<string, Snapshot>, pods: seq<Pod>, n: nat, name: string)
    requires n <= |pods| && forall j | 0 <= j < n :: pods[j].name != name
    ensures Share(prev, pods, n, name) == 0.0
  {
    if n == 0 {
    } else {
      ShareOfOthers(prev, pods, n - 1, name);
    }
  }

  lemma {:induction false} ShareOfPod(prev: map<string, Snapshot>, pods: seq<Pod>, i: nat, n: nat)
    requires UniquePods(pods) && i < n <= |pods|
    ensures Share(prev, pods, n, pods[i].name)
            == match PodDelta(prev, pods, i, []) case None => 0.0 case Some(d) => d.rq
  {
    hide PodDelta;
    if n == i + 1 {
      ShareOfOthers(prev, pods, i, pods[i].name);
    } else {
      ShareOfPod(prev, pods, i, n - 1);
    }
  }

  lemma ShareIsPodCount(prev: map<string, Snapshot>, pods: seq<Pod>, name: string)
    requires UniquePods(pods)
    ensures Share(prev, pods, |pods|, name) == PodCount(Lookup(prev, name), Observe(pods, name))
  {
    hide PodDelta, Contribution, Share, PodCount;
    if i :| 0 <= i < |pods| && pods[i].name == name {
      ShareOfPod(prev, pods, i, |pods|);
      ContributionIsPerPod(prev, pods, i, []);
    } else {
      ShareOfOthers(prev, pods, |pods|, name);
      assert !Observe(pods, name).Scraped? by {
        NoSuchPod(pods, name);
      }
      assert PodCount(Lookup(prev, name), Observe(pods, name)) == 0.0 by {
        OnlyScrapesCount(Lookup(prev, name), Observe(pods, name));
      }
    }
  }

  lemma NoSuchPod(pods: seq<Pod>, name: string)
    requires forall i | 0 <= i < |pods| :: pods[i].name != name
    ensures !Observe(pods, name).Scraped?
  {
  }

  lemma OnlyScrapesCount(kept: Option<Snapshot>, o: Obs)
    requires !o.Scraped?
    ensures PodCount(kept, o) == 0.0
  {
  }

  lemma {:induction false} ReportedIsCounted(calls: seq<seq<Pod>>, name: string)
    requires forall k | 0 <= k < |calls| :: UniquePods(calls[k])
    ensures Reported(calls, name) == Counted(ObsRun(calls, name))
  {
    if calls == [] {
    } else {
      hide UniquePods, Observe, Share, PodCount;
      var before := calls[..|calls| - 1];
      ReportedIsCounted(before, name);
      RunIsPerPod(before, name);
      ShareIsPodCount(PreviousAfter(before), calls[|calls| - 1], name);
      assert ObsRun(calls, name)[..|ObsRun(before, name)|] == ObsRun(before, name);
    }
  }

  /** Over any run of calls, the requests reported for a pod are what its counter gained
      and what its resets took away, less the dropped increments; so for a counter that
      never decreases they are at most its gain, and exactly that when nothing was dropped. */
  lemma ReportedRequestsAreConserved(calls: seq<seq<Pod>>, name: string)
    requires forall k | 0 <= k < |calls| :: UniquePods(calls[k])
    ensures var run := ObsRun(calls, name);
            && Reported(calls, name) + Lost(run) == Gained(run) + Fallen(run)
            && Reported(calls, name) <= Gained(run) + Fallen(run)
            && (NothingDropped(run) ==> Reported(calls, name) == Gained(run) + Fallen(run))
            && (Monotone(run) ==> Fallen(run) == 0.0)
  {
    hide Monotone, NothingDropped, Lost, Gained, Fallen, Counted, Reported, ObsRun;
    ReportedIsCounted(calls, name);
    CountsAreConserved(ObsRun(calls, name));
    CountedAtMostGained(ObsRun(calls, name));
  }

  /** Over any run of calls, restarts included, no more requests are reported for a pod
      than it served. */
  lemma ReportedAtMostServed(calls: seq<seq<Pod>>, name: string, served: seq<real>, restarted: seq<real>)
    requires forall k | 0 <= k < |calls| :: UniquePods(calls[k])
    requires ObsRun(calls, name) != [] && Explains(ObsRun(calls, name), served, restarted)
    ensures Reported(calls, name) <= served[|served| - 1] - served[0]
  {
    assert |served| == |ObsRun(calls, name)|;
    hide Explains, Counted, Reported, ObsRun;
    ReportedIsCounted(calls, name);
    CountedAtMostServed(ObsRun(calls, name), served, restarted);
  }

  // ---------------------------------------------------------------- the fleet within one call

  /** Each class counter of the pod is at least what it was. */
  ghost predicate ClassesMonotone(p: Counters, c: Counters) {
    p.rq2xx <= c.rq2xx && p.rq3xx <= c.rq3xx && p.rq4xx <= c.rq4xx && p.rq5xx <= c.rq5xx
  }

  lemma SuccessWithinRequests(prev: Option<Snapshot>, cur: Snapshot, ranges: seq<HttpStatusRange>)
    requires prev.Some? && TotalsAddUp(prev.value.counters) && TotalsAddUp(cur.counters)
    requires ClassesMonotone(prev.value.counters, cur.counters)
    ensures var d := Contribution(prev, cur, ranges); d.Some? ==> 0.0 <= d.value.success <= d.value.rq
  {
    WideningRaisesSuccess(ClassDeltas(prev.value.counters, cur.counters), ranges, ranges);
  }

  ghost predicate IsFleet(ds: seq<Delta>) {
    forall i | 0 <= i < |ds| :: 0.0 <= ds[i].success <= ds[i].rq
  }

  ghost function Sum(ds: seq<Delta>): Delta {
    if ds == [] then NO_DELTA else AddDelta(Sum(ds[..|ds| - 1]), Some(ds[|ds| - 1]))
  }

  /** The contributions of a call, in pod order. */
  ghost function Contributions(
    prev: map<string, Snapshot>, pods: seq<Pod>, n: nat, ranges: seq<HttpStatusRange>): seq<Delta>
    requires n <= |pods|
  {
    if n == 0 then []
    else
      Contributions(prev, pods, n - 1, ranges)
      + match PodDelta(prev, pods, n - 1, ranges) case None => [] case Some(d) => [d]
  }

  lemma {:induction false} TotalsAreSums(
    prev: map<string, Snapshot>, pods: seq<Pod>, n: nat, ranges: seq<HttpStatusRange>)
    requires n <= |pods|
    ensures Totals(prev, pods, n, ranges) == Sum(Contributions(prev, pods, n, ranges))
    ensures Contributors(prev, pods, n, ranges) == |Contributions(prev, pods, n, ranges)|
  {
    if n == 0 {
    } else {
      TotalsAreSums(prev, pods, n - 1, ranges);
      var ds := Contributions(prev, pods, n - 1, ranges);
      match PodDelta(prev, pods, n - 1, ranges)
      case None => assert ds + [] == ds;
      case Some(d) => assert (ds + [d])[..|ds|] == ds;
    }
  }

  lemma {:induction false} SuccessIsWithinBounds(ds: seq<Delta>)
    requires IsFleet(ds)
    ensures 0.0 <= Sum(ds).success <= Sum(ds).rq
  {
    if ds == [] {
    } else {
      SuccessIsWithinBounds(ds[..|ds| - 1]);
    }
  }

  /** By how much the successes exceed what this rate would give. */
  ghost function Margin(d: Delta, rate: real): real {
    d.success - rate * d.rq
  }

  lemma MarginAdds(a: Delta, d: Delta, rate: real)
    ensures Margin(AddDelta(a, Some(d)), rate) == Margin(a, rate) + Margin(d, rate)
  {
    assert rate * (a.rq + d.rq) == rate * a.rq + rate * d.rq;
  }

  lemma NoTrafficNoMargin(d: Delta, rate: real)
    requires 0.0 <= d.success <= d.rq == 0.0
    ensures Margin(d, rate) == 0.0
  {
  }

  /** If every pod with traffic is below a rate, so is the fleet. */
  lemma {:induction false} BelowRate(ds: seq<Delta>, rate: real)
    requires IsFleet(ds) && forall i | 0 <= i < |ds| && ds[i].rq > 0.0 :: Margin(ds[i], rate) < 0.0
    ensures if Sum(ds).rq > 0.0 then Margin(Sum(ds), rate) < 0.0 else Margin(Sum(ds), rate) == 0.0
  {
    SuccessIsWithinBounds(ds);
    if ds == [] {
      NoTrafficNoMargin(NO_DELTA, rate);
    } else {
      hide Margin;
      var before, d := ds[..|ds| - 1], ds[|ds| - 1];
      BelowRate(before, rate);
      SuccessIsWithinBounds(before);
      MarginAdds(Sum(before), d, rate);
      if d.rq == 0.0 {
        NoTrafficNoMargin(d, rate);
      }
    }
  }

  /** If every pod with traffic is above a rate, so is the fleet. */
  lemma {:induction false} AboveRate(ds: seq<Delta>, rate: real)
    requires IsFleet(ds) && forall i | 0 <= i < |ds| && ds[i].rq > 0.0 :: Margin(ds[i], rate) > 0.0
    ensures if Sum(ds).rq > 0.0 then Margin(Sum(ds), rate) > 0.0 else Margin(Sum(ds), rate) == 0.0
  {
    SuccessIsWithinBounds(ds);
    if ds == [] {
      NoTrafficNoMargin(NO_DELTA, rate);
    } else {
      hide Margin;
      var before, d := ds[..|ds| - 1], ds[|ds| - 1];
      AboveRate(before, rate);
      SuccessIsWithinBounds(before);
      MarginAdds(Sum(before), d, rate);
      if d.rq == 0.0 {
        NoTrafficNoMargin(d, rate);
      }
    }
  }

  ghost function Rate(d: Delta): real
    requires d.rq > 0.0
  {
    d.success / d.rq
  }

  lemma OwnRateHasNoMargin(d: Delta)
    requires d.rq > 0.0
    ensures Margin(d, Rate(d)) == 0.0
  {
  }

  lemma MarginComparesRates(d: Delta, rate: real)
    requires d.rq > 0.0
    ensures Margin(d, rate) <= 0.0 ==> Rate(d) <= rate
    ensures Margin(d, rate) >= 0.0 ==> Rate(d) >= rate
  {
    var own := Rate(d);
    OwnRateHasNoMargin(d);
    assert Margin(d, rate) == (own - rate) * d.rq;
  }

  lemma RateIsFraction(d: Delta)
    requires 0.0 <= d.success <= d.rq && d.rq > 0.0
    ensures 0.0 <= Rate(d) <= 1.0
  {
    assert Margin(d, 0.0) == d.success && Margin(d, 1.0) == d.success - d.rq;
    MarginComparesRates(d, 0.0);
    MarginComparesRates(d, 1.0);
  }

  /** The fleet's rate is the weighted mean of the pods' own rates: it needs no clamp
      and lies between the smallest and the largest rate of a pod with traffic. */
  lemma FleetRateIsWeightedMean(ds: seq<Delta>)
    requires IsFleet(ds) && Sum(ds).rq >= 1.0
    ensures 0.0 <= Rate(Sum(ds)) <= 1.0
    ensures exists i | 0 <= i < |ds| && ds[i].rq > 0.0 :: Rate(ds[i]) <= Rate(Sum(ds))
    ensures exists i | 0 <= i < |ds| && ds[i].rq > 0.0 :: Rate(ds[i]) >= Rate(Sum(ds))
  {
    var rate := Rate(Sum(ds));
    SuccessIsWithinBounds(ds);
    RateIsFraction(Sum(ds));
    OwnRateHasNoMargin(Sum(ds));
    hide Margin, Rate, Sum;
    if forall i | 0 <= i < |ds| && ds[i].rq > 0.0 :: Margin(ds[i], rate) > 0.0 {
      AboveRate(ds, rate);
    }
    if forall i | 0 <= i < |ds| && ds[i].rq > 0.0 :: Margin(ds[i], rate) < 0.0 {
      BelowRate(ds, rate);
    }
    var i :| 0 <= i < |ds| && ds[i].rq > 0.0 && Margin(ds[i], rate) <= 0.0;
    var j :| 0 <= j < |ds| && ds[j].rq > 0.0 && Margin(ds[j], rate) >= 0.0;
    MarginComparesRates(ds[i], rate);
    MarginComparesRates(ds[j], rate);
  }

  /** Every stored counter of a listed pod is a class sum, and no class decreases. */
  ghost predicate HealthyCounters(prev: map<string, Snapshot>, pods: seq<Pod>) {
    forall i | 0 <= i < |pods| && ScrapeOf(pods[i]).Some? && pods[i].name in prev ::
      && TotalsAddUp(prev[pods[i].name].counters) && TotalsAddUp(ScrapeOf(pods[i]).value.counters)
      && ClassesMonotone(prev[pods[i].name].counters, ScrapeOf(pods[i]).value.counters)
  }

  lemma {:induction false} HealthyFleet(
    prev: map<string, Snapshot>, pods: seq<Pod>, n: nat, ranges: seq<HttpStatusRange>)
    requires UniquePods(pods) && HealthyCounters(prev, pods) && n <= |pods|
    ensures IsFleet(Contributions(prev, pods, n, ranges))
  {
    if n == 0 {
    } else {
      hide Contribution, PodDelta;
      HealthyFleet(prev, pods, n - 1, ranges);
      ContributionIsPerPod(prev, pods, n - 1, ranges);
      var p := pods[n - 1];
      if PodDelta(prev, pods, n - 1, ranges).Some? {
        SuccessWithinRequests(Lookup(prev, p.name), ScrapeOf(p).value, ranges);
      }
    }
  }

  /** With healthy counters a call that reports live data reports exactly the total
      successes over the total requests; the clamp at 1 is idle. */
  lemma ReportedRateIsExact(
    prev: map<string, Snapshot>, pods: seq<Pod>, ranges: seq<HttpStatusRange>, oldest: int, now: int, later: int)
    requires UniquePods(pods) && HealthyCounters(prev, pods)
    requires Totals(prev, pods, |pods|, ranges).rq >= 1.0
    ensures var total := Totals(prev, pods, |pods|, ranges);
            Report(total, Contributors(prev, pods, |pods|, ranges), oldest, now, later).successRate
            == total.success / total.rq <= 1.0
  {
    hide Contributions, HealthyCounters, Totals, Contributors, IsFleet, Sum;
    HealthyFleet(prev, pods, |pods|, ranges);
    TotalsAreSums(prev, pods, |pods|, ranges);
    FleetRateIsWeightedMean(Contributions(prev, pods, |pods|, ranges));
  }

  /** Every counter that a call compares is a class sum, as parsing leaves it. */
  ghost predicate CountersAddUp(prev: map<string, Snapshot>, pods: seq<Pod>) {
    forall i | 0 <= i < |pods| && ScrapeOf(pods[i]).Some? && pods[i].name in prev ::
      TotalsAddUp(prev[pods[i].name].counters) && TotalsAddUp(ScrapeOf(pods[i]).value.counters)
  }

  /** What the classes that are no success grew by, and what all classes fell by. */
  ghost function FailureGrowth(p: Counters, c: Counters, ranges: seq<HttpStatusRange>): real {
    var d := ClassDeltas(p, c);
    d.rq2xx + d.rq3xx + d.rq4xx + d.rq5xx - ClassSuccess(d, ranges)
  }

  ghost function Fall(p: Counters, c: Counters): real {
    var d := ClassDeltas(c, p);
    d.rq2xx + d.rq3xx + d.rq4xx + d.rq5xx
  }

  /** The sums of both over the pods that contribute. */
  ghost function Failures(prev: map<string, Snapshot>, pods: seq<Pod>, n: nat, ranges: seq<HttpStatusRange>): real
    requires n <= |pods|
  {
    if n == 0 then 0.0
    else
      Failures(prev, pods, n - 1, ranges)
      + if Compares(prev, pods, n - 1) then
          FailureGrowth(prev[pods[n - 1].name].counters, ScrapeOf(pods[n - 1]).value.counters, ranges)
        else 0.0
  }

  ghost function Falls(prev: map<string, Snapshot>, pods: seq<Pod>, n: nat): real
    requires n <= |pods|
  {
    if n == 0 then 0.0
    else
      Falls(prev, pods, n - 1)
      + if Compares(prev, pods, n - 1) then
          Fall(prev[pods[n - 1].name].counters, ScrapeOf(pods[n - 1]).value.counters)
        else 0.0
  }

  /** Pod `i` contributes to the call. */
  ghost predicate Compares(prev: map<string, Snapshot>, pods: seq<Pod>, i: nat)
    requires i < |pods|
  {
    ScrapeOf(pods[i]).Some? && pods[i].name in prev
    && Contribution(Some(prev[pods[i].name]), ScrapeOf(pods[i]).value, []).Some?
  }

  lemma SuccessExcess(prev: Snapshot, cur: Snapshot, ranges: seq<HttpStatusRange>)
    requires TotalsAddUp(prev.counters) && TotalsAddUp(cur.counters)
    ensures var d, any := Contribution(Some(prev), cur, ranges), Contribution(Some(prev), cur, []);
            && (d.Some? <==> any.Some?)
            && (d.Some? ==> d.value.success - d.value.rq
                            == Fall(prev.counters, cur.counters) - FailureGrowth(prev.counters, cur.counters, ranges))
  {
    hide ClassSuccess;
  }

  lemma {:induction false} TotalExcess(
    prev: map<string, Snapshot>, pods: seq<Pod>, n: nat, ranges: seq<HttpStatusRange>)
    requires UniquePods(pods) && CountersAddUp(prev, pods) && n <= |pods|
    ensures var total := Totals(prev, pods, n, ranges);
            total.success - total.rq == Falls(prev, pods, n) - Failures(prev, pods, n, ranges)
    ensures Contributors(prev, pods, n, ranges) == 0 ==> Totals(prev, pods, n, ranges) == NO_DELTA
  {
    if n == 0 {
    } else {
      TotalExcess(prev, pods, n - 1, ranges);
      ContributionIsPerPod(prev, pods, n - 1, ranges);
      hide Contribution, PodDelta, Fall, FailureGrowth, Observe, PodCount, TotalsAddUp;
      var p := pods[n - 1];
      if ScrapeOf(p).Some? && p.name in prev {
        SuccessExcess(prev[p.name], ScrapeOf(p).value, ranges);
      } else if ScrapeOf(p).Some? {
        NothingToCompare(prev, p.name, ScrapeOf(p).value, ranges);
      }
    }
  }

  lemma NothingToCompare(prev: map<string, Snapshot>, name: string, cur: Snapshot, ranges: seq<HttpStatusRange>)
    requires name !in prev
    ensures Contribution(Lookup(prev, name), cur, ranges).None?
  {
  }

  /** The reported rate is the quotient of successes and requests, uncapped, if and only if
      what the counters of all classes fell by, over all pods, is at most what those of the
      failing classes grew by. Counters that never fall are one case of it. */
  lemma ClampIsIdleIff(
    prev: map<string, Snapshot>, pods: seq<Pod>, ranges: seq<HttpStatusRange>, oldest: int, now: int, later: int)
    requires UniquePods(pods) && CountersAddUp(prev, pods)
    requires Totals(prev, pods, |pods|, ranges).rq >= 1.0
    ensures var total, contributors := Totals(prev, pods, |pods|, ranges), Contributors(prev, pods, |pods|, ranges);
            Report(total, contributors, oldest, now, later).successRate == total.success / total.rq
            <==> Falls(prev, pods, |pods|) <= Failures(prev, pods, |pods|, ranges)
  {
    TotalExcess(prev, pods, |pods|, ranges);
    var total := Totals(prev, pods, |pods|, ranges);
    hide Totals, Contributors, Falls, Failures, CountersAddUp;
    CapIsIdleIff(total);
  }

  lemma CapIsIdleIff(d: Delta)
    requires d.rq > 0.0
    ensures Capped(d.success / d.rq) == d.success / d.rq <==> d.success <= d.rq
  {
    MarginComparesRates(d, 1.0);
    if d.success > d.rq {
      assert Margin(d, 1.0) > 0.0;
      OwnRateHasNoMargin(d);
    }
  }

  /** A restart that shows in one class only, since the total has passed its old value: three
      times as many successes are counted as requests. */
  lemma UnnoticedRestartIsCapped()
    ensures var failing, serving := ZERO.(rqTotal := 100.0, rq5xx := 100.0), ZERO.(rqTotal := 150.0, rq2xx := 150.0);
            && Contribution(Some(Snapshot(failing, 0)), Snapshot(serving, SECOND), DEFAULT_RANGES)
               == Some(Delta(50.0, 150.0, 0.0))
            && Fall(failing, serving) == 100.0 && FailureGrowth(failing, serving, DEFAULT_RANGES) == 0.0
  {
    assert DEFAULT_RANGES[0] in DEFAULT_RANGES;
  }

  /** Every contribution is that of one of the pods. */
  lemma {:induction false} ContributionIsPods(
    prev: map<string, Snapshot>, pods: seq<Pod>, n: nat, ranges: seq<HttpStatusRange>, k: nat) returns (i: nat)
    requires n <= |pods| && k < |Contributions(prev, pods, n, ranges)|
    ensures i < n && PodDelta(prev, pods, i, ranges) == Some(Contributions(prev, pods, n, ranges)[k])
  {
    hide PodDelta;
    if k < |Contributions(prev, pods, n - 1, ranges)| {
      i := ContributionIsPods(prev, pods, n - 1, ranges, k);
    } else {
      i := n - 1;
    }
  }

  /** The pod had traffic in this call, with this rate. */
  ghost predicate HasRate(
    prev: map<string, Snapshot>, pods: seq<Pod>, ranges: seq<HttpStatusRange>, i: int, rate: real)
  {
    0 <= i < |pods| && var d := PodDelta(prev, pods, i, ranges); d.Some? && d.value.rq > 0.0 && Rate(d.value) == rate
  }

  /** With healthy counters the reported rate lies between the rates of two of the call's
      pods with traffic. */
  lemma ReportedRateIsBetweenPodRates(
    prev: map<string, Snapshot>, pods: seq<Pod>, ranges: seq<HttpStatusRange>, oldest: int, now: int, later: int)
    returns (i: nat, low: real, j: nat, high: real)
    requires UniquePods(pods) && HealthyCounters(prev, pods)
    requires Totals(prev, pods, |pods|, ranges).rq >= 1.0
    ensures HasRate(prev, pods, ranges, i, low) && HasRate(prev, pods, ranges, j, high)
    ensures var total, contributors := Totals(prev, pods, |pods|, ranges), Contributors(prev, pods, |pods|, ranges);
            low <= Report(total, contributors, oldest, now, later).successRate <= high
  {
    ReportedRateIsExact(prev, pods, ranges, oldest, now, later);
    HealthyFleet(prev, pods, |pods|, ranges);
    TotalsAreSums(prev, pods, |pods|, ranges);
    var ds := Contributions(prev, pods, |pods|, ranges);
    hide Contributions, HealthyCounters, Totals, Contributors, IsFleet, Sum, PodDelta, Report;
    FleetRateIsWeightedMean(ds);
    var l :| 0 <= l < |ds| && ds[l].rq > 0.0 && Rate(ds[l]) <= Rate(Sum(ds));
    var h :| 0 <= h < |ds| && ds[h].rq > 0.0 && Rate(ds[h]) >= Rate(Sum(ds));
    i := ContributionIsPods(prev, pods, |pods|, ranges, l);
    j := ContributionIsPods(prev, pods, |pods|, ranges, h);
    low, high := Rate(ds[l]), Rate(ds[h]);
  }

  // ---------------------------------------------------------------- widening the ranges

  lemma {:induction false} WiderTotals(
    prev: map<string, Snapshot>, pods: seq<Pod>, n: nat, wide: seq<HttpStatusRange>, narrow: seq<HttpStatusRange>)
    requires Widens(wide, narrow) && n <= |pods|
    ensures var (w, k) := (Totals(prev, pods, n, wide), Totals(prev, pods, n, narrow));
            k.success <= w.success && k.rq == w.rq && k.rq >= 0.0
    ensures Contributors(prev, pods, n, wide) == Contributors(prev, pods, n, narrow)
  {
    if n == 0 {
    } else {
      WiderTotals(prev, pods, n - 1, wide, narrow);
      WiderPod(prev, pods, n - 1, wide, narrow);
    }
  }

  lemma WiderPod(
    prev: map<string, Snapshot>, pods: seq<Pod>, i: nat, wide: seq<HttpStatusRange>, narrow: seq<HttpStatusRange>)
    requires Widens(wide, narrow) && i < |pods|
    ensures var (w, k) := (PodDelta(prev, pods, i, wide), PodDelta(prev, pods, i, narrow));
            (w.Some? <==> k.Some?)
            && (k.Some? ==> k.value.success <= w.value.success && k.value.rq == w.value.rq >= 0.0)
  {
    if ScrapeOf(pods[i]).Some? {
      var kept := Lookup(Stored(prev, pods[..i]), pods[i].name);
      if kept.Some? {
        WideningRaisesSuccess(ClassDeltas(kept.value.counters, ScrapeOf(pods[i]).value.counters), wide, narrow);
      }
    }
  }

  lemma DivMonotone(a: real, b: real, c: real)
    requires a <= b && c > 0.0
    ensures a / c <= b / c
  {
  }

  /** Widening the success ranges never lowers the reported success rate. */
  lemma WideningNeverLowersTheRate(
    prev: map<string, Snapshot>, pods: seq<Pod>, wide: seq<HttpStatusRange>, narrow: seq<HttpStatusRange>,
    oldest: int, now: int, later: int)
    requires Widens(wide, narrow)
    ensures var n := |pods|;
            Report(Totals(prev, pods, n, narrow), Contributors(prev, pods, n, narrow), oldest, now, later).successRate
            <= Report(Totals(prev, pods, n, wide), Contributors(prev, pods, n, wide), oldest, now, later).successRate
  {
    var w, k := Totals(prev, pods, |pods|, wide), Totals(prev, pods, |pods|, narrow);
    WiderTotals(prev, pods, |pods|, wide, narrow);
    if k.rq >= 1.0 {
      DivMonotone(k.success, w.success, k.rq);
    }
  }

  // ---------------------------------------------------------------- the rate divisor

  /** The divisor falls back to 30 s exactly when every stored snapshot of a listed
      pod is less than a second older than the start of the call. */
  lemma FallbackIffSnapshotsAreFresh(previous: map<string, Snapshot>, pods: seq<Pod>, now: int)
    ensures now - Oldest(previous, pods, now) < SECOND
            <==> forall i | 0 <= i < |pods| && pods[i].name in previous ::
                   now - previous[pods[i].name].scrapedAt < SECOND
  {
    assert forall p | p in pods :: exists i | 0 <= i < |pods| :: pods[i] == p;
  }

  lemma ScrapedPodIsStored(prev: map<string, Snapshot>, pods: seq<Pod>, i: nat)
    requires UniquePods(pods) && i < |pods| && ScrapeOf(pods[i]).Some?
    ensures Lookup(NextPrevious(prev, pods), pods[i].name) == ScrapeOf(pods[i])
  {
    hide NextPrevious, Observe;
    CallIsPerPod(prev, pods, pods[i].name);
    ContributionIsPerPod(prev, pods, i, []);
  }

  /** The snapshots are overwritten before the interval is measured. So when every
      listed pod was scraped in the call itself, the divisor is 30 s whatever time
      really passed since the last call. */
  lemma FullyScrapedCallDividesBy30(prev: map<string, Snapshot>, pods: seq<Pod>, now: int)
    requires UniquePods(pods) && pods != []
    requires forall i | 0 <= i < |pods| :: ScrapeOf(pods[i]).Some? && ScrapeOf(pods[i]).value.scrapedAt >= now
    ensures Interval(now, Oldest(NextPrevious(prev, pods), pods, now)) == FALLBACK_INTERVAL
  {
    hide NextPrevious, Oldest;
    var previous := NextPrevious(prev, pods);
    forall i | 0 <= i < |pods| && pods[i].name in previous
      ensures now - previous[pods[i].name].scrapedAt < SECOND
    {
      ScrapedPodIsStored(prev, pods, i);
    }
    FallbackIffSnapshotsAreFresh(previous, pods, now);
  }

  /** Listed pod `i` was not scraped in this call, and an older snapshot of it is stored. */
  ghost predicate Missed(prev: map<string, Snapshot>, pods: seq<Pod>, i: int) {
    0 <= i < |pods| && ScrapeOf(pods[i]).None? && pods[i].name in prev
  }

  lemma MissedPodIsKept(prev: map<string, Snapshot>, pods: seq<Pod>, i: nat)
    requires UniquePods(pods) && i < |pods| && ScrapeOf(pods[i]).None?
    ensures Lookup(NextPrevious(prev, pods), pods[i].name) == Lookup(prev, pods[i].name)
  {
    hide NextPrevious, Observe;
    CallIsPerPod(prev, pods, pods[i].name);
    ContributionIsPerPod(prev, pods, i, []);
  }

  /** The oldest timestamp as an index: it is that of a listed pod, or the ceiling. */
  lemma OldestIsHeld(previous: map<string, Snapshot>, pods: seq<Pod>, now: int)
    ensures var t := Oldest(previous, pods, now);
            && (forall i | 0 <= i < |pods| && pods[i].name in previous :: t <= previous[pods[i].name].scrapedAt)
            && (t < now ==>
                  exists i | 0 <= i < |pods| :: pods[i].name in previous && previous[pods[i].name].scrapedAt == t)
  {
    assert forall p | p in pods :: exists i | 0 <= i < |pods| :: pods[i] == p;
    assert forall i | 0 <= i < |pods| :: pods[i] in pods;
  }

  /** What the code measures: only the pods that it failed to scrape keep an old snapshot. */
  lemma OldestAfterScrape(prev: map<string, Snapshot>, pods: seq<Pod>, now: int)
    requires UniquePods(pods)
    requires forall i | 0 <= i < |pods| && ScrapeOf(pods[i]).Some? :: ScrapeOf(pods[i]).value.scrapedAt >= now
    ensures var t := Oldest(NextPrevious(prev, pods), pods, now);
            && (forall i | Missed(prev, pods, i) :: t <= prev[pods[i].name].scrapedAt)
            && (t < now ==> exists i :: Missed(prev, pods, i) && prev[pods[i].name].scrapedAt == t)
  {
    var previous := NextPrevious(prev, pods);
    var t := Oldest(previous, pods, now);
    OldestIsHeld(previous, pods, now);
    hide NextPrevious, Oldest, ScrapeOf;
    forall i | Missed(prev, pods, i)
      ensures t <= prev[pods[i].name].scrapedAt
    {
      MissedPodIsKept(prev, pods, i);
    }
    if t < now {
      var i :| 0 <= i < |pods| && pods[i].name in previous && previous[pods[i].name].scrapedAt == t;
      if ScrapeOf(pods[i]).Some? {
        ScrapedPodIsStored(prev, pods, i);
      } else {
        MissedPodIsKept(prev, pods, i);
        assert Missed(prev, pods, i);
      }
    }
  }

  /** The divisor is the age of the snapshots that the deltas are taken against, or its
      fallback when that is under a second, if and only if that age is under a second, or
      it is just the fallback and no older snapshot is left, or a pod that was not scraped
      holds the oldest snapshot. */
  lemma DivisorIsIntendedIff(prev: map<string, Snapshot>, pods: seq<Pod>, now: int)
    requires UniquePods(pods)
    requires forall i | 0 <= i < |pods| && ScrapeOf(pods[i]).Some? :: ScrapeOf(pods[i]).value.scrapedAt >= now
    ensures var t := Oldest(prev, pods, now);
            Interval(now, Oldest(NextPrevious(prev, pods), pods, now)) == Interval(now, t)
            <==>
            || now - t < SECOND
            || (now - t == FALLBACK_INTERVAL
                && forall i | Missed(prev, pods, i) :: now - prev[pods[i].name].scrapedAt < SECOND)
            || exists i :: Missed(prev, pods, i) && prev[pods[i].name].scrapedAt == t
  {
    OldestIsHeld(prev, pods, now);
    OldestAfterScrape(prev, pods, now);
    var t, coded := Oldest(prev, pods, now), Oldest(NextPrevious(prev, pods), pods, now);
    hide NextPrevious, Oldest, ScrapeOf;
    assert t <= coded by {
      if coded < now {
        var i :| Missed(prev, pods, i) && prev[pods[i].name].scrapedAt == coded;
      }
    }
    if i :| Missed(prev, pods, i) && prev[pods[i].name].scrapedAt == t {
      assert coded <= t;
    }
  }
}
