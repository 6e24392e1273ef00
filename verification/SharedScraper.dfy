/** One scraper serves all policies (internal/controller/adaptivepolicy_controller.go:76-92),
    and every call forgets the pods that its own policy does not list
    (internal/signal/scraper.go:165-174). What that leaves of the deltas. */
module SharedScraper {
  import opened Options
  import opened Api
  import opened Exposition
  import opened SuccessCodes
  import opened Scraper
  import opened ScraperRuns
  import Evaluator

  // ---------------------------------------------------------------- when a snapshot survives

  /** The pod was scraped, and no call since then found other pods without it. */
  ghost predicate SurvivesFrom(run: seq<Obs>, k: int) {
    0 <= k < |run| && run[k].Scraped? && forall j | k < j < |run| :: !run[j].Absent?
  }

  ghost predicate Survives(run: seq<Obs>) {
    exists k :: SurvivesFrom(run, k)
  }

  lemma SurvivesStep(run: seq<Obs>, o: Obs)
    ensures Survives(run + [o]) <==> o.Scraped? || (o.Unscraped? && Survives(run))
  {
    var all := run + [o];
    if o.Scraped? {
      assert SurvivesFrom(all, |run|);
    }
    if k :| SurvivesFrom(run, k) && o.Unscraped? {
      assert SurvivesFrom(all, k);
    }
    if k :| SurvivesFrom(all, k) && !o.Scraped? {
      assert all[|run|] == o && forall j | 0 <= j < |run| :: run[j] == all[j];
      assert SurvivesFrom(run, k);
    }
  }

  lemma {:induction false} KeptIffSurvives(run: seq<Obs>)
    ensures Kept(run).Some? <==> Survives(run)
  {
    if run == [] {
    } else {
      var before, o := run[..|run| - 1], run[|run| - 1];
      KeptIffSurvives(before);
      SurvivesStep(before, o);
      assert run == before + [o];
    }
  }

  /** After any run of calls of any policies, a pod's snapshot is stored if and only if
      since its last scrape every call that found pods listed it. */
  lemma StoredIffListedSince(calls: seq<seq<Pod>>, name: string)
    ensures name in PreviousAfter(calls) <==> Survives(ObsRun(calls, name))
  {
    RunIsPerPod(calls, name);
    KeptIffSurvives(ObsRun(calls, name));
  }

  // ---------------------------------------------------------------- alternating policies

  ghost predicate Disjoint(pods: seq<Pod>, others: seq<Pod>) {
    forall p, q | p in pods && q in others :: p.name != q.name
  }

  /** After another policy's call, no pod of this one contributes. */
  lemma {:induction false} NothingContributes(
    prev: map<string, Snapshot>, pods: seq<Pod>, n: nat, ranges: seq<HttpStatusRange>)
    requires UniquePods(pods) && n <= |pods| && forall p | p in pods :: p.name !in prev
    ensures Contributors(prev, pods, n, ranges) == 0
  {
    if n == 0 {
    } else {
      NothingContributes(prev, pods, n - 1, ranges);
      assert pods[n - 1] in pods;
      ContributionIsPerPod(prev, pods, n - 1, ranges);
    }
  }

  lemma OtherPolicyErases(prev: map<string, Snapshot>, others: seq<Pod>, pods: seq<Pod>)
    requires others != [] && Disjoint(pods, others)
    ensures forall p | p in pods :: p.name !in NextPrevious(prev, others)
  {
    hide Stored;
    assert forall p | p in pods :: p.name !in Names(others);
  }

  /** Consecutive calls found pods, and no pod of the one is a pod of the other. */
  ghost predicate Alternates(calls: seq<seq<Pod>>) {
    && (forall k | 0 <= k < |calls| :: calls[k] != [] && UniquePods(calls[k]))
    && (forall k | 0 < k < |calls| :: Disjoint(calls[k], calls[k - 1]))
  }

  /** When the calls of policies with different pods alternate on the shared scraper,
      every call reports the safe defaults, whatever the pods' counters say; and on these
      no trigger fires and no count changes. */
  lemma AlternatingCallsReportDefaults(
    calls: seq<seq<Pod>>, k: nat, ranges: seq<HttpStatusRange>, now: int, later: int,
    ts: seq<Trigger>, profile: string, clock: seq<int>, memory: Evaluator.Memory)
    requires Alternates(calls) && k < |calls| && |clock| == 2 * |ts| && Evaluator.Bounded(memory)
    ensures var prev, pods := PreviousAfter(calls[..k]), calls[k];
            var signals := Report(Totals(prev, pods, |pods|, ranges), Contributors(prev, pods, |pods|, ranges),
                                  Oldest(NextPrevious(prev, pods), pods, now), now, later);
            && signals == Signals(0.99, 0.0, 0.0, 0, 0.0, later)
            && Evaluator.Evaluated(ts, Evaluator.Call(profile, signals, clock), memory)
               == Evaluator.Scanned(memory, Evaluator.NO_DECISION, None)
  {
    var prev, pods := PreviousAfter(calls[..k]), calls[k];
    if k > 0 {
      assert calls[..k][..k - 1] == calls[..k - 1];
      OtherPolicyErases(PreviousAfter(calls[..k - 1]), calls[k - 1], pods);
    }
    NothingContributes(prev, pods, |pods|, ranges);
  }

  // ---------------------------------------------------------------- namesakes in other namespaces

  /** A call with the namespace of its policy. The snapshots are stored by pod name alone. */
  datatype Call = Call(namespace: string, pods: seq<Pod>)

  ghost function Listings(calls: seq<Call>): (r: seq<seq<Pod>>)
    ensures |r| == |calls|
  {
    if calls == [] then [] else Listings(calls[..|calls| - 1]) + [calls[|calls| - 1].pods]
  }

  /** The stored snapshots after these calls. */
  ghost function After(calls: seq<Call>): map<string, Snapshot> {
    PreviousAfter(Listings(calls))
  }

  lemma AfterStep(calls: seq<Call>, call: Call)
    ensures After(calls + [call]) == NextPrevious(After(calls), call.pods)
  {
    assert (calls + [call])[..|calls|] == calls;
    assert Listings(calls + [call])[..|calls|] == Listings(calls);
  }

  /** The namespace of the last call that scraped a pod of this name. */
  ghost function Owner(calls: seq<Call>, name: string): Option<string> {
    if calls == [] then None
    else
      var (before, call) := (calls[..|calls| - 1], calls[|calls| - 1]);
      if Observe(call.pods, name).Scraped? then Some(call.namespace) else Owner(before, name)
  }

  /** What a call sees of pod `name` of `namespace`: the scrape of a namesake only costs it its
      snapshot. */
  ghost function ObserveOwn(call: Call, namespace: string, name: string): Obs {
    var o := Observe(call.pods, name);
    if call.namespace != namespace && o.Scraped? then Absent else o
  }

  ghost function OwnRun(calls: seq<Call>, namespace: string, name: string): seq<Obs> {
    if calls == [] then []
    else OwnRun(calls[..|calls| - 1], namespace, name) + [ObserveOwn(calls[|calls| - 1], namespace, name)]
  }

  /** The requests that the calls of a namespace report for a pod name. */
  ghost function ReportedIn(calls: seq<Call>, namespace: string, name: string): real {
    if calls == [] then 0.0
    else
      var (before, call) := (calls[..|calls| - 1], calls[|calls| - 1]);
      ReportedIn(before, namespace, name)
      + if call.namespace == namespace then Share(After(before), call.pods, |call.pods|, name) else 0.0
  }

  /** Those among them that were counted from the snapshot of a namesake. */
  ghost function Foreign(calls: seq<Call>, namespace: string, name: string): real {
    if calls == [] then 0.0
    else
      var (before, call) := (calls[..|calls| - 1], calls[|calls| - 1]);
      Foreign(before, namespace, name)
      + if call.namespace == namespace && Owner(before, name) != Some(namespace)
        then Share(After(before), call.pods, |call.pods|, name) else 0.0
  }

  /** The stored snapshot is the one kept of a namespace's own pod exactly if the last scrape
      of the name was for that namespace; otherwise nothing of that pod is left. */
  lemma {:induction false} StoredIsOfTheOwner(calls: seq<Call>, namespace: string, name: string)
    ensures Kept(OwnRun(calls, namespace, name))
            == if Owner(calls, name) == Some(namespace) then Lookup(After(calls), name) else None
  {
    if calls == [] {
    } else {
      var before, call := calls[..|calls| - 1], calls[|calls| - 1];
      StoredIsOfTheOwner(before, namespace, name);
      hide NextPrevious, Observe, After;
      assert calls == before + [call];
      AfterStep(before, call);
      CallIsPerPod(After(before), call.pods, name);
      var own := OwnRun(before, namespace, name);
      assert OwnRun(calls, namespace, name)[..|own|] == own;
    }
  }

  /** What pod `i` of a call would add if only snapshots of its own were stored. */
  ghost function OwnDelta(calls: seq<Call>, call: Call, i: nat, ranges: seq<HttpStatusRange>): Option<Delta>
    requires i < |call.pods|
  {
    match ScrapeOf(call.pods[i])
    case None => None
    case Some(cur) => Contribution(Kept(OwnRun(calls, call.namespace, call.pods[i].name)), cur, ranges)
  }

  /** A call's delta is that of its own pod if and only if it counts nothing for the pod, or
      the last scrape of that name was for the same namespace. */
  lemma DeltaIsOwnIff(calls: seq<Call>, call: Call, i: nat, ranges: seq<HttpStatusRange>)
    requires UniquePods(call.pods) && i < |call.pods|
    ensures var d := PodDelta(After(calls), call.pods, i, ranges);
            d == OwnDelta(calls, call, i, ranges)
            <==> d.None? || Owner(calls, call.pods[i].name) == Some(call.namespace)
  {
    var name := call.pods[i].name;
    ContributionIsPerPod(After(calls), call.pods, i, ranges);
    StoredIsOfTheOwner(calls, call.namespace, name);
    hide After, PodDelta, Owner, Kept, OwnRun, Observe, PodCount, UniquePods;
    if ScrapeOf(call.pods[i]).Some? {
      NothingFromNothing(ScrapeOf(call.pods[i]).value, ranges);
    }
  }

  lemma NothingFromNothing(cur: Snapshot, ranges: seq<HttpStatusRange>)
    ensures Contribution(None, cur, ranges).None?
  {
  }

  lemma PodCountIsNatural(kept: Option<Snapshot>, o: Obs)
    ensures PodCount(kept, o) >= 0.0 && PodCount(None, o) == 0.0 && PodCount(kept, Absent) == 0.0
  {
  }

  /** The requests reported for a pod are those counted for it alone, and those that were
      counted from a namesake's snapshot. */
  lemma {:induction false} ReportedIsOwnAndForeign(calls: seq<Call>, namespace: string, name: string)
    requires forall k | 0 <= k < |calls| :: UniquePods(calls[k].pods)
    ensures ReportedIn(calls, namespace, name)
            == Counted(OwnRun(calls, namespace, name)) + Foreign(calls, namespace, name)
    ensures Foreign(calls, namespace, name) >= 0.0
  {
    if calls == [] {
    } else {
      var before, call := calls[..|calls| - 1], calls[|calls| - 1];
      ReportedIsOwnAndForeign(before, namespace, name);
      ShareIsPodCount(After(before), call.pods, name);
      StoredIsOfTheOwner(before, namespace, name);
      var own, o := OwnRun(before, namespace, name), Observe(call.pods, name);
      assert OwnRun(calls, namespace, name)[..|own|] == own;
      PodCountIsNatural(Lookup(After(before), name), o);
      PodCountIsNatural(Kept(own), o);
      hide After, Owner, Kept, Observe, PodCount, UniquePods, Share;
      if call.namespace != namespace && !o.Scraped? {
        OnlyScrapesCount(Kept(own), o);
      }
    }
  }

  /** No more is reported for a pod than it served, but for what was counted from namesakes'
      snapshots. */
  lemma ReportedAtMostServedAndForeign(
    calls: seq<Call>, namespace: string, name: string, served: seq<real>, restarted: seq<real>)
    requires forall k | 0 <= k < |calls| :: UniquePods(calls[k].pods)
    requires OwnRun(calls, namespace, name) != [] && Explains(OwnRun(calls, namespace, name), served, restarted)
    ensures ReportedIn(calls, namespace, name) <= served[|served| - 1] - served[0] + Foreign(calls, namespace, name)
  {
    assert |served| == |OwnRun(calls, namespace, name)|;
    hide Explains, Counted, ReportedIn, Foreign, OwnRun;
    ReportedIsOwnAndForeign(calls, namespace, name);
    CountedAtMostServed(OwnRun(calls, namespace, name), served, restarted);
  }

  // ---------------------------------------------------------------- two idle namesakes

  function Idle(rq: real, at: int): Pod {
    Pod("web-0", true, true, Some(Snapshot(ZERO.(rqTotal := rq, rq5xx := rq), at)))
  }

  lemma DeltaOfOnlyPod(prev: map<string, Snapshot>, p: Pod, ranges: seq<HttpStatusRange>, d: Delta)
    requires ScrapeOf(p).Some? && Contribution(Lookup(prev, p.name), ScrapeOf(p).value, ranges) == Some(d)
    ensures Totals(prev, [p], 1, ranges) == d && Contributors(prev, [p], 1, ranges) == 1
  {
    hide Contribution;
    ContributionIsPerPod(prev, [p], 0, ranges);
    assert Totals(prev, [p], 0, ranges) == NO_DELTA && Contributors(prev, [p], 0, ranges) == 0;
  }

  lemma IdleDelta()
    ensures Contribution(ScrapeOf(Idle(100.0, 0)), ScrapeOf(Idle(500.0, SECOND)).value, DEFAULT_RANGES)
            == Some(Delta(400.0, 0.0, 0.0))
  {
  }

  lemma StoredByOneCall(namespace: string, p: Pod)
    requires ScrapeOf(p).Some?
    ensures Lookup(After([Call(namespace, [p])]), p.name) == ScrapeOf(p)
  {
    var calls := [Call(namespace, [p])];
    assert [] + calls == calls;
    AfterStep([], calls[0]);
    ScrapedPodIsStored(After([]), [p], 0);
  }

  lemma NothingOwned(calls: seq<Call>, call: Call, ranges: seq<HttpStatusRange>)
    requires |calls| == |call.pods| == 1 && calls[0].namespace != call.namespace
    ensures OwnDelta(calls, call, 0, ranges) == None
  {
    hide Contribution, Observe, After, ScrapeOf;
    var name := call.pods[0].name;
    StoredIsOfTheOwner(calls, call.namespace, name);
    assert Owner(calls, name) != Some(call.namespace);
    if ScrapeOf(call.pods[0]).Some? {
      NothingFromNothing(ScrapeOf(call.pods[0]).value, ranges);
    }
  }

  lemma FailingDelta(oldest: int, now: int, later: int)
    ensures var signals := Report(Delta(400.0, 0.0, 0.0), 1, oldest, now, later);
            signals.sampleCount == 400 && signals.successRate == 0.0
  {
  }

  /** Pods `web-0` of two namespaces, scraped one after the other, neither of them before: the
      second call reports 400 requests and no success, though it has nothing to compare. */
  lemma NamesakesCountTheirDifference(now: int, later: int)
    ensures var calls, call := [Call("a", [Idle(100.0, 0)])], Call("b", [Idle(500.0, SECOND)]);
            var prev, pods := After(calls), call.pods;
            var signals := Report(Totals(prev, pods, 1, DEFAULT_RANGES), Contributors(prev, pods, 1, DEFAULT_RANGES),
                                  Oldest(NextPrevious(prev, pods), pods, now), now, later);
            && signals.sampleCount == 400 && signals.successRate == 0.0
            && OwnDelta(calls, call, 0, DEFAULT_RANGES) == None
  {
    var first, second := Idle(100.0, 0), Idle(500.0, SECOND);
    var calls, call := [Call("a", [first])], Call("b", [second]);
    StoredByOneCall("a", first);
    IdleDelta();
    hide Contribution, NextPrevious, After, Totals, Contributors, Oldest, Report;
    DeltaOfOnlyPod(After(calls), second, DEFAULT_RANGES, Delta(400.0, 0.0, 0.0));
    NothingOwned(calls, call, DEFAULT_RANGES);
    FailingDelta(Oldest(NextPrevious(After(calls), [second]), [second], now), now, later);
  }
}
