/** Fleet-wide signals from per-pod counter deltas (internal/signal/scraper.go:54-201,
    333-378). Times are integers of nanoseconds; pod discovery, the HTTP scrape and
    the clock are inputs. */
module Scraper {
  import opened Options
  import opened Api
  import opened Exposition
  import opened SuccessCodes

  const SECOND := 1_000_000_000
  const MIN_GAP := 100_000_000
  const FALLBACK_INTERVAL := 30 * SECOND

  datatype Snapshot = Snapshot(counters: Counters, scrapedAt: int)

  /** A listed pod and what scraping it gives (None is a failed scrape). */
  datatype Pod = Pod(name: string, running: bool, hasIp: bool, response: Option<Snapshot>)

  function ScrapeOf(p: Pod): Option<Snapshot> {
    if p.running && p.hasIp then p.response else None
  }

  /** Pod names are unique within a namespace. */
  ghost predicate UniquePods(pods: seq<Pod>) {
    forall i, j | 0 <= i < j < |pods| :: pods[i].name != pods[j].name
  }

  /** What a pod adds to the fleet totals. */
  datatype Delta = Delta(rq: real, success: real, shed: real)

  const NO_DELTA := Delta(0.0, 0.0, 0.0)

  function NonNegDelta(current: real, prev: real): real {
    if current - prev > 0.0 then current - prev else 0.0
  }

  /** Per-class increments, each clamped at zero. */
  function ClassDeltas(prev: Counters, cur: Counters): Counters {
    ZERO.(rq2xx := NonNegDelta(cur.rq2xx, prev.rq2xx), rq3xx := NonNegDelta(cur.rq3xx, prev.rq3xx),
          rq4xx := NonNegDelta(cur.rq4xx, prev.rq4xx), rq5xx := NonNegDelta(cur.rq5xx, prev.rq5xx))
  }

  /** A scrape counts against the stored snapshot unless there is none, it came too
      soon, or the total went backwards. */
  function Contribution(prev: Option<Snapshot>, cur: Snapshot, ranges: seq<HttpStatusRange>): Option<Delta> {
    if prev.None? || cur.scrapedAt - prev.value.scrapedAt < MIN_GAP then None
    else
      var p, c := prev.value.counters, cur.counters;
      if c.rqTotal - p.rqTotal < 0.0 then None
      else
        Some(Delta(c.rqTotal - p.rqTotal,
                   ClassSuccess(ClassDeltas(p, c), ranges),
                   NonNegDelta(c.shedTotal, p.shedTotal)))
  }

  /** The snapshots after the scrapes of these pods, before pruning. */
  function Stored(prev: map<string, Snapshot>, pods: seq<Pod>): map<string, Snapshot> {
    if pods == [] then prev
    else
      var (before, p) := (Stored(prev, pods[..|pods| - 1]), pods[|pods| - 1]);
      if ScrapeOf(p).Some? then before[p.name := ScrapeOf(p).value] else before
  }

  /** The contribution of pod `i` of a call. */
  function PodDelta(prev: map<string, Snapshot>, pods: seq<Pod>, i: nat, ranges: seq<HttpStatusRange>): Option<Delta>
    requires i < |pods|
  {
    match ScrapeOf(pods[i])
    case None => None
    case Some(cur) => Contribution(Lookup(Stored(prev, pods[..i]), pods[i].name), cur, ranges)
  }

  function AddDelta(a: Delta, b: Option<Delta>): Delta {
    if b.None? then a else Delta(a.rq + b.value.rq, a.success + b.value.success, a.shed + b.value.shed)
  }

  /** The totals over the first `n` pods. */
  function Totals(prev: map<string, Snapshot>, pods: seq<Pod>, n: nat, ranges: seq<HttpStatusRange>): Delta
    requires n <= |pods|
  {
    if n == 0 then NO_DELTA else AddDelta(Totals(prev, pods, n - 1, ranges), PodDelta(prev, pods, n - 1, ranges))
  }

  /** How many of the first `n` pods contributed. */
  function Contributors(prev: map<string, Snapshot>, pods: seq<Pod>, n: nat, ranges: seq<HttpStatusRange>): nat
    requires n <= |pods|
  {
    if n == 0 then 0
    else Contributors(prev, pods, n - 1, ranges) + if PodDelta(prev, pods, n - 1, ranges).Some? then 1 else 0
  }

  function Names(pods: seq<Pod>): set<string> {
    set p | p in pods :: p.name
  }

  function Pruned(stored: map<string, Snapshot>, active: set<string>): map<string, Snapshot> {
    map n | n in stored && n in active :: stored[n]
  }

  /** The stored snapshots after a call. A call that lists no pod changes nothing. */
  function NextPrevious(prev: map<string, Snapshot>, pods: seq<Pod>): map<string, Snapshot> {
    if pods == [] then prev else Pruned(Stored(prev, pods), Names(pods))
  }

  /** The oldest stored timestamp of the listed pods, and at most `ceiling`. */
  function Oldest(previous: map<string, Snapshot>, pods: seq<Pod>, ceiling: int): (t: int)
    ensures t <= ceiling
    ensures forall p | p in pods && p.name in previous :: t <= previous[p.name].scrapedAt
    ensures t == ceiling || exists p | p in pods :: p.name in previous && t == previous[p.name].scrapedAt
  {
    if pods == [] then ceiling
    else
      var (n, p) := (|pods| - 1, pods[|pods| - 1]);
      assert pods == pods[..n] + [p];
      var t := Oldest(previous, pods[..n], ceiling);
      if p.name in previous && previous[p.name].scrapedAt < t then previous[p.name].scrapedAt else t
  }

  function Interval(now: int, oldest: int): int {
    if now - oldest < SECOND then FALLBACK_INTERVAL else now - oldest
  }

  function Seconds(interval: int): real {
    interval as real / 1_000_000_000.0
  }

  function Capped(x: real): real {
    if x > 1.0 then 1.0 else x
  }

  function SafeDefaults(at: int): Signals {
    Signals(0.99, 0.0, 0.0, 0, 0.0, at)
  }

  /** The signals reported for these totals. */
  function Report(total: Delta, contributors: nat, oldest: int, now: int, later: int): Signals {
    if contributors == 0 || total.rq < 1.0 then SafeDefaults(later)
    else
      var seconds := Seconds(Interval(now, oldest));
      Signals(Capped(total.success / total.rq), 0.0, total.rq / seconds, total.rq.Floor, total.shed / seconds, now)
  }

  datatype Outcome = Failed | Read(signals: Signals)

  class Scraper {
    var previous: map<string, Snapshot>

    constructor ()
      ensures previous == map[]
    {
      previous := map[];
    }

    /** One iteration of the pod loop. */
    method ScrapePod(p: Pod, ranges: seq<HttpStatusRange>) returns (d: Option<Delta>)
      modifies this
      ensures ScrapeOf(p).None? ==> d == None && previous == old(previous)
      ensures ScrapeOf(p).Some? ==>
                && d == Contribution(Lookup(old(previous), p.name), ScrapeOf(p).value, ranges)
                && previous == old(previous)[p.name := ScrapeOf(p).value]
    {
      if !p.running || !p.hasIp || p.response.None? {
        return None;
      }
      var current := p.response.value;
      var prev := Lookup(previous, p.name);
      previous := previous[p.name := current];
      if prev.None? {
        return None;
      }
      if current.scrapedAt - prev.value.scrapedAt < MIN_GAP {
        return None;
      }
      var rq := current.counters.rqTotal - prev.value.counters.rqTotal;
      if rq < 0.0 {
        return None;
      }
      var success := ClassSuccess(ClassDeltas(prev.value.counters, current.counters), ranges);
      return Some(Delta(rq, success, NonNegDelta(current.counters.shedTotal, prev.value.counters.shedTotal)));
    }

    /** Deletes the snapshots of pods that are no longer listed. */
    method Prune(active: set<string>)
      modifies this
      ensures previous == Pruned(old(previous), active)
    {
      var names := previous.Keys;
      while names != {}
        invariant names <= previous.Keys <= old(previous).Keys
        invariant forall n | n in previous :: previous[n] == old(previous)[n]
        invariant forall n | n in old(previous) :: n in previous <==> n in names || n in active
        decreases names
      {
        var n :| n in names;
        if n !in active {
          previous := previous - {n};
        }
        names := names - {n};
      }
    }

    method OldestPreviousTimestamp(pods: seq<Pod>, ceiling: int) returns (oldest: int)
      ensures oldest == Oldest(previous, pods, ceiling)
    {
      oldest := ceiling;
      for i := 0 to |pods|
        invariant oldest == Oldest(previous, pods[..i], ceiling)
      {
        assert pods[..i + 1][..i] == pods[..i];
        if pods[i].name in previous {
          if previous[pods[i].name].scrapedAt < oldest {
            oldest := previous[pods[i].name].scrapedAt;
          }
        }
      }
      assert pods[..|pods|] == pods;
    }

    /** The pod loop. */
    method ScrapePods(pods: seq<Pod>, ranges: seq<HttpStatusRange>) returns (total: Delta, scrapedPods: nat)
      modifies this
      ensures previous == Stored(old(previous), pods)
      ensures total == Totals(old(previous), pods, |pods|, ranges)
      ensures scrapedPods == Contributors(old(previous), pods, |pods|, ranges)
    {
      hide Contribution;
      total, scrapedPods := NO_DELTA, 0;
      ghost var before := previous;
      for i := 0 to |pods|
        invariant previous == Stored(before, pods[..i])
        invariant total == Totals(before, pods, i, ranges)
        invariant scrapedPods == Contributors(before, pods, i, ranges)
      {
        assert pods[..i + 1][..i] == pods[..i];
        var d := ScrapePod(pods[i], ranges);
        assert d == PodDelta(before, pods, i, ranges);
        if d.Some? {
          total := Delta(total.rq + d.value.rq, total.success + d.value.success, total.shed + d.value.shed);
          scrapedPods := scrapedPods + 1;
        }
      }
      assert pods[..|pods|] == pods;
    }

    /** Turns the totals into signals. `now` was read before the scrapes, `later`
        when safe defaults are built. */
    method Summarise(pods: seq<Pod>, total: Delta, scrapedPods: nat, now: int, later: int) returns (signals: Signals)
      ensures signals == Report(total, scrapedPods, Oldest(previous, pods, now), now, later)
    {
      if scrapedPods == 0 || total.rq < 1.0 {
        return SafeDefaults(later);
      }
      var oldest := OldestPreviousTimestamp(pods, now);
      var interval := now - oldest;
      if interval < SECOND {
        interval := FALLBACK_INTERVAL;
      }
      var successRate := total.success / total.rq;
      if successRate > 1.0 {
        successRate := 1.0;
      }
      return Signals(successRate, 0.0, total.rq / Seconds(interval), total.rq.Floor,
                     total.shed / Seconds(interval), now);
    }

    /** `listing` is None when discovery fails. */
    method ReadSignals(listing: Option<seq<Pod>>, successCodes: seq<HttpStatusRange>, now: int, later: int)
      returns (r: Outcome)
      modifies this
      ensures var pods := if listing.Some? then listing.value else [];
              var ranges := if successCodes == [] then DEFAULT_RANGES else successCodes;
              && previous == NextPrevious(old(previous), pods)
              && r == if pods == [] then Failed
                      else Read(Report(Totals(old(previous), pods, |pods|, ranges),
                                       Contributors(old(previous), pods, |pods|, ranges),
                                       Oldest(previous, pods, now), now, later))
    {
      hide Report, Totals, Contributors, Oldest, Stored, Pruned;
      if listing.None? || |listing.value| == 0 {
        return Failed;
      }
      var pods := listing.value;
      var ranges := DEFAULT_RANGES;
      if |successCodes| > 0 {
        ranges := successCodes;
      }
      var total, scrapedPods := ScrapePods(pods, ranges);
      Prune(Names(pods));
      var signals := Summarise(pods, total, scrapedPods, now, later);
      return Read(signals);
    }
  }
}
