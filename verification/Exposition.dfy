/** Parsing one scrape in the Prometheus text exposition format
    (internal/signal/scraper.go:224-331). Go's float parser is the parameter
    `pf`: it gives the number a string denotes, or None for a syntax error, NaN
    or an infinity. Everything below holds for every such parser. */
module Exposition {
  import opened Options
  import opened Text

  type FloatParser = string -> Option<real>

  /** The metric that counts rejected requests. */
  const SHED_METRIC := "envoy_http_admission_control_requests_ejected"

  /** The metric that counts requests by response code. */
  const REQUESTS_METRIC := "istio_requests_total"

  /** The cumulative counters of one pod. */
  datatype Counters = Counters(
    rqTotal: real, rq2xx: real, rq3xx: real, rq4xx: real, rq5xx: real, shedTotal: real)

  const ZERO := Counters(0.0, 0.0, 0.0, 0.0, 0.0, 0.0)

  function Add(a: Counters, b: Counters): Counters {
    Counters(a.rqTotal + b.rqTotal, a.rq2xx + b.rq2xx, a.rq3xx + b.rq3xx, a.rq4xx + b.rq4xx, a.rq5xx + b.rq5xx,
             a.shedTotal + b.shedTotal)
  }

  /** The value of the first `key="..."` in the line, or "" if there is none. */
  function ExtractLabel(line: string, key: string): string {
    var search := key + "=\"";
    var idx := Index(line, search);
    if idx < 0 then ""
    else
      var start := idx + |search|;
      var end := IndexChar(line[start..], '"');
      if end < 0 then "" else line[start..start + end]
  }

  /** The HTTP status class 2 to 5 of a status code, or 0. */
  function HttpClass(code: string): (c: int)
    ensures c == 0 || 2 <= c <= 5
  {
    if |code| == 0 then 0
    else
      match code[0]
      case '2' => 2
      case '3' => 3
      case '4' => 4
      case '5' => 5
      case _ => 0
  }

  /** The metric name and value of a sample line. */
  function ParsePromLine(pf: FloatParser, line: string): Option<(string, real)> {
    var brace := IndexChar(line, '{');
    var close := LastIndexChar(line, '}');
    if brace >= 0 && close < brace then None
    else
      var split := if brace >= 0 then close + 1 else IndexChar(line, ' ');
      if split < 0 || split >= |line| then None
      else
        var rest := TrimSpace(line[split..]);
        var space := IndexChar(rest, ' ');
        var value := pf(if space >= 0 then rest[..space] else rest);
        if value.None? then None
        else
          var name := line[..split];
          var idx := IndexChar(name, '{');
          Some((TrimSpace(if idx >= 0 then name[..idx] else name), value.value))
  }

  // ---------------------------------------------------------------- one line

  predicate IsSkipped(line: string) {
    HasPrefix(line, "#") || TrimSpace(line) == ""
  }

  predicate IsShedLine(line: string) {
    !IsSkipped(line) && HasPrefix(line, SHED_METRIC)
  }

  /** The response code and value of a request sample, if the line is one. */
  function RequestSample(pf: FloatParser, line: string): Option<(string, real)> {
    if IsSkipped(line) || HasPrefix(line, SHED_METRIC) || !HasPrefix(line, REQUESTS_METRIC + "{") then None
    else
      match ParsePromLine(pf, line)
      case None => None
      case Some((_, value)) => Some((ExtractLabel(line, "response_code"), value))
  }

  function ClassCounters(statusClass: int, value: real): Counters {
    match statusClass
    case 2 => ZERO.(rq2xx := value, rqTotal := value)
    case 3 => ZERO.(rq3xx := value, rqTotal := value)
    case 4 => ZERO.(rq4xx := value, rqTotal := value)
    case 5 => ZERO.(rq5xx := value, rqTotal := value)
    case _ => ZERO
  }

  /** What one line contributes. */
  function LineCounters(pf: FloatParser, line: string): Counters {
    if IsShedLine(line) then
      match ParsePromLine(pf, line)
      case None => ZERO
      case Some((_, value)) => ZERO.(shedTotal := value)
    else
      match RequestSample(pf, line)
      case None => ZERO
      case Some((code, value)) => ClassCounters(HttpClass(code), value)
  }

  function SumLines(pf: FloatParser, lines: seq<string>): Counters {
    if lines == [] then ZERO
    else Add(SumLines(pf, lines[..|lines| - 1]), LineCounters(pf, lines[|lines| - 1]))
  }

  /** Adds one line to the counters, branch by branch as the source does. */
  method AddLine(pf: FloatParser, line: string, snap: Counters) returns (r: Counters)
    ensures r == Add(snap, LineCounters(pf, line))
  {
    hide ParsePromLine, ExtractLabel, HasPrefix, TrimSpace, HttpClass;
    r := snap;
    if HasPrefix(line, "#") || TrimSpace(line) == "" {
      return;
    }
    if HasPrefix(line, SHED_METRIC) {
      var parsed := ParsePromLine(pf, line);
      if parsed.Some? {
        r := r.(shedTotal := r.shedTotal + parsed.value.1);
      }
      return;
    }
    if !HasPrefix(line, REQUESTS_METRIC + "{") {
      return;
    }
    var parsed := ParsePromLine(pf, line);
    if parsed.None? {
      return;
    }
    var value, code := parsed.value.1, ExtractLabel(line, "response_code");
    match HttpClass(code)
    case 2 => r := r.(rq2xx := r.rq2xx + value, rqTotal := r.rqTotal + value);
    case 3 => r := r.(rq3xx := r.rq3xx + value, rqTotal := r.rqTotal + value);
    case 4 => r := r.(rq4xx := r.rq4xx + value, rqTotal := r.rqTotal + value);
    case 5 => r := r.(rq5xx := r.rq5xx + value, rqTotal := r.rqTotal + value);
    case _ =>
  }

  method ParseMetrics(pf: FloatParser, body: string) returns (snap: Counters)
    ensures snap == SumLines(pf, Lines(body))
  {
    snap := ZERO;
    var lines := Lines(body);
    for i := 0 to |lines|
      invariant snap == SumLines(pf, lines[..i])
    {
      snap := AddLine(pf, lines[i], snap);
      assert lines[..i + 1][..i] == lines[..i];
    }
    assert lines[..|lines|] == lines;
  }

  // ---------------------------------------------------------------- whole bodies

  lemma {:induction false} SumOfConcat(pf: FloatParser, xs: seq<string>, ys: seq<string>)
    ensures SumLines(pf, xs + ys) == Add(SumLines(pf, xs), SumLines(pf, ys))
    decreases |ys|
  {
    hide LineCounters;
    if ys == [] {
      assert xs + ys == xs;
    } else {
      var ys', line := ys[..|ys| - 1], ys[|ys| - 1];
      SumOfConcat(pf, xs, ys');
      SumOfAppend(pf, xs + ys', line);
      SumOfAppend(pf, ys', line);
      assert ys == ys' + [line] && xs + ys == xs + ys' + [line];
    }
  }

  lemma SumOfAppend(pf: FloatParser, xs: seq<string>, line: string)
    ensures SumLines(pf, xs + [line]) == Add(SumLines(pf, xs), LineCounters(pf, line))
  {
    hide LineCounters;
    assert (xs + [line])[..|xs|] == xs;
  }

  /** Parsing two bodies joined by a newline gives the field-wise sum. */
  lemma ParseIsHomomorphic(pf: FloatParser, a: string, b: string)
    ensures SumLines(pf, Lines(a + "\n" + b)) == Add(SumLines(pf, Lines(a)), SumLines(pf, Lines(b)))
  {
    LinesOfJoin(a, b);
    SumOfConcat(pf, Lines(a), Lines(b));
  }

  lemma SumOfSplit(pf: FloatParser, xs: seq<string>, i: nat)
    requires i < |xs|
    ensures SumLines(pf, xs) == Add(SumLines(pf, xs[..i] + xs[i + 1..]), LineCounters(pf, xs[i]))
  {
    hide LineCounters, SumLines;
    var before, line, after := xs[..i], xs[i], xs[i + 1..];
    assert xs == before + [line] + after;
    SumOfConcat(pf, before + [line], after);
    SumOfAppend(pf, before, line);
    SumOfConcat(pf, before, after);
  }

  /** Only the multiset of lines matters, not their order. */
  lemma {:induction false} LineOrderIsIrrelevant(pf: FloatParser, xs: seq<string>, ys: seq<string>)
    requires multiset(xs) == multiset(ys)
    ensures SumLines(pf, xs) == SumLines(pf, ys)
    decreases |xs|
  {
    assert |xs| == |multiset(xs)| == |multiset(ys)| == |ys|;
    if xs == [] {
    } else {
      var n := |xs| - 1;
      var line, xs' := xs[n], xs[..n];
      assert xs == xs' + [line];
      assert line in multiset(ys);
      var i :| 0 <= i < |ys| && ys[i] == line;
      var ys' := ys[..i] + ys[i + 1..];
      assert ys == ys[..i] + [line] + ys[i + 1..];
      assert multiset(ys') == multiset(ys) - multiset{line} == multiset(xs');
      LineOrderIsIrrelevant(pf, xs', ys');
      SumOfSplit(pf, ys, i);
    }
  }

  ghost predicate TotalsAddUp(c: Counters) {
    c.rqTotal == c.rq2xx + c.rq3xx + c.rq4xx + c.rq5xx
  }

  lemma LineTotalsAddUp(pf: FloatParser, line: string)
    ensures TotalsAddUp(LineCounters(pf, line))
  {
    hide ParsePromLine, RequestSample, IsShedLine;
  }

  /** The total is always the sum of the four classes. */
  lemma {:induction false} TotalIsClassSum(pf: FloatParser, lines: seq<string>)
    ensures TotalsAddUp(SumLines(pf, lines))
  {
    hide LineCounters;
    if lines == [] {
    } else {
      TotalIsClassSum(pf, lines[..|lines| - 1]);
      LineTotalsAddUp(pf, lines[|lines| - 1]);
    }
  }
}
