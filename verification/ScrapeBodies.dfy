/** Whole scrapes, from the samples that a proxy prints to the counters that are read back
    (internal/signal/scraper.go:224-331). */
module ScrapeBodies {
  import opened Options
  import opened Text
  import opened Exposition
  import opened RoundTrip
  import opened SuccessCodes

  datatype Sample = Sample(metric: string, labels: seq<Label>, value: string)

  function PrintLine(s: Sample): string {
    if s.labels == [] then s.metric + " " + s.value else PrintSample(s.metric, s.labels, " " + s.value)
  }

  /** The samples, one per line. */
  function PrintBody(samples: seq<Sample>): string {
    if samples == [] then "" else PrintLine(samples[0]) + "\n" + PrintBody(samples[1..])
  }

  function EjectedMetric(): string {
    "envoy_http_admission_control_requests_ejected"
  }

  function RequestMetric(): string {
    "istio_requests_total"
  }

  /** Label `j` is the sample's response code, and no earlier label hides it. */
  ghost predicate CodeAt(ls: seq<Label>, j: nat) {
    j < |ls| && ls[j].name == "response_code" && !Shadowed(ls[..j], "response_code")
  }

  ghost predicate Readable(s: Sample) {
    && IsToken(s.metric) && '{' !in s.metric && '"' !in s.metric && s.metric[0] != '#'
    && IsToken(s.value) && '{' !in s.value && '}' !in s.value
    && GoodLabels(s.labels) && '\n' !in PrintLine(s)
    && (s.metric == RequestMetric() && s.labels != [] ==> exists j :: CodeAt(s.labels, j))
  }

  ghost predicate AllReadable(samples: seq<Sample>) {
    forall i | 0 <= i < |samples| :: Readable(samples[i])
  }

  // ---------------------------------------------------------------- what a sample counts as

  /** The value of the label `response_code`, or "" if there is none. */
  function CodeOf(ls: seq<Label>): string {
    if ls == [] then "" else if ls[0].name == "response_code" then ls[0].value else CodeOf(ls[1..])
  }

  datatype Kind = Ejected | Status(k: int) | Other

  function KindOf(s: Sample): Kind {
    if HasPrefix(s.metric, EjectedMetric()) then Ejected
    else if s.metric != RequestMetric() || s.labels == [] then Other
    else
      var code := CodeOf(s.labels);
      if code != "" && '2' <= code[0] <= '5' then Status(code[0] as int - '0' as int) else Other
  }

  function NumberOf(pf: FloatParser, s: Sample): real {
    match pf(s.value) case None => 0.0 case Some(v) => v
  }

  /** The sum of the values of the samples of a kind. */
  ghost function ValueOf(pf: FloatParser, samples: seq<Sample>, kind: Kind): real {
    if samples == [] then 0.0
    else (if KindOf(samples[0]) == kind then NumberOf(pf, samples[0]) else 0.0) + ValueOf(pf, samples[1..], kind)
  }

  // ---------------------------------------------------------------- one line

  lemma MetricsAreThese()
    ensures EjectedMetric() == SHED_METRIC && RequestMetric() == REQUESTS_METRIC
  {
  }

  ghost predicate IsPlain(s: string) {
    '{' !in s && ' ' !in s
  }

  lemma FirstPartIsPlain()
    ensures IsPlain("envoy_http_admission") && "envoy_http_admission"[0] == 'e'
  {
  }

  lemma SecondPartIsPlain()
    ensures IsPlain("_control_requests")
  {
  }

  lemma EjectedMetricIsPlain()
    ensures IsPlain(EjectedMetric()) && EjectedMetric() != "" && EjectedMetric()[0] == 'e'
  {
    FirstPartIsPlain();
    SecondPartIsPlain();
    ConcatIsPlain("envoy_http_admission", "_control_requests");
    assert IsPlain("_ejected");
    ConcatIsPlain("envoy_http_admission" + "_control_requests", "_ejected");
    hide IsPlain, EjectedMetric;
    EjectedMetricText();
  }

  lemma EjectedMetricText()
    ensures EjectedMetric() == "envoy_http_admission" + "_control_requests" + "_ejected"
  {
  }

  lemma ConcatIsPlain(s: string, t: string)
    requires IsPlain(s) && IsPlain(t)
    ensures IsPlain(s + t)
  {
  }

  lemma MetricsDiffer()
    ensures '{' !in RequestMetric() && !HasPrefix(RequestMetric(), EjectedMetric())
  {
    EjectedMetricIsPlain();
    hide EjectedMetric;
    NoPrefixAt(RequestMetric(), EjectedMetric(), 0);
  }

  lemma NoPrefixAt(line: string, p: string, k: nat)
    requires k < |p| && k < |line| && line[k] != p[k]
    ensures !HasPrefix(line, p)
  {
    assert |p| <= |line| ==> line[..|p|][k] == line[k];
  }

  /** A prefix that lacks the separator lies within the text before it. */
  lemma PrefixBefore(text: string, c: char, rest: string, p: string)
    requires c !in p
    ensures HasPrefix(text + [c] + rest, p) <==> HasPrefix(text, p)
  {
    var line := text + [c] + rest;
    if |p| > |text| {
      NoPrefixAt(line, p, |text|);
    } else {
      assert line[..|p|] == text[..|p|];
    }
  }

  /** A prefix that ends in the separator is all of the text before it. */
  lemma PrefixUpTo(text: string, c: char, rest: string, p: string)
    requires c !in p && c !in text
    ensures HasPrefix(text + [c] + rest, p + [c]) <==> text == p
  {
    var line := text + [c] + rest;
    if |text| < |p| {
      NoPrefixAt(line, p + [c], |text|);
    } else if |p| < |text| {
      NoPrefixAt(line, p + [c], |p|);
    } else {
      assert line[..|p| + 1] == text + [c];
      assert (text + [c])[..|p|] == text && (p + [c])[..|p|] == p;
    }
  }

  lemma NotSkipped(s: Sample)
    requires Readable(s)
    ensures var line := PrintLine(s); line != "" && line[0] == s.metric[0] && !IsSkipped(line)
  {
    var line := PrintLine(s);
    assert line[0] == s.metric[0];
    assert line[..1][0] == line[0];
    TrimKeepsText(line);
  }

  lemma PrefixOfLine(s: Sample)
    requires Readable(s)
    ensures HasPrefix(PrintLine(s), SHED_METRIC) <==> HasPrefix(s.metric, EjectedMetric())
    ensures HasPrefix(PrintLine(s), REQUESTS_METRIC + "{") <==> s.metric == RequestMetric() && s.labels != []
  {
    MetricsAreThese();
    EjectedMetricIsPlain();
    MetricsDiffer();
    hide EjectedMetric, RequestMetric, SHED_METRIC, REQUESTS_METRIC, HasPrefix, PrintLabels;
    if s.labels == [] {
      PrefixBefore(s.metric, ' ', s.value, EjectedMetric());
      NoBraceNoPrefix(PrintLine(s), RequestMetric());
      assert PrintLine(s) == s.metric + [' '] + s.value;
    } else {
      var rest := PrintLabels(s.labels) + "}" + (" " + s.value);
      assert PrintLine(s) == s.metric + ['{'] + rest;
      PrefixBefore(s.metric, '{', rest, EjectedMetric());
      PrefixUpTo(s.metric, '{', rest, RequestMetric());
    }
  }

  lemma NoBraceNoPrefix(line: string, p: string)
    requires '{' !in line
    ensures !HasPrefix(line, p + "{")
  {
    assert (p + "{")[|p|] == '{';
    if |p| < |line| {
      NoPrefixAt(line, p + "{", |p|);
    }
  }

  lemma ValueIsParsed(pf: FloatParser, s: Sample)
    requires Readable(s)
    ensures ParsePromLine(pf, PrintLine(s))
            == match pf(s.value) case None => None case Some(v) => Some((s.metric, v))
  {
    hide ParsePromLine, PrintSample;
    if s.labels == [] {
      BareSampleRoundTrip(pf, s.metric, s.value);
    } else {
      SampleRoundTrip(pf, s.metric, s.labels, s.value, s.value);
    }
  }

  lemma {:induction false} CodeIsFirst(ls: seq<Label>, j: nat)
    requires CodeAt(ls, j)
    ensures CodeOf(ls) == ls[j].value
  {
    if j > 0 {
      assert ls[..j][0] == ls[0];
      assert !Shadows(ls[0], "response_code");
      assert ls[0].name != "response_code" by {
        SelfSuffix(ls[0].name);
      }
      assert ls[1..][..j - 1] == ls[..j][1..];
      NotShadowedLater(ls[..j], "response_code");
      CodeIsFirst(ls[1..], j - 1);
    }
  }

  lemma NotShadowedLater(ls: seq<Label>, key: string)
    requires ls != [] && !Shadowed(ls, key)
    ensures !Shadowed(ls[1..], key)
  {
    hide Shadows;
    forall l | l in ls[1..]
      ensures !Shadows(l, key)
    {
      var i :| 0 <= i < |ls| && ls[i] == l;
    }
  }

  lemma SelfSuffix(s: string)
    ensures HasSuffix(s, s)
  {
    assert s[0..] == s;
  }

  lemma CodeIsExtracted(s: Sample)
    requires Readable(s) && s.metric == RequestMetric() && s.labels != []
    ensures ExtractLabel(PrintLine(s), "response_code") == CodeOf(s.labels)
  {
    hide RequestMetric, ExtractLabel, PrintSample, Shadowed, CodeOf, IsToken;
    var j :| CodeAt(s.labels, j);
    CodeIsFirst(s.labels, j);
    LabelIsFoundIffNotShadowed(s.metric, s.labels, j, " " + s.value);
  }

  /** The counters of a sample of a kind with this value. */
  function CountersOf(kind: Kind, value: real): Counters {
    match kind
    case Ejected => Counters(0.0, 0.0, 0.0, 0.0, 0.0, value)
    case Status(2) => Counters(value, value, 0.0, 0.0, 0.0, 0.0)
    case Status(3) => Counters(value, 0.0, value, 0.0, 0.0, 0.0)
    case Status(4) => Counters(value, 0.0, 0.0, value, 0.0, 0.0)
    case Status(5) => Counters(value, 0.0, 0.0, 0.0, value, 0.0)
    case _ => Counters(0.0, 0.0, 0.0, 0.0, 0.0, 0.0)
  }

  lemma SampleIsRead(pf: FloatParser, s: Sample)
    requires Readable(s) && !HasPrefix(s.metric, EjectedMetric())
    ensures RequestSample(pf, PrintLine(s))
            == if s.metric == RequestMetric() && s.labels != [] && pf(s.value).Some?
               then Some((CodeOf(s.labels), pf(s.value).value)) else None
  {
    NotSkipped(s);
    PrefixOfLine(s);
    ValueIsParsed(pf, s);
    if s.metric == RequestMetric() && s.labels != [] {
      CodeIsExtracted(s);
    }
    hide PrintLine, Readable, ParsePromLine, ExtractLabel, HasPrefix, IsSkipped, CodeOf;
    hide EjectedMetric, RequestMetric, SHED_METRIC, REQUESTS_METRIC;
  }

  lemma CountersOfCode(code: string, value: real)
    ensures ClassCounters(HttpClass(code), value)
            == CountersOf(
              if code != "" && '2' <= code[0] <= '5' then Status(code[0] as int - '0' as int) else Other, value)
  {
  }

  lemma NothingIsCounted(kind: Kind)
    ensures CountersOf(kind, 0.0) == ZERO
  {
  }

  lemma EjectedIsRead(pf: FloatParser, s: Sample)
    requires Readable(s) && HasPrefix(s.metric, EjectedMetric())
    ensures LineCounters(pf, PrintLine(s)) == Counters(0.0, 0.0, 0.0, 0.0, 0.0, NumberOf(pf, s))
  {
    NotSkipped(s);
    PrefixOfLine(s);
    ValueIsParsed(pf, s);
    hide PrintLine, ParsePromLine, IsSkipped, RequestSample, HasPrefix, Readable, EjectedMetric, SHED_METRIC;
  }

  lemma RequestIsRead(pf: FloatParser, s: Sample)
    requires Readable(s) && !HasPrefix(s.metric, EjectedMetric())
    ensures LineCounters(pf, PrintLine(s))
            == if s.metric == RequestMetric() && s.labels != [] && pf(s.value).Some?
               then ClassCounters(HttpClass(CodeOf(s.labels)), pf(s.value).value) else ZERO
  {
    PrefixOfLine(s);
    SampleIsRead(pf, s);
    hide PrintLine, ParsePromLine, IsSkipped, CodeOf, RequestSample, HasPrefix, Readable, HttpClass, ClassCounters;
    hide EjectedMetric, RequestMetric, SHED_METRIC;
  }

  /** A printed sample counts its own value as what its metric and response code make it, and
      nothing else; a value that does not parse counts as nothing. */
  lemma LineIsItsSample(pf: FloatParser, s: Sample)
    requires Readable(s)
    ensures LineCounters(pf, PrintLine(s)) == CountersOf(KindOf(s), NumberOf(pf, s))
  {
    NothingIsCounted(KindOf(s));
    if HasPrefix(s.metric, EjectedMetric()) {
      EjectedIsRead(pf, s);
    } else {
      RequestIsRead(pf, s);
      if s.labels != [] && pf(s.value).Some? {
        CountersOfCode(CodeOf(s.labels), pf(s.value).value);
      }
    }
    hide PrintLine, CodeOf, HasPrefix, Readable, LineCounters, ClassCounters, HttpClass, EjectedMetric, RequestMetric;
  }

  /** Comments and blank lines count as nothing. */
  lemma CommentsCountNothing(pf: FloatParser, line: string)
    requires HasPrefix(line, "#") || TrimSpace(line) == ""
    ensures LineCounters(pf, line) == Counters(0.0, 0.0, 0.0, 0.0, 0.0, 0.0)
  {
  }

  // ---------------------------------------------------------------- whole bodies

  lemma BodyOne(pf: FloatParser, samples: seq<Sample>)
    requires samples != [] && Readable(samples[0])
    ensures SumLines(pf, Lines(PrintBody(samples)))
            == Add(CountersOf(KindOf(samples[0]), NumberOf(pf, samples[0])),
                   SumLines(pf, Lines(PrintBody(samples[1..]))))
  {
    hide LineCounters, SumLines, CountersOf, KindOf, NumberOf, Lines, PrintLine;
    var line := PrintLine(samples[0]);
    ParseIsHomomorphic(pf, line, PrintBody(samples[1..]));
    OnlyLine(pf, line);
    LineIsItsSample(pf, samples[0]);
  }

  lemma OnlyLine(pf: FloatParser, line: string)
    requires '\n' !in line
    ensures SumLines(pf, Lines(line)) == LineCounters(pf, line)
  {
    hide LineCounters;
    assert Lines(line) == [line];
    assert [line][..0] == [];
  }

  lemma EmptyBody(pf: FloatParser)
    ensures SumLines(pf, Lines("")) == Counters(0.0, 0.0, 0.0, 0.0, 0.0, 0.0)
  {
    OnlyLine(pf, "");
    CommentsCountNothing(pf, "");
  }

  /** These counters are the sums of the samples' values, kind by kind. */
  ghost predicate SumsUp(c: Counters, pf: FloatParser, samples: seq<Sample>) {
    && c.shedTotal == ValueOf(pf, samples, Ejected)
    && c.rq2xx == ValueOf(pf, samples, Status(2)) && c.rq3xx == ValueOf(pf, samples, Status(3))
    && c.rq4xx == ValueOf(pf, samples, Status(4)) && c.rq5xx == ValueOf(pf, samples, Status(5))
    && c.rqTotal == c.rq2xx + c.rq3xx + c.rq4xx + c.rq5xx
  }

  lemma CountersOfFields(kind: Kind, value: real)
    ensures var c := CountersOf(kind, value);
            && c.shedTotal == (if kind == Ejected then value else 0.0)
            && c.rq2xx == (if kind == Status(2) then value else 0.0)
            && c.rq3xx == (if kind == Status(3) then value else 0.0)
            && c.rq4xx == (if kind == Status(4) then value else 0.0)
            && c.rq5xx == (if kind == Status(5) then value else 0.0)
            && c.rqTotal == c.rq2xx + c.rq3xx + c.rq4xx + c.rq5xx
  {
  }

  lemma ValueOne(pf: FloatParser, samples: seq<Sample>, kind: Kind)
    requires samples != []
    ensures ValueOf(pf, samples, kind)
            == (if KindOf(samples[0]) == kind then NumberOf(pf, samples[0]) else 0.0) + ValueOf(pf, samples[1..], kind)
  {
  }

  lemma SumsUpOne(c: Counters, pf: FloatParser, samples: seq<Sample>)
    requires samples != [] && SumsUp(c, pf, samples[1..])
    ensures SumsUp(Add(CountersOf(KindOf(samples[0]), NumberOf(pf, samples[0])), c), pf, samples)
  {
    hide KindOf, NumberOf, CountersOf, ValueOf;
    CountersOfFields(KindOf(samples[0]), NumberOf(pf, samples[0]));
    forall kind
      ensures ValueOf(pf, samples, kind)
              == (if KindOf(samples[0]) == kind then NumberOf(pf, samples[0]) else 0.0)
                 + ValueOf(pf, samples[1..], kind)
    {
      ValueOne(pf, samples, kind);
    }
  }

  /** The counters read from a printed scrape are, field by field, the sums of the values of its
      samples of that kind: ejected requests, and requests by the class of their code. */
  lemma {:induction false} CountersAreSampleSums(pf: FloatParser, samples: seq<Sample>)
    requires AllReadable(samples)
    ensures SumsUp(SumLines(pf, Lines(PrintBody(samples))), pf, samples)
  {
    if samples == [] {
      hide SumLines, Lines, AllReadable;
      EmptyBody(pf);
    } else {
      hide SumLines, Lines, PrintBody, NumberOf, KindOf, Readable, SumsUp, CountersOf, Add;
      BodyOne(pf, samples);
      CountersAreSampleSums(pf, samples[1..]);
      SumsUpOne(SumLines(pf, Lines(PrintBody(samples[1..]))), pf, samples);
    }
  }
}
