/** Counting successes by status class (internal/signal/scraper.go:144-157, 356-367)
    against counting them by response code. */
module SuccessCodes {
  import opened Options
  import opened Api
  import opened Text
  import opened Exposition
  import opened RoundTrip

  const DEFAULT_RANGES: seq<HttpStatusRange> := [HttpStatusRange(100, 399)]

  predicate InRanges(n: int, ranges: seq<HttpStatusRange>) {
    exists r | r in ranges :: r.start <= n <= r.end
  }

  /** A class counts as success if its representative, 200 to 500, does. */
  predicate StatusClassInSuccessRanges(statusClass: int, ranges: seq<HttpStatusRange>) {
    InRanges(statusClass * 100, ranges)
  }

  function IfClass(statusClass: int, ranges: seq<HttpStatusRange>, value: real): real {
    if StatusClassInSuccessRanges(statusClass, ranges) then value else 0.0
  }

  /** The successes among the counters, class by class. */
  function ClassSuccess(c: Counters, ranges: seq<HttpStatusRange>): real {
    IfClass(2, ranges, c.rq2xx) + IfClass(3, ranges, c.rq3xx)
    + IfClass(4, ranges, c.rq4xx) + IfClass(5, ranges, c.rq5xx)
  }

  // ---------------------------------------------------------------- by response code

  predicate IsDigit(c: char) {
    '0' <= c <= '9'
  }

  /** The number of a three-digit status code (section 15 of RFC 9110). */
  function CodeNumber(code: string): Option<int> {
    if |code| == 3 && IsDigit(code[0]) && IsDigit(code[1]) && IsDigit(code[2]) then
      Some((code[0] as int - '0' as int) * 100 + (code[1] as int - '0' as int) * 10 + (code[2] as int - '0' as int))
    else None
  }

  /** The success value of one line, judged by its own response code. */
  function LineSuccess(pf: FloatParser, line: string, ranges: seq<HttpStatusRange>): real {
    match RequestSample(pf, line)
    case None => 0.0
    case Some((code, value)) =>
      if HttpClass(code) != 0 && CodeNumber(code).Some? && InRanges(CodeNumber(code).value, ranges) then value else 0.0
  }

  function SumSuccess(pf: FloatParser, lines: seq<string>, ranges: seq<HttpStatusRange>): real {
    if lines == [] then 0.0
    else SumSuccess(pf, lines[..|lines| - 1], ranges) + LineSuccess(pf, lines[|lines| - 1], ranges)
  }

  /** Every counted line carries a three-digit code. */
  ghost predicate CodesAreNumeric(pf: FloatParser, lines: seq<string>) {
    forall line | line in lines :: LineCodeIsNumeric(pf, line)
  }

  ghost predicate LineCodeIsNumeric(pf: FloatParser, line: string) {
    match RequestSample(pf, line)
    case None => true
    case Some((code, _)) => HttpClass(code) != 0 ==> CodeNumber(code).Some?
  }

  /** The ranges contain each class from 2xx to 5xx wholly or not at all. */
  ghost predicate Aligned(ranges: seq<HttpStatusRange>) {
    forall n | 200 <= n <= 599 :: InRanges(n, ranges) <==> InRanges(n / 100 * 100, ranges)
  }

  lemma ClassOfNumber(code: string)
    requires HttpClass(code) != 0 && CodeNumber(code).Some?
    ensures 200 <= CodeNumber(code).value <= 599 && HttpClass(code) == CodeNumber(code).value / 100
  {
  }

  lemma LineSuccessIsClassSuccess(pf: FloatParser, line: string, ranges: seq<HttpStatusRange>)
    requires Aligned(ranges) && LineCodeIsNumeric(pf, line)
    ensures ClassSuccess(LineCounters(pf, line), ranges) == LineSuccess(pf, line, ranges)
  {
    hide ParsePromLine, ExtractLabel, IsSkipped, HasPrefix, HttpClass, CodeNumber, InRanges, TrimSpace;
    hide SHED_METRIC, REQUESTS_METRIC;
    if RequestSample(pf, line).Some? {
      var code := RequestSample(pf, line).value.0;
      if HttpClass(code) != 0 {
        ClassOfNumber(code);
        var n := CodeNumber(code).value;
        assert InRanges(n, ranges) <==> InRanges(n / 100 * 100, ranges);
      }
    }
  }

  lemma ClassSuccessAdds(a: Counters, b: Counters, ranges: seq<HttpStatusRange>)
    ensures ClassSuccess(Add(a, b), ranges) == ClassSuccess(a, ranges) + ClassSuccess(b, ranges)
  {
    hide StatusClassInSuccessRanges;
  }

  lemma {:induction false} AlignedClassesAreExact(pf: FloatParser, lines: seq<string>, ranges: seq<HttpStatusRange>)
    requires Aligned(ranges) && CodesAreNumeric(pf, lines)
    ensures ClassSuccess(SumLines(pf, lines), ranges) == SumSuccess(pf, lines, ranges)
  {
    hide LineCounters, LineSuccess, LineCodeIsNumeric, ClassSuccess, Aligned;
    if lines == [] {
      assert ClassSuccess(ZERO, ranges) == 0.0 by {
        ZeroHasNoSuccess(ranges);
      }
    } else {
      var prev, line := lines[..|lines| - 1], lines[|lines| - 1];
      assert line in lines;
      AlignedClassesAreExact(pf, prev, ranges);
      LineSuccessIsClassSuccess(pf, line, ranges);
      ClassSuccessAdds(SumLines(pf, prev), LineCounters(pf, line), ranges);
    }
  }

  lemma ZeroHasNoSuccess(ranges: seq<HttpStatusRange>)
    ensures ClassSuccess(ZERO, ranges) == 0.0
  {
  }

  // ---------------------------------------------------------------- the condition is exact

  function CodeString(n: int): string
    requires 200 <= n <= 599
  {
    [(n / 100 + '0' as int) as char, (n / 10 % 10 + '0' as int) as char, (n % 10 + '0' as int) as char]
  }

  /** The request line with one request of this response code. */
  function RequestLine(n: int): string
    requires 200 <= n <= 599
  {
    PrintSample(REQUESTS_METRIC, [Label("response_code", CodeString(n))], " 1")
  }

  lemma TrimKeepsText(s: string)
    requires s != "" && !IsSpace(s[0])
    ensures TrimSpace(s) != ""
  {
    TrimRightKeepsText(s);
  }

  lemma {:induction false} TrimRightKeepsText(s: string)
    requires s != "" && !IsSpace(s[0])
    ensures TrimRight(s) != ""
  {
    if |s| > 1 && IsSpace(s[|s| - 1]) {
      TrimRightKeepsText(s[..|s| - 1]);
    }
  }

  lemma CodeOfString(n: int)
    requires 200 <= n <= 599
    ensures CodeNumber(CodeString(n)) == Some(n) && HttpClass(CodeString(n)) == n / 100 && '"' !in CodeString(n)
  {
    var s := CodeString(n);
    assert n / 100 in {2, 3, 4, 5};
    assert n == n / 100 * 100 + n / 10 % 10 * 10 + n % 10;
  }

  /** The two metric names start differently and contain no punctuation. */
  lemma MetricNames()
    ensures IsToken(REQUESTS_METRIC) && '{' !in REQUESTS_METRIC && '"' !in REQUESTS_METRIC
    ensures REQUESTS_METRIC[0] == 'i' && |SHED_METRIC| > 0 && SHED_METRIC[0] == 'e'
    ensures IsToken("1") && '}' !in "1"
  {
    assert SHED_METRIC[0] == "envoy_http_"[0];
  }

  lemma RequestPrefix(rest: string)
    ensures var line := REQUESTS_METRIC + "{" + rest;
            && HasPrefix(line, REQUESTS_METRIC + "{") && !HasPrefix(line, "#") && !HasPrefix(line, SHED_METRIC)
            && TrimSpace(line) != ""
  {
    MetricNames();
    hide REQUESTS_METRIC, SHED_METRIC, TrimSpace;
    var line := REQUESTS_METRIC + "{" + rest;
    assert line[0] == 'i';
    assert |SHED_METRIC| <= |line| ==> line[..|SHED_METRIC|][0] == 'i';
    assert line[..1][0] == 'i';
    TrimKeepsText(line);
  }

  lemma RequestLineText(n: int)
    requires 200 <= n <= 599
    ensures exists rest :: RequestLine(n) == REQUESTS_METRIC + "{" + rest
  {
    hide REQUESTS_METRIC, CodeString, PrintLabels;
    var rest := PrintLabels([Label("response_code", CodeString(n))]) + "}" + " 1";
    assert RequestLine(n) == REQUESTS_METRIC + "{" + rest;
  }

  lemma RequestValueIsRead(pf: FloatParser, n: int)
    requires 200 <= n <= 599 && pf("1") == Some(1.0)
    ensures ParsePromLine(pf, RequestLine(n)) == Some((REQUESTS_METRIC, 1.0))
  {
    hide REQUESTS_METRIC, SHED_METRIC, ParsePromLine, CodeString, PrintSample;
    MetricNames();
    SampleRoundTrip(pf, REQUESTS_METRIC, [Label("response_code", CodeString(n))], "1", "1");
    assert " " + "1" == " 1";
  }

  lemma RequestCodeIsRead(n: int)
    requires 200 <= n <= 599
    ensures ExtractLabel(RequestLine(n), "response_code") == CodeString(n)
  {
    hide REQUESTS_METRIC, SHED_METRIC, ExtractLabel, CodeString, PrintSample;
    MetricNames();
    CodeOfString(n);
    var ls := [Label("response_code", CodeString(n))];
    assert !Shadowed(ls[..0], "response_code");
    LabelNameIsGood();
    LabelIsFoundIffNotShadowed(REQUESTS_METRIC, ls, 0, " 1");
  }

  lemma LabelNameIsGood()
    ensures GoodName("response_code")
  {
  }

  lemma RequestLineIsRead(pf: FloatParser, n: int)
    requires 200 <= n <= 599 && pf("1") == Some(1.0)
    ensures RequestSample(pf, RequestLine(n)) == Some((CodeString(n), 1.0))
  {
    hide REQUESTS_METRIC, SHED_METRIC, ParsePromLine, ExtractLabel, CodeString, TrimSpace, HasPrefix, RequestLine;
    RequestLineText(n);
    var rest :| RequestLine(n) == REQUESTS_METRIC + "{" + rest;
    RequestPrefix(rest);
    RequestValueIsRead(pf, n);
    RequestCodeIsRead(n);
  }

  lemma OneLine(pf: FloatParser, line: string, ranges: seq<HttpStatusRange>)
    ensures SumLines(pf, [line]) == Add(ZERO, LineCounters(pf, line))
    ensures SumSuccess(pf, [line], ranges) == LineSuccess(pf, line, ranges)
  {
    assert [line][..0] == [];
  }

  /** A single request whose code and class representative disagree is miscounted. */
  lemma MisalignedCodeIsMiscounted(pf: FloatParser, n: int, ranges: seq<HttpStatusRange>)
    requires 200 <= n <= 599 && pf("1") == Some(1.0)
    requires InRanges(n, ranges) <==> !InRanges(n / 100 * 100, ranges)
    ensures CodesAreNumeric(pf, [RequestLine(n)])
    ensures ClassSuccess(SumLines(pf, [RequestLine(n)]), ranges) != SumSuccess(pf, [RequestLine(n)], ranges)
  {
    hide RequestLine, CodeString, ParsePromLine, ExtractLabel, InRanges, SumLines, SumSuccess, IsSkipped, HasPrefix;
    hide REQUESTS_METRIC, SHED_METRIC;
    RequestLineIsRead(pf, n);
    CodeOfString(n);
    OneLine(pf, RequestLine(n), ranges);
    assert n / 100 in {2, 3, 4, 5};
  }

  /** Class-level success equals success by response code on every scrape whose codes
      are numeric, exactly when the success ranges are aligned with the classes. */
  lemma ClassCountingIsExactIffAligned(pf: FloatParser, ranges: seq<HttpStatusRange>)
    requires pf("1") == Some(1.0)
    ensures Aligned(ranges) <==>
            forall lines | CodesAreNumeric(pf, lines) ::
              ClassSuccess(SumLines(pf, lines), ranges) == SumSuccess(pf, lines, ranges)
  {
    hide InRanges, CodesAreNumeric, SumLines, ClassSuccess, SumSuccess, RequestLine;
    if Aligned(ranges) {
      forall lines | CodesAreNumeric(pf, lines)
        ensures ClassSuccess(SumLines(pf, lines), ranges) == SumSuccess(pf, lines, ranges)
      {
        AlignedClassesAreExact(pf, lines, ranges);
      }
    } else {
      var n :| 200 <= n <= 599 && (InRanges(n, ranges) <==> !InRanges(n / 100 * 100, ranges));
      MisalignedCodeIsMiscounted(pf, n, ranges);
    }
  }

  /** The default ranges are those from 100 to 399, and they are aligned. */
  lemma DefaultIsAligned()
    ensures forall n :: InRanges(n, DEFAULT_RANGES) <==> 100 <= n <= 399
    ensures Aligned(DEFAULT_RANGES)
  {
    forall n
      ensures InRanges(n, DEFAULT_RANGES) <==> 100 <= n <= 399
    {
      assert DEFAULT_RANGES[0] in DEFAULT_RANGES;
    }
  }

  ghost predicate Widens(wide: seq<HttpStatusRange>, narrow: seq<HttpStatusRange>) {
    forall n :: InRanges(n, narrow) ==> InRanges(n, wide)
  }

  /** Widening the ranges never lowers the successes. */
  lemma WideningRaisesSuccess(c: Counters, wide: seq<HttpStatusRange>, narrow: seq<HttpStatusRange>)
    requires Widens(wide, narrow)
    requires c.rq2xx >= 0.0 && c.rq3xx >= 0.0 && c.rq4xx >= 0.0 && c.rq5xx >= 0.0
    ensures ClassSuccess(c, narrow) <= ClassSuccess(c, wide)
    ensures ClassSuccess(c, wide) <= c.rq2xx + c.rq3xx + c.rq4xx + c.rq5xx
  {
  }
}
