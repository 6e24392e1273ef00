/** Printing a sample line and parsing it again: exactly when the parser of
    internal/signal/scraper.go:266-331 reads back what was printed. */
module RoundTrip {
  import opened Options
  import opened Text
  import opened Exposition

  datatype Label = Label(name: string, value: string)

  function PrintLabel(l: Label): string {
    l.name + "=\"" + l.value + "\""
  }

  function PrintLabels(ls: seq<Label>): string {
    if ls == [] then ""
    else if |ls| == 1 then PrintLabel(ls[0])
    else PrintLabel(ls[0]) + "," + PrintLabels(ls[1..])
  }

  /** A sample line; `tail` holds the value and possibly a timestamp. */
  function PrintSample(metric: string, ls: seq<Label>, tail: string): string {
    metric + "{" + PrintLabels(ls) + "}" + tail
  }

  /** Label names contain none of the punctuation of the format. */
  ghost predicate GoodName(s: string) {
    '"' !in s && ',' !in s && '{' !in s
  }

  ghost predicate GoodLabels(ls: seq<Label>) {
    forall i | 0 <= i < |ls| :: GoodName(ls[i].name) && '"' !in ls[i].value
  }

  // ---------------------------------------------------------------- where a label search can match

  /** A search for `key="` matches with its quote at position `e`. */
  ghost predicate MatchAt(s: string, key: string, e: int) {
    0 <= e < |s| && s[e] == '"' && HasSuffix(s[..e], key + "=")
  }

  ghost predicate MatchIn(s: string, key: string) {
    exists e :: MatchAt(s, key, e)
  }

  lemma MatchExtends(a: string, b: string, key: string, e: int)
    requires e < |a|
    ensures MatchAt(a + b, key, e) <==> MatchAt(a, key, e)
  {
    if 0 <= e {
      assert (a + b)[..e] == a[..e];
    }
  }

  /** Text without quotes adds no match. */
  lemma NoQuoteNoMatch(a: string, b: string, key: string)
    requires '"' !in b
    ensures MatchIn(a + b, key) <==> MatchIn(a, key)
  {
    assert forall k | 0 <= k < |b| :: (a + b)[|a| + k] == b[k];
    if MatchIn(a + b, key) {
      var e :| MatchAt(a + b, key, e);
      assert e < |a|;
      MatchExtends(a, b, key, e);
    }
    if MatchIn(a, key) {
      var e :| MatchAt(a, key, e);
      MatchExtends(a, b, key, e);
    }
  }

  /** A quote adds a match exactly when `key=` precedes it. */
  lemma QuoteMatch(a: string, key: string)
    ensures MatchIn(a + "\"", key) <==> MatchIn(a, key) || HasSuffix(a, key + "=")
  {
    var s := a + "\"";
    assert s[..|a|] == a;
    assert MatchAt(s, key, |a|) <==> HasSuffix(a, key + "=");
    if MatchIn(s, key) {
      var e :| MatchAt(s, key, e);
      if e < |a| {
        MatchExtends(a, "\"", key, e);
      }
    }
    if MatchIn(a, key) {
      var e :| MatchAt(a, key, e);
      MatchExtends(a, "\"", key, e);
    }
  }

  /** The text before a label: the metric with its brace, and each earlier label with its comma. */
  ghost function Front(metric: string, ls: seq<Label>): string {
    if ls == [] then metric + "{"
    else Front(metric, ls[..|ls| - 1]) + PrintLabel(ls[|ls| - 1]) + ","
  }

  /** The label's name ends with `key`, or its value ends with `key=`. */
  ghost predicate Shadows(l: Label, key: string) {
    HasSuffix(l.name, key) || HasSuffix(l.value, key + "=")
  }

  /** What one printed label adds after text that ends in a separator. */
  lemma LabelMatch(t: string, c: char, l: Label, key: string)
    requires GoodName(key) && (c == ',' || c == '{') && GoodName(l.name) && '"' !in l.value
    ensures MatchIn(t + [c] + PrintLabel(l) + ",", key) <==> MatchIn(t + [c], key) || Shadows(l, key)
  {
    hide MatchIn, HasSuffix;
    var a0 := t + [c];
    var a1 := a0 + l.name + "=";
    var a2 := a1 + "\"";
    var a3 := a2 + l.value;
    var a4 := a3 + "\"";
    NoQuoteNoMatch(a0, l.name + "=", key);
    assert a0 + (l.name + "=") == a1;
    QuoteMatch(a1, key);
    assert HasSuffix(a1, key + "=") <==> HasSuffix(l.name, key) by {
      SuffixAppend(a0 + l.name, key, '=');
      SuffixStops(t, c, l.name, key);
    }
    NoQuoteNoMatch(a2, l.value, key);
    QuoteMatch(a3, key);
    assert HasSuffix(a3, key + "=") <==> HasSuffix(l.value, key + "=") by {
      SuffixStops(a1, '"', l.value, key + "=");
    }
    NoQuoteNoMatch(a4, ",", key);
    assert a4 + "," == t + [c] + PrintLabel(l) + ",";
  }

  ghost predicate Shadowed(ls: seq<Label>, key: string) {
    exists i | 0 <= i < |ls| :: Shadows(ls[i], key)
  }

  lemma ShadowedStep(ls: seq<Label>, l: Label, key: string)
    ensures Shadowed(ls + [l], key) <==> Shadowed(ls, key) || Shadows(l, key)
  {
    assert (ls + [l])[|ls|] == l;
    assert forall i | 0 <= i < |ls| :: (ls + [l])[i] == ls[i];
  }

  ghost predicate EndsInSeparator(s: string) {
    s != "" && (s[|s| - 1] == ',' || s[|s| - 1] == '{')
  }

  lemma {:induction false} FrontMatch(metric: string, ls: seq<Label>, key: string)
    requires GoodName(key) && '"' !in metric && GoodLabels(ls)
    ensures MatchIn(Front(metric, ls), key) <==> Shadowed(ls, key)
    ensures EndsInSeparator(Front(metric, ls))
  {
    hide MatchIn, Shadows;
    if ls == [] {
      NoQuoteNoMatch("", metric + "{", key);
      assert "" + (metric + "{") == metric + "{";
      assert !MatchIn("", key) by {
        EmptyHasNoMatch(key);
      }
    } else {
      var ls', l := ls[..|ls| - 1], ls[|ls| - 1];
      FrontMatch(metric, ls', key);
      var f := Front(metric, ls');
      var c := f[|f| - 1];
      assert f == f[..|f| - 1] + [c];
      LabelMatch(f[..|f| - 1], c, l, key);
      ShadowedStep(ls', l, key);
      assert ls == ls' + [l];
    }
  }

  lemma EmptyHasNoMatch(key: string)
    ensures !MatchIn("", key)
  {
  }

  /** The text after the quoted value of label `j`. */
  ghost function Rest(ls: seq<Label>, j: nat, tail: string): string
    requires j < |ls|
  {
    (if j + 1 == |ls| then "" else "," + PrintLabels(ls[j + 1..])) + "}" + tail
  }

  lemma {:induction false} SplitAtLabel(metric: string, ls: seq<Label>, j: nat, tail: string)
    requires j < |ls|
    ensures PrintSample(metric, ls, tail) == Front(metric, ls[..j]) + PrintLabel(ls[j]) + Rest(ls, j, tail)
  {
    hide PrintLabel;
    if j == 0 {
      assert ls[..0] == [];
    } else {
      SplitAtLabel(metric, ls, j - 1, tail);
      assert ls[..j][..j - 1] == ls[..j - 1];
      assert ls[j..][0] == ls[j] && ls[j..][1..] == ls[j + 1..];
      assert Rest(ls, j - 1, tail) == "," + PrintLabel(ls[j]) + Rest(ls, j, tail);
      assert Front(metric, ls[..j]) == Front(metric, ls[..j - 1]) + PrintLabel(ls[j - 1]) + ",";
    }
  }

  // ---------------------------------------------------------------- label extraction

  function Search(key: string): string {
    key + "=\""
  }

  lemma OccursIffMatch(s: string, key: string, q: nat)
    ensures OccursAt(s, Search(key), q) <==> MatchAt(s, key, q + |key| + 1)
  {
    var n := |key| + 1;
    if q + n < |s| {
      assert s[q..q + n + 1] == s[q..q + n] + [s[q + n]];
      assert s[..q + n][q..] == s[q..q + n];
      assert Search(key) == key + "=" + ['"'];
      assert Search(key)[..n] == key + "=" && Search(key)[n] == '"';
      assert (s[q..q + n] + [s[q + n]])[..n] == s[q..q + n];
    }
  }

  lemma OccursInside(front: string, sub: string, after: string)
    ensures OccursAt(front + sub + after, sub, |front|)
  {
    var s := front + sub + after;
    assert s[..|front| + |sub|] == front + sub;
    assert (front + sub)[|front|..] == sub;
  }

  /** A match inside `front + key="` that starts early lies in `front`. */
  lemma EarlyMatch(front: string, key: string, after: string, q: nat)
    requires '"' !in key && q < |front|
    ensures OccursAt(front + Search(key) + after, Search(key), q) <==> MatchAt(front, key, q + |key| + 1)
  {
    var s, e := front + Search(key) + after, q + |key| + 1;
    OccursIffMatch(s, key, q);
    if e < |front| {
      assert s == front + (Search(key) + after);
      MatchExtends(front, Search(key) + after, key, e);
    } else {
      assert s[e] == (key + "=")[e - |front|];
    }
  }

  /** The first match in `front + key="` is its end exactly if `front` has none. */
  lemma FirstMatchIsOwn(front: string, key: string, after: string)
    requires '"' !in key
    ensures Index(front + Search(key) + after, Search(key)) == |front| <==> !MatchIn(front, key)
  {
    var s := front + Search(key) + after;
    OccursInside(front, Search(key), after);
    var q := Index(s, Search(key));
    if q < |front| {
      EarlyMatch(front, key, after, q);
    }
    if MatchIn(front, key) {
      var e :| MatchAt(front, key, e);
      EarlyMatch(front, key, after, e - |key| - 1);
    }
  }

  lemma ValueIsRead(front: string, key: string, value: string, rest: string)
    requires '"' !in value
    requires Index(front + Search(key) + (value + "\"" + rest), Search(key)) == |front|
    ensures ExtractLabel(front + Search(key) + (value + "\"" + rest), key) == value
  {
    hide IndexChar, Index;
    var line, start := front + Search(key) + (value + "\"" + rest), |front + Search(key)|;
    assert line[start..] == value + ['"'] + rest;
    FirstOccurrence(value, '"', rest);
    assert line[start..start + |value|] == line[start..][..|value|];
    assert (value + ['"'] + rest)[..|value|] == value;
  }

  /** The search for label `j` finds label `j` exactly when no earlier label's name
      ends with its name and no earlier value ends with its name and an equals sign.
      It then returns the label's value. */
  lemma LabelIsFoundIffNotShadowed(metric: string, ls: seq<Label>, j: nat, tail: string)
    requires '"' !in metric && GoodLabels(ls) && j < |ls|
    ensures var line, key := PrintSample(metric, ls, tail), ls[j].name;
            && (Index(line, Search(key)) == |Front(metric, ls[..j])| <==> !Shadowed(ls[..j], key))
            && (!Shadowed(ls[..j], key) ==> ExtractLabel(line, key) == ls[j].value)
  {
    hide Front, Rest, PrintSample, Shadowed, MatchIn, ExtractLabel, Index, IndexChar;
    var line, key, front := PrintSample(metric, ls, tail), ls[j].name, Front(metric, ls[..j]);
    var value, rest := ls[j].value, Rest(ls, j, tail);
    assert line == front + Search(key) + (value + "\"" + rest) by {
      SplitAtLabel(metric, ls, j, tail);
      LabelText(front, ls[j], rest);
    }
    FrontMatch(metric, ls[..j], key);
    FirstMatchIsOwn(front, key, value + "\"" + rest);
    if !Shadowed(ls[..j], key) {
      ValueIsRead(front, key, value, rest);
    }
  }

  lemma LabelText(front: string, l: Label, rest: string)
    ensures front + PrintLabel(l) + rest == front + Search(l.name) + (l.value + "\"" + rest)
  {
  }

  /** The condition is needed: after a value that ends in `key=`, the label `key` is
      read as the text `,key=` whatever its value, and that is no status code. */
  lemma ShadowedLabelIsLost(metric: string, p: string, x: string, key: string, value: string, tail: string)
    requires '"' !in metric && GoodName(p) && GoodName(key) && !HasSuffix(p, key) && '"' !in x
    ensures var read := ExtractLabel(PrintSample(metric, [Label(p, x + key + "="), Label(key, value)], tail), key);
            read == "," + key + "=" && HttpClass(read) == 0
  {
    var front := metric + "{" + p + "=" + "\"" + x;
    var rest := value + "\"" + "}" + tail;
    TwoLabels(metric, p, x, key, value, tail);
    hide PrintSample, ExtractLabel, Index, MatchIn, HasSuffix;
    OpenLabelHasNoMatch(metric, p, x, key);
    FirstMatchIsOwn(front, key, "," + key + "=" + "\"" + rest);
    assert '"' !in "," + key + "=";
    ValueIsRead(front, key, "," + key + "=", rest);
  }

  lemma OpenLabelHasNoMatch(metric: string, p: string, x: string, key: string)
    requires '"' !in metric && GoodName(p) && GoodName(key) && !HasSuffix(p, key) && '"' !in x
    ensures !MatchIn(metric + "{" + p + "=" + "\"" + x, key)
  {
    hide MatchIn, HasSuffix;
    var t := metric + "{" + p;
    NoQuoteNoMatch("", t + "=", key);
    EmptyHasNoMatch(key);
    assert "" + (t + "=") == t + ['='];
    QuoteMatch(t + "=", key);
    SuffixAppend(t, key, '=');
    assert key + "=" == key + ['='];
    SuffixStops(metric, '{', p, key);
    assert t == metric + ['{'] + p;
    NoQuoteNoMatch(t + "=" + "\"", x, key);
  }

  lemma TwoLabels(metric: string, p: string, x: string, key: string, value: string, tail: string)
    ensures PrintSample(metric, [Label(p, x + key + "="), Label(key, value)], tail)
            == metric + "{" + p + "=" + "\"" + x + Search(key) + ("," + key + "=" + "\"" + (value + "\"" + "}" + tail))
  {
    var first, second := Label(p, x + key + "="), Label(key, value);
    assert [first, second][1..] == [second];
    assert PrintLabels([first, second]) == PrintLabel(first) + "," + PrintLabel(second);
    assert PrintLabel(first) == p + "=" + "\"" + x + Search(key);
    assert PrintLabel(second) == key + "=" + "\"" + (value + "\"");
  }

  // ---------------------------------------------------------------- values

  ghost predicate IsToken(s: string) {
    s != "" && forall i | 0 <= i < |s| :: !IsSpace(s[i])
  }

  lemma TrimmedIsFixed(s: string)
    requires s != "" && !IsSpace(s[0]) && !IsSpace(s[|s| - 1])
    ensures TrimSpace(s) == s && TrimSpace(" " + s) == s
  {
    assert (" " + s)[1..] == s;
  }

  /** What the parser reads off a value text that has been split from its line. */
  function ReadValue(pf: FloatParser, rest: string): Option<real> {
    var space := IndexChar(rest, ' ');
    pf(if space >= 0 then rest[..space] else rest)
  }

  lemma ReadToken(pf: FloatParser, value: string, timestamp: string)
    requires IsToken(value)
    ensures ReadValue(pf, value) == pf(value)
    ensures ReadValue(pf, value + " " + timestamp) == pf(value)
  {
    hide IndexChar;
    assert ' ' !in value;
    FirstOccurrence(value, ' ', timestamp);
    assert value + " " + timestamp == value + [' '] + timestamp;
    assert (value + " " + timestamp)[..|value|] == value;
  }

  /** A line with labels is split after its last brace. */
  lemma ParseWithLabels(pf: FloatParser, metric: string, text: string, tail: string)
    requires IsToken(metric) && '{' !in metric && '}' !in tail && tail != ""
    ensures ParsePromLine(pf, metric + "{" + text + "}" + tail)
            == match ReadValue(pf, TrimSpace(tail)) case None => None case Some(v) => Some((metric, v))
  {
    hide IndexChar, LastIndexChar, TrimSpace;
    var line, head := metric + "{" + text + "}" + tail, metric + "{" + text + "}";
    assert IndexChar(line, '{') == |metric| by {
      assert line == metric + ['{'] + (text + "}" + tail);
      FirstOccurrence(metric, '{', text + "}" + tail);
    }
    assert LastIndexChar(line, '}') == |head| - 1 by {
      assert line == (metric + "{" + text) + ['}'] + tail;
      LastOccurrence(metric + "{" + text, '}', tail);
    }
    assert line[|head|..] == tail && line[..|head|] == head;
    assert IndexChar(head, '{') == |metric| by {
      assert head == metric + ['{'] + (text + "}");
      FirstOccurrence(metric, '{', text + "}");
    }
    assert head[..|metric|] == metric;
    TrimmedIsFixed(metric);
  }

  /** A line with labels reads back its metric and the number its value denotes,
      whatever the labels contain; a timestamp after the value is ignored. */
  lemma SampleRoundTrip(pf: FloatParser, metric: string, ls: seq<Label>, value: string, timestamp: string)
    requires IsToken(metric) && '{' !in metric
    requires IsToken(value) && '}' !in value && IsToken(timestamp) && '}' !in timestamp
    ensures var sample := match pf(value) case None => None case Some(v) => Some((metric, v));
            && ParsePromLine(pf, PrintSample(metric, ls, " " + value)) == sample
            && ParsePromLine(pf, PrintSample(metric, ls, " " + value + " " + timestamp)) == sample
  {
    hide ParsePromLine, ReadValue, TrimSpace, PrintLabels;
    var body := value + " " + timestamp;
    assert " " + body == " " + value + " " + timestamp;
    ParseWithLabels(pf, metric, PrintLabels(ls), " " + value);
    ParseWithLabels(pf, metric, PrintLabels(ls), " " + body);
    TrimmedIsFixed(value);
    TrimmedIsFixed(body);
    ReadToken(pf, value, timestamp);
  }

  /** A line has no value if its labels are not closed, if nothing follows them, or if it has
      neither labels nor a space. */
  lemma NothingToRead(pf: FloatParser, a: string, b: string)
    requires '{' !in a
    ensures '}' !in b ==> ParsePromLine(pf, a + "{" + b) == None
    ensures ParsePromLine(pf, a + "{" + b + "}") == None
    ensures ' ' !in a ==> ParsePromLine(pf, a) == None
  {
    hide IndexChar, LastIndexChar, TrimSpace;
    assert a + "{" + b == a + ['{'] + b && a + "{" + b + "}" == a + ['{'] + (b + "}");
    FirstOccurrence(a, '{', b);
    FirstOccurrence(a, '{', b + "}");
    LastOccurrence(a + "{" + b, '}', "");
    assert a + "{" + b + "}" == (a + "{" + b) + ['}'] + "";
    if '}' !in b {
      LastIsBefore(a, "{" + b, '}');
      assert a + "{" + b == a + ("{" + b);
    }
  }

  lemma {:induction false} LastIsBefore(s: string, t: string, c: char)
    requires c !in t
    ensures LastIndexChar(s + t, c) < |s|
    decreases |t|
  {
    if t == "" {
      assert s + t == s;
    } else {
      var n := |t| - 1;
      assert (s + t)[..|s| + n] == s + t[..n] && (s + t)[|s| + n] == t[n];
      LastIsBefore(s, t[..n], c);
    }
  }

  /** A line without labels reads back too. */
  lemma BareSampleRoundTrip(pf: FloatParser, metric: string, value: string)
    requires IsToken(metric) && '{' !in metric
    requires IsToken(value) && '{' !in value
    ensures ParsePromLine(pf, metric + " " + value)
            == match pf(value) case None => None case Some(v) => Some((metric, v))
  {
    hide IndexChar, LastIndexChar, TrimSpace;
    var line := metric + " " + value;
    assert line == metric + [' '] + value;
    FirstOccurrence(metric, ' ', value);
    assert line[|metric|..] == " " + value && line[..|metric|] == metric;
    TrimmedIsFixed(value);
    TrimmedIsFixed(metric);
    assert ' ' !in value;
  }
}
