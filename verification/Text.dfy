/** The string operations that the metrics parser uses, in the terms of Go's
    `strings` package. A result of -1 means "not found". */
module Text {

  function IndexChar(s: string, c: char): (i: int)
    ensures -1 <= i < |s|
    ensures i == -1 <==> c !in s
    ensures i >= 0 ==> s[i] == c && c !in s[..i]
  {
    if s == "" then -1
    else if s[0] == c then 0
    else
      var i := IndexChar(s[1..], c);
      assert s == [s[0]] + s[1..];
      assert i >= 0 ==> s[..i + 1] == [s[0]] + s[1..][..i];
      if i < 0 then -1 else i + 1
  }

  function LastIndexChar(s: string, c: char): (i: int)
    ensures -1 <= i < |s|
    ensures i == -1 <==> c !in s
    ensures i >= 0 ==> s[i] == c && c !in s[i + 1..]
  {
    if s == "" then -1
    else
      var n := |s| - 1;
      assert s == s[..n] + [s[n]];
      if s[n] == c then n
      else
        var i := LastIndexChar(s[..n], c);
        assert i >= 0 ==> s[i + 1..] == s[..n][i + 1..] + [s[n]];
        i
  }

  /** `sub` occurs in `s` at position `i`. */
  predicate OccursAt(s: string, sub: string, i: int) {
    0 <= i && i + |sub| <= |s| && s[i..i + |sub|] == sub
  }

  function IndexFrom(s: string, sub: string, k: nat): (i: int)
    requires k <= |s|
    ensures i == -1 || (k <= i && OccursAt(s, sub, i))
    ensures i >= 0 ==> forall j | k <= j < i :: !OccursAt(s, sub, j)
    ensures i == -1 ==> forall j | k <= j :: !OccursAt(s, sub, j)
    decreases |s| - k
  {
    if OccursAt(s, sub, k) then k
    else if k == |s| then -1
    else IndexFrom(s, sub, k + 1)
  }

  /** The first occurrence of `sub` in `s`. */
  function Index(s: string, sub: string): (i: int)
    ensures i == -1 || OccursAt(s, sub, i)
    ensures i >= 0 ==> forall j | 0 <= j < i :: !OccursAt(s, sub, j)
    ensures i == -1 ==> forall j :: !OccursAt(s, sub, j)
  {
    IndexFrom(s, sub, 0)
  }

  predicate HasPrefix(s: string, p: string) {
    |p| <= |s| && s[..|p|] == p
  }

  predicate HasSuffix(s: string, t: string) {
    |t| <= |s| && s[|s| - |t|..] == t
  }

  /** The ASCII characters that Go's TrimSpace removes. */
  predicate IsSpace(c: char) {
    c == ' ' || '\t' <= c <= '\r'
  }

  function TrimLeft(s: string): string {
    if s != "" && IsSpace(s[0]) then TrimLeft(s[1..]) else s
  }

  function TrimRight(s: string): string {
    if s != "" && IsSpace(s[|s| - 1]) then TrimRight(s[..|s| - 1]) else s
  }

  function TrimSpace(s: string): string {
    TrimRight(TrimLeft(s))
  }

  /** Splits at every newline. */
  function Lines(s: string): seq<string> {
    var i := IndexChar(s, '\n');
    if i < 0 then [s] else [s[..i]] + Lines(s[i + 1..])
  }

  lemma {:induction false} FirstOccurrence(a: string, c: char, b: string)
    requires c !in a
    ensures IndexChar(a + [c] + b, c) == |a|
  {
    if a != "" {
      FirstOccurrence(a[1..], c, b);
      assert (a + [c] + b)[1..] == a[1..] + [c] + b;
    }
  }

  lemma {:induction false} LastOccurrence(a: string, c: char, b: string)
    requires c !in b
    ensures LastIndexChar(a + [c] + b, c) == |a|
    decreases |b|
  {
    var all := a + [c] + b;
    if b == "" {
      assert all == a + [c];
    } else {
      LastOccurrence(a, c, b[..|b| - 1]);
      assert all[..|all| - 1] == a + [c] + b[..|b| - 1] && all[|all| - 1] == b[|b| - 1];
    }
  }

  lemma LinesStep(a: string, rest: string)
    requires '\n' !in a
    ensures Lines(a + "\n" + rest) == [a] + Lines(rest)
    ensures Lines(a) == [a]
  {
    FirstOccurrence(a, '\n', rest);
    var all := a + "\n" + rest;
    assert all == a + ['\n'] + rest;
    assert all[..|a|] == a && all[|a| + 1..] == rest;
  }

  /** Joining two texts with a newline concatenates their lines. */
  lemma {:induction false} LinesOfJoin(a: string, b: string)
    ensures Lines(a + "\n" + b) == Lines(a) + Lines(b)
    decreases |a|
  {
    hide Lines;
    var i := IndexChar(a, '\n');
    if i < 0 {
      LinesStep(a, b);
    } else {
      var first, rest := a[..i], a[i + 1..];
      assert a == first + "\n" + rest;
      assert a + "\n" + b == first + "\n" + (rest + "\n" + b);
      LinesStep(first, rest);
      LinesStep(first, rest + "\n" + b);
      LinesOfJoin(rest, b);
    }
  }

  /** A character that `t` does not contain stops a suffix match. */
  lemma SuffixStops(a: string, c: char, b: string, t: string)
    requires c !in t
    ensures HasSuffix(a + [c] + b, t) <==> HasSuffix(b, t)
  {
    var s := a + [c] + b;
    if |t| <= |b| {
      assert s[|s| - |t|..] == b[|b| - |t|..];
    } else if |t| <= |s| {
      assert s[|s| - |t|..][|t| - |b| - 1] == c;
    }
  }

  lemma SuffixAppend(s: string, t: string, c: char)
    ensures HasSuffix(s + [c], t + [c]) <==> HasSuffix(s, t)
  {
    if |t| <= |s| {
      var all := s + [c];
      assert all[|all| - |t| - 1..] == s[|s| - |t|..] + [c];
      assert HasSuffix(all, t + [c]) ==> s[|s| - |t|..] == (s[|s| - |t|..] + [c])[..|t|] == (t + [c])[..|t|] == t;
    }
  }

  // ---------------------------------------------------------------- white space

  /** All characters are ASCII white space. */
  ghost predicate IsBlank(s: string) {
    forall i | 0 <= i < |s| :: s[i] == ' ' || 9 <= s[i] as int <= 13
  }

  /** The text neither starts nor ends with white space. */
  ghost predicate IsTight(s: string) {
    s != "" ==> !IsBlank([s[0]]) && !IsBlank([s[|s| - 1]])
  }

  lemma BlankIsSpace(c: char)
    ensures IsBlank([c]) <==> IsSpace(c)
  {
    assert [c][0] == c;
  }

  lemma {:induction false} TrimLeftRemoves(s: string) returns (a: string)
    ensures s == a + TrimLeft(s) && IsBlank(a) && (TrimLeft(s) != "" ==> !IsSpace(TrimLeft(s)[0]))
  {
    if s != "" && IsSpace(s[0]) {
      var rest := TrimLeftRemoves(s[1..]);
      a := [s[0]] + rest;
      assert s == [s[0]] + s[1..];
    } else {
      a := "";
    }
  }

  lemma {:induction false} TrimRightRemoves(s: string) returns (b: string)
    ensures s == TrimRight(s) + b && IsBlank(b)
    ensures TrimRight(s) != "" ==> TrimRight(s)[0] == s[0] && !IsSpace(TrimRight(s)[|TrimRight(s)| - 1])
  {
    if s != "" && IsSpace(s[|s| - 1]) {
      var n := |s| - 1;
      var rest := TrimRightRemoves(s[..n]);
      b := rest + [s[n]];
      assert s == s[..n] + [s[n]];
    } else {
      b := "";
    }
  }

  /** Trimming removes white space at both ends, and all of it. */
  lemma TrimIsExact(s: string) returns (a: string, b: string)
    ensures s == a + TrimSpace(s) + b && IsBlank(a) && IsBlank(b) && IsTight(TrimSpace(s))
  {
    hide TrimLeft, TrimRight;
    a := TrimLeftRemoves(s);
    b := TrimRightRemoves(TrimLeft(s));
    var t := TrimSpace(s);
    if t != "" {
      BlankIsSpace(t[0]);
      BlankIsSpace(t[|t| - 1]);
    }
  }
}
