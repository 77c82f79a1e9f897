/** Strings as the boot-configuration editor and the reservation writer see them: substring search, lines,
    and trimming (the parts of Go's strings package those use). */
module Text {

  // ---- Substring search ----

  predicate OccursAt(s: string, pat: string, k: int) {
    0 <= k && k + |pat| <= |s| && s[k..k + |pat|] == pat
  }

  /** The first place, from k on, where the pattern occurs, or -1. */
  function IndexFrom(s: string, pat: string, k: nat): (r: int)
    ensures r == -1 || (k <= r && OccursAt(s, pat, r))
    ensures forall j :: k <= j && (r == -1 || j < r) ==> !OccursAt(s, pat, j)
    decreases |s| - k
  {
    if k + |pat| > |s| then -1
    else if s[k..k + |pat|] == pat then k
    else if k + |pat| == |s| then -1
    else IndexFrom(s, pat, k + 1)
  }

  function Index(s: string, pat: string): (r: int)
    ensures r == -1 || OccursAt(s, pat, r)
    ensures forall j :: 0 <= j && (r == -1 || j < r) ==> !OccursAt(s, pat, j)
  {
    IndexFrom(s, pat, 0)
  }

  predicate Contains(s: string, pat: string) {
    Index(s, pat) >= 0
  }

  lemma IndexIs(s: string, pat: string, k: nat)
    requires OccursAt(s, pat, k) && forall j :: 0 <= j < k ==> !OccursAt(s, pat, j)
    ensures Index(s, pat) == k
  {
  }

  /** A pattern without the separator cannot reach across it. */
  lemma NotAcross(a: string, b: string, pat: string, k: int)
    requires '\n' !in pat && OccursAt(a + "\n" + b, pat, k) && pat != ""
    ensures OccursAt(a, pat, k) || (k > |a| && OccursAt(b, pat, k - |a| - 1))
  {
    var s := a + "\n" + b;
    forall i | k <= i < k + |pat| ensures s[i] != '\n' {
      assert s[k..k + |pat|][i - k] == pat[i - k];
    }
    assert s[|a|] == '\n';
    if k > |a| {
      assert s[k..k + |pat|] == b[k - |a| - 1..k - |a| - 1 + |pat|];
    } else {
      assert s[k..k + |pat|] == a[k..k + |pat|];
    }
  }

  /** strings.HasSuffix. */
  predicate EndsWith(s: string, suffix: string) {
    |suffix| <= |s| && s[|s| - |suffix|..] == suffix
  }

  // ---- Lines ----

  /** Where the first newline is, or the end. */
  function NewlineAt(s: string): (i: nat)
    ensures i <= |s| && (i < |s| ==> s[i] == '\n') && forall j :: 0 <= j < i ==> s[j] != '\n'
  {
    if s == "" || s[0] == '\n' then 0 else 1 + NewlineAt(s[1..])
  }

  /** strings.Split at newlines. */
  function Lines(s: string): (r: seq<string>)
    ensures |r| > 0
  {
    var k := NewlineAt(s);
    if k < |s| then [s[..k]] + Lines(s[k + 1..]) else [s]
  }

  /** Cutting a first line off. */
  lemma LinesCut(line: string, rest: string)
    requires '\n' !in line
    ensures Lines(line + "\n" + rest) == [line] + Lines(rest)
  {
    var s := line + "\n" + rest;
    assert NewlineAt(s) == |line| by {
      assert s[|line|] == '\n' && forall j :: 0 <= j < |line| ==> s[j] == line[j];
    }
    assert s[..|line|] == line && s[|line| + 1..] == rest;
  }

  lemma LinesOfOne(s: string)
    requires '\n' !in s
    ensures Lines(s) == [s]
  {
    assert NewlineAt(s) == |s|;
  }

  /** A text is one line, or a first line and a rest. */
  lemma FirstLine(s: string) returns (line: string, rest: string)
    requires '\n' in s
    ensures '\n' !in line && s == line + "\n" + rest
  {
    var k := NewlineAt(s);
    assert k < |s|;
    line, rest := s[..k], s[k + 1..];
  }

  /** Text put in front of the first line stays in it. */
  lemma LinesPrefixed(h: string, tail: string)
    requires '\n' !in h
    ensures Lines(h + tail) == [h + Lines(tail)[0]] + Lines(tail)[1..]
  {
    if '\n' in tail {
      var line, rest := FirstLine(tail);
      LinesCut(line, rest);
      Regroup(h, line, rest, "");
      LinesCut(h + line, rest);
    } else {
      LinesOfOne(tail);
      LinesOfOne(h + tail);
    }
  }

  lemma Regroup(h: string, line: string, rest: string, t: string)
    ensures h + (line + "\n" + rest) == (h + line) + "\n" + rest
    ensures line + "\n" + rest + t == line + "\n" + (rest + t)
  {
  }

  /** Text put behind the last line stays in it. */
  lemma {:induction false} LinesSuffixed(s: string, t: string)
    requires '\n' !in t
    ensures var ls := Lines(s); Lines(s + t) == ls[..|ls| - 1] + [ls[|ls| - 1] + t]
    decreases |s|
  {
    if '\n' in s {
      var line, rest := FirstLine(s);
      LinesCut(line, rest);
      Regroup("", line, rest, t);
      LinesCut(line, rest + t);
      LinesSuffixed(rest, t);
    } else {
      LinesOfOne(s);
      LinesOfOne(s + t);
    }
  }

  lemma {:induction false} LinesConcat(a: string, b: string)
    ensures Lines(a + "\n" + b) == Lines(a) + Lines(b)
    decreases |a|
  {
    var k := NewlineAt(a);
    if k < |a| {
      var line, rest := a[..k], a[k + 1..];
      assert a == line + "\n" + rest;
      assert a + "\n" + b == line + "\n" + (rest + "\n" + b);
      LinesCut(line, rest);
      LinesCut(line, rest + "\n" + b);
      LinesConcat(rest, b);
    } else {
      LinesCut(a, b);
    }
  }

  /** strings.Join with newlines. */
  function Join(lines: seq<string>): string {
    if lines == [] then "" else if |lines| == 1 then lines[0] else lines[0] + "\n" + Join(lines[1..])
  }

  lemma {:induction false} JoinFreeOf(lines: seq<string>, pat: string)
    requires pat != "" && '\n' !in pat
    requires forall l :: l in lines ==> !Contains(l, pat)
    ensures !Contains(Join(lines), pat)
  {
    if |lines| > 1 {
      JoinFreeOf(lines[1..], pat);
      assert lines[0] in lines && !Contains(lines[0], pat);
      var k := Index(Join(lines), pat);
      if k >= 0 {
        NotAcross(lines[0], Join(lines[1..]), pat, k);
      }
    } else if |lines| == 1 {
      assert lines[0] in lines;
    }
  }

  // ---- Trimming ----

  /** unicode.IsSpace. */
  predicate IsSpace(c: char) {
    || c == ' ' || c == '\t' || c == '\n' || c == '\r'
    || c == '\U{000B}' || c == '\U{000C}' || c == '\U{0085}' || c == '\U{00A0}' || c == '\U{1680}'
    || '\U{2000}' <= c <= '\U{200A}' || c == '\U{2028}' || c == '\U{2029}' || c == '\U{202F}'
    || c == '\U{205F}' || c == '\U{3000}'
  }

  function TrimLeft(s: string): string {
    if s != "" && IsSpace(s[0]) then TrimLeft(s[1..]) else s
  }

  function TrimRight(s: string): string {
    if s != "" && IsSpace(s[|s| - 1]) then TrimRight(s[..|s| - 1]) else s
  }

  /** strings.TrimSpace. */
  function Trim(s: string): string {
    TrimRight(TrimLeft(s))
  }

  /** strings.TrimRight(s, "\n"). */
  function TrimNewlines(s: string): (r: string)
    ensures r <= s && (r == "" || r[|r| - 1] != '\n')
  {
    if s != "" && s[|s| - 1] == '\n' then TrimNewlines(s[..|s| - 1]) else s
  }

  lemma TrimNewlinesAppend(s: string)
    ensures TrimNewlines(s + "\n") == TrimNewlines(s)
  {
    assert (s + "\n")[..|s|] == s;
  }

  ghost predicate AllSpace(s: string) {
    forall i :: 0 <= i < |s| ==> IsSpace(s[i])
  }

  lemma {:induction false} TrimLeftMeans(s: string) returns (a: string)
    ensures s == a + TrimLeft(s) && AllSpace(a) && (TrimLeft(s) != "" ==> !IsSpace(TrimLeft(s)[0]))
  {
    a := "";
    if s != "" && IsSpace(s[0]) {
      var rest := TrimLeftMeans(s[1..]);
      a := [s[0]] + rest;
      assert s == [s[0]] + s[1..];
    }
  }

  lemma {:induction false} TrimRightMeans(s: string) returns (b: string)
    ensures s == TrimRight(s) + b && AllSpace(b)
    ensures TrimRight(s) != "" ==> !IsSpace(TrimRight(s)[|TrimRight(s)| - 1])
  {
    b := "";
    if s != "" && IsSpace(s[|s| - 1]) {
      var rest := TrimRightMeans(s[..|s| - 1]);
      b := rest + [s[|s| - 1]];
      assert s == s[..|s| - 1] + [s[|s| - 1]];
    }
  }

  /** Trimming takes white space off both ends, all of it and nothing else. */
  lemma TrimMeans(s: string) returns (a: string, b: string)
    ensures s == a + Trim(s) + b && AllSpace(a) && AllSpace(b)
    ensures Trim(s) != "" ==> !IsSpace(Trim(s)[0]) && !IsSpace(Trim(s)[|Trim(s)| - 1])
  {
    a := TrimLeftMeans(s);
    b := TrimRightMeans(TrimLeft(s));
    assert s == a + (Trim(s) + b);
  }
}
