/** Keeping a marked block of settings in a boot configuration file (agent/apply.go applyBlockTo and the
    functions it uses). The two marker lines are a parameter; MARKERS are the program's. */
module BootConfig {
  import opened Wrappers
  import opened Text

  datatype Markers = Markers(start: string, end: string)

  const MARKERS := Markers("# >>> sheath managed >>>", "# <<< sheath managed <<<")

  /** What the proofs use of the two markers. */
  predicate Usable(m: Markers) {
    m.start != "" && |m.start| == |m.end| && m.start != m.end && '\n' !in m.start && '\n' !in m.end
  }

  lemma StartHasNoNewline()
    ensures |MARKERS.start| == 24 && '\n' !in MARKERS.start
  {
  }

  lemma EndHasNoNewline()
    ensures |MARKERS.end| == 24 && '\n' !in MARKERS.end
  {
  }

  lemma MarkersUsable()
    ensures Usable(MARKERS)
  {
    StartHasNoNewline();
    EndHasNoNewline();
    assert MARKERS.start[2] == '>' && MARKERS.end[2] == '<';
  }

  // ---- The functions ----

  /** stripBlock: the text without its first block; an unfinished block is cut to the end. */
  function Strip(s: string, m: Markers): string {
    var i := Index(s, m.start);
    if i < 0 then s
    else
      var j := Index(s[i..], m.end);
      if j < 0 then s[..i] else s[..i] + s[i + j + |m.end|..]
  }

  function Block(lines: seq<string>, m: Markers): string {
    m.start + "\n" + Join(lines) + "\n" + m.end
  }

  /** replaceBlock, with the block's lines; none means no block. */
  function Rewritten(s: string, lines: seq<string>, m: Markers): string {
    var rest := TrimNewlines(Strip(s, m));
    if lines == [] then rest + "\n" else rest + "\n\n" + Block(lines, m) + "\n"
  }

  /** A line that sets something: not blank, not a comment. */
  predicate Sets(line: string) {
    Trim(line) != "" && Trim(line)[0] != '#'
  }

  /** hasLine: some line of the text sets exactly this. */
  predicate HasLine(body: string, want: string) {
    exists l :: l in Lines(body) && Sets(l) && Trim(l) == Trim(want)
  }

  predicate IsHeader(line: string) {
    Trim(line) != "" && Trim(line)[0] == '['
  }

  /** onlySections: nothing but headers and blank lines. */
  predicate OnlySections(lines: seq<string>) {
    forall l :: l in lines ==> Trim(l) == "" || IsHeader(l)
  }

  function Missing(lines: seq<string>, body: string): seq<string> {
    if lines == [] then []
    else
      var rest := Missing(lines[1..], body);
      if IsHeader(lines[0]) || !HasLine(body, lines[0]) then [lines[0]] + rest else rest
  }

  /** The lines the block will hold. */
  function BlockLines(s: string, lines: seq<string>, m: Markers): seq<string> {
    var missing := Missing(lines, Strip(s, m));
    if OnlySections(missing) then [] else missing
  }

  /** applyBlockTo: the file afterwards. It is left alone when there is neither anything to add nor a
      block to take away. */
  function Applied(s: string, lines: seq<string>, m: Markers): string {
    var block := BlockLines(s, lines, m);
    if block == [] && !Contains(s, m.start) then s else Rewritten(s, block, m)
  }

  // ---- Settings and newlines ----

  lemma BlankSetsNothing()
    ensures !Sets("")
  {
    assert Trim("") == "";
  }

  lemma HasLineConcat(a: string, b: string, want: string)
    ensures HasLine(a + "\n" + b, want) <==> HasLine(a, want) || HasLine(b, want)
  {
    LinesConcat(a, b);
    assert forall l :: l in Lines(a + "\n" + b) <==> l in Lines(a) || l in Lines(b);
  }

  lemma HasLineNewline(a: string, want: string)
    ensures HasLine(a + "\n", want) <==> HasLine(a, want)
  {
    assert a + "\n" == a + "\n" + "";
    HasLineConcat(a, "", want);
    BlankSetsNothing();
    assert Lines("") == [""];
  }

  lemma {:induction false} HasLineTrimmed(s: string, want: string)
    ensures HasLine(TrimNewlines(s), want) <==> HasLine(s, want)
  {
    if s != "" && s[|s| - 1] == '\n' {
      var t := s[..|s| - 1];
      assert s == t + "\n";
      HasLineNewline(t, want);
      HasLineTrimmed(t, want);
    }
  }

  /** Two texts that set the same things are missing the same lines. */
  lemma {:induction false} MissingSame(lines: seq<string>, a: string, b: string)
    requires forall l :: HasLine(a, l) <==> HasLine(b, l)
    ensures Missing(lines, a) == Missing(lines, b)
  {
    if lines != [] {
      MissingSame(lines[1..], a, b);
    }
  }

  lemma {:induction false} MissingMeans(lines: seq<string>, body: string, l: string)
    ensures l in Missing(lines, body) <==> l in lines && (IsHeader(l) || !HasLine(body, l))
  {
    if lines != [] {
      MissingMeans(lines[1..], body, l);
    }
  }

  /** A section header is written whether the file has it or not. Everything else is written if it is not set
      elsewhere; a comment or a blank line sets nothing, so it counts as not set. And no block at all is written for
      lines that are headers and blanks only. */
  lemma HeadersAlone(s: string, lines: seq<string>, m: Markers, l: string)
    requires l in lines
    ensures Trim(l) != "" && Trim(l)[0] == '[' ==> l in Missing(lines, s)
    ensures Trim(l) == "" || Trim(l)[0] == '#' ==> l in Missing(lines, s)
    ensures (forall k :: k in lines ==> Trim(k) == "" || Trim(k)[0] == '[') ==> BlockLines(s, lines, m) == []
    ensures Trim(l) != "" && Trim(l)[0] != '[' && !HasLine(Strip(s, m), l) ==> l in BlockLines(s, lines, m)
  {
    MissingMeans(lines, s, l);
    MissingMeans(lines, Strip(s, m), l);
    forall k | k in Missing(lines, Strip(s, m)) ensures k in lines { MissingMeans(lines, Strip(s, m), k); }
  }

  // ---- Taking the block out again ----

  /** What Rewritten writes, from the first marker on. */
  function Tail(lines: seq<string>, m: Markers): string {
    Block(lines, m) + "\n"
  }

  /** A marker found before the block would have to be in the rest of the file. */
  lemma NoMarkerBefore(rest: string, tail: string, pat: string, j: nat)
    requires pat != "" && '\n' !in pat && !Contains(rest, pat) && j < |rest| + 2
    ensures !OccursAt(rest + "\n\n" + tail, pat, j)
  {
    var u, v := rest + "\n\n" + tail, "\n" + tail;
    assert u == rest + "\n" + v;
    if OccursAt(u, pat, j) {
      NotAcross(rest, v, pat, j);
      assert v == "" + "\n" + tail;
      NotAcross("", tail, pat, j - |rest| - 1);
    }
  }

  /** In rest, then a blank line, then the block: the first start marker is the block's. */
  lemma StartFound(rest: string, lines: seq<string>, m: Markers)
    requires Usable(m) && !Contains(rest, m.start)
    ensures var u := rest + "\n\n" + Tail(lines, m); Index(u, m.start) == |rest| + 2
  {
    var tail, k := Tail(lines, m), |rest| + 2;
    var u := rest + "\n\n" + tail;
    assert u[k..k + |m.start|] == m.start by {
      assert u[k..] == tail && tail[..|m.start|] == m.start;
    }
    forall j | 0 <= j < k ensures !OccursAt(u, m.start, j) {
      NoMarkerBefore(rest, tail, m.start, j);
    }
    IndexIs(u, m.start, k);
  }

  lemma EndNotInStart(m: Markers, j: int)
    requires Usable(m)
    ensures !OccursAt(m.start, m.end, j)
  {
    assert m.start[0..|m.end|] == m.start;
  }

  /** An end marker found before the block's own would have to be in its lines. */
  lemma NoEndBefore(body: string, m: Markers, j: nat)
    requires Usable(m) && !Contains(body, m.end) && j < |m.start| + 1 + |body| + 1
    ensures !OccursAt(m.start + "\n" + (body + "\n" + (m.end + "\n")), m.end, j)
  {
    var after := body + "\n" + (m.end + "\n");
    if OccursAt(m.start + "\n" + after, m.end, j) {
      NotAcross(m.start, after, m.end, j);
      EndNotInStart(m, j);
      NotAcross(body, m.end + "\n", m.end, j - |m.start| - 1);
    }
  }

  /** From the start marker on, the first end marker is the block's own. */
  lemma EndFound(lines: seq<string>, m: Markers)
    requires Usable(m) && !Contains(Join(lines), m.end)
    ensures Index(Tail(lines, m), m.end) == |Block(lines, m)| - |m.end|
  {
    var body := Join(lines);
    var v := m.start + "\n" + (body + "\n" + (m.end + "\n"));
    var k := |m.start| + 1 + |body| + 1;
    assert v == Tail(lines, m);
    assert v[k..k + |m.end|] == m.end;
    forall j | 0 <= j < k ensures !OccursAt(v, m.end, j) {
      NoEndBefore(body, m, j);
    }
    IndexIs(v, m.end, k);
  }

  /** Cutting v out from between a and c. */
  lemma CutOut(a: string, v: string, c: string, m: Markers)
    requires Index(a + (v + c), m.start) == |a| && |m.end| <= |v|
    requires Index(v + c, m.end) == |v| - |m.end|
    ensures Strip(a + (v + c), m) == a + c
  {
    var u := a + (v + c);
    assert u[|a|..] == v + c && u[..|a|] == a;
    assert u[|a| + |v|..] == c;
  }

  /** Stripping what was just written gives back the rest, and newlines. */
  lemma StripRewritten(rest: string, lines: seq<string>, m: Markers)
    requires Usable(m) && !Contains(rest, m.start) && !Contains(Join(lines), m.end)
    ensures Strip(rest + "\n\n" + Tail(lines, m), m) == rest + "\n\n" + "\n"
  {
    StartFound(rest, lines, m);
    EndFound(lines, m);
    CutOut(rest + "\n\n", Block(lines, m), "\n", m);
  }

  lemma {:induction false} TrimIdempotent(s: string)
    ensures TrimNewlines(TrimNewlines(s)) == TrimNewlines(s)
  {
  }

  lemma FreeAfterTrim(s: string, pat: string)
    requires !Contains(s, pat)
    ensures !Contains(TrimNewlines(s), pat)
  {
    var r := TrimNewlines(s);
    var k := Index(r, pat);
    if k >= 0 {
      assert r[k..k + |pat|] == s[k..k + |pat|];
      assert OccursAt(s, pat, k);
    }
  }

  lemma FreeWithNewline(s: string, pat: string)
    requires !Contains(s, pat) && pat != "" && '\n' !in pat
    ensures !Contains(s + "\n", pat)
  {
    var k := Index(s + "\n", pat);
    if k >= 0 {
      assert s + "\n" == s + "\n" + "";
      NotAcross(s, "", pat, k);
    }
  }

  // ---- The theorems ----

  /** At most one block: taking one out leaves no start marker behind. */
  predicate AtMostOneBlock(s: string, m: Markers) {
    !Contains(Strip(s, m), m.start)
  }

  /** The wanted lines do not contain the end marker. */
  predicate EndFree(lines: seq<string>, m: Markers) {
    forall l :: l in lines ==> !Contains(l, m.end)
  }

  /** The rest of a file, seen from the file written: the same text outside the block, and the same settings. */
  lemma RewrittenKeepsRest(s: string, block: seq<string>, m: Markers)
    requires Usable(m) && AtMostOneBlock(s, m) && EndFree(block, m)
    ensures var u := Rewritten(s, block, m);
            && TrimNewlines(Strip(u, m)) == TrimNewlines(Strip(s, m))
            && (forall l :: HasLine(Strip(u, m), l) <==> HasLine(Strip(s, m), l))
            && (Contains(u, m.start) <==> block != [])
  {
    var u, rest := Rewritten(s, block, m), TrimNewlines(Strip(s, m));
    FreeAfterTrim(Strip(s, m), m.start);
    TrimIdempotent(Strip(s, m));
    if block == [] {
      FreeWithNewline(rest, m.start);
      TrimNewlinesAppend(rest);
    } else {
      JoinFreeOf(block, m.end);
      assert u == rest + "\n\n" + Tail(block, m);
      StripRewritten(rest, block, m);
      StartFound(rest, block, m);
      ThreeNewlines(rest);
    }
    forall l ensures HasLine(Strip(u, m), l) <==> HasLine(Strip(s, m), l) {
      HasLineTrimmed(Strip(u, m), l);
      HasLineTrimmed(Strip(s, m), l);
    }
  }

  lemma ThreeNewlines(rest: string)
    ensures TrimNewlines(rest + "\n\n" + "\n") == TrimNewlines(rest)
  {
    var a := rest + "\n";
    var b := a + "\n";
    TrimNewlinesAppend(rest);
    TrimNewlinesAppend(a);
    TrimNewlinesAppend(b);
    assert rest + "\n\n" == b;
  }

  lemma BlockLinesEndFree(s: string, lines: seq<string>, m: Markers)
    requires EndFree(lines, m)
    ensures EndFree(BlockLines(s, lines, m), m)
  {
    forall l | l in BlockLines(s, lines, m) ensures !Contains(l, m.end) {
      MissingMeans(lines, Strip(s, m), l);
    }
  }

  /** For every file with at most one block and every list of which the lines that go into the block are free of
      the end marker: applying again changes nothing. */
  lemma ApplyIsIdempotent(s: string, lines: seq<string>, m: Markers)
    requires Usable(m) && AtMostOneBlock(s, m) && EndFree(BlockLines(s, lines, m), m)
    ensures Applied(Applied(s, lines, m), lines, m) == Applied(s, lines, m)
  {
    var block := BlockLines(s, lines, m);
    if block != [] || Contains(s, m.start) {
      var u := Applied(s, lines, m);
      RewrittenKeepsRest(s, block, m);
      MissingSame(lines, Strip(u, m), Strip(s, m));
    }
  }

  /** In particular for every list free of the end marker, whatever of it the file already has. */
  lemma EndFreeListIsIdempotent(s: string, lines: seq<string>, m: Markers)
    requires Usable(m) && AtMostOneBlock(s, m) && EndFree(lines, m)
    ensures Applied(Applied(s, lines, m), lines, m) == Applied(s, lines, m)
    ensures TrimNewlines(Strip(Applied(s, lines, m), m)) == TrimNewlines(Strip(s, m))
  {
    BlockLinesEndFree(s, lines, m);
    ApplyIsIdempotent(s, lines, m);
    OutsideSurvives(s, lines, m);
  }

  /** What stands outside the block survives, in order, up to trailing newlines. */
  lemma OutsideSurvives(s: string, lines: seq<string>, m: Markers)
    requires Usable(m) && AtMostOneBlock(s, m) && EndFree(BlockLines(s, lines, m), m)
    ensures TrimNewlines(Strip(Applied(s, lines, m), m)) == TrimNewlines(Strip(s, m))
  {
    RewrittenKeepsRest(s, BlockLines(s, lines, m), m);
  }

  /** Every wanted setting is in the file afterwards, whatever the file was. */
  lemma EverySettingPresent(s: string, lines: seq<string>, m: Markers, l: string)
    requires l in lines && Sets(l) && !IsHeader(l) && '\n' !in l
    ensures HasLine(Applied(s, lines, m), l)
  {
    var body := Strip(s, m);
    var block := BlockLines(s, lines, m);
    MissingMeans(lines, body, l);
    if HasLine(body, l) {
      SettingStaysOutside(s, block, m, l);
    } else {
      assert l in block;
      SettingInBlock(TrimNewlines(body), block, m, l);
    }
  }

  lemma SettingStaysOutside(s: string, block: seq<string>, m: Markers, l: string)
    requires HasLine(Strip(s, m), l)
    ensures HasLine(Rewritten(s, block, m), l)
  {
    var rest := TrimNewlines(Strip(s, m));
    HasLineTrimmed(Strip(s, m), l);
    if block == [] {
      HasLineNewline(rest, l);
    } else {
      HasLineAbove(rest, Block(block, m), l);
    }
  }

  lemma HasLineAbove(rest: string, block: string, l: string)
    requires HasLine(rest, l)
    ensures HasLine(rest + "\n\n" + block + "\n", l)
  {
    var tail := "\n" + block + "\n";
    assert rest + "\n\n" + block + "\n" == rest + "\n" + tail;
    HasLineConcat(rest, tail, l);
  }

  lemma SettingInBlock(rest: string, block: seq<string>, m: Markers, l: string)
    requires l in block && Sets(l) && '\n' !in l
    ensures HasLine(rest + "\n\n" + Block(block, m) + "\n", l)
  {
    var body := Join(block);
    SettingInJoin(block, l);
    var after := body + "\n" + (m.end + "\n");
    HasLineConcat(body, m.end + "\n", l);
    var v := m.start + "\n" + after;
    HasLineConcat(m.start, after, l);
    assert v == Block(block, m) + "\n";
    AfterBlankLine(rest, v, l);
    assert rest + "\n\n" + v == rest + "\n\n" + Block(block, m) + "\n";
  }

  lemma AfterBlankLine(rest: string, v: string, l: string)
    requires HasLine(v, l)
    ensures HasLine(rest + "\n\n" + v, l)
  {
    var w := "" + "\n" + v;
    HasLineConcat("", v, l);
    HasLineConcat(rest, w, l);
    assert rest + "\n" + w == rest + "\n\n" + v;
  }

  lemma {:induction false} SettingInJoin(block: seq<string>, l: string)
    requires l in block && Sets(l) && '\n' !in l
    ensures HasLine(Join(block), l)
  {
    if block[0] == l {
      assert Lines(l) == [l];
      assert l in Lines(l);
      if |block| > 1 {
        HasLineConcat(l, Join(block[1..]), l);
      }
    } else {
      SettingInJoin(block[1..], l);
      HasLineConcat(block[0], Join(block[1..]), l);
    }
  }

  // ---- Without the hypotheses ----

  lemma ContainsAfterTrim(s: string, pat: string)
    requires Contains(s, pat) && pat != "" && '\n' !in pat
    ensures Contains(TrimNewlines(s) + "\n", pat)
  {
    var r, k := TrimNewlines(s), Index(s, pat);
    TrimLeavesNewlines(s);
    assert k + |pat| <= |r| by {
      assert s[k..k + |pat|][|pat| - 1] == pat[|pat| - 1];
    }
    assert (r + "\n")[k..k + |pat|] == s[k..k + |pat|];
    assert OccursAt(r + "\n", pat, k);
  }

  lemma {:induction false} TrimLeavesNewlines(s: string)
    ensures forall i :: |TrimNewlines(s)| <= i < |s| ==> s[i] == '\n'
  {
    if s != "" && s[|s| - 1] == '\n' {
      TrimLeavesNewlines(s[..|s| - 1]);
    }
  }

  /** A run takes out one block only. When nothing is wanted, applying again changes nothing exactly if the
      file had at most one. */
  lemma RemovalIdempotentIff(s: string, m: Markers)
    requires Usable(m) && |m.start| >= 2
    ensures Applied(Applied(s, [], m), [], m) == Applied(s, [], m) <==> AtMostOneBlock(s, m)
  {
    if AtMostOneBlock(s, m) {
      ApplyIsIdempotent(s, [], m);
    } else {
      assert Contains(s, m.start);
      var u := TrimNewlines(Strip(s, m)) + "\n";
      ContainsAfterTrim(Strip(s, m), m.start);
      assert Applied(s, [], m) == u;
      assert |Strip(u, m)| <= |u| - |m.start|;
      assert |Applied(u, [], m)| <= |Strip(u, m)| + 1;
    }
  }

  /** The lines do not contain the start marker. */
  predicate StartFree(lines: seq<string>, m: Markers) {
    forall l :: l in lines ==> !Contains(l, m.start)
  }

  lemma FreeAcross(a: string, b: string, pat: string)
    requires !Contains(a, pat) && !Contains(b, pat) && pat != "" && '\n' !in pat
    ensures !Contains(a + "\n" + b, pat)
  {
    var k := Index(a + "\n" + b, pat);
    if k >= 0 { NotAcross(a, b, pat, k); }
  }

  lemma SuffixFree(s: string, pat: string, k: nat)
    requires !Contains(s, pat) && k <= |s|
    ensures !Contains(s[k..], pat)
  {
    var j := Index(s[k..], pat);
    if j >= 0 {
      assert s[k..][j..j + |pat|] == s[k + j..k + j + |pat|];
      assert OccursAt(s, pat, k + j);
    }
  }

  lemma StartNotInEnd(m: Markers)
    requires Usable(m)
    ensures !Contains(m.end, m.start)
  {
    assert m.end[0..|m.start|] == m.end;
  }

  lemma {:induction false} JoinHolds(lines: seq<string>, l: string, pat: string)
    requires l in lines && Contains(l, pat)
    ensures Contains(Join(lines), pat)
  {
    var k := Index(l, pat);
    if |lines| == 1 {
      assert lines[0] == l;
    } else if lines[0] == l {
      assert Join(lines)[k..k + |pat|] == l[k..k + |pat|];
      assert OccursAt(Join(lines), pat, k);
    } else {
      JoinHolds(lines[1..], l, pat);
      var rest := Join(lines[1..]);
      var i := Index(rest, pat);
      var at := |lines[0]| + 1 + i;
      assert Join(lines)[at..at + |pat|] == rest[i..i + |pat|];
      assert OccursAt(Join(lines), pat, at);
    }
  }

  /** A block with the end marker in one of its lines is taken for finished there. */
  lemma EndFoundEarly(body: string, m: Markers) returns (k: nat)
    requires Usable(m) && Contains(body, m.end)
    ensures var v := m.start + "\n" + (body + "\n" + (m.end + "\n"));
            k <= |body| && Index(v, m.end) + |m.end| == |m.start| + 1 + k
  {
    var after := body + "\n" + (m.end + "\n");
    var v, i := m.start + "\n" + after, Index(body, m.end);
    var at := |m.start| + 1 + i;
    assert v[at..at + |m.end|] == body[i..i + |m.end|];
    assert OccursAt(v, m.end, at);
    var j := Index(v, m.end);
    NotAcross(m.start, after, m.end, j);
    EndNotInStart(m, j);
    k := j + |m.end| - |m.start| - 1;
  }

  /** What is then left of it: the rest of its lines, and its own end marker. */
  lemma Remains(rest: string, block: seq<string>, m: Markers) returns (d: string)
    requires Usable(m) && !Contains(rest, m.start) && !Contains(Join(block), m.start) && Contains(Join(block), m.end)
    ensures !Contains(d, m.start)
    ensures Strip(rest + "\n\n" + Tail(block, m), m) == rest + "\n\n" + (d + "\n" + (m.end + "\n"))
  {
    var body := Join(block);
    var k := EndFoundEarly(body, m);
    d := body[k..];
    SuffixFree(body, m.start, k);
    StartFound(rest, block, m);
    var v, c := m.start + "\n" + body[..k], d + "\n" + (m.end + "\n");
    TailParts(block, m, k);
    PutTogether(rest + "\n\n", v, c, Tail(block, m));
    CutOut(rest + "\n\n", v, c, m);
  }

  lemma TailParts(block: seq<string>, m: Markers, k: nat)
    requires k <= |Join(block)|
    ensures var body := Join(block);
            var v, c := m.start + "\n" + body[..k], body[k..] + "\n" + (m.end + "\n");
            Tail(block, m) == v + c == m.start + "\n" + (body + "\n" + (m.end + "\n"))
  {
    var body := Join(block);
    assert body == body[..k] + body[k..];
  }

  lemma PutTogether(a: string, v: string, c: string, t: string)
    requires t == v + c
    ensures a + t == a + (v + c)
  {
  }

  /** The text outside has then become longer, and still holds no start marker. */
  lemma RemainsGrow(rest: string, d: string, m: Markers)
    requires Usable(m) && !Contains(rest, m.start) && !Contains(d, m.start)
    ensures var left := rest + "\n\n" + (d + "\n" + (m.end + "\n"));
            !Contains(left, m.start) && |TrimNewlines(left)| > |rest|
  {
    var e := m.end + "\n";
    var left := rest + "\n\n" + (d + "\n" + e);
    StartNotInEnd(m);
    FreeWithNewline(m.end, m.start);
    FreeAcross(d, e, m.start);
    NoMarkerInEmpty(m.start);
    FreeAcross("", d + "\n" + e, m.start);
    FreeAcross(rest, "" + "\n" + (d + "\n" + e), m.start);
    assert left == rest + "\n" + ("" + "\n" + (d + "\n" + e));
    TrimLeavesNewlines(left);
    var at := |rest| + 2 + |d| + 1;
    assert left[at] == m.end[0];
  }

  /** After a run that put the end marker into the block, the text outside is longer, and without a start marker. */
  lemma OutsideLonger(rest: string, block: seq<string>, m: Markers)
    requires Usable(m) && !Contains(rest, m.start) && StartFree(block, m) && !EndFree(block, m)
    ensures var left := TrimNewlines(Strip(rest + "\n\n" + Tail(block, m), m));
            !Contains(left, m.start) && |left| > |rest|
  {
    JoinFreeOf(block, m.start);
    var l :| l in block && Contains(l, m.end);
    JoinHolds(block, l, m.end);
    var d := Remains(rest, block, m);
    RemainsGrow(rest, d, m);
    FreeAfterTrim(Strip(rest + "\n\n" + Tail(block, m), m), m.start);
  }

  /** Two files whose text before the block has different lengths are different; so are one with a block and one
      without. */
  lemma BlocksElsewhere(rest: string, block: seq<string>, left: string, again: seq<string>, m: Markers)
    requires Usable(m) && !Contains(rest, m.start) && !Contains(left, m.start) && |left| != |rest|
    ensures rest + "\n\n" + Tail(block, m) != if again == [] then left + "\n" else left + "\n\n" + Tail(again, m)
  {
    StartFound(rest, block, m);
    if again == [] {
      FreeWithNewline(left, m.start);
    } else {
      StartFound(left, again, m);
    }
  }

  lemma AppliedWithBlock(u: string, lines: seq<string>, m: Markers)
    requires Contains(u, m.start)
    ensures var left, again := TrimNewlines(Strip(u, m)), BlockLines(u, lines, m);
            Applied(u, lines, m) == if again == [] then left + "\n" else left + "\n\n" + Tail(again, m)
  {
    var left, again := TrimNewlines(Strip(u, m)), BlockLines(u, lines, m);
    assert left + "\n\n" + Block(again, m) + "\n" == left + "\n\n" + Tail(again, m);
  }

  /** A second run then writes something else: its block begins further down, or there is none. */
  lemma SecondRunDiffers(rest: string, block: seq<string>, lines: seq<string>, m: Markers)
    requires Usable(m) && !Contains(rest, m.start) && StartFree(block, m) && !EndFree(block, m)
    ensures var u := rest + "\n\n" + Tail(block, m); Applied(u, lines, m) != u
  {
    var u := rest + "\n\n" + Tail(block, m);
    StartFound(rest, block, m);
    OutsideLonger(rest, block, m);
    AppliedWithBlock(u, lines, m);
    BlocksElsewhere(rest, block, TrimNewlines(Strip(u, m)), BlockLines(u, lines, m), m);
  }

  /** Exactly when a second run changes nothing, for a file with at most one block and lines free of the start marker:
      when no line that goes into the block contains the end marker. */
  lemma ApplyIdempotentIff(s: string, lines: seq<string>, m: Markers)
    requires Usable(m) && AtMostOneBlock(s, m) && StartFree(lines, m)
    ensures Applied(Applied(s, lines, m), lines, m) == Applied(s, lines, m) <==> EndFree(BlockLines(s, lines, m), m)
  {
    var block := BlockLines(s, lines, m);
    if EndFree(block, m) {
      ApplyIsIdempotent(s, lines, m);
    } else {
      forall l | l in block ensures !Contains(l, m.start) {
        MissingMeans(lines, Strip(s, m), l);
      }
      var rest := TrimNewlines(Strip(s, m));
      FreeAfterTrim(Strip(s, m), m.start);
      SecondRunDiffers(rest, block, lines, m);
      assert Applied(s, lines, m) == rest + "\n\n" + Tail(block, m);
    }
  }

  /** A file with two blocks may settle at once: the first run takes out one and finds the setting in the other, the
      second takes that out and writes it again. */
  lemma TwoBlocksCanSettle(l: string, m: Markers) returns (s: string)
    requires Usable(m) && Sets(l) && !IsHeader(l) && '\n' !in l && !Contains(l, m.end)
    ensures !AtMostOneBlock(s, m)
    ensures Applied(Applied(s, [l], m), [l], m) == Applied(s, [l], m)
  {
    var u := "" + "\n\n" + Tail([l], m);
    s := m.start + "\n" + m.end + u;
    FirstBlockGoes(u, m);
    NoMarkerInEmpty(m.start);
    StartFound("", [l], m);
    assert HasLine(u, l) by {
      SettingInBlock("", [l], m, l);
      assert u == "" + "\n\n" + Block([l], m) + "\n";
    }
    FirstRunKeeps(s, u, l, m);
    Settles(l, m);
  }

  lemma FirstRunKeeps(s: string, u: string, l: string, m: Markers)
    requires Usable(m) && Contains(s, m.start) && Strip(s, m) == u && HasLine(u, l) && !IsHeader(l)
    requires u == "" + "\n\n" + Tail([l], m)
    ensures Applied(s, [l], m) == u
  {
    MissingOne(u, l);
    TailTrimmed(l, m);
  }

  lemma MissingOne(body: string, l: string)
    requires !IsHeader(l)
    ensures Missing([l], body) == if HasLine(body, l) then [] else [l]
  {
    assert [l][1..] == [] && Missing([], body) == [];
  }

  /** An empty block in front is cut out. */
  lemma FirstBlockGoes(u: string, m: Markers)
    requires Usable(m)
    ensures var s := m.start + "\n" + m.end + u; Contains(s, m.start) && Strip(s, m) == u
  {
    var v := m.start + "\n" + m.end;
    var s := v + u;
    assert s[0..|m.start|] == m.start;
    IndexIs(s, m.start, 0);
    var k, after := |m.start| + 1, m.end + u;
    assert s == m.start + "\n" + after && s[k..k + |m.end|] == m.end;
    forall j | 0 <= j < k ensures !OccursAt(s, m.end, j) {
      if OccursAt(s, m.end, j) {
        NotAcross(m.start, after, m.end, j);
        EndNotInStart(m, j);
      }
    }
    IndexIs(s, m.end, k);
    assert "" + (v + u) == s;
    CutOut("", v, u, m);
  }

  lemma TailTrimmed(l: string, m: Markers)
    requires Usable(m)
    ensures TrimNewlines("" + "\n\n" + Tail([l], m)) + "\n" == "" + "\n\n" + Tail([l], m)
  {
    var b := "" + "\n\n" + Block([l], m);
    TrimNewlinesAppend(b);
    assert b[|b| - 1] == m.end[|m.end| - 1];
    assert b + "\n" == "" + "\n\n" + Tail([l], m);
  }

  /** One block with the setting, and nothing else, is left alone. */
  lemma Settles(l: string, m: Markers)
    requires Usable(m) && Sets(l) && !IsHeader(l) && !Contains(l, m.end)
    ensures var u := "" + "\n\n" + Tail([l], m); Applied(u, [l], m) == u
  {
    var u := "" + "\n\n" + Tail([l], m);
    NoMarkerInEmpty(m.start);
    assert Join([l]) == l;
    StripRewritten("", [l], m);
    ThreeNewlines("");
    var blank := "" + "\n\n" + "\n";
    HasLineTrimmed(blank, l);
    BlankSetsNothing();
    assert Lines("") == [""];
    assert !HasLine("", l);
    MissingOne(blank, l);
    assert !OnlySections([l]) by { assert l in [l]; }
  }

  // ---- Every file ----

  /** What else is true of the markers: the start marker does not begin inside the end marker. */
  predicate Distinctive(m: Markers) {
    Usable(m) && |m.start| >= 2 && m.start[0] !in m.end[1..]
  }

  lemma MarkersDistinctive()
    ensures Distinctive(MARKERS)
  {
    MarkersUsable();
    EndHasOneHash();
    var e := MARKERS.end;
    forall c | c in e[1..] ensures c != '#' {
      var k :| 0 <= k < |e[1..]| && e[1..][k] == c;
      assert e[k + 1] == c;
    }
  }

  lemma EndHasOneHash()
    ensures |MARKERS.end| == 24 && forall k :: 1 <= k < 24 ==> MARKERS.end[k] != '#'
  {
  }

  /** The last place where the pattern occurs. */
  ghost predicate LastAt(s: string, pat: string, k: nat) {
    OccursAt(s, pat, k) && forall j: nat :: j > k ==> !OccursAt(s, pat, j)
  }

  /** A block free of the start marker holds it in front and nowhere else. */
  lemma StartOnlyInFront(block: seq<string>, m: Markers, j: nat)
    requires Usable(m) && StartFree(block, m) && j > 0
    ensures !OccursAt(Tail(block, m), m.start, j)
  {
    var body := Join(block);
    var e := m.end + "\n";
    var after := body + "\n" + e;
    JoinFreeOf(block, m.start);
    StartNotInEnd(m);
    FreeWithNewline(m.end, m.start);
    FreeAcross(body, e, m.start);
    assert Tail(block, m) == m.start + "\n" + after;
    if OccursAt(Tail(block, m), m.start, j) {
      NotAcross(m.start, after, m.start, j);
    }
  }

  lemma OccursBehind(a: string, b: string, pat: string, j: nat)
    requires j >= |a|
    ensures OccursAt(a + b, pat, j) <==> OccursAt(b, pat, j - |a|)
  {
    if j + |pat| <= |a + b| { assert (a + b)[j..j + |pat|] == b[j - |a|..j - |a| + |pat|]; }
  }

  lemma LastStart(rest: string, block: seq<string>, m: Markers)
    requires Usable(m) && StartFree(block, m)
    ensures LastAt(rest + "\n\n" + Tail(block, m), m.start, |rest| + 2)
  {
    var tail, k := Tail(block, m), |rest| + 2;
    var u := rest + "\n\n" + tail;
    assert u == (rest + "\n\n") + tail && tail[0..|m.start|] == m.start;
    OccursBehind(rest + "\n\n", tail, m.start, k);
    forall j: nat | j > k ensures !OccursAt(u, m.start, j) {
      StartOnlyInFront(block, m, j - k);
      OccursBehind(rest + "\n\n", tail, m.start, j);
    }
  }

  lemma LastIsOne(s: string, pat: string, j: nat, k: nat)
    requires LastAt(s, pat, j) && LastAt(s, pat, k)
    ensures j == k
  {
  }

  /** Two blocks free of the start marker, each after some text: if the files are one, so are the texts. */
  lemma SameTextBefore(rest: string, block: seq<string>, left: string, again: seq<string>, m: Markers)
    requires Usable(m) && StartFree(block, m) && StartFree(again, m)
    requires rest + "\n\n" + Tail(block, m) == left + "\n\n" + Tail(again, m)
    ensures left == rest
  {
    var u := rest + "\n\n" + Tail(block, m);
    LastStart(rest, block, m);
    LastStart(left, again, m);
    LastIsOne(u, m.start, |rest| + 2, |left| + 2);
    assert u[..|rest|] == rest && u[..|left|] == left;
  }

  /** What is cut out, and a block with two newlines before it, never trade places around the same text. */
  lemma {:induction false} NoTrade(x: string, c: string, block: seq<string>, m: Markers)
    requires Distinctive(m) && StartFree(block, m) && m.start <= x && x[|x| - 1] == m.end[|m.end| - 1]
    ensures x + c != c + ("\n\n" + Block(block, m))
    decreases |c|
  {
    var y := "\n\n" + Block(block, m);
    if x + c == c + y {
      if |c| >= |x| {
        Peel(x, c, y);
        NoTrade(x, c[|x|..], block, m);
      } else {
        ShortTrade(x, c, block, m);
      }
    }
  }

  lemma Peel(x: string, c: string, y: string)
    requires |c| >= |x| && x + c == c + y
    ensures x + c[|x|..] == c[|x|..] + y
  {
    var d := c[|x|..];
    assert (x + c)[|x|..] == c && (c + y)[|x|..] == d + y;
    assert (x + c)[..|x|] == x && (c + y)[..|x|] == c[..|x|];
    assert c == x + d;
  }

  /** The halves, when the text between is shorter than what is cut out. */
  lemma Halves(x: string, c: string, y: string)
    requires |c| < |x| && x + c == c + y
    ensures |y| == |x| && c == x[..|c|] && y[|x| - |c|..] == c && x[|c|..] == y[..|x| - |c|]
  {
    var w := x + c;
    assert w[..|c|] == c && w[..|c|] == x[..|c|];
    assert w[|x|..] == c && (c + y)[|x|..] == y[|x| - |c|..];
    assert w[|c|..|x|] == x[|c|..] && (c + y)[|c|..|x|] == y[..|x| - |c|];
  }

  lemma ShortTrade(x: string, c: string, block: seq<string>, m: Markers)
    requires Distinctive(m) && StartFree(block, m) && m.start <= x && x[|x| - 1] == m.end[|m.end| - 1]
    requires |c| < |x|
    ensures x + c != c + ("\n\n" + Block(block, m))
  {
    var y := "\n\n" + Block(block, m);
    var n := |x| - |c|;
    assert x[0] == m.start[0] && m.start[0] != '\n' && m.end[|m.end| - 1] != '\n' && y[0] == '\n' && y[1] == '\n';
    if x + c == c + y {
      Halves(x, c, y);
      if 0 < |c| < |m.start| {
        TailOfBlock(block, m, |c|);
      } else if |c| >= |m.start| {
        assert c[..|m.start|] == m.start;
        assert OccursAt(y, m.start, n);
        StartBehindNewlines(block, m, n);
      }
    }
  }

  lemma StartBehindNewlines(block: seq<string>, m: Markers, n: nat)
    requires Usable(m) && StartFree(block, m) && OccursAt("\n\n" + Block(block, m), m.start, n)
    ensures n == 2
  {
    var y, u := "\n\n" + Block(block, m), "" + "\n\n" + Tail(block, m);
    assert u == y + "\n";
    assert (y + "\n")[n..n + |m.start|] == y[n..n + |m.start|];
    assert OccursAt(u, m.start, n);
    LastStart("", block, m);
    NoMarkerInEmpty(m.start);
    if n < 2 { NoMarkerBefore("", Tail(block, m), m.start, n); }
  }

  /** The end of a block is the end of the end marker. */
  lemma TailOfBlock(block: seq<string>, m: Markers, k: nat)
    requires Usable(m) && 0 < k < |m.end|
    ensures var y := "\n\n" + Block(block, m); |y| >= k && y[|y| - k] == m.end[|m.end| - k]
    ensures m.end[|m.end| - k] in m.end[1..]
  {
    assert m.end[|m.end| - k] == m.end[1..][|m.end| - k - 1];
  }

  lemma IndexInFront(a: string, b: string, pat: string)
    requires Contains(a, pat)
    ensures Index(a + b, pat) == Index(a, pat)
  {
    var k := Index(a, pat);
    assert (a + b)[k..k + |pat|] == a[k..k + |pat|];
    forall j | 0 <= j < k ensures !OccursAt(a + b, pat, j) {
      assert (a + b)[j..j + |pat|] == a[j..j + |pat|];
      assert !OccursAt(a, pat, j);
    }
    IndexIs(a + b, pat, k);
  }

  /** The first block of a text that holds a finished one: what stands before, the block, what stands behind. */
  lemma FirstBlock(rest: string, m: Markers) returns (front: string, x: string, c: string)
    requires Usable(m) && Contains(rest, m.start) && Contains(rest[Index(rest, m.start)..], m.end)
    ensures rest == front + (x + c) && Index(rest, m.start) == |front|
    ensures |m.end| <= |x| && Index(x + c, m.end) == |x| - |m.end|
    ensures m.start <= x && x[|x| - 1] == m.end[|m.end| - 1]
  {
    var w;
    front, w := AtFirstStart(rest, m);
    var j := Index(w, m.end);
    x, c := w[..j + |m.end|], w[j + |m.end|..];
    assert w == x + c;
    assert x[..|m.start|] == w[..|m.start|];
    assert x[|x| - 1] == w[j..j + |m.end|][|m.end| - 1];
  }

  /** Taking it out of a longer file. */
  lemma CutInFront(rest: string, b: string, m: Markers) returns (front: string, x: string, c: string)
    requires Usable(m) && Contains(rest, m.start) && Contains(rest[Index(rest, m.start)..], m.end)
    ensures rest == front + (x + c) && Strip(rest + b, m) == front + (c + b)
    ensures m.start <= x && x[|x| - 1] == m.end[|m.end| - 1]
  {
    front, x, c := FirstBlock(rest, m);
    IndexInFront(rest, b, m.start);
    IndexInFront(x + c, b, m.end);
    Associate(front, x, c, b);
    CutOut(front, x, c + b, m);
  }

  lemma Associate(front: string, x: string, c: string, b: string)
    ensures front + (x + c) + b == front + (x + (c + b)) && x + c + b == x + (c + b)
  {
  }

  /** Where the first block is not finished before the new one: what stays behind it is a piece of the new block. */
  lemma CutThrough(rest: string, block: seq<string>, m: Markers) returns (front: string, w: string, c: string)
    requires Usable(m) && StartFree(block, m)
    requires Contains(rest, m.start) && !Contains(rest[Index(rest, m.start)..], m.end)
    ensures rest == front + w && m.start <= w && !OccursAt(c, m.start, 0)
    ensures Strip(rest + "\n\n" + Tail(block, m), m) == front + c
  {
    front, w := AtFirstStart(rest, m);
    var v;
    v, c := EndBehind(w, block, m);
    CutFrom(front, w, "\n\n" + Tail(block, m), v, c, m);
    ThreeParts(rest, Tail(block, m));
  }

  lemma AtFirstStart(rest: string, m: Markers) returns (front: string, w: string)
    requires Contains(rest, m.start)
    ensures rest == front + w && m.start <= w && Index(rest, m.start) == |front| && w == rest[Index(rest, m.start)..]
  {
    var p := Index(rest, m.start);
    front, w := rest[..p], rest[p..];
    assert w[..|m.start|] == rest[p..p + |m.start|];
  }

  lemma ThreeParts(a: string, t: string)
    ensures a + "\n\n" + t == a + ("\n\n" + t)
  {
  }

  lemma CutFrom(front: string, w: string, b: string, v: string, c: string, m: Markers)
    requires Contains(front + w, m.start) && Index(front + w, m.start) == |front|
    requires w + b == v + c && |m.end| <= |v| && Index(v + c, m.end) == |v| - |m.end|
    ensures Strip(front + w + b, m) == front + c
  {
    IndexInFront(front + w, b, m.start);
    assert front + w + b == front + (w + b);
    CutOut(front, v, c, m);
  }

  lemma EndIsBehind(w: string, tail: string, k: nat, m: Markers)
    requires Usable(m) && !Contains(w, m.end) && OccursAt(tail, m.end, k)
    ensures Index(w + "\n\n" + tail, m.end) >= |w| + 2
  {
    var z := w + "\n\n" + tail;
    OccursBehind(w + "\n\n", tail, m.end, |w| + 2 + k);
    assert OccursAt(z, m.end, |w| + 2 + k);
    var j := Index(z, m.end);
    if 0 <= j < |w| + 2 { NoMarkerBefore(w, tail, m.end, j); }
  }

  lemma OwnEnd(block: seq<string>, m: Markers) returns (k: nat)
    ensures OccursAt(Tail(block, m), m.end, k)
  {
    k := |Block(block, m)| - |m.end|;
    assert Block(block, m)[k..] == m.end;
    assert Tail(block, m)[k..k + |m.end|] == Block(block, m)[k..];
  }

  lemma SplitBehind(z: string, pat: string) returns (v: string, c: string)
    requires Contains(z, pat)
    ensures z == v + c && |v| == Index(z, pat) + |pat|
  {
    var n := Index(z, pat) + |pat|;
    v, c := z[..n], z[n..];
  }

  /** The first end marker is then in the new block, and no start marker at the place behind it. */
  lemma EndBehind(w: string, block: seq<string>, m: Markers) returns (v: string, c: string)
    requires Usable(m) && StartFree(block, m) && !Contains(w, m.end)
    ensures w + ("\n\n" + Tail(block, m)) == v + c
    ensures |m.end| <= |v| && Index(v + c, m.end) == |v| - |m.end| && !OccursAt(c, m.start, 0)
  {
    var k := OwnEnd(block, m);
    EndIsBehind(w, Tail(block, m), k, m);
    ThreeParts(w, Tail(block, m));
    v, c := SplitBehind(w + "\n\n" + Tail(block, m), m.end);
    NoStartAt(w, block, v, c, m);
  }

  lemma NoStartAt(w: string, block: seq<string>, v: string, c: string, m: Markers)
    requires Usable(m) && StartFree(block, m) && (w + "\n\n") + Tail(block, m) == v + c && |v| > |w| + 2
    ensures !OccursAt(c, m.start, 0)
  {
    StartOnlyInFront(block, m, |v| - |w| - 2);
    OccursBehind(w + "\n\n", Tail(block, m), m.start, |v|);
    OccursBehind(v, c, m.start, |v|);
  }

  /** With a start marker left outside, the text outside is another after the second run. */
  lemma OutsideMoves(rest: string, block: seq<string>, m: Markers)
    requires Distinctive(m) && StartFree(block, m) && Contains(rest, m.start)
    ensures TrimNewlines(Strip(rest + "\n\n" + Tail(block, m), m)) != rest
  {
    if Contains(rest[Index(rest, m.start)..], m.end) {
      var front, x, c := CutInFront(rest, "\n\n" + Tail(block, m), m);
      assert rest + "\n\n" + Tail(block, m) == rest + ("\n\n" + Tail(block, m));
      TrimmedTail(front, c, block, m);
      NoTrade(x, c, block, m);
      DifferAfter(front, c + ("\n\n" + Block(block, m)), x + c);
    } else {
      var front, w, c := CutThrough(rest, block, m);
      PieceIsShort(front, w, c, m);
    }
  }

  lemma DifferAfter(front: string, a: string, b: string)
    requires a != b
    ensures front + a != front + b
  {
    assert (front + a)[|front|..] == a && (front + b)[|front|..] == b;
  }

  lemma TrimmedTail(front: string, c: string, block: seq<string>, m: Markers)
    requires Usable(m)
    ensures TrimNewlines(front + (c + ("\n\n" + Tail(block, m)))) == front + (c + ("\n\n" + Block(block, m)))
  {
    var t := front + (c + ("\n\n" + Block(block, m)));
    assert front + (c + ("\n\n" + Tail(block, m))) == t + "\n";
    TrimNewlinesAppend(t);
    assert t[|t| - 1] == m.end[|m.end| - 1];
  }

  lemma PrefixBehind(front: string, w: string, c: string, pat: string)
    requires front + w <= front + c && pat <= w
    ensures OccursAt(c, pat, 0)
  {
    var n := |front|;
    assert (front + w)[..n + |pat|] == (front + c)[..n + |pat|];
    assert (front + w)[..n + |pat|][n..] == w[..|pat|] && (front + c)[..n + |pat|][n..] == c[..|pat|];
    assert c[0..|pat|] == c[..|pat|];
  }

  lemma PieceIsShort(front: string, w: string, c: string, m: Markers)
    requires m.start <= w && !OccursAt(c, m.start, 0)
    ensures TrimNewlines(front + c) != front + w
  {
    if TrimNewlines(front + c) == front + w { PrefixBehind(front, w, c, m.start); }
  }

  /** A file that keeps a start marker outside its block is rewritten by the next run. */
  lemma LeftoverBlockMoves(rest: string, block: seq<string>, lines: seq<string>, m: Markers)
    requires Distinctive(m) && StartFree(block, m) && StartFree(lines, m) && Contains(rest, m.start)
    ensures var u := rest + "\n\n" + Tail(block, m); Applied(u, lines, m) != u
  {
    var u := rest + "\n\n" + Tail(block, m);
    var left, again := TrimNewlines(Strip(u, m)), BlockLines(u, lines, m);
    assert u == rest + ("\n\n" + Tail(block, m));
    IndexInFront(rest, "\n\n" + Tail(block, m), m.start);
    AppliedWithBlock(u, lines, m);
    OutsideMoves(rest, block, m);
    if again == [] {
      StripShortens(u, m);
    } else {
      BlockLinesStartFree(u, lines, m);
      if u == left + "\n\n" + Tail(again, m) { SameTextBefore(rest, block, left, again, m); }
    }
  }

  lemma StripShortens(u: string, m: Markers)
    requires Usable(m) && Contains(u, m.start)
    ensures |Strip(u, m)| + |m.start| <= |u|
  {
  }

  lemma BlockLinesStartFree(s: string, lines: seq<string>, m: Markers)
    requires StartFree(lines, m)
    ensures StartFree(BlockLines(s, lines, m), m)
  {
    forall l | l in BlockLines(s, lines, m) ensures !Contains(l, m.start) {
      MissingMeans(lines, Strip(s, m), l);
    }
  }

  /** Everything wanted stands outside the first block, and without that block the file ends in one of just the lines
      missing elsewhere. */
  predicate LastBlockStands(s: string, lines: seq<string>, m: Markers) {
    var u := TrimNewlines(Strip(s, m)) + "\n";
    && BlockLines(s, lines, m) == [] && BlockLines(u, lines, m) != []
    && u == TrimNewlines(Strip(u, m)) + "\n\n" + Tail(BlockLines(u, lines, m), m)
  }

  /** With at most one block: no line that goes into the block contains the end marker. With more: the last one
      stands. */
  predicate SecondRunQuiet(s: string, lines: seq<string>, m: Markers) {
    if AtMostOneBlock(s, m) then EndFree(BlockLines(s, lines, m), m) else LastBlockStands(s, lines, m)
  }

  /** Exactly when a second run changes nothing, for every file and every list free of the start marker. */
  lemma SettlesIff(s: string, lines: seq<string>, m: Markers)
    requires Distinctive(m) && StartFree(lines, m)
    ensures Applied(Applied(s, lines, m), lines, m) == Applied(s, lines, m) <==> SecondRunQuiet(s, lines, m)
  {
    if AtMostOneBlock(s, m) {
      ApplyIdempotentIff(s, lines, m);
    } else {
      ManyBlocks(s, lines, m);
    }
  }

  lemma ManyBlocks(s: string, lines: seq<string>, m: Markers)
    requires Distinctive(m) && StartFree(lines, m) && !AtMostOneBlock(s, m)
    ensures Applied(Applied(s, lines, m), lines, m) == Applied(s, lines, m) <==> LastBlockStands(s, lines, m)
  {
    var rest, block := TrimNewlines(Strip(s, m)), BlockLines(s, lines, m);
    assert Contains(s, m.start);
    AppliedWithBlock(s, lines, m);
    ContainsAfterTrim(Strip(s, m), m.start);
    if block == [] {
      var u := rest + "\n";
      AppliedWithBlock(u, lines, m);
      StripShortens(u, m);
    } else {
      ContainsTrimmed(Strip(s, m), m.start);
      BlockLinesStartFree(s, lines, m);
      LeftoverBlockMoves(rest, block, lines, m);
    }
  }

  lemma ContainsTrimmed(s: string, pat: string)
    requires Contains(s, pat) && pat != "" && '\n' !in pat
    ensures Contains(TrimNewlines(s), pat)
  {
    var r, k := TrimNewlines(s), Index(s, pat);
    TrimLeavesNewlines(s);
    assert k + |pat| <= |r| by {
      assert s[k..k + |pat|][|pat| - 1] == pat[|pat| - 1];
    }
    assert r[k..k + |pat|] == s[k..k + |pat|];
    assert OccursAt(r, pat, k);
  }

  // ---- The end marker wanted as a line ----

  predicate EndIsComment(m: Markers) {
    Usable(m) && Trim(m.end) != "" && Trim(m.end)[0] == '#'
  }

  /** With nothing but the end marker wanted, every run finds it missing. */
  lemma EndMarkerAlwaysAdded(s: string, m: Markers)
    requires EndIsComment(m)
    ensures Applied(s, [m.end], m) == TrimNewlines(Strip(s, m)) + "\n\n" + Tail([m.end], m)
  {
    var lines := [m.end];
    CommentAlwaysMissing(Strip(s, m), m.end);
    assert Missing(lines[1..], Strip(s, m)) == [];
    assert Missing(lines, Strip(s, m)) == lines;
    assert !OnlySections(lines) by { assert m.end in lines; }
  }

  /** The block is then taken for finished at the wanted line, and its own end marker stays behind. */
  lemma EndMarkerLeftBehind(rest: string, m: Markers)
    requires EndIsComment(m) && !Contains(rest, m.start)
    ensures Strip(rest + "\n\n" + Tail([m.end], m), m) == rest + "\n\n" + "\n" + m.end + "\n"
  {
    StartFound(rest, [m.end], m);
    EndFoundAtOnce(m);
    var v, c := m.start + "\n" + m.end, "\n" + m.end + "\n";
    EndTwice(m);
    PutTogether(rest + "\n\n", v, c, Tail([m.end], m));
    CutOut(rest + "\n\n", v, c, m);
    Regroup(rest + "\n\n", m.end);
  }

  lemma EndTwice(m: Markers)
    ensures Tail([m.end], m) == m.start + "\n" + m.end + ("\n" + m.end + "\n")
  {
    assert Join([m.end]) == m.end;
  }

  lemma Regroup(a: string, e: string)
    ensures a + ("\n" + e + "\n") == a + "\n" + e + "\n"
  {
  }

  /** The text of the file once it has taken in the marker left behind. */
  function WithMarker(rest: string, m: Markers): string {
    rest + "\n\n" + "\n" + m.end
  }

  lemma WithMarkerFree(rest: string, m: Markers)
    requires Usable(m) && !Contains(rest, m.start)
    ensures !Contains(WithMarker(rest, m), m.start)
  {
    StartNotInEnd(m);
    FreeWithNewline(rest, m.start);
    FreeWithNewline(rest + "\n", m.start);
    assert rest + "\n\n" == rest + "\n" + "\n";
    FreeAcross(rest + "\n\n", m.end, m.start);
  }

  lemma WithMarkerTrimmed(rest: string, m: Markers)
    requires Usable(m)
    ensures TrimNewlines(WithMarker(rest, m) + "\n") == WithMarker(rest, m)
  {
    var more := WithMarker(rest, m);
    TrimNewlinesAppend(more);
    assert more[|more| - 1] == m.end[|m.end| - 1];
  }

  /** So the next run carries it along as text of the file. */
  lemma EndMarkerMovesOut(rest: string, m: Markers)
    requires EndIsComment(m) && !Contains(rest, m.start)
    ensures var u := rest + "\n\n" + Tail([m.end], m);
            Applied(u, [m.end], m) == WithMarker(rest, m) + "\n\n" + Tail([m.end], m)
  {
    EndMarkerLeftBehind(rest, m);
    EndMarkerAlwaysAdded(rest + "\n\n" + Tail([m.end], m), m);
    WithMarkerTrimmed(rest, m);
  }

  /** n runs, one after the other. */
  function Runs(n: nat, s: string, lines: seq<string>, m: Markers): string {
    if n == 0 then s else Applied(Runs(n - 1, s, lines, m), lines, m)
  }

  lemma {:induction false} RunsShape(n: nat, s: string, m: Markers) returns (rest: string)
    requires EndIsComment(m) && AtMostOneBlock(s, m) && n > 0
    ensures Runs(n, s, [m.end], m) == rest + "\n\n" + Tail([m.end], m) && !Contains(rest, m.start)
  {
    if n == 1 {
      rest := TrimNewlines(Strip(s, m));
      FreeAfterTrim(Strip(s, m), m.start);
      assert Runs(0, s, [m.end], m) == s;
      EndMarkerAlwaysAdded(s, m);
    } else {
      var before := RunsShape(n - 1, s, m);
      EndMarkerMovesOut(before, m);
      WithMarkerFree(before, m);
      rest := WithMarker(before, m);
    }
  }

  /** A wanted line that is the end marker itself: from the first run on, every run makes the file longer by that
      marker and three newlines. */
  lemma EndMarkerWantedGrowsTheFile(n: nat, s: string, m: Markers)
    requires EndIsComment(m) && AtMostOneBlock(s, m) && n > 0
    ensures |Runs(n + 1, s, [m.end], m)| == |Runs(n, s, [m.end], m)| + |m.end| + 3
  {
    var rest := RunsShape(n, s, m);
    EndMarkerMovesOut(rest, m);
  }

  lemma CommentAlwaysMissing(body: string, l: string)
    requires Trim(l) != "" && Trim(l)[0] == '#'
    ensures !HasLine(body, l) && !IsHeader(l)
  {
  }

  lemma NoMarkerInEmpty(pat: string)
    requires pat != ""
    ensures !Contains("", pat)
  {
  }

  lemma EndFoundAtOnce(m: Markers)
    requires Usable(m)
    ensures Index(Tail([m.end], m), m.end) == |m.start| + 1
  {
    var v, k := Tail([m.end], m), |m.start| + 1;
    var after := m.end + "\n" + m.end + "\n";
    assert v == m.start + "\n" + after;
    assert v[k..k + |m.end|] == m.end;
    forall j | 0 <= j < k ensures !OccursAt(v, m.end, j) {
      if OccursAt(v, m.end, j) {
        NotAcross(m.start, after, m.end, j);
        EndNotInStart(m, j);
      }
    }
    IndexIs(v, m.end, k);
  }

  // ---- As it runs ----

  method HasLineLoop(body: string, want: string) returns (found: bool)
    ensures found <==> HasLine(body, want)
  {
    var wanted := Trim(want);
    var lines := Lines(body);
    var i := 0;
    while i < |lines|
      invariant 0 <= i <= |lines|
      invariant forall k :: 0 <= k < i ==> !(Sets(lines[k]) && Trim(lines[k]) == wanted)
    {
      var l := Trim(lines[i]);
      if l != "" && l[0] != '#' && l == wanted {
        return true;
      }
      i := i + 1;
    }
    return false;
  }

  method OnlySectionsLoop(lines: seq<string>) returns (only: bool)
    ensures only <==> OnlySections(lines)
  {
    var i := 0;
    while i < |lines|
      invariant 0 <= i <= |lines|
      invariant forall k :: 0 <= k < i ==> Trim(lines[k]) == "" || IsHeader(lines[k])
    {
      var t := Trim(lines[i]);
      if t != "" && t[0] != '[' {
        return false;
      }
      i := i + 1;
    }
    return true;
  }

  lemma {:induction false} MissingSnoc(lines: seq<string>, l: string, body: string)
    ensures Missing(lines + [l], body) ==
            Missing(lines, body) + (if IsHeader(l) || !HasLine(body, l) then [l] else [])
  {
    if lines == [] {
      assert [] + [l] == [l];
    } else {
      assert (lines + [l])[1..] == lines[1..] + [l];
      MissingSnoc(lines[1..], l, body);
    }
  }

  method MissingLoop(lines: seq<string>, body: string) returns (missing: seq<string>)
    ensures missing == Missing(lines, body)
  {
    missing := [];
    var i := 0;
    while i < |lines|
      invariant 0 <= i <= |lines|
      invariant missing == Missing(lines[..i], body)
    {
      var t := Trim(lines[i]);
      var known := HasLineLoop(body, lines[i]);
      MissingSnoc(lines[..i], lines[i], body);
      assert lines[..i + 1] == lines[..i] + [lines[i]];
      if (t != "" && t[0] == '[') || !known {
        missing := missing + [lines[i]];
      }
      i := i + 1;
    }
    assert lines[..|lines|] == lines;
  }

  datatype Result = Unreadable | Unchanged | Written(text: string)

  /** applyBlockTo: `file` is what stands on disk, if anything; the result says what was written. A second
      run on what a run has left writes nothing. */
  method ApplyBlockTo(file: Option<string>, lines: seq<string>, create: bool) returns (r: Result)
    ensures r == Unreadable <==> file.None? && !create
    ensures r != Unreadable ==>
              var old_ := if file.Some? then file.value else "";
              && (r == Unchanged <==> Applied(old_, lines, MARKERS) == old_)
              && (r.Written? ==> r.text == Applied(old_, lines, MARKERS))
    ensures r.Written? && StartFree(lines, MARKERS) ==>
              var old_ := if file.Some? then file.value else "";
              Applied(r.text, lines, MARKERS) == r.text <==> SecondRunQuiet(old_, lines, MARKERS)
  {
    if file.None? && !create {
      return Unreadable;
    }
    var old_ := if file.Some? then file.value else "";
    var body := Strip(old_, MARKERS);
    var missing := MissingLoop(lines, body);
    var only := OnlySectionsLoop(missing);
    if only {
      missing := [];
    }
    if missing == [] && !Contains(old_, MARKERS.start) {
      return Unchanged;
    }
    var updated := Rewritten(old_, missing, MARKERS);
    if updated == old_ {
      return Unchanged;
    }
    MarkersDistinctive();
    if StartFree(lines, MARKERS) {
      SettlesIff(old_, lines, MARKERS);
    }
    return Written(updated);
  }
}
