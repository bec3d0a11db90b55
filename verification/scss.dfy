// The comment-block extractor: a line-by-line scan of stylesheet text that
// collects runs of `//` lines and `/* ... */` regions into blocks, and the
// normalisation applied to each block before it is handed out (star gutter,
// uniform indent, outer whitespace).
module Scss {
  import opened Text

  // ---------------------------------------------------------------------
  // Line classifiers

  // `^\s*m`: the marker `m` starts right after the leading whitespace.
  predicate MarkerAfterIndent(line: string, m: string) {
    m <= line[Indent(line)..]
  }

  // `^\s*//`
  predicate IsSingleLineComment(line: string) {
    MarkerAfterIndent(line, "//")
  }

  // `^\s*/\*`
  predicate IsStartMultiLineComment(line: string) {
    MarkerAfterIndent(line, "/*")
  }

  // `.*\*/` anchored at the start: `.` stops at a newline, so the first `*/` must come before any newline.
  predicate IsEndMultiLineComment(line: string) {
    var i := IndexOf(line, "*/");
    i >= 0 && '\n' !in line[..i]
  }

  // What the `^\s*m` pattern means: some run of whitespace at the start of the
  // line is followed by `m`. Backtracking cannot find another split, because
  // the marker starts with a non-space.
  lemma MarkerAfterIndentMeaning(line: string, m: string)
    requires m != [] && !IsSpace(m[0])
    ensures MarkerAfterIndent(line, m) <==>
      exists k :: 0 <= k <= |line| && AllSpace(line[..k]) && m <= line[k..]
  {
    if exists k :: 0 <= k <= |line| && AllSpace(line[..k]) && m <= line[k..] {
      var k :| 0 <= k <= |line| && AllSpace(line[..k]) && m <= line[k..];
      assert line[k] == m[0];
      IndentUnique(line, k);
    }
  }

  // What `.*\*/` under `re.match` means: a `*/` occurs with no newline before it.
  lemma EndMarkerMeaning(line: string)
    ensures IsEndMultiLineComment(line) <==>
      exists i :: OccursAt(line, "*/", i) && '\n' !in line[..i]
  {
    var r := IndexOf(line, "*/");
    if exists i :: OccursAt(line, "*/", i) && '\n' !in line[..i] {
      var i :| OccursAt(line, "*/", i) && '\n' !in line[..i];
      assert r >= 0 && r <= i;
      assert line[..r] == line[..i][..r];
    }
  }

  // A line cannot both be a `//` line and open a `/*` region.
  lemma ClassifiersExclusive(line: string)
    ensures !(IsSingleLineComment(line) && IsStartMultiLineComment(line))
  {
    var rest := line[Indent(line)..];
    if "//" <= rest { assert rest[1] == '/'; }
  }

  // ---------------------------------------------------------------------
  // Marker removal

  // `re.sub(p, "", s)` for the pattern `p` = `m` (spaced false) or `\s*m`
  // (spaced true), with `m` a literal starting with a non-space: matches are
  // tried at every position from the left; a match is deleted and the scan
  // resumes after it, otherwise the character is kept.
  function Scrub(s: string, m: string, spaced: bool): (r: string)
    requires m != []
    ensures |r| <= |s|
    ensures !Contains(s, m) ==> r == s
    decreases |s|
  {
    if s == [] then []
    else
      var k := if spaced then Indent(s) else 0;
      if m <= s[k..] then
        assert OccursAt(s, m, k) by { assert s[k..][..|m|] == s[k..k + |m|]; }
        Scrub(s[k + |m|..], m, spaced)
      else
        assert Contains(s[1..], m) ==> Contains(s, m) by {
          forall j | OccursAt(s[1..], m, j) ensures OccursAt(s, m, j + 1) {
            OccursShift(s, m, j);
          }
        }
        [s[0]] + Scrub(s[1..], m, spaced)
  }

  // `parse_single_line`: every whitespace-led `//` removed, then trailing whitespace.
  function ParseSingleLine(line: string): (r: string)
    ensures |r| <= |line|
    ensures r == [] || !IsSpace(r[|r| - 1])
    ensures !Contains(line, "//") ==> r == RStrip(line)
  {
    RStrip(Scrub(line, "//", true))
  }

  // `parse_multi_line`: every whitespace-led `/*` and every `*/` removed, then trailing whitespace.
  function ParseMultiLine(line: string): (r: string)
    ensures |r| <= |line|
    ensures r == [] || !IsSpace(r[|r| - 1])
    ensures !Contains(line, "/*") && !Contains(line, "*/") ==> r == RStrip(line)
  {
    RStrip(Scrub(Scrub(line, "/*", true), "*/", false))
  }

  // Without a match at its start, the first character is kept.
  lemma ScrubNoMatchHere(s: string, m: string)
    requires m != [] && s != [] && !OccursAt(s, m, 0)
    ensures Scrub(s, m, false) == [s[0]] + Scrub(s[1..], m, false)
  {
    OccursAtStart(s, m);
  }

  // Removing a marker that occurs only at the very end leaves what precedes it.
  lemma {:induction false} ScrubTrailingMarker(x: string, m: string)
    requires m != []
    requires forall i :: 0 <= i < |x| ==> !OccursAt(x + m, m, i)
    ensures Scrub(x + m, m, false) == x
  {
    if x == [] {
      assert x + m == m;
      assert m <= m[0..];
    } else {
      var s := x + m;
      ScrubNoMatchHere(s, m);
      AppendDropFirst(x, m);
      forall i | 0 <= i < |x[1..]|
        ensures !OccursAt(x[1..] + m, m, i)
      {
        OccursShift(s, m, i);
      }
      ScrubTrailingMarker(x[1..], m);
      assert [x[0]] + x[1..] == x;
    }
  }

  // A marker right after the leading whitespace is removed together with it.
  lemma ScrubLeadingMarker(pad: string, m: string, rest: string)
    requires AllSpace(pad) && m != [] && !IsSpace(m[0])
    ensures Scrub(pad + m + rest, m, true) == Scrub(rest, m, true)
  {
    var s := pad + m + rest;
    assert s[..|pad|] == pad;
    assert s[|pad|] == m[0];
    IndentUnique(s, |pad|);
    assert m <= s[|pad|..];
    assert s[|pad| + |m|..] == rest;
  }

  // Any `//` line: the leading marker goes with its indent, and the rest of
  // the line is scrubbed of every further whitespace-led `//`, then
  // right-stripped.
  lemma ParseSingleLineAfterMarker(pad: string, body: string)
    requires AllSpace(pad)
    ensures ParseSingleLine(pad + "//" + body) == RStrip(Scrub(body, "//", true))
  {
    ScrubLeadingMarker(pad, "//", body);
  }

  // Any line opening a `/*` region: the leading marker goes with its indent,
  // and the rest is scrubbed of every further whitespace-led `/*`, then of
  // every `*/`, then right-stripped.
  lemma ParseMultiLineAfterMarker(pad: string, body: string)
    requires AllSpace(pad)
    ensures ParseMultiLine(pad + "/*" + body) == RStrip(Scrub(Scrub(body, "/*", true), "*/", false))
  {
    ScrubLeadingMarker(pad, "/*", body);
  }

  // A `//` line whose text holds no further `//`: exactly the text after the
  // marker, with trailing whitespace removed.
  lemma ParseSingleLineOf(pad: string, body: string)
    requires AllSpace(pad) && !Contains(body, "//")
    ensures ParseSingleLine(pad + "//" + body) == RStrip(body)
  {
    ScrubLeadingMarker(pad, "//", body);
  }

  lemma OpeningRemoved(pad: string, body: string)
    requires AllSpace(pad) && !Contains(body, "/*")
    requires body == [] || body[|body| - 1] != '/'
    ensures Scrub(pad + "/*" + body + "*/", "/*", true) == body + "*/"
  {
    var rest := body + "*/";
    assert pad + "/*" + body + "*/" == pad + "/*" + rest;
    ScrubLeadingMarker(pad, "/*", rest);
    NoOpeningBeforeClose(body);
  }

  lemma NoOpeningBeforeClose(body: string)
    requires !Contains(body, "/*")
    requires body == [] || body[|body| - 1] != '/'
    ensures !Contains(body + "*/", "/*")
  {
    var rest := body + "*/";
    forall i | 0 <= i <= |rest| - 2
      ensures !OccursAt(rest, "/*", i)
    {
      if i + 2 <= |body| {
        assert rest[i..i + 2] == body[i..i + 2];
        assert !OccursAt(body, "/*", i);
      } else if i == |body| - 1 {
        assert rest[i] == body[|body| - 1];
      } else {
        assert rest[i] == '*';
      }
    }
  }

  lemma ClosingRemoved(body: string)
    requires !Contains(body, "*/")
    ensures Scrub(body + "*/", "*/", false) == body
  {
    var rest := body + "*/";
    forall i | 0 <= i < |body|
      ensures !OccursAt(rest, "*/", i)
    {
      if i + 2 <= |body| {
        assert rest[i..i + 2] == body[i..i + 2];
        assert !OccursAt(body, "*/", i);
      } else {
        assert rest[i + 1] == '*';
        assert rest[i..i + 2][1] == '*';
        assert rest[i..i + 2] != "*/";
      }
    }
    ScrubTrailingMarker(body, "*/");
  }

  // A one-line `/* ... */` comment: the text between the markers, with
  // trailing whitespace removed, when the text holds no marker of its own.
  lemma ParseMultiLineOf(pad: string, body: string)
    requires AllSpace(pad) && !Contains(body, "/*") && !Contains(body, "*/")
    requires body == [] || body[|body| - 1] != '/'
    ensures ParseMultiLine(pad + "/*" + body + "*/") == RStrip(body)
  {
    OpeningRemoved(pad, body);
    ClosingRemoved(body);
  }

  // ---------------------------------------------------------------------
  // Normalisation of a block

  // Length of the run of `c` at the start of `s`.
  function LeadingRun(s: string, c: char): (n: nat)
    ensures n <= |s|
    ensures forall i :: 0 <= i < n ==> s[i] == c
    ensures n < |s| ==> s[n] != c
  {
    if s != [] && s[0] == c then 1 + LeadingRun(s[1..], c) else 0
  }

  // Length of a `\s*\*+` match at the start of `s`; 0 when there is none.
  function GutterLen(s: string): (n: nat)
    ensures n <= |s|
    ensures n > 0 <==> Indent(s) < |s| && s[Indent(s)] == '*'
  {
    var k := Indent(s);
    if k < |s| && s[k] == '*' then k + LeadingRun(s[k..], '*') else 0
  }

  // `re.search(r"^(\s*\*+)", block)`: the first non-whitespace character is a star.
  predicate HasGutter(block: string) {
    GutterLen(block) > 0
  }

  // `re.sub(r"^(\s*\*+)", "", s, flags=re.MULTILINE)`. `lineStart` says whether
  // the current position is the start of the text or follows a newline (where
  // `^` matches). The `\s*` of a match may run across newlines.
  function StripGutters(s: string, lineStart: bool): (r: string)
    ensures |r| <= |s|
    decreases |s|
  {
    if s == [] then []
    else if lineStart && GutterLen(s) > 0 then StripGutters(s[GutterLen(s)..], false)
    else [s[0]] + StripGutters(s[1..], s[0] == '\n')
  }

  // Index of the first line that is not blank, or `|lines|` when there is none.
  function FirstNonBlank(lines: seq<string>): (f: nat)
    ensures f <= |lines|
    ensures forall j :: 0 <= j < f ==> IsBlank(lines[j])
    ensures f < |lines| ==> !IsBlank(lines[f])
  {
    if lines == [] then 0
    else if !IsBlank(lines[0]) then 0
    else 1 + FirstNonBlank(lines[1..])
  }

  // One step of the unindent loop once `indent_size` is `w`.
  function UnindentLine(line: string, w: nat): string {
    if line == "" then ""
    else if 0 < w <= Indent(line) then line[w..]
    else line
  }

  // The lines after the unindent loop. Before the first non-blank line
  // `indent_size` is still `None`, and under Python 2 `None <= n` holds while
  // `None > 0` does not, so those lines are kept as they are.
  function Unindented(lines: seq<string>): (r: seq<string>)
    ensures |r| == |lines|
  {
    var f := FirstNonBlank(lines);
    seq(|lines|, i requires 0 <= i < |lines| =>
      if i < f then lines[i] else UnindentLine(lines[i], Indent(lines[f])))
  }

  // One pass of the unindent loop over line `i`, from the `indent_size`
  // the earlier lines left.
  lemma UnindentStep(lines: seq<string>, i: nat, size: Option<nat>)
    requires i < |lines|
    requires size.None? <==> i <= FirstNonBlank(lines)
    requires size.Some? ==> FirstNonBlank(lines) < |lines| && size.value == Indent(lines[FirstNonBlank(lines)])
    ensures var f := FirstNonBlank(lines);
      var line := lines[i];
      var next := if size.None? && !IsBlank(line) then Some(Indent(line)) else size;
      (next.None? <==> i + 1 <= f) &&
      (next.Some? ==> f < |lines| && next.value == Indent(lines[f])) &&
      Unindented(lines)[i] == if line != "" && next.Some? && next.value <= Indent(line) && next.value > 0 then line[next.value..] else line
  {
    var f := FirstNonBlank(lines);
    var r := Unindented(lines)[i];
    if i < f {
      assert IsBlank(lines[i]);
      assert r == lines[i];
    } else {
      assert r == UnindentLine(lines[i], Indent(lines[f]));
      if i == f {
        assert !IsBlank(lines[i]) && lines[i] != "";
      }
    }
  }

  // What the unindent loop does to each line: with `w` the indent of the first
  // non-blank line, a line from there on whose indent is at least `w > 0`
  // loses exactly its first `w` characters, all of them whitespace; empty
  // lines stay empty; every other line is unchanged.
  lemma UnindentedLines(lines: seq<string>, i: nat)
    requires i < |lines|
    ensures var f := FirstNonBlank(lines);
      var r := Unindented(lines)[i];
      if f <= i && 0 < Indent(lines[f]) <= Indent(lines[i]) then
        lines[i] == lines[i][..Indent(lines[f])] + r && AllSpace(lines[i][..Indent(lines[f])])
      else r == lines[i]
  {
    var f := FirstNonBlank(lines);
    UnindentedAt(lines, i);
    if f <= i && 0 < Indent(lines[f]) <= Indent(lines[i]) {
      IndentPrefix(lines[i], Indent(lines[f]));
    }
  }

  // Line `i` of the unindented block, read off the comprehension.
  lemma UnindentedAt(lines: seq<string>, i: nat)
    requires i < |lines|
    ensures var f := FirstNonBlank(lines);
      Unindented(lines)[i] == if i < f then lines[i] else UnindentLine(lines[i], Indent(lines[f]))
  {
  }

  // Up to its indent, a line is whitespace that can be cut off.
  lemma IndentPrefix(line: string, w: nat)
    requires 0 < w <= Indent(line)
    ensures UnindentLine(line, w) == line[w..]
    ensures line == line[..w] + line[w..] && AllSpace(line[..w])
  {
    AllSpacePrefix(line[..Indent(line)], w);
    assert line[..Indent(line)][..w] == line[..w];
    TakeDrop(line, w);
  }

  // The first non-blank line comes out with no indent at all.
  lemma FirstLineFlush(lines: seq<string>)
    requires FirstNonBlank(lines) < |lines|
    ensures Indent(Unindented(lines)[FirstNonBlank(lines)]) == 0
  {
    var f := FirstNonBlank(lines);
    var line := lines[f];
    var w := Indent(line);
    if 0 < w {
      IndentUnique(line[w..], 0);
    }
  }

  // `normalize`: star gutter, uniform indent, outer whitespace.
  function Normalized(block: string): (r: string)
    ensures IsTrimmed(r)
  {
    var text := if HasGutter(block) then StripGutters(block, true) else block;
    Strip(Join("\n", Unindented(Split(text, "\n"))))
  }

  method Normalize(textBlock: string) returns (r: string)
    ensures r == Normalized(textBlock)
  {
    var text := textBlock;
    if HasGutter(text) {
      text := StripGutters(text, true);
    }
    var indentSize: Option<nat> := None;
    var lines := Split(text, "\n");
    var unindented: seq<string> := [];
    ghost var f := FirstNonBlank(lines);
    ghost var expected := Unindented(lines);
    for i := 0 to |lines|
      invariant unindented == expected[..i]
      invariant indentSize.None? <==> i <= f
      invariant indentSize.Some? ==> f < |lines| && indentSize.value == Indent(lines[f])
    {
      ghost var old_size := indentSize;
      var line := lines[i];
      var precedingWhitespace := Indent(line);
      if indentSize.None? && !IsBlank(line) {
        indentSize := Some(precedingWhitespace);
      }
      if line != "" && indentSize.Some? && indentSize.value <= precedingWhitespace && indentSize.value > 0 {
        line := line[indentSize.value..];
      }
      UnindentStep(lines, i, old_size);
      TakeSnoc(expected, i);
      unindented := unindented + [line];
    }
    assert expected[..|lines|] == expected;
    r := Strip(Join("\n", unindented));
  }

  // ---------------------------------------------------------------------
  // The star gutter on a block whose every line is starred

  // A line `pad + "*" + body`: whitespace pad, one star, a body that does not go on with a star.
  predicate StarredLine(pad: string, body: string) {
    AllSpace(pad) && '\n' !in pad && '\n' !in body && (body == [] || body[0] != '*')
  }

  function Starred(pads: seq<string>, bodies: seq<string>): (lines: seq<string>)
    requires |pads| == |bodies|
    ensures |lines| == |pads|
  {
    seq(|pads|, i requires 0 <= i < |pads| => pads[i] + "*" + bodies[i])
  }

  // Copying a stretch without newlines never reaches a line start.
  lemma {:induction false} CopyWithoutNewline(x: string, y: string)
    requires '\n' !in x
    ensures StripGutters(x + y, false) == x + StripGutters(y, false)
    decreases |x|
  {
    if x != [] {
      assert (x + y)[1..] == x[1..] + y;
      CopyWithoutNewline(x[1..], y);
    } else {
      assert x + y == y;
    }
  }

  // One starred line, followed by whatever comes after it.
  lemma StarredLineStripped(pad: string, body: string, after: string)
    requires StarredLine(pad, body)
    requires after == [] || after[0] == '\n'
    ensures StripGutters(pad + "*" + body + after, true) == body + StripGutters(after, false)
  {
    var tail := body + after;
    assert pad + "*" + body + after == pad + "*" + tail;
    OneStarGutter(pad, tail);
    CopyWithoutNewline(body, after);
  }

  // A whitespace pad and one star not followed by another is the whole gutter.
  lemma OneStarGutter(pad: string, tail: string)
    requires AllSpace(pad) && (tail == [] || tail[0] != '*')
    ensures StripGutters(pad + "*" + tail, true) == StripGutters(tail, false)
  {
    var s := pad + "*" + tail;
    assert s[..|pad|] == pad;
    IndentUnique(s, |pad|);
    assert s[|pad|..] == "*" + tail;
    assert LeadingRun(s[|pad|..], '*') == 1 by {
      assert s[|pad|..][1..] == tail;
    }
    assert s[|pad| + 1..] == tail;
  }

  // When every line of a block is `pad + "*" + body`, the gutter regex removes
  // exactly each `pad + "*"` and nothing else.
  lemma {:induction false} StarGutterRoundTrip(pads: seq<string>, bodies: seq<string>)
    requires |pads| == |bodies| >= 1
    requires forall i :: 0 <= i < |pads| ==> StarredLine(pads[i], bodies[i])
    ensures StripGutters(Join("\n", Starred(pads, bodies)), true) == Join("\n", bodies)
    decreases |pads|
  {
    var lines := Starred(pads, bodies);
    if |pads| == 1 {
      StarredLineStripped(pads[0], bodies[0], "");
      assert pads[0] + "*" + bodies[0] + "" == lines[0];
    } else {
      StarredRest(pads, bodies);
      StarGutterRoundTrip(pads[1..], bodies[1..]);
      StarGutterFirstLine(pads, bodies);
    }
  }

  // One step of the round trip: if the gutters of the later lines come off
  // exactly, so do those of the whole block.
  lemma StarGutterFirstLine(pads: seq<string>, bodies: seq<string>)
    requires |pads| == |bodies| >= 2
    requires StarredLine(pads[0], bodies[0])
    requires StripGutters(Join("\n", Starred(pads[1..], bodies[1..])), true) == Join("\n", bodies[1..])
    ensures StripGutters(Join("\n", Starred(pads, bodies)), true) == Join("\n", bodies)
  {
    var rest := Join("\n", Starred(pads[1..], bodies[1..]));
    var tail := Join("\n", bodies[1..]);
    StarredJoinCons(pads, bodies);
    StarredLineStripped(pads[0], bodies[0], "\n" + rest);
    NewlineReachesLineStart(rest);
    assert StripGutters("\n" + rest, false) == "\n" + tail;
    JoinCons("\n", bodies[0], bodies[1..]);
    AppendAssoc(bodies[0], "\n", tail);
    assert [bodies[0]] + bodies[1..] == bodies;
  }

  // The lines after the first are starred lines too.
  lemma StarredRest(pads: seq<string>, bodies: seq<string>)
    requires |pads| == |bodies| >= 1
    requires forall i :: 0 <= i < |pads| ==> StarredLine(pads[i], bodies[i])
    ensures forall i :: 0 <= i < |pads| - 1 ==> StarredLine(pads[1..][i], bodies[1..][i])
  {
    forall i | 0 <= i < |pads| - 1 ensures StarredLine(pads[1..][i], bodies[1..][i]) {
      assert pads[1..][i] == pads[i + 1] && bodies[1..][i] == bodies[i + 1];
    }
  }

  // A block of several starred lines is its first line, a newline and the rest.
  lemma StarredJoinCons(pads: seq<string>, bodies: seq<string>)
    requires |pads| == |bodies| >= 2
    ensures Join("\n", Starred(pads, bodies)) == pads[0] + "*" + bodies[0] + ("\n" + Join("\n", Starred(pads[1..], bodies[1..])))
  {
    var lines := Starred(pads, bodies);
    var restLines := Starred(pads[1..], bodies[1..]);
    assert lines == [lines[0]] + restLines;
    JoinCons("\n", lines[0], restLines);
  }

  // A newline is copied and the next character is a line start.
  lemma NewlineReachesLineStart(rest: string)
    ensures StripGutters("\n" + rest, false) == "\n" + StripGutters(rest, true)
  {
    assert ("\n" + rest)[1..] == rest;
  }

  // ---------------------------------------------------------------------
  // The scan of `parse_blocks`

  // The loop variables of `parse_blocks`: `current_block`, the two flags and `blocks`.
  datatype ScanState = ScanState(block: string, inSingle: bool, inMulti: bool, blocks: seq<string>)

  const Start := ScanState("", false, false, [])

  // One iteration of the `parse_blocks` loop.
  function Step(st: ScanState, line: string): (r: ScanState)
    ensures st.blocks <= r.blocks && |r.blocks| <= |st.blocks| + 1
  {
    var single := IsSingleLineComment(line);
    var block1 :=
      if !single then st.block
      else if st.inSingle then st.block + "\n" + ParseSingleLine(line)
      else ParseSingleLine(line);
    var inSingle1 := st.inSingle || single;
    var multi := IsStartMultiLineComment(line) || st.inMulti;
    var block2 :=
      if !multi then block1
      else if st.inMulti then block1 + "\n" + ParseMultiLine(line)
      else ParseMultiLine(line);
    var inMulti2 := multi && !IsEndMultiLineComment(line);
    if single || inMulti2 then ScanState(block2, inSingle1, inMulti2, st.blocks)
    else ScanState("", false, inMulti2, st.blocks + (if block2 != "" then [Normalized(block2)] else []))
  }

  // The loop state after the given lines.
  function Scan(lines: seq<string>): ScanState {
    if lines == [] then Start else Step(Scan(lines[..|lines| - 1]), lines[|lines| - 1])
  }

  // `parse_blocks()`: the blocks of a source text.
  function ExtractedBlocks(source: string): seq<string> {
    Scan(Split(source, "\n")).blocks
  }

  // The text collected once a line's comment text is added, before the
  // flush test: the buffer extended by a `/*` region line, or left as it is.
  function CollectedNonSingle(st: ScanState, line: string): string {
    if st.inMulti || IsStartMultiLineComment(line) then
      (if st.inMulti then st.block + "\n" + ParseMultiLine(line) else ParseMultiLine(line))
    else st.block
  }

  // The flush: a line that is not a `//` line and leaves no `/*` region open
  // emits the normalised collected text exactly when that text is non-empty,
  // and resets the buffer and the `//` flag; any other line emits nothing.
  lemma StepFlush(st: ScanState, line: string)
    ensures var r := Step(st, line);
      IsSingleLineComment(line) || r.inMulti ==> r.blocks == st.blocks
    ensures var r := Step(st, line);
      var collected := CollectedNonSingle(st, line);
      !IsSingleLineComment(line) && !r.inMulti ==>
        && r.block == "" && !r.inSingle
        && r.blocks == st.blocks + (if collected != "" then [Normalized(collected)] else [])
  {
  }

  // Between blocks: neither a `//` run nor a `/*` region is open.
  predicate Idle(st: ScanState) {
    !st.inSingle && !st.inMulti
  }

  // An idle scan has an empty buffer.
  lemma IdleBufferEmpty(lines: seq<string>)
    requires Idle(Scan(lines))
    ensures Scan(lines).block == ""
  {
  }

  // The cleaned text of each line of a `//` run.
  function ParsedSingles(run: seq<string>): (r: seq<string>)
    ensures |r| == |run|
  {
    if run == [] then [] else ParsedSingles(run[..|run| - 1]) + [ParseSingleLine(run[|run| - 1])]
  }

  // A run of `//` lines started while idle collects their cleaned texts, one
  // per line, joined by newlines, and emits nothing yet.
  lemma {:induction false} SingleLineRunCollected(pre: seq<string>, run: seq<string>)
    requires Idle(Scan(pre))
    requires run != [] && forall k :: 0 <= k < |run| ==> IsSingleLineComment(run[k])
    ensures Scan(pre + run) == ScanState(Join("\n", ParsedSingles(run)), true, false, Scan(pre).blocks)
    decreases |run|
  {
    var n := |run| - 1;
    var last := run[n];
    var init := run[..n];
    AppendLast(pre, run);
    ScanSnoc(pre + init, last);
    ParsedSinglesSnoc(run);
    if n == 0 {
      assert pre + init == pre;
      IdleBufferEmpty(pre);
      FirstSingleLine(Scan(pre), last);
    } else {
      assert forall k :: 0 <= k < |init| ==> init[k] == run[k];
      SingleLineRunCollected(pre, init);
      NextSingleLine(Scan(pre + init), last);
      JoinSnoc("\n", ParsedSingles(init), ParseSingleLine(last));
    }
  }

  lemma ParsedSinglesSnoc(run: seq<string>)
    requires run != []
    ensures ParsedSingles(run) == ParsedSingles(run[..|run| - 1]) + [ParseSingleLine(run[|run| - 1])]
    ensures |run| == 1 ==> Join("\n", ParsedSingles(run)) == ParseSingleLine(run[0])
  {
    if |run| == 1 {
      assert run[..0] == [];
    }
  }


  // The first `//` line of a run, while idle, starts the buffer.
  lemma FirstSingleLine(st: ScanState, line: string)
    requires Idle(st) && st.block == "" && IsSingleLineComment(line)
    ensures Step(st, line) == ScanState(ParseSingleLine(line), true, false, st.blocks)
  {
    SingleLineCollected(st, line);
  }

  // A further `//` line of a run extends the buffer after a newline.
  lemma NextSingleLine(st: ScanState, line: string)
    requires st.inSingle && !st.inMulti && IsSingleLineComment(line)
    ensures Step(st, line) == ScanState(st.block + "\n" + ParseSingleLine(line), true, false, st.blocks)
  {
    SingleLineCollected(st, line);
  }

  // A run of `//` lines ended by a line that is neither a `//` line nor
  // opens a `/*` region is emitted as one block: the normalised join of the
  // run's cleaned texts, unless that is empty. The scan is idle afterwards.
  lemma SingleLineRunEmitted(pre: seq<string>, run: seq<string>, line: string)
    requires Idle(Scan(pre))
    requires run != [] && forall k :: 0 <= k < |run| ==> IsSingleLineComment(run[k])
    requires !IsSingleLineComment(line) && !IsStartMultiLineComment(line)
    ensures var text := Join("\n", ParsedSingles(run));
      Scan(pre + run + [line]) == ScanState("", false, false, Scan(pre).blocks + (if text != "" then [Normalized(text)] else []))
  {
    SingleLineRunCollected(pre, run);
    ScanSnoc(pre + run, line);
    StepFlush(Scan(pre + run), line);
  }

  // A `/*` region spread over several lines: an opening line that does not
  // close it, then lines that neither close it nor are `//` lines.
  predicate OpenRegion(region: seq<string>) {
    && region != []
    && IsStartMultiLineComment(region[0]) && !IsEndMultiLineComment(region[0])
    && forall k :: 1 <= k < |region| ==> !IsSingleLineComment(region[k]) && !IsEndMultiLineComment(region[k])
  }

  // The cleaned text of each line of a `/*` region.
  function ParsedMultis(region: seq<string>): (r: seq<string>)
    ensures |r| == |region|
  {
    if region == [] then [] else ParsedMultis(region[..|region| - 1]) + [ParseMultiLine(region[|region| - 1])]
  }

  lemma ParsedMultisSnoc(region: seq<string>)
    requires region != []
    ensures ParsedMultis(region) == ParsedMultis(region[..|region| - 1]) + [ParseMultiLine(region[|region| - 1])]
    ensures |region| == 1 ==> Join("\n", ParsedMultis(region)) == ParseMultiLine(region[0])
  {
    if |region| == 1 {
      assert region[..0] == [];
    }
  }


  // The opening line of a region, while idle, starts the buffer afresh.
  lemma FirstRegionLine(st: ScanState, line: string)
    requires Idle(st) && st.block == ""
    requires IsStartMultiLineComment(line) && !IsEndMultiLineComment(line)
    ensures Step(st, line) == ScanState(ParseMultiLine(line), false, true, st.blocks)
  {
    ClassifiersExclusive(line);
  }

  // A line inside a region that neither closes it nor is a `//` line extends
  // the buffer after a newline and keeps the region open.
  lemma NextRegionLine(st: ScanState, line: string)
    requires st.inMulti && !st.inSingle
    requires !IsSingleLineComment(line) && !IsEndMultiLineComment(line)
    ensures Step(st, line) == ScanState(st.block + "\n" + ParseMultiLine(line), false, true, st.blocks)
  {
  }

  // The closing line of a region adds its text, then the whole region is
  // emitted as one normalised block, unless its text is empty.
  lemma LastRegionLine(st: ScanState, line: string)
    requires st.inMulti && !st.inSingle
    requires !IsSingleLineComment(line) && IsEndMultiLineComment(line)
    ensures var text := st.block + "\n" + ParseMultiLine(line);
      Step(st, line) == ScanState("", false, false, st.blocks + (if text != "" then [Normalized(text)] else []))
  {
  }

  // A region opened while idle collects the cleaned texts of its lines, one
  // per line, joined by newlines, and emits nothing while it stays open.
  lemma {:induction false} MultiLineRegionCollected(pre: seq<string>, region: seq<string>)
    requires Idle(Scan(pre)) && OpenRegion(region)
    ensures Scan(pre + region) == ScanState(Join("\n", ParsedMultis(region)), false, true, Scan(pre).blocks)
    decreases |region|
  {
    var n := |region| - 1;
    var last := region[n];
    var init := region[..n];
    AppendLast(pre, region);
    ScanSnoc(pre + init, last);
    ParsedMultisSnoc(region);
    if n == 0 {
      assert pre + init == pre;
      IdleBufferEmpty(pre);
      FirstRegionLine(Scan(pre), last);
    } else {
      assert forall k :: 0 <= k < |init| ==> init[k] == region[k];
      MultiLineRegionCollected(pre, init);
      NextRegionLine(Scan(pre + init), last);
      JoinSnoc("\n", ParsedMultis(init), ParseMultiLine(last));
    }
  }

  // A block comment over several lines is emitted, on its closing line, as
  // exactly one block: the normalised join of all its lines' cleaned texts,
  // unless that is empty. The scan is idle afterwards.
  lemma MultiLineRegionEmitted(pre: seq<string>, region: seq<string>, close: string)
    requires Idle(Scan(pre)) && OpenRegion(region)
    requires !IsSingleLineComment(close) && IsEndMultiLineComment(close)
    ensures var text := Join("\n", ParsedMultis(region + [close]));
      Scan(pre + region + [close]) == ScanState("", false, false, Scan(pre).blocks + (if text != "" then [Normalized(text)] else []))
  {
    MultiLineRegionCollected(pre, region);
    ScanSnoc(pre + region, close);
    LastRegionLine(Scan(pre + region), close);
    var all := region + [close];
    assert all[..|region|] == region && all[|region|] == close;
    ParsedMultisSnoc(all);
    JoinSnoc("\n", ParsedMultis(region), ParseMultiLine(close));
  }

  // A `//` line inside an open region restarts the buffer with its own text
  // (the region's earlier lines are dropped), then adds its text again as a
  // region line; nothing is emitted on it, even when it closes the region.
  lemma SingleLineInRegion(st: ScanState, line: string)
    requires st.inMulti && !st.inSingle && IsSingleLineComment(line)
    ensures Step(st, line) ==
      ScanState(ParseSingleLine(line) + "\n" + ParseMultiLine(line), true, !IsEndMultiLineComment(line), st.blocks)
  {
  }

  // A line opening a region right after a `//` run drops the run's text: the
  // buffer restarts with the region line, and the `//` flag stays set while
  // the region is open. A region closed on the same line is emitted alone.
  lemma RegionOpensOverSingleRun(st: ScanState, line: string)
    requires st.inSingle && !st.inMulti && IsStartMultiLineComment(line)
    ensures var r := Step(st, line);
      if IsEndMultiLineComment(line) then
        r == ScanState("", false, false, st.blocks + (if ParseMultiLine(line) != "" then [Normalized(ParseMultiLine(line))] else []))
      else
        r == ScanState(ParseMultiLine(line), true, true, st.blocks)
  {
    ClassifiersExclusive(line);
  }

  // A `/* ... */` on one line, outside an open region, is emitted on that line.
  lemma SameLineBlockComment(st: ScanState, line: string)
    requires !st.inMulti
    requires IsStartMultiLineComment(line) && IsEndMultiLineComment(line)
    ensures var r := Step(st, line);
      && !r.inMulti && r.block == "" && !r.inSingle
      && r.blocks == st.blocks + (if ParseMultiLine(line) != "" then [Normalized(ParseMultiLine(line))] else [])
  {
    ClassifiersExclusive(line);
  }

  // A `//` line outside a `/*` region is collected as a line comment, with any
  // `/*` or `*/` in it left in the text, and emits nothing.
  lemma SingleLineCollected(st: ScanState, line: string)
    requires !st.inMulti && IsSingleLineComment(line)
    ensures var r := Step(st, line);
      && r.block == (if st.inSingle then st.block + "\n" else "") + ParseSingleLine(line)
      && r.inSingle && !r.inMulti && r.blocks == st.blocks
  {
    ClassifiersExclusive(line);
  }

  // Blocks already emitted stay, in order: later lines only append.
  lemma {:induction false} ScanKeepsEarlierBlocks(a: seq<string>, b: seq<string>)
    ensures Scan(a).blocks <= Scan(a + b).blocks
    decreases |b|
  {
    if b == [] {
      assert a + b == a;
    } else {
      ScanKeepsEarlierBlocks(a, b[..|b| - 1]);
      ScanAppendLast(a, b);
    }
  }

  // Every emitted block has no leading or trailing whitespace.
  lemma {:induction false} ScanBlocksTrimmed(lines: seq<string>)
    ensures forall i :: 0 <= i < |Scan(lines).blocks| ==> IsTrimmed(Scan(lines).blocks[i])
    decreases |lines|
  {
    if lines != [] {
      ScanBlocksTrimmed(lines[..|lines| - 1]);
    }
  }

  // Once a `/*` region is open, lines without an end marker emit nothing and
  // leave it open; a region still open at the end of the text is never emitted.
  lemma {:induction false} OpenRegionNotEmitted(pre: seq<string>, rest: seq<string>)
    requires Scan(pre).inMulti
    requires forall k :: 0 <= k < |rest| ==> !IsEndMultiLineComment(rest[k])
    ensures Scan(pre + rest).inMulti && Scan(pre + rest).blocks == Scan(pre).blocks
    decreases |rest|
  {
    if rest == [] {
      assert pre + rest == pre;
    } else {
      var rest' := rest[..|rest| - 1];
      OpenRegionNotEmitted(pre, rest');
      ScanAppendLast(pre, rest);
      StepInOpenRegion(Scan(pre + rest'), rest[|rest| - 1]);
    }
  }

  // One more line is one more step.
  lemma ScanSnoc(lines: seq<string>, line: string)
    ensures Scan(lines + [line]) == Step(Scan(lines), line)
  {
    assert (lines + [line])[..|lines|] == lines;
  }

  // The scan of `a + b` is one step past the scan of all but the last line.
  lemma ScanAppendLast(a: seq<string>, b: seq<string>)
    requires b != []
    ensures Scan(a + b) == Step(Scan(a + b[..|b| - 1]), b[|b| - 1])
  {
    AppendLast(a, b);
    ScanSnoc(a + b[..|b| - 1], b[|b| - 1]);
  }

  // Inside an open `/*` region, a line without an end marker keeps the region
  // open and emits nothing.
  lemma StepInOpenRegion(st: ScanState, line: string)
    requires st.inMulti && !IsEndMultiLineComment(line)
    ensures Step(st, line).inMulti && Step(st, line).blocks == st.blocks
  {
  }

  // ---------------------------------------------------------------------
  // The parser object and its memo

  class CommentParser {
    const name: string
    const source: string
    var memo: Option<seq<string>>

    ghost predicate Valid()
      reads this
    {
      memo.Some? ==> memo.value == ExtractedBlocks(source)
    }

    constructor (source: string, name: Option<string>)
      ensures Valid() && memo == None && this.source == source
      ensures this.name == if name.Some? then name.value else "<not specified>"
    {
      this.name := if name.Some? then name.value else "<not specified>";
      this.source := source;
      memo := None;
    }

    // `blocks()`: parses on the first call only; every call returns the same list.
    method Blocks() returns (r: seq<string>)
      requires Valid()
      modifies this
      ensures Valid() && memo == Some(r)
      ensures r == ExtractedBlocks(source)
      ensures old(memo).Some? ==> r == old(memo).value
    {
      if memo.None? {
        var parsed := ParseBlocks();
        memo := Some(parsed);
      }
      r := memo.value;
    }

    // `parse_blocks()`
    method ParseBlocks() returns (blocks: seq<string>)
      ensures blocks == ExtractedBlocks(source)
      ensures forall i :: 0 <= i < |blocks| ==> IsTrimmed(blocks[i])
    {
      var currentBlock := "";
      var insideSingleLineBlock := false;
      var insideMultiLineBlock := false;
      blocks := [];
      var lines := Split(source, "\n");
      for i := 0 to |lines|
        invariant ScanState(currentBlock, insideSingleLineBlock, insideMultiLineBlock, blocks) == Scan(lines[..i])
      {
        var line := lines[i];
        assert lines[..i + 1][..i] == lines[..i];
        if IsSingleLineComment(line) {
          var parsed := ParseSingleLine(line);
          if insideSingleLineBlock {
            currentBlock := currentBlock + "\n" + parsed;
          } else {
            currentBlock := parsed;
            insideSingleLineBlock := true;
          }
        }
        if IsStartMultiLineComment(line) || insideMultiLineBlock {
          var parsed := ParseMultiLine(line);
          if insideMultiLineBlock {
            currentBlock := currentBlock + "\n" + parsed;
          } else {
            currentBlock := parsed;
            insideMultiLineBlock := true;
          }
        }
        if IsEndMultiLineComment(line) {
          insideMultiLineBlock := false;
        }
        if !(IsSingleLineComment(line) || insideMultiLineBlock) {
          if currentBlock != "" {
            var normalized := Normalize(currentBlock);
            blocks := blocks + [normalized];
          }
          insideSingleLineBlock := false;
          currentBlock := "";
        }
      }
      assert lines[..|lines|] == lines;
      ScanBlocksTrimmed(lines);
    }
  }
}
