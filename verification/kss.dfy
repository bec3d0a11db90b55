// The KSS doc-block parser: the test for a `Styleguide <position>` declarator
// and the pipeline that splits a comment block into paragraphs and takes out,
// in turn, the position, the template, the modifiers, the title and the
// description.
module Kss {
  import opened Text
  import opened Models

  // The two renderers the parser calls into: a Django template rendered with
  // `modifier` bound to the given value, and reStructuredText turned into the
  // body of an HTML page. Neither is modelled; the parser is generic in both.
  datatype Renderers = Renderers(template: (string, string) -> string, rst: string -> string)

  // The ways `parse_section` fails: a modifier line with more than one
  // ` - ` (the two-value unpack), no block left for the title (the index
  // into an empty list), and no declarator line (`rstrip` on `None`).
  datatype ParseError = UnpackError(line: string) | MissingTitle | MissingPosition

  // ---------------------------------------------------------------------
  // The declarator `Styleguide (\S+)`

  const Keyword := "Styleguide "

  // A match of `Styleguide (\S+)` starts at `i`: the keyword and at least
  // one non-whitespace character after it.
  predicate DeclaratorAt(s: string, i: int) {
    OccursAt(s, Keyword, i) && i + |Keyword| < |s| && !IsSpace(s[i + |Keyword|])
  }

  predicate HasDeclarator(s: string) {
    exists i | 0 <= i < |s| :: DeclaratorAt(s, i)
  }

  // The leftmost match at or after `from`, or -1: where `re.search` finds it.
  function FindDeclarator(s: string, from: nat): (r: int)
    ensures r == -1 || (from <= r < |s| && DeclaratorAt(s, r))
    ensures forall j :: from <= j < (if r < 0 then |s| else r) ==> !DeclaratorAt(s, j)
    decreases |s| - from
  {
    if from >= |s| then -1
    else if DeclaratorAt(s, from) then from
    else FindDeclarator(s, from + 1)
  }

  // `is_valid_section()`
  predicate IsValidSection(content: string) {
    FindDeclarator(content, 0) >= 0
  }

  // A block is valid exactly when a declarator occurs somewhere in it; the
  // empty block is not valid.
  lemma IsValidSectionMeaning(content: string)
    ensures IsValidSection(content) <==> HasDeclarator(content)
    ensures !IsValidSection("")
  {
  }

  // Length of the `\S+` run at the start of `s`.
  function WordLen(s: string): (n: nat)
    ensures n <= |s|
    ensures forall j :: 0 <= j < n ==> !IsSpace(s[j])
    ensures n < |s| ==> IsSpace(s[n])
  {
    if s != [] && !IsSpace(s[0]) then 1 + WordLen(s[1..]) else 0
  }

  // `styleguide_position_re.search(s)` and its `group(1)`: the token after
  // the leftmost declarator, or None.
  function SearchDeclarator(s: string): (r: Option<string>)
    ensures r.None? <==> !HasDeclarator(s)
    ensures r.Some? ==> r.value != [] && Contains(s, Keyword + r.value)
    ensures r.Some? ==> forall j :: 0 <= j < |r.value| ==> !IsSpace(r.value[j])
    ensures r.Some? ==> var i := FindDeclarator(s, 0); var end := i + |Keyword| + |r.value|;
      0 <= i && end <= |s| && s[i..end] == Keyword + r.value && (end == |s| || IsSpace(s[end]))
  {
    var i := FindDeclarator(s, 0);
    if i < 0 then None
    else
      var start := i + |Keyword|;
      var n := WordLen(s[start..]);
      var token := s[start..start + n];
      assert s[i..start + n] == Keyword + token;
      assert OccursAt(s, Keyword + token, i);
      Some(token)
  }

  // A declarator inside a slice is a declarator of the whole string.
  lemma DeclaratorWidens(s: string, a: nat, b: nat)
    requires a <= b <= |s| && HasDeclarator(s[a..b])
    ensures HasDeclarator(s)
  {
    var i :| 0 <= i < b - a && DeclaratorAt(s[a..b], i);
    SliceOfSlice(s, a, b, i, i + |Keyword|);
    assert DeclaratorAt(s, a + i);
  }

  // A declarator that lies inside a slice is a declarator of the slice.
  lemma DeclaratorNarrows(s: string, a: nat, b: nat, j: nat)
    requires a <= j && j + |Keyword| < b <= |s| && DeclaratorAt(s, j)
    ensures DeclaratorAt(s[a..b], j - a)
  {
    SliceOfSlice(s, a, b, j - a, j - a + |Keyword|);
  }

  lemma SliceOfSlice(s: string, a: nat, b: nat, c: nat, d: nat)
    requires a <= b <= |s| && c <= d <= b - a
    ensures s[a..b][c..d] == s[a + c..a + d]
  {
    forall t | 0 <= t < d - c ensures s[a..b][c..d][t] == s[a + c..a + d][t] {
    }
  }

  // A newline lies before or after a declarator, never inside it.
  lemma NewlineOutside(s: string, i: nat, j: nat)
    requires i < |s| && s[i] == '\n' && DeclaratorAt(s, j)
    ensures j + |Keyword| < i || i < j
  {
    forall t | j <= t < j + |Keyword| ensures s[t] != '\n' {
      assert s[t] == s[j..j + |Keyword|][t - j];
    }
  }

  // A declarator in one of the pieces is a declarator of their join.
  lemma {:induction false} DeclaratorInJoin(sep: string, parts: seq<string>, k: nat)
    requires k < |parts| && HasDeclarator(parts[k])
    ensures HasDeclarator(Join(sep, parts))
  {
    var s := Join(sep, parts);
    if |parts| > 1 {
      var rest := Join(sep, parts[1..]);
      assert s == parts[0] + sep + rest;
      if k == 0 {
        assert s[..|parts[0]|] == parts[0];
        DeclaratorWidens(s, 0, |parts[0]|);
      } else {
        DeclaratorInJoin(sep, parts[1..], k - 1);
        assert s[|parts[0]| + |sep|..|s|] == rest;
        DeclaratorWidens(s, |parts[0]| + |sep|, |s|);
      }
    }
  }

  // A declarator of a text lies on one of its lines.
  lemma {:induction false} DeclaratorOnSomeLine(s: string) returns (k: nat)
    requires HasDeclarator(s)
    ensures k < |Split(s, "\n")| && HasDeclarator(Split(s, "\n")[k])
    decreases |s|
  {
    var i := IndexOf(s, "\n");
    if i < 0 {
      SplitWithoutNewline(s);
      k := 0;
    } else {
      var j :| 0 <= j < |s| && DeclaratorAt(s, j);
      SplitAtFirstNewline(s);
      var before := DeclaratorBeforeNewline(s, i, j);
      if before {
        DeclaratorOnFirstLine(s, i, j);
        k := 0;
      } else {
        var r := DeclaratorOnSomeLine(s[i + 1..]);
        DeclaratorOnLaterLine(s, i, r);
        k := r + 1;
      }
    }
  }

  lemma SplitWithoutNewline(s: string)
    requires IndexOf(s, "\n") < 0
    ensures Split(s, "\n") == [s]
  {
  }

  // Whether the declarator at `j` ends before the newline at `i`; when it
  // does not, it lies wholly after that newline.
  lemma DeclaratorBeforeNewline(s: string, i: nat, j: nat) returns (before: bool)
    requires i < |s| && s[i] == '\n' && DeclaratorAt(s, j)
    ensures before == (j + |Keyword| < i)
    ensures !before ==> HasDeclarator(s[i + 1..])
  {
    NewlineOutside(s, i, j);
    before := j + |Keyword| < i;
    if !before {
      LineAfterNewline(s, i, j);
    }
  }

  lemma DeclaratorOnFirstLine(s: string, i: nat, j: nat)
    requires i < |s| && Split(s, "\n") == [s[..i]] + Split(s[i + 1..], "\n")
    requires DeclaratorAt(s, j) && j + |Keyword| < i
    ensures HasDeclarator(Split(s, "\n")[0])
  {
    DeclaratorNarrows(s, 0, i, j);
    assert s[0..i] == s[..i];
  }

  lemma DeclaratorOnLaterLine(s: string, i: nat, r: nat)
    requires i < |s| && Split(s, "\n") == [s[..i]] + Split(s[i + 1..], "\n")
    requires r < |Split(s[i + 1..], "\n")| && HasDeclarator(Split(s[i + 1..], "\n")[r])
    ensures r + 1 < |Split(s, "\n")| && HasDeclarator(Split(s, "\n")[r + 1])
  {
    var restLines := Split(s[i + 1..], "\n");
    assert Split(s, "\n")[r + 1] == restLines[r];
  }

  lemma SplitAtFirstNewline(s: string)
    requires IndexOf(s, "\n") >= 0
    ensures var i := IndexOf(s, "\n");
      s[i] == '\n' && Split(s, "\n") == [s[..i]] + Split(s[i + 1..], "\n")
  {
    var i := IndexOf(s, "\n");
    assert s[i..i + 1][0] == s[i];
  }

  lemma LineAfterNewline(s: string, i: nat, j: nat)
    requires i < j && DeclaratorAt(s, j)
    ensures HasDeclarator(s[i + 1..])
  {
    DeclaratorNarrows(s, i + 1, |s|, j);
    assert s[i + 1..|s|] == s[i + 1..];
  }

  // A declarator of one of the lines is a declarator of the text.
  lemma DeclaratorFromLine(s: string, sep: string, k: nat)
    requires sep != [] && k < |Split(s, sep)| && HasDeclarator(Split(s, sep)[k])
    ensures HasDeclarator(s)
  {
    DeclaratorInJoin(sep, Split(s, sep), k);
    JoinSplit(s, sep);
  }

  // `strip()` keeps every declarator and makes none.
  lemma DeclaratorStrip(s: string)
    ensures HasDeclarator(Strip(s)) <==> HasDeclarator(s)
  {
    var r := RStrip(s);
    StripSlice(s);
    if HasDeclarator(Strip(s)) {
      DeclaratorWidens(s, Indent(r), |r|);
    }
    if HasDeclarator(s) {
      var j :| 0 <= j < |s| && DeclaratorAt(s, j);
      DeclaratorKeptByStrip(s, j);
    }
  }

  lemma DeclaratorKeptByStrip(s: string, j: nat)
    requires j < |s| && DeclaratorAt(s, j)
    ensures HasDeclarator(Strip(s))
  {
    var r := RStrip(s);
    StripSlice(s);
    RStripBound(s, j + |Keyword|);
    assert s[j] == Keyword[0];
    PrefixTake(r, s, j);
    IndentBound(r, j);
    DeclaratorNarrows(s, Indent(r), |r|, j);
  }

  // ---------------------------------------------------------------------
  // `_trim_leading_spaces`

  // The starting value of `max_indent`.
  const IndentCap: nat := 9999

  // `max_indent` after the first loop: the least indent of a non-blank line,
  // or the starting value when that is smaller.
  function MinIndent(lines: seq<string>): (m: nat)
    ensures m <= IndentCap
  {
    if lines == [] then IndentCap
    else
      var m := MinIndent(lines[..|lines| - 1]);
      var last := lines[|lines| - 1];
      if !IsBlank(last) && Indent(last) < m then Indent(last) else m
  }

  // The common indent is at most every non-blank line's indent, and it is
  // one of them unless it is still the starting value; the witness is
  // returned as `w`.
  lemma {:induction false} MinIndentBounds(lines: seq<string>) returns (w: nat)
    ensures forall k :: 0 <= k < |lines| && !IsBlank(lines[k]) ==> MinIndent(lines) <= Indent(lines[k])
    ensures MinIndent(lines) == IndentCap || (w < |lines| && !IsBlank(lines[w]) && MinIndent(lines) == Indent(lines[w]))
  {
    w := 0;
    if lines != [] {
      var init := lines[..|lines| - 1];
      var last := lines[|lines| - 1];
      w := MinIndentBounds(init);
      assert forall k :: 0 <= k < |init| ==> init[k] == lines[k];
      if !IsBlank(last) && Indent(last) < MinIndent(init) {
        w := |lines| - 1;
      }
    }
  }

  // One line of the second loop: `line[max_indent:]` for a non-blank line, and
  // `""` for a blank one.
  function TrimLine(line: string, m: nat): string {
    if IsBlank(line) then "" else if m <= |line| then line[m..] else ""
  }

  function TrimmedLines(lines: seq<string>): (r: seq<string>)
    ensures |r| == |lines|
  {
    var m := MinIndent(lines);
    seq(|lines|, k requires 0 <= k < |lines| => TrimLine(lines[k], m))
  }

  // The text `_trim_leading_spaces` returns.
  function Trimmed(text: string): string {
    Join("\n", TrimmedLines(Split(text, "\n")))
  }

  method TrimLeadingSpaces(text: string) returns (r: string)
    ensures r == Trimmed(text)
  {
    var lines := Split(text, "\n");
    var maxIndent := IndentCap;
    for i := 0 to |lines|
      invariant maxIndent == MinIndent(lines[..i])
    {
      MinIndentStep(lines, i);
      var line := lines[i];
      if !IsBlank(line) {
        maxIndent := if Indent(line) < maxIndent then Indent(line) else maxIndent;
      }
    }
    assert lines[..|lines|] == lines;
    var out: seq<string> := [];
    for i := 0 to |lines|
      invariant |out| == i
      invariant forall k :: 0 <= k < i ==> out[k] == TrimLine(lines[k], maxIndent)
    {
      var line := lines[i];
      var trimmed := "";
      if !IsBlank(line) {
        trimmed := if maxIndent <= |line| then line[maxIndent..] else "";
      }
      assert trimmed == TrimLine(lines[i], maxIndent);
      out := out + [trimmed];
    }
    TrimmedLinesAre(lines, out);
    r := Join("\n", out);
  }

  lemma TrimmedLinesAre(lines: seq<string>, out: seq<string>)
    requires |out| == |lines|
    requires forall k :: 0 <= k < |lines| ==> out[k] == TrimLine(lines[k], MinIndent(lines))
    ensures out == TrimmedLines(lines)
  {
  }

  lemma MinIndentStep(lines: seq<string>, i: nat)
    requires i < |lines|
    ensures var m := MinIndent(lines[..i]);
      MinIndent(lines[..i + 1]) == if !IsBlank(lines[i]) && Indent(lines[i]) < m then Indent(lines[i]) else m
  {
    assert lines[..i + 1][..i] == lines[..i];
  }

  // What happens to each line: a blank line becomes empty, and a non-blank
  // line loses the same number of leading characters as every other, all of
  // them whitespace.
  lemma TrimmedLineShape(lines: seq<string>, k: nat)
    requires k < |lines|
    ensures var m := MinIndent(lines);
      var r := TrimmedLines(lines)[k];
      if IsBlank(lines[k]) then r == ""
      else m <= Indent(lines[k]) && lines[k] == lines[k][..m] + r && AllSpace(lines[k][..m]) && !IsBlank(r)
  {
    var m := MinIndent(lines);
    var _ := MinIndentBounds(lines);
    assert TrimmedLines(lines)[k] == TrimLine(lines[k], m);
    if !IsBlank(lines[k]) {
      TrimLineShape(lines[k], m);
    }
  }

  lemma TrimLineShape(line: string, m: nat)
    requires !IsBlank(line) && m <= Indent(line)
    ensures line == line[..m] + TrimLine(line, m) && AllSpace(line[..m]) && !IsBlank(TrimLine(line, m))
  {
    var w := Indent(line);
    var r := line[m..];
    assert TrimLine(line, m) == r;
    AllSpacePrefix(line[..w], m);
    assert line[..w][..m] == line[..m];
    assert r[w - m] == line[w];
    assert line == line[..m] + r;
  }

  // Unless every non-blank line is indented past the starting cap, some
  // non-blank line comes out flush.
  lemma TrimmedSomeLineFlush(lines: seq<string>, j: nat)
    requires j < |lines| && !IsBlank(lines[j]) && Indent(lines[j]) <= IndentCap
    ensures exists k | 0 <= k < |lines| :: !IsBlank(TrimmedLines(lines)[k]) && Indent(TrimmedLines(lines)[k]) == 0
  {
    var m := MinIndent(lines);
    var k := MinIndentBounds(lines);
    if m == IndentCap {
      k := j;
    }
    TrimmedLineShape(lines, k);
    var line := lines[k];
    assert TrimmedLines(lines)[k] == line[m..];
    IndentUnique(line[m..], 0);
  }

  // `_trim_leading_spaces` keeps every declarator and makes none.
  lemma DeclaratorTrim(text: string)
    ensures HasDeclarator(Trimmed(text)) <==> HasDeclarator(text)
  {
    if HasDeclarator(text) {
      DeclaratorSurvivesTrim(text);
    }
    if HasDeclarator(Trimmed(text)) {
      DeclaratorBeforeTrim(text);
    }
  }

  lemma DeclaratorSurvivesTrim(text: string)
    requires HasDeclarator(text)
    ensures HasDeclarator(Trimmed(text))
  {
    var lines := Split(text, "\n");
    var k := DeclaratorOnSomeLine(text);
    DeclaratorSurvivesTrimLine(lines, k);
    DeclaratorInJoin("\n", TrimmedLines(lines), k);
  }

  lemma DeclaratorSurvivesTrimLine(lines: seq<string>, k: nat)
    requires k < |lines| && HasDeclarator(lines[k])
    ensures HasDeclarator(TrimmedLines(lines)[k])
  {
    var m := MinIndent(lines);
    var _ := MinIndentBounds(lines);
    var line := lines[k];
    var j :| 0 <= j < |line| && DeclaratorAt(line, j);
    assert line[j] == Keyword[0];
    IndentBound(line, j);
    assert TrimmedLines(lines)[k] == line[m..|line|];
    DeclaratorNarrows(line, m, |line|, j);
  }

  lemma DeclaratorBeforeTrim(text: string)
    requires HasDeclarator(Trimmed(text))
    ensures HasDeclarator(text)
  {
    var lines := Split(text, "\n");
    var trimmed := TrimmedLines(lines);
    SplitLinesNoNewline(text);
    TrimmedLinesOneLine(lines);
    SplitJoinChar(trimmed, '\n');
    var k := DeclaratorOnSomeLine(Trimmed(text));
    DeclaratorBeforeTrimLine(lines, k);
    DeclaratorFromLine(text, "\n", k);
  }

  lemma DeclaratorBeforeTrimLine(lines: seq<string>, k: nat)
    requires k < |lines| && HasDeclarator(TrimmedLines(lines)[k])
    ensures HasDeclarator(lines[k])
  {
    var m := MinIndent(lines);
    var line := lines[k];
    assert TrimmedLines(lines)[k] == line[m..|line|];
    DeclaratorWidens(line, m, |line|);
  }

  lemma TrimmedLinesOneLine(lines: seq<string>)
    ensures forall k :: 0 <= k < |lines| && '\n' !in lines[k] ==> '\n' !in TrimmedLines(lines)[k]
  {
    var m := MinIndent(lines);
    forall k | 0 <= k < |lines| && '\n' !in lines[k] ensures '\n' !in TrimmedLines(lines)[k] {
      var line := lines[k];
      if !IsBlank(line) && m <= |line| {
        forall t | 0 <= t < |line| - m ensures line[m..][t] != '\n' {
          assert line[m..][t] == line[m + t];
        }
      }
    }
  }

  // ---------------------------------------------------------------------
  // `_parse_position`

  predicate NoDeclarator(line: string) {
    SearchDeclarator(line).None?
  }

  // Index of the last line that holds a declarator, or -1.
  function LastDeclaratorLine(lines: seq<string>): (i: int)
    ensures -1 <= i < |lines|
    ensures i >= 0 ==> HasDeclarator(lines[i])
    ensures forall j :: i < j < |lines| ==> !HasDeclarator(lines[j])
  {
    if lines == [] then -1
    else
      var n := |lines| - 1;
      if HasDeclarator(lines[n]) then n
      else
        var init := lines[..n];
        assert forall j :: 0 <= j < n ==> init[j] == lines[j];
        LastDeclaratorLine(init)
  }

  // The value `position` ends with: the token of the last line that holds a
  // declarator, or None when no line does.
  function LastToken(lines: seq<string>): (r: Option<string>)
    ensures r.None? <==> forall k :: 0 <= k < |lines| ==> !HasDeclarator(lines[k])
    ensures r.Some? ==> r.value != []
    ensures LastDeclaratorLine(lines) >= 0 ==> r == SearchDeclarator(lines[LastDeclaratorLine(lines)])
  {
    var i := LastDeclaratorLine(lines);
    if i < 0 then None else SearchDeclarator(lines[i])
  }

  // The lines of the blocks, the blocks made of the lines with no declarator,
  // and the position.
  function PositionLines(blocks: seq<string>): seq<string> {
    Split(Join("\n\n", blocks), "\n")
  }

  function ParsedPosition(blocks: seq<string>): (seq<string>, Option<string>) {
    var lines := PositionLines(blocks);
    (Split(Join("\n", Filter(lines, NoDeclarator)), "\n\n"), LastToken(lines))
  }

  method ParsePosition(blocks: seq<string>) returns (out: seq<string>, position: Option<string>)
    ensures (out, position) == ParsedPosition(blocks)
  {
    position := None;
    var kept: seq<string> := [];
    var lines := Split(Join("\n\n", blocks), "\n");
    for i := 0 to |lines|
      invariant position == LastToken(lines[..i])
      invariant kept == Filter(lines[..i], NoDeclarator)
    {
      assert lines[..i + 1][..i] == lines[..i];
      var result := SearchDeclarator(lines[i]);
      if result.Some? {
        position := result;
      } else {
        kept := kept + [lines[i]];
      }
    }
    assert lines[..|lines|] == lines;
    out := Split(Join("\n", kept), "\n\n");
  }

  // After the position is taken out, no declarator is left in any block.
  lemma PositionRemovesDeclarators(blocks: seq<string>)
    ensures forall k :: 0 <= k < |ParsedPosition(blocks).0| ==> !HasDeclarator(ParsedPosition(blocks).0[k])
  {
    var lines := PositionLines(blocks);
    var kept := Filter(lines, NoDeclarator);
    var text := Join("\n", kept);
    SplitLinesNoNewline(Join("\n\n", blocks));
    assert forall k :: 0 <= k < |kept| ==> kept[k] in lines;
    KeptHaveNoDeclarator(kept);
    forall k | 0 <= k < |ParsedPosition(blocks).0| ensures !HasDeclarator(ParsedPosition(blocks).0[k]) {
      if HasDeclarator(ParsedPosition(blocks).0[k]) {
        DeclaratorFromLine(text, "\n\n", k);
        NoDeclaratorInJoin(kept);
      }
    }
  }

  lemma KeptHaveNoDeclarator(kept: seq<string>)
    requires forall k :: 0 <= k < |kept| ==> NoDeclarator(kept[k])
    ensures forall k :: 0 <= k < |kept| ==> !HasDeclarator(kept[k])
  {
  }

  // Lines with no declarator and no newline join into a text with none.
  lemma NoDeclaratorInJoin(lines: seq<string>)
    requires forall k :: 0 <= k < |lines| ==> !HasDeclarator(lines[k]) && '\n' !in lines[k]
    ensures !HasDeclarator(Join("\n", lines))
  {
    if HasDeclarator(Join("\n", lines)) {
      var k := DeclaratorOnSomeLine(Join("\n", lines));
      if |lines| >= 1 {
        SplitJoinChar(lines, '\n');
      }
    }
  }

  // A text holds a declarator exactly when one of the lines that
  // `_parse_position` looks at does.
  lemma PositionFoundIffDeclarator(blocks: seq<string>)
    ensures ParsedPosition(blocks).1.Some? <==> HasDeclarator(Join("\n\n", blocks))
  {
    var text := Join("\n\n", blocks);
    var lines := PositionLines(blocks);
    if HasDeclarator(text) {
      var k := DeclaratorOnSomeLine(text);
      assert HasDeclarator(lines[k]);
    }
    if ParsedPosition(blocks).1.Some? {
      var k :| 0 <= k < |lines| && HasDeclarator(lines[k]);
      DeclaratorFromLine(text, "\n", k);
    }
  }

  // ---------------------------------------------------------------------
  // `_parse_template`

  // `block.strip().startswith("<")`: the first character that is not
  // whitespace is `<`.
  predicate StartsTemplate(block: string) {
    block != [] && if IsSpace(block[0]) then StartsTemplate(block[1..]) else block[0] == '<'
  }

  // The same test through the indent: the character after it is `<`.
  lemma {:induction false} StartsTemplateIndent(block: string)
    ensures StartsTemplate(block) <==> Indent(block) < |block| && block[Indent(block)] == '<'
  {
    if block != [] && IsSpace(block[0]) {
      StartsTemplateIndent(block[1..]);
      var n := Indent(block[1..]);
      assert Indent(block) == 1 + n;
      if n < |block[1..]| {
        assert block[1..][n] == block[1 + n];
      }
    }
  }

  lemma StartsTemplateStrip(block: string)
    ensures StartsTemplate(block) <==> Strip(block) != [] && Strip(block)[0] == '<'
  {
    StartsTemplateIndent(block);
    StripFirst(block);
  }

  // Index of the first block that starts the template, or `|blocks|`.
  function TemplateStart(blocks: seq<string>): (k: nat)
    ensures k <= |blocks|
    ensures forall j {:trigger StartsTemplate(blocks[j])} :: 0 <= j < k ==> !StartsTemplate(blocks[j])
    ensures k < |blocks| ==> StartsTemplate(blocks[k])
  {
    if |blocks| == 0 then 0
    else if StartsTemplate(blocks[0]) then 0
    else 1 + TemplateStart(blocks[1..])
  }

  function TrimmedBlocks(blocks: seq<string>): (r: seq<string>)
    ensures |r| == |blocks|
  {
    seq(|blocks|, j requires 0 <= j < |blocks| => Trimmed(blocks[j]))
  }

  // The raw template: the first template block and every later one, each
  // indent-trimmed, joined by blank lines.
  function RawTemplate(blocks: seq<string>): string {
    Join("\n\n", TrimmedBlocks(blocks[TemplateStart(blocks)..]))
  }

  method ParseTemplate(rs: Renderers, blocks: seq<string>) returns (out: seq<string>, rawTemplate: string, template: string)
    ensures out == blocks[..TemplateStart(blocks)]
    ensures rawTemplate == RawTemplate(blocks)
    ensures template == rs.template(rawTemplate, "")
  {
    ghost var k := TemplateStart(blocks);
    out := [];
    var rawTemplateBlocks: seq<string> := [];
    for i := 0 to |blocks|
      invariant out == blocks[..Before(i, k)]
      invariant rawTemplateBlocks == TrimmedBlocks(blocks[Before(i, k)..i])
    {
      var block := blocks[i];
      if StartsTemplate(block) || rawTemplateBlocks != [] {
        TemplateBlockStep(blocks, i, rawTemplateBlocks);
        var trimmed := TrimLeadingSpaces(block);
        rawTemplateBlocks := rawTemplateBlocks + [trimmed];
      } else {
        KeptBlockStep(blocks, i, out, rawTemplateBlocks);
        out := out + [block];
      }
    }
    assert blocks[k..|blocks|] == blocks[k..];
    rawTemplate := Join("\n\n", rawTemplateBlocks);
    template := rs.template(rawTemplate, "");
  }

  // How far the kept blocks reach after `i` blocks, the template starting at `k`.
  function Before(i: nat, k: nat): (b: nat)
    ensures b <= i && b <= k
    ensures b == i || b == k
  {
    if i <= k then i else k
  }

  // A block that `_parse_template` sends to the template lies at or after the first template block.
  lemma TemplateBlockStep(blocks: seq<string>, i: nat, raw: seq<string>)
    requires i < |blocks|
    requires raw == TrimmedBlocks(blocks[Before(i, TemplateStart(blocks))..i])
    requires StartsTemplate(blocks[i]) || raw != []
    ensures Before(i + 1, TemplateStart(blocks)) == Before(i, TemplateStart(blocks))
    ensures raw + [Trimmed(blocks[i])] == TrimmedBlocks(blocks[Before(i + 1, TemplateStart(blocks))..i + 1])
  {
    var k := TemplateStart(blocks);
    assert |raw| == i - Before(i, k);
    TrimmedBlocksStep(blocks, k, i);
  }

  // A block that `_parse_template` keeps lies before the first template block.
  lemma KeptBlockStep(blocks: seq<string>, i: nat, out: seq<string>, raw: seq<string>)
    requires i < |blocks|
    requires out == blocks[..Before(i, TemplateStart(blocks))]
    requires raw == TrimmedBlocks(blocks[Before(i, TemplateStart(blocks))..i])
    requires !StartsTemplate(blocks[i]) && raw == []
    ensures out + [blocks[i]] == blocks[..Before(i + 1, TemplateStart(blocks))]
    ensures raw == TrimmedBlocks(blocks[Before(i + 1, TemplateStart(blocks))..i + 1])
  {
    var k := TemplateStart(blocks);
    assert |raw| == i - Before(i, k);
    assert Before(i, k) == i;
    assert i != k by {
      if k < |blocks| {
        assert StartsTemplate(blocks[k]);
      }
    }
    assert Before(i + 1, k) == i + 1;
    TakeSnoc(blocks, i);
  }

  lemma TrimmedBlocksStep(blocks: seq<string>, k: nat, i: nat)
    requires k <= i < |blocks|
    ensures TrimmedBlocks(blocks[k..i + 1]) == TrimmedBlocks(blocks[k..i]) + [Trimmed(blocks[i])]
  {
    assert forall j :: 0 <= j < i - k ==> blocks[k..i + 1][j] == blocks[k..i][j];
  }

  // With no block that starts with `<`, every block is kept and the raw
  // template is the empty string, not None.
  lemma NoTemplateBlock(blocks: seq<string>)
    requires forall j :: 0 <= j < |blocks| ==> !StartsTemplate(blocks[j])
    ensures TemplateStart(blocks) == |blocks|
    ensures blocks[..TemplateStart(blocks)] == blocks
    ensures RawTemplate(blocks) == ""
  {
    NoTemplateStart(blocks);
    var rest := blocks[TemplateStart(blocks)..];
    assert rest == [];
    assert TrimmedBlocks(rest) == [];
  }

  lemma {:induction false} NoTemplateStart(blocks: seq<string>)
    requires forall j :: 0 <= j < |blocks| ==> !StartsTemplate(blocks[j])
    ensures TemplateStart(blocks) == |blocks|
  {
    if blocks != [] {
      assert !StartsTemplate(blocks[0]);
      assert forall j :: 0 <= j < |blocks| - 1 ==> blocks[1..][j] == blocks[j + 1];
      NoTemplateStart(blocks[1..]);
    }
  }

  // Once a template block is met every later block belongs to the template,
  // whatever it starts with: it is not kept, and its indent-trimmed text is
  // the piece of the raw template at its offset from the first template block.
  lemma TemplateTakesTheRest(blocks: seq<string>, i: nat, j: nat)
    requires i <= j < |blocks| && StartsTemplate(blocks[i])
    ensures var k := TemplateStart(blocks);
      && k <= i
      && |blocks[..k]| <= j
      && TrimmedBlocks(blocks[k..])[j - k] == Trimmed(blocks[j])
      && RawTemplate(blocks) == Join("\n\n", TrimmedBlocks(blocks[k..]))
  {
    TemplateStartAtMost(blocks, i);
    TrimmedSuffixAt(blocks, TemplateStart(blocks), j);
    RawTemplatePieces(blocks);
  }

  lemma RawTemplatePieces(blocks: seq<string>)
    ensures RawTemplate(blocks) == Join("\n\n", TrimmedBlocks(blocks[TemplateStart(blocks)..]))
  {
  }

  // The first template block comes no later than any template block.
  lemma {:induction false} TemplateStartAtMost(blocks: seq<string>, i: nat)
    requires i < |blocks| && StartsTemplate(blocks[i])
    ensures TemplateStart(blocks) <= i
  {
    if !StartsTemplate(blocks[0]) {
      assert blocks[1..][i - 1] == blocks[i];
      TemplateStartAtMost(blocks[1..], i - 1);
    }
  }

  lemma TrimmedSuffixAt(blocks: seq<string>, k: nat, j: nat)
    requires k <= j < |blocks|
    ensures TrimmedBlocks(blocks[k..])[j - k] == Trimmed(blocks[j])
  {
    assert blocks[k..][j - k] == blocks[j];
  }

  // ---------------------------------------------------------------------
  // `_parse_modifiers`

  // What splits a modifier line into selector and description.
  const Separator := " - "

  // Index of the first block holding ` - ` (the modifier block), or `|blocks|`.
  function ModifierBlockIndex(blocks: seq<string>): (k: nat)
    ensures k <= |blocks|
  {
    if blocks == [] then 0
    else if Contains(blocks[0], Separator) then 0
    else 1 + ModifierBlockIndex(blocks[1..])
  }

  // No block before the modifier block holds the separator.
  lemma {:induction false} ModifierBlockFirst(blocks: seq<string>, j: nat)
    requires j < |blocks|
    ensures j < ModifierBlockIndex(blocks) ==> !Contains(blocks[j], Separator)
  {
    if 0 < j && !Contains(blocks[0], Separator) {
      ModifierBlockFirst(blocks[1..], j - 1);
      assert blocks[1..][j - 1] == blocks[j];
    }
  }

  // The modifier block, when there is one, holds the separator.
  lemma {:induction false} ModifierBlockFound(blocks: seq<string>, i: nat)
    requires i < |blocks|
    ensures i == ModifierBlockIndex(blocks) ==> Contains(blocks[i], Separator)
  {
    if 0 < i && !Contains(blocks[0], Separator) {
      ModifierBlockFound(blocks[1..], i - 1);
      assert blocks[1..][i - 1] == blocks[i];
    }
  }

  // The blocks `_parse_modifiers` hands on: every block but the modifier block.
  function OtherBlocks(blocks: seq<string>): (r: seq<string>)
    ensures ModifierBlockIndex(blocks) == |blocks| ==> r == blocks
    ensures ModifierBlockIndex(blocks) < |blocks| ==> |r| == |blocks| - 1
    ensures var k := ModifierBlockIndex(blocks);
      k < |blocks| ==>
        && (forall i :: 0 <= i < k ==> r[i] == blocks[i])
        && (forall i :: k <= i < |r| ==> r[i] == blocks[i + 1])
  {
    var k := ModifierBlockIndex(blocks);
    if k < |blocks| then blocks[..k] + blocks[k + 1..] else blocks
  }

  // The loop variables of the line loop: `modifiers` and `last_indent`, with
  // `None` and 0 both written 0 since the code only asks whether it is truthy.
  datatype ModState = ModState(modifiers: seq<Modifier>, lastIndent: nat)

  // A truthy `last_indent` is only ever set right after a modifier is added.
  predicate Coherent(st: ModState) {
    st.lastIndent != 0 ==> st.modifiers != []
  }

  // One iteration of the line loop.
  function ModifierLine(rs: Renderers, rawTemplate: string, st: ModState, line: string): (r: Result<ModState, ParseError>)
    requires Coherent(st)
    ensures r.Ok? ==> Coherent(r.value)
    ensures r.Err? ==> r.error == UnpackError(line)
  {
    var indent := Indent(line);
    if st.lastIndent != 0 && indent > st.lastIndent then
      var n := |st.modifiers| - 1;
      var last := st.modifiers[n];
      Ok(ModState(st.modifiers[..n] + [last.(description := last.description + line)], st.lastIndent))
    else if Contains(line, Separator) then
      var parts := Split(line, Separator);
      if |parts| != 2 then Err(UnpackError(line))
      else
        var selector := parts[0];
        var template := rs.template(rawTemplate, LStripChar(selector, '.'));
        Ok(ModState(st.modifiers + [Modifier(selector, parts[1], Some(template))], indent))
    else Ok(ModState(st.modifiers, 0))
  }

  // A modifier is rendered from the raw template with its selector, minus
  // leading dots, as `modifier`, and its selector holds no ` - `.
  predicate RenderedFrom(rs: Renderers, rawTemplate: string, m: Modifier) {
    m.template == Some(rs.template(rawTemplate, LStripChar(m.selector, '.'))) && !Contains(m.selector, Separator)
  }

  predicate WellFormed(rs: Renderers, rawTemplate: string, modifiers: seq<Modifier>) {
    forall i :: 0 <= i < |modifiers| ==> RenderedFrom(rs, rawTemplate, modifiers[i])
  }

  // The loop state after the given lines, or the first error.
  function ScanModifiers(rs: Renderers, rawTemplate: string, lines: seq<string>): (r: Result<ModState, ParseError>)
    ensures r.Ok? ==> Coherent(r.value) && |r.value.modifiers| <= |lines|
    ensures r.Ok? ==> WellFormed(rs, rawTemplate, r.value.modifiers)
    ensures r.Err? ==> r.error.UnpackError?
  {
    if lines == [] then Ok(ModState([], 0))
    else
      var n := |lines| - 1;
      match ScanModifiers(rs, rawTemplate, lines[..n])
      case Err(e) => Err(e)
      case Ok(st) =>
        ModifierLineWellFormed(rs, rawTemplate, st, lines[n]);
        ModifierLine(rs, rawTemplate, st, lines[n])
  }

  lemma ModifierLineWellFormed(rs: Renderers, rawTemplate: string, st: ModState, line: string)
    requires Coherent(st) && WellFormed(rs, rawTemplate, st.modifiers)
    ensures var r := ModifierLine(rs, rawTemplate, st, line);
      r.Ok? ==> WellFormed(rs, rawTemplate, r.value.modifiers) && |r.value.modifiers| <= |st.modifiers| + 1
  {
    var mods := st.modifiers;
    if st.lastIndent != 0 && Indent(line) > st.lastIndent {
      var n := |mods| - 1;
      var last := mods[n].(description := mods[n].description + line);
      assert RenderedFrom(rs, rawTemplate, last);
      WellFormedSnoc(rs, rawTemplate, mods[..n], last);
    } else if Contains(line, Separator) {
      var parts := Split(line, Separator);
      if |parts| == 2 {
        SplitPartsFree(line, Separator);
        assert parts[0] in parts;
        var m := Modifier(parts[0], parts[1], Some(rs.template(rawTemplate, LStripChar(parts[0], '.'))));
        WellFormedSnoc(rs, rawTemplate, mods, m);
      }
    }
  }

  lemma WellFormedSnoc(rs: Renderers, rawTemplate: string, mods: seq<Modifier>, m: Modifier)
    requires WellFormed(rs, rawTemplate, mods) && RenderedFrom(rs, rawTemplate, m)
    ensures WellFormed(rs, rawTemplate, mods + [m])
  {
    var all := mods + [m];
    forall i | 0 <= i < |all|
      ensures RenderedFrom(rs, rawTemplate, all[i])
    {
      if i < |mods| {
        assert all[i] == mods[i];
      } else {
        assert all[i] == m;
      }
    }
  }

  // `_parse_modifiers`: the other blocks and the modifiers, or the first error.
  function ModifiersOf(rs: Renderers, rawTemplate: string, blocks: seq<string>): (r: Result<(seq<string>, seq<Modifier>), ParseError>)
    ensures r.Ok? ==> r.value.0 == OtherBlocks(blocks)
    ensures r.Ok? ==> WellFormed(rs, rawTemplate, r.value.1)
    ensures ModifierBlockIndex(blocks) == |blocks| ==> r == Ok((blocks, []))
    ensures r.Err? ==> r.error.UnpackError?
  {
    var k := ModifierBlockIndex(blocks);
    if k == |blocks| then Ok((blocks, []))
    else
      match ScanModifiers(rs, rawTemplate, Split(blocks[k], "\n"))
      case Err(e) => Err(e)
      case Ok(st) => Ok((OtherBlocks(blocks), st.modifiers))
  }

  // Once the scan fails it stays failed with the same error.
  lemma {:induction false} ScanErrorSticks(rs: Renderers, rawTemplate: string, lines: seq<string>, i: nat)
    requires i <= |lines| && ScanModifiers(rs, rawTemplate, lines[..i]).Err?
    ensures ScanModifiers(rs, rawTemplate, lines) == ScanModifiers(rs, rawTemplate, lines[..i])
    decreases |lines| - i
  {
    if i == |lines| {
      assert lines[..i] == lines;
    } else {
      assert lines[..i + 1][..i] == lines[..i];
      ScanErrorSticks(rs, rawTemplate, lines, i + 1);
    }
  }

  lemma ScanModifiersStep(rs: Renderers, rawTemplate: string, lines: seq<string>, i: nat, st: ModState)
    requires i < |lines| && ScanModifiers(rs, rawTemplate, lines[..i]) == Ok(st)
    ensures Coherent(st)
    ensures ScanModifiers(rs, rawTemplate, lines[..i + 1]) == ModifierLine(rs, rawTemplate, st, lines[i])
  {
    assert lines[..i + 1][..i] == lines[..i];
  }

  method ParseModifiers(rs: Renderers, blocks: seq<string>, rawTemplate: string)
    returns (r: Result<(seq<string>, seq<Modifier>), ParseError>)
    ensures r == ModifiersOf(rs, rawTemplate, blocks)
  {
    var modifiers: seq<Modifier> := [];
    var modifierBlock: Option<string> := None;
    var out: seq<string> := [];
    ghost var k := ModifierBlockIndex(blocks);
    for i := 0 to |blocks|
      invariant modifierBlock.None? <==> i <= k
      invariant modifierBlock.Some? ==> k < |blocks| && modifierBlock.value == blocks[k]
      invariant out == KeptBlocks(blocks, i)
    {
      var block := blocks[i];
      if Contains(block, Separator) && modifierBlock.None? {
        ModifierBlockStep(blocks, i);
        modifierBlock := Some(block);
      } else {
        KeptBlockStepOf(blocks, i, modifierBlock.None?);
        out := out + [block];
      }
    }
    KeptAllBlocks(blocks);
    if modifierBlock.Some? {
      var lines := Split(modifierBlock.value, "\n");
      assert lines == Split(blocks[k], "\n");
      var scanned := ParseModifierLines(rs, lines, rawTemplate);
      if scanned.Err? {
        return Err(scanned.error);
      }
      modifiers := scanned.value.modifiers;
    }
    r := Ok((out, modifiers));
  }

  // The blocks `_parse_modifiers` has kept after the first `i`.
  function KeptBlocks(blocks: seq<string>, i: nat): seq<string>
    requires i <= |blocks|
  {
    var k := ModifierBlockIndex(blocks);
    if i <= k then blocks[..i] else blocks[..k] + blocks[k + 1..i]
  }

  // The first block holding the separator is the modifier block.
  lemma ModifierBlockStep(blocks: seq<string>, i: nat)
    requires i < |blocks| && Contains(blocks[i], Separator) && i <= ModifierBlockIndex(blocks)
    ensures i == ModifierBlockIndex(blocks)
    ensures KeptBlocks(blocks, i + 1) == KeptBlocks(blocks, i)
  {
    ModifierBlockFirst(blocks, i);
    var k := ModifierBlockIndex(blocks);
    assert blocks[k + 1..i + 1] == [];
  }

  // Every other block is kept, in order; `before` says whether the modifier
  // block is still to come.
  lemma KeptBlockStepOf(blocks: seq<string>, i: nat, before: bool)
    requires i < |blocks|
    requires before <==> i <= ModifierBlockIndex(blocks)
    requires !(Contains(blocks[i], Separator) && before)
    ensures before <==> i + 1 <= ModifierBlockIndex(blocks)
    ensures KeptBlocks(blocks, i + 1) == KeptBlocks(blocks, i) + [blocks[i]]
  {
    ModifierBlockFound(blocks, i);
    if i < ModifierBlockIndex(blocks) {
      KeptBeforeStep(blocks, i);
    } else {
      KeptAfterStep(blocks, i);
    }
  }

  lemma KeptBeforeStep(blocks: seq<string>, i: nat)
    requires i < ModifierBlockIndex(blocks)
    ensures KeptBlocks(blocks, i + 1) == KeptBlocks(blocks, i) + [blocks[i]]
  {
    TakeSnoc(blocks, i);
    assert KeptBlocks(blocks, i + 1) == blocks[..i + 1];
    assert KeptBlocks(blocks, i) == blocks[..i];
  }

  lemma KeptAfterStep(blocks: seq<string>, i: nat)
    requires ModifierBlockIndex(blocks) < i < |blocks|
    ensures KeptBlocks(blocks, i + 1) == KeptBlocks(blocks, i) + [blocks[i]]
  {
    var k := ModifierBlockIndex(blocks);
    assert KeptBlocks(blocks, i) == blocks[..k] + blocks[k + 1..i];
    SliceSnoc(blocks, k + 1, i);
    AppendAssoc(blocks[..k], blocks[k + 1..i], [blocks[i]]);
    assert KeptBlocks(blocks, i + 1) == blocks[..k] + blocks[k + 1..i + 1];
  }

  lemma KeptAllBlocks(blocks: seq<string>)
    ensures KeptBlocks(blocks, |blocks|) == OtherBlocks(blocks)
  {
    var k := ModifierBlockIndex(blocks);
    if k == |blocks| {
      assert blocks[..|blocks|] == blocks;
    } else {
      assert blocks[k + 1..|blocks|] == blocks[k + 1..];
    }
  }

  // The line loop of `_parse_modifiers`, over the lines of the modifier block.
  method ParseModifierLines(rs: Renderers, lines: seq<string>, rawTemplate: string)
    returns (r: Result<ModState, ParseError>)
    ensures r == ScanModifiers(rs, rawTemplate, lines)
  {
    var modifiers: seq<Modifier> := [];
    var lastIndent: nat := 0;
    for i := 0 to |lines|
      invariant ScanModifiers(rs, rawTemplate, lines[..i]) == Ok(ModState(modifiers, lastIndent))
    {
      ScanModifiersStep(rs, rawTemplate, lines, i, ModState(modifiers, lastIndent));
      var line := lines[i];
      var indent := Indent(line);
      if lastIndent != 0 && indent > lastIndent {
        var n := |modifiers| - 1;
        modifiers := modifiers[..n] + [modifiers[n].(description := modifiers[n].description + line)];
      } else if Contains(line, Separator) {
        var parts := Split(line, Separator);
        if |parts| != 2 {
          ScanErrorSticks(rs, rawTemplate, lines, i + 1);
          return Err(UnpackError(line));
        }
        var modifier := parts[0];
        var modifierClass := LStripChar(modifier, '.');
        var modifierTemplate := rs.template(rawTemplate, modifierClass);
        modifiers := modifiers + [Modifier(modifier, parts[1], Some(modifierTemplate))];
        lastIndent := indent;
      } else {
        lastIndent := 0;
      }
    }
    assert lines[..|lines|] == lines;
    r := Ok(ModState(modifiers, lastIndent));
  }

  // Only the first block that holds ` - ` is taken out; every other block is
  // kept, in order.
  lemma OnlyFirstModifierBlock(blocks: seq<string>, j: nat)
    requires j < |blocks| && Contains(blocks[j], Separator) && j != ModifierBlockIndex(blocks)
    ensures ModifierBlockIndex(blocks) < j
    ensures OtherBlocks(blocks)[j - 1] == blocks[j]
  {
    ModifierBlockFirst(blocks, j);
    RemovedIndexAfter(blocks, ModifierBlockIndex(blocks), j);
  }

  // The continuation rule: a line indented deeper than a truthy
  // `last_indent` is added, verbatim and with no separator, to the last
  // description; nothing else changes.
  lemma ContinuationLine(rs: Renderers, rawTemplate: string, st: ModState, line: string)
    requires Coherent(st) && st.lastIndent != 0 && Indent(line) > st.lastIndent
    ensures var r := ModifierLine(rs, rawTemplate, st, line);
      var n := |st.modifiers| - 1;
      r.Ok? && r.value.lastIndent == st.lastIndent && |r.value.modifiers| == |st.modifiers| &&
      r.value.modifiers[..n] == st.modifiers[..n] &&
      r.value.modifiers[n].selector == st.modifiers[n].selector &&
      r.value.modifiers[n].template == st.modifiers[n].template &&
      r.value.modifiers[n].description == st.modifiers[n].description + line
  {
  }

  // After a zero-indent modifier line (or any line that resets
  // `last_indent`) no line continues a description: the modifiers so far
  // are left as they are.
  lemma NoContinuationAfterZeroIndent(rs: Renderers, rawTemplate: string, st: ModState, line: string)
    requires Coherent(st) && st.lastIndent == 0
    ensures var r := ModifierLine(rs, rawTemplate, st, line);
      r.Ok? ==> st.modifiers <= r.value.modifiers && |r.value.modifiers| <= |st.modifiers| + 1
  {
  }

  // A modifier line with two ` - ` fails the two-value unpack unless it
  // continues a description.
  lemma TwoSeparatorsFail(rs: Renderers, rawTemplate: string, st: ModState, a: string, b: string, c: string)
    requires Coherent(st)
    requires !(st.lastIndent != 0 && Indent(a + Separator + b + Separator + c) > st.lastIndent)
    ensures ModifierLine(rs, rawTemplate, st, a + Separator + b + Separator + c) == Err(UnpackError(a + Separator + b + Separator + c))
  {
    var line := a + Separator + b + Separator + c;
    SplitAtLeastThree(line, |a|, |a| + |Separator| + |b|);
  }

  // Two occurrences of ` - ` that do not overlap give at least three pieces.
  lemma SplitAtLeastThree(s: string, p: nat, q: nat)
    requires OccursAt(s, Separator, p) && OccursAt(s, Separator, q) && p + |Separator| <= q
    ensures Contains(s, Separator) && |Split(s, Separator)| >= 3
  {
    var i := IndexOf(s, Separator);
    var rest := s[i + |Separator|..];
    assert s[q..q + |Separator|] == rest[q - i - |Separator|..q - i];
    assert OccursAt(rest, Separator, q - i - |Separator|);
    IndexOfContains(rest, Separator);
  }

  // A line that does not continue a description and splits into exactly
  // two pieces at ` - ` appends the modifier `{selector, description,
  // template}` built from those pieces, and its indent becomes `last_indent`.
  lemma NewModifierLine(rs: Renderers, rawTemplate: string, st: ModState, line: string)
    requires Coherent(st)
    requires !(st.lastIndent != 0 && Indent(line) > st.lastIndent)
    requires Contains(line, Separator) && |Split(line, Separator)| == 2
    ensures ModifierLine(rs, rawTemplate, st, line) ==
      Ok(ModState(st.modifiers + [LineModifier(rs, rawTemplate, line)], Indent(line)))
  {
  }

  // A line without ` - ` that does not continue a description adds nothing
  // and clears `last_indent`.
  lemma ResetLine(rs: Renderers, rawTemplate: string, st: ModState, line: string)
    requires Coherent(st)
    requires !(st.lastIndent != 0 && Indent(line) > st.lastIndent)
    requires !Contains(line, Separator)
    ensures ModifierLine(rs, rawTemplate, st, line) == Ok(ModState(st.modifiers, 0))
  {
  }

  // A line that yields a modifier: it holds ` - ` exactly once.
  predicate IsModifierLine(line: string) {
    Contains(line, Separator) && |Split(line, Separator)| == 2
  }

  // The modifier a line `selector - description` stands for. Only lines that
  // split into exactly two parts are ever read this way; on any other line
  // the code's unpacking fails instead.
  function LineModifier(rs: Renderers, rawTemplate: string, line: string): (m: Modifier)
    ensures |Split(line, Separator)| == 2 ==>
      && Join(Separator, [m.selector, m.description]) == line
      && !Contains(m.selector, Separator) && !Contains(m.description, Separator)
    ensures RenderedFrom(rs, rawTemplate, m)
  {
    var parts := Split(line, Separator);
    var description := if |parts| > 1 then parts[1] else "";
    JoinSplit(line, Separator);
    SplitPartsFree(line, Separator);
    assert parts[0] in parts && (|parts| > 1 ==> parts[1] in parts);
    Modifier(parts[0], description, Some(rs.template(rawTemplate, LStripChar(parts[0], '.'))))
  }

  // Reference reading of the modifier block: keep the lines holding ` - `,
  // and make one modifier of each, in line order.
  function ModifierLinesOf(rs: Renderers, rawTemplate: string, lines: seq<string>): (mods: seq<Modifier>)
    ensures |mods| <= |lines|
  {
    LineModifiers(rs, rawTemplate, Filter(lines, IsModifierLine))
  }

  // One modifier for each line, in order.
  function LineModifiers(rs: Renderers, rawTemplate: string, kept: seq<string>): (mods: seq<Modifier>)
    ensures |mods| == |kept|
  {
    if kept == [] then []
    else LineModifiers(rs, rawTemplate, kept[..|kept| - 1]) + [LineModifier(rs, rawTemplate, kept[|kept| - 1])]
  }

  // No line continues a description: a line right after a modifier line
  // with a truthy indent is indented no deeper than it.
  predicate NoContinuation(lines: seq<string>) {
    forall j :: 1 <= j < |lines| ==>
      (Contains(lines[j - 1], Separator) && Indent(lines[j - 1]) > 0 ==> Indent(lines[j]) <= Indent(lines[j - 1]))
  }

  // `last_indent` after the lines when none continues a description.
  function LastIndent(lines: seq<string>): nat {
    if lines != [] && Contains(lines[|lines| - 1], Separator) then Indent(lines[|lines| - 1]) else 0
  }

  // When no line continues a description and each modifier line holds ` - `
  // once, the line loop yields one modifier per modifier line, in order, as
  // the reference reading does.
  lemma {:induction false} ModifiersOnePerLine(rs: Renderers, rawTemplate: string, lines: seq<string>)
    requires forall k :: 0 <= k < |lines| && Contains(lines[k], Separator) ==> |Split(lines[k], Separator)| == 2
    requires NoContinuation(lines)
    ensures ScanModifiers(rs, rawTemplate, lines) == Ok(ModState(ModifierLinesOf(rs, rawTemplate, lines), LastIndent(lines)))
  {
    if lines != [] {
      var n := |lines| - 1;
      var init := lines[..n];
      assert forall k :: 0 <= k < n ==> init[k] == lines[k];
      ModifiersOnePerLine(rs, rawTemplate, init);
      var st := ModState(ModifierLinesOf(rs, rawTemplate, init), LastIndent(init));
      assert ScanModifiers(rs, rawTemplate, lines) == ModifierLine(rs, rawTemplate, st, lines[n]);
      assert n > 0 ==> init[n - 1] == lines[n - 1];
      ModifierLinesSnoc(rs, rawTemplate, lines);
      if Contains(lines[n], Separator) {
        NewModifierLine(rs, rawTemplate, st, lines[n]);
      } else {
        ResetLine(rs, rawTemplate, st, lines[n]);
      }
    }
  }

  // `_parse_modifiers` on success, when the modifier block has no
  // continuation lines: the other blocks, and one modifier per line holding
  // ` - `, in line order.
  lemma ModifiersOfBlock(rs: Renderers, rawTemplate: string, blocks: seq<string>)
    requires ModifierBlockIndex(blocks) < |blocks|
    requires var lines := Split(blocks[ModifierBlockIndex(blocks)], "\n");
      && (forall k :: 0 <= k < |lines| && Contains(lines[k], Separator) ==> |Split(lines[k], Separator)| == 2)
      && NoContinuation(lines)
    ensures ModifiersOf(rs, rawTemplate, blocks) ==
      Ok((OtherBlocks(blocks), ModifierLinesOf(rs, rawTemplate, Split(blocks[ModifierBlockIndex(blocks)], "\n"))))
  {
    ModifiersOnePerLine(rs, rawTemplate, Split(blocks[ModifierBlockIndex(blocks)], "\n"));
  }

  lemma ModifierLinesSnoc(rs: Renderers, rawTemplate: string, lines: seq<string>)
    requires lines != []
    ensures var last := lines[|lines| - 1];
      ModifierLinesOf(rs, rawTemplate, lines) == ModifierLinesOf(rs, rawTemplate, lines[..|lines| - 1]) +
        (if IsModifierLine(last) then [LineModifier(rs, rawTemplate, last)] else [])
  {
    var n := |lines| - 1;
    var last := lines[n];
    FilterSnoc(lines, IsModifierLine);
    var before := Filter(lines[..n], IsModifierLine);
    assert (before + [last])[..|before|] == before;
  }

  // A line `selector - description` whose selector has no space and whose
  // description has no dash splits into exactly those two pieces.
  lemma SplitModifierText(selector: string, description: string)
    requires ' ' !in selector && '-' !in description
    ensures Split(selector + Separator + description, Separator) == [selector, description]
  {
    var s := selector + Separator + description;
    var i := IndexOf(s, Separator);
    assert s[|selector|..|selector| + 3] == Separator;
    assert OccursAt(s, Separator, |selector|);
    forall j | 0 <= j < |selector| ensures !OccursAt(s, Separator, j) {
      assert s[j..j + 3][0] == s[j] == selector[j];
    }
    assert i == |selector|;
    assert s[..i] == selector;
    assert s[i + 3..] == description;
    NoDashNoSeparator(description);
    IndexOfContains(description, Separator);
  }

  lemma NoDashNoSeparator(s: string)
    requires '-' !in s
    ensures !Contains(s, Separator)
  {
    forall j | 0 <= j <= |s| - 3 ensures !OccursAt(s, Separator, j) {
      assert s[j..j + 3][1] == s[j + 1];
    }
  }

  // A title paragraph and a paragraph of two flush `selector - description`
  // lines ending in a newline (the blank line before the declarator leaves
  // it there): the title paragraph is handed on, and the two modifiers come
  // out in order, each rendered with its selector minus leading dots.
  lemma TwoModifierLines(rs: Renderers, rawTemplate: string, title: string, s1: string, d1: string, s2: string, d2: string)
    requires '-' !in title
    requires s1 != [] && !IsSpace(s1[0]) && ' ' !in s1 && '\n' !in s1 && '-' !in d1 && '\n' !in d1
    requires s2 != [] && !IsSpace(s2[0]) && ' ' !in s2 && '\n' !in s2 && '-' !in d2 && '\n' !in d2
    ensures ModifiersOf(rs, rawTemplate, [title, (s1 + Separator + d1) + "\n" + (s2 + Separator + d2) + "\n"])
      == Ok(([title], [
        Modifier(s1, d1, Some(rs.template(rawTemplate, LStripChar(s1, '.')))),
        Modifier(s2, d2, Some(rs.template(rawTemplate, LStripChar(s2, '.'))))]))
  {
    var l1 := s1 + Separator + d1;
    var l2 := s2 + Separator + d2;
    LineModifierOf(rs, rawTemplate, s1, d1);
    LineModifierOf(rs, rawTemplate, s2, d2);
    ModifierBlockOfTwo(title, l1, l2);
    TwoFlushLines(rs, rawTemplate, l1, l2);
  }

  // Two modifier lines, the first flush, then an empty line: one modifier
  // each, in order, and the empty line only clears the last indent.
  lemma TwoFlushLines(rs: Renderers, rawTemplate: string, l1: string, l2: string)
    requires IsModifierLine(l1) && IsModifierLine(l2) && Indent(l1) == 0
    ensures ScanModifiers(rs, rawTemplate, [l1, l2, ""]) ==
      Ok(ModState([LineModifier(rs, rawTemplate, l1), LineModifier(rs, rawTemplate, l2)], 0))
  {
    var lines := [l1, l2, ""];
    TwoLinesNoContinuation(l1, l2);
    ModifiersOnePerLine(rs, rawTemplate, lines);
    ModifierLinesOfTwoThenEmpty(rs, rawTemplate, l1, l2);
    assert lines[2] == "" && !Contains("", Separator);
  }

  lemma TwoLinesNoContinuation(l1: string, l2: string)
    requires IsModifierLine(l1) && IsModifierLine(l2) && Indent(l1) == 0
    ensures var lines := [l1, l2, ""];
      && (forall k :: 0 <= k < |lines| && Contains(lines[k], Separator) ==> |Split(lines[k], Separator)| == 2)
      && NoContinuation(lines)
  {
    var lines := [l1, l2, ""];
    assert !Contains("", Separator);
    forall k | 0 <= k < |lines| && Contains(lines[k], Separator)
      ensures |Split(lines[k], Separator)| == 2
    {
      assert lines[k] == l1 || lines[k] == l2;
    }
    forall j | 1 <= j < |lines|
      ensures Contains(lines[j - 1], Separator) && Indent(lines[j - 1]) > 0 ==> Indent(lines[j]) <= Indent(lines[j - 1])
    {
      if j == 1 {
        assert lines[j - 1] == l1;
      } else {
        assert lines[j] == "" && Indent("") == 0;
      }
    }
  }

  lemma ModifierLinesOfTwoThenEmpty(rs: Renderers, rawTemplate: string, l1: string, l2: string)
    requires IsModifierLine(l1) && IsModifierLine(l2)
    ensures ModifierLinesOf(rs, rawTemplate, [l1, l2, ""]) == [LineModifier(rs, rawTemplate, l1), LineModifier(rs, rawTemplate, l2)]
  {
    var lines := [l1, l2, ""];
    assert lines[..2] == [l1, l2] && lines[2] == "";
    assert !Contains("", Separator);
    ModifierLinesOfTwo(rs, rawTemplate, l1, l2);
    ModifierLinesSnoc(rs, rawTemplate, lines);
  }

  // A flush line `s - d` is a modifier line for the modifier `s`, `d`.
  lemma LineModifierOf(rs: Renderers, rawTemplate: string, s: string, d: string)
    requires s != [] && !IsSpace(s[0]) && ' ' !in s && '\n' !in s && '-' !in d && '\n' !in d
    ensures IsModifierLine(s + Separator + d) && Indent(s + Separator + d) == 0 && '\n' !in s + Separator + d
    ensures LineModifier(rs, rawTemplate, s + Separator + d) == Modifier(s, d, Some(rs.template(rawTemplate, LStripChar(s, '.'))))
  {
    var l := s + Separator + d;
    SplitModifierText(s, d);
    assert l[|s|..|s| + 3] == Separator;
    assert OccursAt(l, Separator, |s|);
    assert l[0] == s[0];
  }

  // The second of two paragraphs is the modifier block when only it holds ` - `,
  // and its lines are the two lines.
  lemma ModifierBlockOfTwo(title: string, l1: string, l2: string)
    requires '-' !in title && '\n' !in l1 && '\n' !in l2 && Contains(l1, Separator)
    ensures ModifierBlockIndex([title, l1 + "\n" + l2 + "\n"]) == 1
    ensures OtherBlocks([title, l1 + "\n" + l2 + "\n"]) == [title]
    ensures Split(l1 + "\n" + l2 + "\n", "\n") == [l1, l2, ""]
  {
    var block := l1 + "\n" + l2 + "\n";
    NoDashNoSeparator(title);
    assert block == l1 + ("\n" + l2 + "\n");
    SeparatorInFirstLine(l1, "\n" + l2 + "\n");
    SecondBlockChosen(title, block);
    assert Join("\n", [l2, ""]) == l2 + "\n" + "";
    assert Join("\n", [l1, l2, ""]) == l1 + "\n" + Join("\n", [l2, ""]);
    assert Join("\n", [l1, l2, ""]) == block;
    SplitJoinChar([l1, l2, ""], '\n');
  }

  lemma SeparatorInFirstLine(l1: string, rest: string)
    requires Contains(l1, Separator)
    ensures Contains(l1 + rest, Separator)
  {
    var j :| 0 <= j <= |l1| - 3 && OccursAt(l1, Separator, j);
    assert (l1 + rest)[j..j + 3] == l1[j..j + 3];
    assert OccursAt(l1 + rest, Separator, j);
  }

  lemma SecondBlockChosen(first: string, second: string)
    requires !Contains(first, Separator) && Contains(second, Separator)
    ensures ModifierBlockIndex([first, second]) == 1
    ensures OtherBlocks([first, second]) == [first]
  {
    assert [first, second][1..] == [second];
  }

  lemma ModifierLinesOfTwo(rs: Renderers, rawTemplate: string, l1: string, l2: string)
    requires IsModifierLine(l1) && IsModifierLine(l2)
    ensures ModifierLinesOf(rs, rawTemplate, [l1, l2]) == [LineModifier(rs, rawTemplate, l1), LineModifier(rs, rawTemplate, l2)]
  {
    var two := [l1, l2];
    assert two[..1] == [l1] && two[1] == l2;
    ModifierLinesOfOne(rs, rawTemplate, l1);
    ModifierLinesSnoc(rs, rawTemplate, two);
    PairOf(LineModifier(rs, rawTemplate, l1), LineModifier(rs, rawTemplate, l2));
  }

  lemma PairOf<T>(a: T, b: T)
    ensures [a] + [b] == [a, b]
  {
  }

  lemma ModifierLinesOfOne(rs: Renderers, rawTemplate: string, l1: string)
    requires IsModifierLine(l1)
    ensures ModifierLinesOf(rs, rawTemplate, [l1]) == [LineModifier(rs, rawTemplate, l1)]
  {
    ModifierLinesSnoc(rs, rawTemplate, [l1]);
    assert [l1][..0] == [];
    assert Filter([], IsModifierLine) == [];
  }

  // The modifier list of the KSS documentation: `.emphasis` and `.subtle`,
  // in that order, rendered with the classes `emphasis` and `subtle`.
  lemma ModifierListExample(rs: Renderers, rawTemplate: string)
    ensures ModifiersOf(rs, rawTemplate, [
        "Style guide section title",
        (".emphasis" + Separator + "Adds brighter highlight.") + "\n" + (".subtle" + Separator + "Use for secondary actions.") + "\n"])
      == Ok((["Style guide section title"], [
        Modifier(".emphasis", "Adds brighter highlight.", Some(rs.template(rawTemplate, "emphasis"))),
        Modifier(".subtle", "Use for secondary actions.", Some(rs.template(rawTemplate, "subtle")))]))
  {
    EmphasisLine();
    SubtleLine();
    assert '-' !in "Style guide section title" by {
      ExampleText("Style guide section title");
    }
    TwoModifierLines(rs, rawTemplate, "Style guide section title",
      ".emphasis", "Adds brighter highlight.", ".subtle", "Use for secondary actions.");
  }

  lemma EmphasisLine()
    ensures var s := ".emphasis";
      s != [] && !IsSpace(s[0]) && ' ' !in s && '\n' !in s && LStripChar(s, '.') == "emphasis"
    ensures '-' !in "Adds brighter highlight." && '\n' !in "Adds brighter highlight."
  {
    ExampleSelector(".emphasis", "emphasis");
    ExampleText("Adds brighter highlight.");
  }

  lemma SubtleLine()
    ensures var s := ".subtle";
      s != [] && !IsSpace(s[0]) && ' ' !in s && '\n' !in s && LStripChar(s, '.') == "subtle"
    ensures '-' !in "Use for secondary actions." && '\n' !in "Use for secondary actions."
  {
    ExampleSelector(".subtle", "subtle");
    ExampleText("Use for secondary actions.");
  }

  // A selector `.name` with a plain class name.
  lemma ExampleSelector(selector: string, name: string)
    requires selector == "." + name && name != [] && name[0] != '.'
    requires forall i :: 0 <= i < |name| ==> 'a' <= name[i] <= 'z'
    ensures selector != [] && !IsSpace(selector[0]) && ' ' !in selector && '\n' !in selector
    ensures LStripChar(selector, '.') == name
  {
    assert selector[1..] == name;
  }

  // A text of letters, spaces and full stops only.
  lemma ExampleText(s: string)
    requires forall i :: 0 <= i < |s| ==> s[i] == ' ' || s[i] == '.' || 'a' <= s[i] <= 'z' || 'A' <= s[i] <= 'Z'
    ensures '-' !in s && '\n' !in s
  {
  }

  // ---------------------------------------------------------------------
  // `parse_section`

  // The paragraphs the pipeline starts from: the indent-trimmed content,
  // stripped, split at blank lines.
  function Paragraphs(content: string): (blocks: seq<string>)
    ensures |blocks| >= 1
  {
    Split(Strip(Trimmed(content)), "\n\n")
  }

  // `_parse_title`: the first block, stripped, and the blocks after it.
  function ParseTitle(blocks: seq<string>): (r: Result<(seq<string>, string), ParseError>)
    ensures r.Ok? <==> blocks != []
    ensures r.Ok? ==> r.value.0 == blocks[1..] && IsTrimmed(r.value.1)
    ensures r.Ok? ==> (r.value.1 == "" <==> IsBlank(blocks[0]))
    ensures r.Ok? ==> r.value.1 == Strip(blocks[0])
    ensures r.Err? ==> r.error == MissingTitle
  {
    if blocks == [] then Err(MissingTitle) else Ok((blocks[1..], Strip(blocks[0])))
  }

  // `parse_section()`: position, template, modifiers, title and description
  // taken out in that order; the first failure is the one reported.
  function ParseSection(rs: Renderers, content: string): (r: Result<Section, ParseError>)
    ensures r.Ok? ==> IsTrimmed(r.value.title)
    ensures r.Ok? ==> r.value.position == [] || r.value.position[|r.value.position| - 1] != '.'
  {
    var afterPosition := ParsedPosition(Paragraphs(content));
    Assemble(rs, afterPosition.0, afterPosition.1)
  }

  // `parse_section()` from the blocks and the position `_parse_position`
  // returns onwards.
  function Assemble(rs: Renderers, afterPosition: seq<string>, position: Option<string>): (r: Result<Section, ParseError>)
    ensures r.Ok? ==> IsTrimmed(r.value.title)
    ensures r.Ok? ==> r.value.position == [] || r.value.position[|r.value.position| - 1] != '.'
    ensures r.Ok? ==> position.Some?
    ensures r == Err(MissingPosition) ==> position.None?
    ensures var rawTemplate := RawTemplate(afterPosition);
      var m := ModifiersOf(rs, rawTemplate, afterPosition[..TemplateStart(afterPosition)]);
      r.Ok? ==>
        && m.Ok? && m.value.0 != []
        && r.value == MakeSection(position.value, Strip(m.value.0[0]), rs.rst(Join("\n\n", m.value.0[1..])),
                                  m.value.1, rs.template(rawTemplate, ""))
    ensures var m := ModifiersOf(rs, RawTemplate(afterPosition), afterPosition[..TemplateStart(afterPosition)]);
      r.Err? ==>
        if m.Err? then r.error == m.error
        else if m.value.0 == [] then r.error == MissingTitle
        else r.error == MissingPosition
  {
    var afterTemplate := afterPosition[..TemplateStart(afterPosition)];
    var rawTemplate := RawTemplate(afterPosition);
    var template := rs.template(rawTemplate, "");
    match ModifiersOf(rs, rawTemplate, afterTemplate)
    case Err(e) => Err(e)
    case Ok((afterModifiers, modifiers)) =>
      match ParseTitle(afterModifiers)
      case Err(e) => Err(e)
      case Ok((rest, title)) =>
        var desc := rs.rst(Join("\n\n", rest));
        if position.None? then Err(MissingPosition)
        else Ok(MakeSection(position.value, title, desc, modifiers, template))
  }

  // The paragraphs hold a declarator exactly when the content does.
  lemma ParagraphsKeepDeclarator(content: string)
    ensures HasDeclarator(Join("\n\n", Paragraphs(content))) <==> HasDeclarator(content)
  {
    JoinSplit(Strip(Trimmed(content)), "\n\n");
    DeclaratorStrip(Trimmed(content));
    DeclaratorTrim(content);
  }

  // The position is found exactly when the block is a valid section.
  lemma PositionFoundIffValid(content: string)
    ensures ParsedPosition(Paragraphs(content)).1.Some? <==> IsValidSection(content)
  {
    PositionFoundIffDeclarator(Paragraphs(content));
    ParagraphsKeepDeclarator(content);
    IsValidSectionMeaning(content);
  }

  // A valid section never fails for want of a position, and only a valid
  // section parses.
  lemma ValidSectionHasPosition(rs: Renderers, content: string)
    ensures IsValidSection(content) ==> ParseSection(rs, content) != Err(MissingPosition)
    ensures ParseSection(rs, content).Ok? ==> IsValidSection(content)
  {
    PositionFoundIffValid(content);
  }

  // A section whose first block (after the declarator line is taken out) is
  // a template has no block left for the title.
  lemma TemplateFirstMeansNoTitle(rs: Renderers, content: string)
    requires StartsTemplate(ParsedPosition(Paragraphs(content)).0[0])
    ensures ParseSection(rs, content) == Err(MissingTitle)
  {
    var afterPosition := ParsedPosition(Paragraphs(content)).0;
    assert TemplateStart(afterPosition) == 0;
    assert ModifiersOf(rs, RawTemplate(afterPosition), []) == Ok(([], []));
  }

  // With no template block, the section template and every modifier template
  // are renderings of the empty string.
  lemma NoTemplateRendersEmpty(rs: Renderers, content: string)
    requires var afterPosition := ParsedPosition(Paragraphs(content)).0;
      forall j :: 0 <= j < |afterPosition| ==> !StartsTemplate(afterPosition[j])
    requires ParseSection(rs, content).Ok?
    ensures var s := ParseSection(rs, content).value;
      s.template == rs.template("", "") &&
      forall i :: 0 <= i < |s.modifiers| ==> s.modifiers[i].template == Some(rs.template("", LStripChar(s.modifiers[i].selector, '.')))
  {
    var parsed := ParsedPosition(Paragraphs(content));
    AssembleWithoutTemplate(rs, parsed.0, parsed.1);
  }

  lemma AssembleWithoutTemplate(rs: Renderers, afterPosition: seq<string>, position: Option<string>)
    requires forall j :: 0 <= j < |afterPosition| ==> !StartsTemplate(afterPosition[j])
    requires Assemble(rs, afterPosition, position).Ok?
    ensures var s := Assemble(rs, afterPosition, position).value;
      s.template == rs.template("", "") && WellFormed(rs, "", s.modifiers)
  {
    NoTemplateBlock(afterPosition);
    assert ModifiersOf(rs, "", afterPosition).Ok?;
  }
}
