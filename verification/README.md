# django-styleguide: comment extraction, KSS parsing and style-guide assembly

This project models the core of django-styleguide, a Django application that builds a living
style guide from the documentation comments in stylesheets. The core has three stages:

1. **Comment extraction** (`SCSSCommentParser`, module `Scss`). This is a line-by-line scan of
   stylesheet text.
   - It collects runs of `//` lines and `/* ... */` regions into comment blocks.
   - Each block is normalised: a leading star gutter is removed, the indent of the first
     non-blank line is removed from every line, and outer whitespace is stripped.
   - The parser object remembers its blocks after the first call.
2. **KSS parsing** (`KSSDocParser`, module `Kss`). A comment block is a KSS section when it
   contains a `Styleguide <position>` declarator. The steps are:
   - the block's common indent is trimmed and it is split into paragraphs;
   - the position is pulled out;
   - the template paragraphs are taken from the first paragraph that starts with `<`;
   - the first paragraph holding ` - ` is read as the modifier list;
   - the title and the description are what remains.
3. **Assembly** (`StyleGuideBuilder.get_style_guide`, modules `Builder` and `Models`).
   - The valid sections are parsed, sorted stably by version order of their dotted position,
     and put into a `StyleGuide` titled "Style Guide".
   - The style guide answers prefix queries (`get_sections`) and depth-0 queries
     (`get_root_sections`).

Files:
- `text.dfy` (module `Text`): the Python string operations the code relies on. These are
  `Indent`, `Strip`, `RStripChar`, `Split`, `Join`, `IndexOf`, `Count` and `Filter`, each with
  its meaning proved. `Split`/`Join` are inverse, and splitting on a character not inside the
  parts gives the parts back.
- `scss.dfy` (module `Scss`): the line classifiers and the marker removal. It holds the
  normalisation (function `Normalized` and method `Normalize`) and the scan (function `Scan`
  and method `CommentParser.ParseBlocks`). It also holds the memoising `CommentParser` class.
- `kss.dfy` (module `Kss`):
  - declarator search;
  - common-indent trimming (`Trimmed` and method `TrimLeadingSpaces`);
  - each parsing step as a specification function and a method proved equal to it
    (`ParsePosition`, `ParseTemplate`, `ParseModifiers`);
  - `ParseSection`.
- `models.dfy` (module `Models`): the `Section`, `Modifier` and `StyleGuide` values, the
  position key and its order, `GetSections` and `GetRootSections`.
- `builder.dfy` (module `Builder`): a stable sort generic over its key, as `sorted(key=...)` is, used with the position key; the parse of every valid
  comment, and method `GetStyleGuide`.

Modelling conventions:
- Whitespace is the ASCII set matched by Python 2's `\s`: space, tab, newline, carriage
  return, vertical tab and form feed.
- Rendering is passed in as a parameter, a `Renderers` value. It holds the Django template
  renderer, called with the template text and the `modifier` variable, and the
  reStructuredText renderer.
- Exceptions the code would raise on some inputs are modelled as `ParseError` values:
  - `UnpackError`: a modifier line holding ` - ` twice;
  - `MissingTitle`: no paragraph left for the title;
  - `MissingPosition`: calling `rstrip` on a missing position.

  They are propagated as the first error, as an exception would be.

Where the code and its tests disagree, the model follows the code:
- `_parse_template` always produces a string (possibly empty) as raw template. So every
  modifier gets a rendered template, and the section template is the rendering of that string.
  The tests in `styleguide/tests.py` expect `None` for sections without a template.
- `get_style_guide` parses every valid section with no error handling. So an error in one
  section aborts the whole build rather than skipping that section.

## Model

| member | source | states |
|---|---|---|
| Text.Indent | styleguide/kss.py:144-145 | `_get_indent`: the length of the leading whitespace run; it is all whitespace, the next character is not, and it is the whole line exactly when the line is blank |
| Text.IndentUnique | styleguide/kss.py:34 | `^\s*` has exactly one match: any split into a whitespace prefix followed by a non-space is the indent |
| Text.RStrip | styleguide/scss.py:29 | `rstrip()` removes exactly a whitespace suffix: the result is a prefix, what is cut is whitespace, and the result does not end in whitespace |
| Text.RStripChar | styleguide/models.py:40 | `rstrip(".")` removes exactly the trailing dots and keeps a prefix |
| Text.FilterIndices | styleguide/models.py:17-24 | a filter keeps the kept elements in their input order, each once: the result is the input at strictly increasing indices, which are exactly those of the kept elements |
| Text.JoinSplit | styleguide/kss.py:69 | joining the pieces of a split with the same separator gives back the text |
| Scss.MarkerAfterIndentMeaning | styleguide/scss.py:15-21 | `^\s*//` and `^\s*/\*` match exactly when some whitespace prefix of the line is followed by the marker |
| Scss.EndMarkerMeaning | styleguide/scss.py:23-25 | `.*\*/` under `re.match` holds exactly when a `*/` occurs with no newline before it |
| Scss.ClassifiersExclusive | styleguide/scss.py:15-21 | no line is both a `//` line and the start of a `/*` region |
| Scss.Scrub | styleguide/scss.py:27-37 | `re.sub` with an empty replacement never lengthens the text, and changes nothing when the marker does not occur |
| Scss.ParseSingleLine | styleguide/scss.py:27-30 | the cleaned line is no longer than the input and has no trailing whitespace; without a `//` it is the line right-stripped |
| Scss.ParseSingleLineAfterMarker | styleguide/scss.py:27-30 | for any line made of whitespace, `//` and a rest, the result is the rest with every further whitespace-led `//` removed, right-stripped |
| Scss.ParseSingleLineOf | styleguide/scss.py:27-30 | when the text after the leading whitespace and `//` holds no further `//`, the line gives back exactly that text, right-stripped |
| Scss.ParseMultiLine | styleguide/scss.py:32-37 | the cleaned line is no longer than the input and has no trailing whitespace; without markers it is the line right-stripped |
| Scss.ParseMultiLineAfterMarker | styleguide/scss.py:32-37 | for any line made of whitespace, `/*` and a rest, the result is the rest with every further whitespace-led `/*` removed, then every `*/` removed, right-stripped |
| Scss.ParseMultiLineOf | styleguide/scss.py:32-37 | a one-line `pad /* body */`, where `body` holds no other `/*` or `*/` and does not end in `/`, gives back exactly `body`, right-stripped |
| Scss.ScrubTrailingMarker | styleguide/scss.py:35-36 | removing a marker that occurs only at the end of the text leaves the text before it |
| Scss.GutterLen | styleguide/scss.py:90-92 | `^(\s*\*+)` matches exactly when the first non-whitespace character is a star |
| Scss.StarGutterRoundTrip | styleguide/scss.py:88-93 | on a block whose every line is `pad + "*" + body`, the MULTILINE substitution leaves exactly the bodies joined by newlines |
| Scss.FirstNonBlank | styleguide/scss.py:100-103 | the first line that is not blank: every line before it is blank and it is not |
| Scss.UnindentedLines | styleguide/scss.py:95-108 | a line from the first non-blank line on loses exactly its first `w` characters, all whitespace, when its indent reaches `w > 0` (the first non-blank line's indent); every other line is unchanged |
| Scss.FirstLineFlush | styleguide/scss.py:102-107 | the first non-blank line comes out with no indent |
| Scss.Normalized | styleguide/scss.py:86-110 | a normalised block has no leading or trailing whitespace |
| Scss.Normalize | styleguide/scss.py:86-110 | the loop computes exactly `Normalized`: gutter stripping, then unindenting against the first non-blank line, then `strip` |
| Scss.Step | styleguide/scss.py:54-82 | one iteration only appends to the emitted blocks, at most one at a time |
| Scss.StepFlush | styleguide/scss.py:77-82 | both directions: a `//` line, or a line that leaves a region open, emits nothing; any other line clears the buffer and the `//` flag and emits exactly the normalised collected text when that text is not empty, and nothing otherwise |
| Scss.SingleLineRunCollected | styleguide/scss.py:56-62 | a run of `//` lines after a state with nothing open leaves the buffer holding exactly the cleaned lines joined by newlines, with the `//` flag set and no block emitted |
| Scss.SingleLineRunEmitted | styleguide/scss.py:54-82 | a run of `//` lines followed by a line that is neither a `//` line nor a `/*` start is emitted as exactly one normalised block (none if its text is empty), and the state is idle again |
| Scss.SameLineBlockComment | styleguide/scss.py:64-82 | a `/* ... */` on one line outside a region is emitted on that line, when its text is not empty |
| Scss.SingleLineCollected | styleguide/scss.py:56-62 | a `//` line outside a region is appended to the buffer after a newline, or starts it, and emits nothing |
| Scss.ScanKeepsEarlierBlocks | styleguide/scss.py:54-84 | blocks already emitted stay, in order, whatever lines follow |
| Scss.ScanBlocksTrimmed | styleguide/scss.py:80 | every emitted block has no leading or trailing whitespace |
| Scss.OpenRegionNotEmitted | styleguide/scss.py:65-82 | lines without an end marker keep a `/*` region open and emit nothing; a region left open at the end is never emitted |
| Scss.MultiLineRegionCollected | styleguide/scss.py:64-71 | a `/*` region opened while idle, with no `//` or closing line yet, holds in the buffer exactly its lines' cleaned texts joined by newlines, stays open and emits nothing |
| Scss.MultiLineRegionEmitted | styleguide/scss.py:64-82 | a block comment over several lines is emitted on its closing line as exactly one normalised block of all its lines' cleaned texts (none when that text is empty), and the scan is idle again |
| Scss.SingleLineInRegion | styleguide/scss.py:56-69 | a `//` line inside an open region restarts the buffer with its own text, drops the region's earlier lines, and emits nothing even when it closes the region |
| Scss.RegionOpensOverSingleRun | styleguide/scss.py:56-82 | a line opening a region right after a `//` run drops the run's text: the buffer restarts with the region line and the `//` flag stays set; if the region closes on that line, it alone is emitted |
| Scss.CommentParser.constructor | styleguide/scss.py:10-13 | the name defaults to `<not specified>`; no blocks are memoised yet |
| Scss.CommentParser.Blocks | styleguide/scss.py:42-45 | `blocks()` returns the blocks of the source, memoises them, and on later calls returns the memoised list |
| Scss.CommentParser.ParseBlocks | styleguide/scss.py:47-84 | the loop returns exactly the blocks of the scan over the source's lines, each of them trimmed |
| Kss.FindDeclarator | styleguide/kss.py:33 | the leftmost `Styleguide ` followed by a non-space at or after a position, or -1 when there is none |
| Kss.IsValidSectionMeaning | styleguide/kss.py:39-43 | a block is a valid section exactly when it contains a declarator; the empty block is not valid |
| Kss.SearchDeclarator | styleguide/kss.py:33 | `search(...).group(1)`: no result exactly when there is no declarator; a result is the whole non-space run right after the leftmost `Styleguide ` that is followed by a non-space |
| Kss.DeclaratorOnSomeLine | styleguide/kss.py:69-73 | a declarator in the text lies within one of its lines |
| Kss.DeclaratorStrip | styleguide/kss.py:50 | `strip()` neither adds nor removes a declarator |
| Kss.MinIndent | styleguide/kss.py:154-157 | the common indent never exceeds the starting cap of 9999 |
| Kss.MinIndentBounds | styleguide/kss.py:154-157 | the common indent is at most every non-blank line's indent, and it is the indent of a non-blank line that the lemma returns, or 9999 |
| Kss.TrimLeadingSpaces | styleguide/kss.py:152-164 | the two loops compute exactly `Trimmed` |
| Kss.TrimmedLineShape | styleguide/kss.py:158-163 | blank lines become empty; every other line loses exactly the common indent, which is whitespace, and stays non-blank |
| Kss.TrimmedSomeLineFlush | styleguide/kss.py:152-164 | some non-blank line comes out with no indent |
| Kss.DeclaratorTrim | styleguide/kss.py:50 | trimming the common indent neither adds nor removes a declarator |
| Kss.LastDeclaratorLine | styleguide/kss.py:70-73 | the last line that holds a declarator; no later line holds one |
| Kss.LastToken | styleguide/kss.py:70-73 | the position is the declarator token of the last line holding a declarator, so a later declarator wins; it is missing exactly when no line has a declarator |
| Kss.ParsePosition | styleguide/kss.py:66-76 | the loop computes `ParsedPosition`: the blocks re-split without the declarator lines, and the last declarator's token |
| Kss.PositionRemovesDeclarators | styleguide/kss.py:66-76 | no block left after position parsing contains a declarator |
| Kss.PositionFoundIffDeclarator | styleguide/kss.py:66-76 | a position is found exactly when the joined blocks contain a declarator |
| Kss.StartsTemplateStrip | styleguide/kss.py:120 | a block starts a template exactly when its stripped text is non-empty and begins with `<` |
| Kss.TemplateStart | styleguide/kss.py:119-123 | the index of the first block whose stripped text starts with `<`; no earlier block does |
| Kss.ParseTemplate | styleguide/kss.py:114-126 | the blocks before the first template block are kept; the raw template is every later block, indent-trimmed, joined by blank lines; the template is its rendering with an empty modifier |
| Kss.NoTemplateBlock | styleguide/kss.py:114-126 | without a template block every block is kept and the raw template is empty |
| Kss.TemplateTakesTheRest | styleguide/kss.py:119-126 | once a template block is seen, every later block goes to the template: the first template block is no later than it, and its indent-trimmed text is the piece at its offset in the sequence the raw template is joined from |
| Kss.ModifierBlockFirst | styleguide/kss.py:82-86 | no block before the modifier block contains ` - ` |
| Kss.ModifierBlockFound | styleguide/kss.py:82-86 | the modifier block, when there is one, contains ` - ` |
| Kss.OtherBlocks | styleguide/kss.py:82-86 | all blocks are kept when none holds ` - `; otherwise exactly the modifier block is removed: the blocks before it keep their places and every later block moves up by one, in order |
| Kss.OnlyFirstModifierBlock | styleguide/kss.py:83 | a later block holding ` - ` is kept as an ordinary block |
| Kss.ModifierLine | styleguide/kss.py:91-110 | one line keeps the loop state coherent; its only failure is the unpack error on that line |
| Kss.ContinuationLine | styleguide/kss.py:92-93 | a line indented deeper than a non-zero last indent is appended to the last modifier's description; nothing else changes |
| Kss.NoContinuationAfterZeroIndent | styleguide/kss.py:92 | after a zero or cleared indent no description is extended; a line adds at most one modifier |
| Kss.TwoSeparatorsFail | styleguide/kss.py:95 | a non-continuation line with two ` - ` separators fails to unpack |
| Kss.NewModifierLine | styleguide/kss.py:94-108 | a line that is not a continuation and splits on ` - ` into exactly two parts appends exactly the modifier made from that line and sets the last indent to the line's indent |
| Kss.ResetLine | styleguide/kss.py:94-110 | a line that is not a continuation and holds no ` - ` adds nothing and clears the last indent |
| Kss.LineModifier | styleguide/kss.py:95-107 | the modifier of a line that splits on ` - ` into exactly two parts: selector and description joined by ` - ` give back the line, and neither holds ` - `; its template is the raw template rendered for the selector without leading dots |
| Kss.ModifiersOnePerLine | styleguide/kss.py:88-110 | when no line continues a description and every ` - ` line splits into two parts, the fold yields exactly the modifiers of the ` - ` lines, in order, each made from its line; the last indent is that of the last line if it holds ` - `, else 0 |
| Kss.ScanModifiers | styleguide/kss.py:88-110 | the fold over the modifier block's lines yields at most one modifier per line, each rendered from the raw template with its selector's leading dots removed; it can fail only with an unpack error |
| Kss.ModifiersOf | styleguide/kss.py:78-112 | on success, the other blocks and well-formed modifiers; without a modifier block, the blocks unchanged and no modifiers |
| Kss.ModifiersOfBlock | styleguide/kss.py:78-112 | under the same conditions on the modifier block's lines, the result is the other blocks and exactly the modifiers of the block's ` - ` lines, in order |
| Kss.TwoModifierLines | styleguide/kss.py:78-112 | a title block and a block of two `selector - description` lines ending in a newline give the title block back and the two modifiers, in order, with their templates rendered; the trailing empty line only clears the last indent |
| Kss.ModifierListExample | styleguide/tests.py:56-77 | the `.emphasis`/`.subtle` example, with the modifier paragraph as position parsing leaves it (its two lines and a trailing newline), gives the title block back and the two modifiers with their selectors and descriptions; the code renders the templates `emphasis` and `subtle` where the test expects `None` |
| Kss.ParseModifierLines | styleguide/kss.py:88-110 | the loop over the modifier block's lines, with its early exit on the unpack error, computes exactly `ScanModifiers` |
| Kss.ScanErrorSticks | styleguide/kss.py:95 | once a line fails to unpack, later lines do not change the outcome |
| Kss.ParseModifiers | styleguide/kss.py:78-112 | the method, with its early exit on the unpack error, computes exactly `ModifiersOf` |
| Kss.Paragraphs | styleguide/kss.py:50 | trimming, stripping and splitting on blank lines always yields at least one block |
| Kss.ParagraphsKeepDeclarator | styleguide/kss.py:50 | the paragraphs, joined again, contain a declarator exactly when the comment does |
| Kss.ParseTitle | styleguide/kss.py:128-129 | the title is `blocks[0].strip()` (trimmed, and empty exactly when that block is blank), and the rest are the remaining blocks; without blocks it fails with `MissingTitle` |
| Kss.Assemble | styleguide/kss.py:52-64 | a section is produced only when a position was found. Its fields come from their stages: the template is the raw template rendered with an empty modifier; the modifiers and other blocks are those `_parse_modifiers` gives for the blocks before the template; the title is the first other block stripped; the description is the reStructuredText rendering of the remaining blocks joined by blank lines; the position has its trailing dots removed. On failure the error is the modifier error, else `MissingTitle` when no block is left, else `MissingPosition` |
| Kss.ParseSection | styleguide/kss.py:45-64 | a parsed section has a trimmed title and a position without trailing dots |
| Kss.PositionFoundIffValid | styleguide/kss.py:39-52 | parsing finds a position exactly when `is_valid_section` holds |
| Kss.ValidSectionHasPosition | styleguide/kss.py:39-64 | a valid section never fails for a missing position, and any section that parses was valid |
| Kss.TemplateFirstMeansNoTitle | styleguide/kss.py:53-55 | when the first block after the position is a template, no block is left for the title |
| Kss.NoTemplateRendersEmpty | styleguide/kss.py:97-102 | without template blocks the section template is the rendering of the empty template, and every modifier's template is that rendering for its class |
| Models.MakeSection | styleguide/models.py:39-44 | the stored position is the given one without its trailing dots; the other fields are kept |
| Models.Depth | styleguide/models.py:49-50 | the depth is zero exactly when the position has no dot |
| Models.DepthIsSegmentsMinusOne | styleguide/models.py:49-50 | the depth is the number of dot-separated segments minus one |
| Models.DropTrailingZeros | styleguide/models.py:46-47 | the version key drops only trailing zero components, and is empty or ends in a non-zero component |
| Models.KeyLessIrreflexive | styleguide/models.py:46-47 | no key comes before itself |
| Models.KeyLessTransitive | styleguide/models.py:46-47 | the key order is transitive |
| Models.KeyLessAsymmetric | styleguide/models.py:46-47 | the key order is asymmetric |
| Models.KeyLessTotal | styleguide/models.py:46-47 | any two different keys are ordered |
| Models.PrefixFirst | styleguide/models.py:46-47 | a key comes before each of its extensions |
| Models.KeyOfTwo | styleguide/models.py:46-47 | a two-segment position has the key of its two segments' values |
| Models.KeyOfThree | styleguide/models.py:46-47 | a three-segment position has the key of its three segments' values |
| Models.DocumentedOrder | styleguide/tests.py:129-140 | 1.1 < 1.1.1 < 1.1.2 < 1.2 < 1.11 < 1.21 |
| Models.TrailingZeroIgnored | styleguide/models.py:46-47 | `1.0` and `1` have the same key |
| Models.GetSections | styleguide/models.py:15-21 | an empty position returns every section; otherwise a section is returned exactly when its position is the requested one without trailing dots, or extends it by a dot-led suffix |
| Models.GetSectionsInOrder | styleguide/models.py:15-21 | the returned sections are the stored ones at strictly increasing indices, each taken once, and an index is used exactly when its section is at or under the requested position |
| Models.PrefixIsSegmentWise | styleguide/models.py:17-19 | `1.1` takes in `1.1` and `1.1.2` but not `1.11`; trailing dots on the request make no difference |
| Models.GetRootSections | styleguide/models.py:23-24 | exactly the sections whose position has no dot |
| Models.GetRootSectionsInOrder | styleguide/models.py:23-24 | the returned sections are the stored ones at strictly increasing indices, each taken once, and an index is used exactly when its position has no dot |
| Builder.Insert | styleguide/builder.py:27 | insertion, for any key, adds exactly the one element |
| Builder.SortBy | styleguide/builder.py:27 | `sorted(key=...)`, for any key, returns a permutation of its input |
| Builder.SortByPosition | styleguide/builder.py:27 | sorting by position key gives a permutation of the input in non-decreasing key order |
| Builder.InsertSorted | styleguide/builder.py:27 | for any key, insertion into a sorted sequence keeps it sorted |
| Builder.SortSorted | styleguide/builder.py:27 | for any key, the sorted sequence is in non-decreasing key order |
| Builder.InsertStable | styleguide/builder.py:27 | insertion places the new element after every element with the same key |
| Builder.SortStable | styleguide/builder.py:27 | `sorted` is stable: for any key, the elements with one key value keep their input order |
| Builder.SortKeepsSorted | styleguide/builder.py:27 | a sequence already in key order is left as it is |
| Builder.ChainSorted | styleguide/builder.py:27 | a sequence whose keys strictly increase is sorted |
| Builder.DocumentedOrderSorted | styleguide/tests.py:129-140 | sorting the six sections 1.1, 1.1.1, 1.1.2, 1.2, 1.11, 1.21 leaves them in that order |
| Builder.ParsedValid | styleguide/builder.py:20-24 | on success, one section per valid comment, in order, each the parse of that comment |
| Builder.ParsedValidErrorSticks | styleguide/builder.py:20-24 | the first failing comment decides the outcome |
| Builder.GetStyleGuide | styleguide/builder.py:15-31 | the loop computes exactly `BuiltStyleGuide`: the parsed valid comments, sorted by position, under the title "Style Guide", or the first parse error |
| Builder.BuiltGuide | styleguide/builder.py:15-31 | a built guide is titled "Style Guide", and holds one section per valid comment, a permutation of the parsed sections. They are sorted by position, and sections with equal keys keep their comment order |
| Builder.BuildErrors | styleguide/builder.py:20-24 | a build error is never a missing position; it is the parse error of the valid comment whose index the lemma returns |

## Left out

- The comment collector (`styleguide/collector.py`), the views and the URL configuration are not part of this model. The builder takes the list of comment blocks as a parameter.
- Django template rendering and docutils reStructuredText rendering are opaque parameters (`Renderers`). Their output, their error handling and the HTML they produce are not modelled. A template that fails to compile, which would raise, is not modelled.
- Models.Key: only positions made of dot-separated digit runs are modelled, with trailing zero components dropped. The pre-release, post-release and legacy-string forms of `parse_version` are not modelled. A non-digit character counts as 0 inside a segment.
- The regular-expression engine is not modelled in general. Each pattern the code uses is written out as its own function, and lemmas state what each means.
- Text is modelled as ASCII without the `\x1c`-`\x1f` separators. Stylesheets are read as byte strings (`styleguide/collector.py:89-90`). On such text the `unicode()` conversion and the `+=` onto a `unicode` buffer in `styleguide/scss.py:59,61` leave the values unchanged. On other text, Python 2 raises `UnicodeDecodeError` when a non-ASCII `//` comment is converted or appended. That error path is not modelled. Neither is `unicode.strip()`'s wider whitespace set, which the `strip()` calls in `styleguide/kss.py` use once a block has become `unicode`.
- Logging, `__unicode__`/`__repr__` and `preserve_whitespace` are left out. They do not affect the computed values.
- Kss.TrimmedSomeLineFlush: the statement needs a non-blank line whose indent is at most 9999. Beyond that cap the code trims only 9999 characters, and no line comes out flush.
- Kss.ParseSection: the contract states the shape of a parsed section. How the description is rendered is left to the reStructuredText parameter.
- Scss.Normalize: it is stated equal to `Normalized`. Only the trimmed shape of the result and the per-line unindent and gutter lemmas are proved about it. A full round trip from an indented block back to its text is not stated.
- Builder.SortByPosition: it is modelled as a stable insertion sort over values. Python's timsort is only required to be stable and ordered, and that is what is proved.
- Python's `None` as raw template never reaches `_parse_modifiers`, because `_parse_template` always returns a string. So the `raw_template is None` branch is not modelled.
