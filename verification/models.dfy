// The parsed documentation: sections with a dotted position, the order of
// positions, and the style guide that holds the sections and filters them by
// position prefix or depth.
module Models {
  import opened Text

  // A documented variant of a style: the selector, its description and, when
  // the section has a raw template, the template rendered for this selector.
  datatype Modifier = Modifier(selector: string, description: string, template: Option<string>)

  datatype Section = Section(
    position: string,
    title: string,
    desc: string,
    modifiers: seq<Modifier>,
    template: string)

  datatype StyleGuide = StyleGuide(title: string, sections: seq<Section>)

  // ---------------------------------------------------------------------
  // Sections

  // `StyleGuideSection(...)`: the position is stored without its trailing dots.
  function MakeSection(position: string, title: string, desc: string, modifiers: seq<Modifier>, template: string): (s: Section)
    ensures s.position <= position
    ensures forall i :: |s.position| <= i < |position| ==> position[i] == '.'
    ensures s.position == [] || s.position[|s.position| - 1] != '.'
    ensures s.title == title && s.desc == desc && s.modifiers == modifiers && s.template == template
  {
    Section(RStripChar(position, '.'), title, desc, modifiers, template)
  }

  // `depth()`: the number of dots in the position.
  function Depth(s: Section): (d: nat)
    ensures d == 0 <==> '.' !in s.position
  {
    Count(s.position, '.')
  }

  // The depth is one less than the number of dot-separated segments.
  lemma DepthIsSegmentsMinusOne(s: Section)
    ensures Depth(s) == |Split(s.position, ".")| - 1
  {
    SplitCount(s.position, '.');
  }

  // ---------------------------------------------------------------------
  // Ordering: `comparable_position()`

  function DigitOf(c: char): nat {
    if '0' <= c <= '9' then (c as int - '0' as int) else 0
  }

  // Decimal value of a segment of digits.
  function DigitsValue(s: string): nat {
    if s == [] then 0 else DigitsValue(s[..|s| - 1]) * 10 + DigitOf(s[|s| - 1])
  }

  // The release number with trailing zero components dropped, as version
  // comparison does: "1.0" and "1" compare equal.
  function DropTrailingZeros(k: seq<nat>): (r: seq<nat>)
    ensures r <= k
    ensures r == [] || r[|r| - 1] != 0
    ensures forall i :: |r| <= i < |k| ==> k[i] == 0
  {
    if k != [] && k[|k| - 1] == 0 then DropTrailingZeros(k[..|k| - 1]) else k
  }

  // `parse_version(position)` for positions made of dot-separated numbers.
  function SegmentValues(segments: seq<string>): (v: seq<nat>)
    ensures |v| == |segments|
  {
    if segments == [] then [] else [DigitsValue(segments[0])] + SegmentValues(segments[1..])
  }

  function Key(position: string): seq<nat> {
    DropTrailingZeros(SegmentValues(Split(position, ".")))
  }

  // Version order on release numbers: component by component, and a proper
  // prefix before its extensions.
  predicate KeyLess(a: seq<nat>, b: seq<nat>) {
    if a == [] then b != []
    else if b == [] then false
    else a[0] < b[0] || (a[0] == b[0] && KeyLess(a[1..], b[1..]))
  }

  lemma {:induction false} KeyLessIrreflexive(a: seq<nat>)
    ensures !KeyLess(a, a)
  {
    if a != [] {
      KeyLessIrreflexive(a[1..]);
    }
  }

  lemma {:induction false} KeyLessTransitive(a: seq<nat>, b: seq<nat>, c: seq<nat>)
    requires KeyLess(a, b) && KeyLess(b, c)
    ensures KeyLess(a, c)
  {
    if a != [] && a[0] == b[0] && b[0] == c[0] {
      KeyLessTransitive(a[1..], b[1..], c[1..]);
    }
  }

  lemma {:induction false} KeyLessAsymmetric(a: seq<nat>, b: seq<nat>)
    requires KeyLess(a, b)
    ensures !KeyLess(b, a)
  {
    if a != [] && a[0] == b[0] {
      KeyLessAsymmetric(a[1..], b[1..]);
    }
  }

  // Any two different release numbers are ordered one way or the other.
  lemma {:induction false} KeyLessTotal(a: seq<nat>, b: seq<nat>)
    ensures a == b || KeyLess(a, b) || KeyLess(b, a)
  {
    if a != [] && b != [] && a[0] == b[0] {
      KeyLessTotal(a[1..], b[1..]);
      if a[1..] == b[1..] {
        assert a == [a[0]] + a[1..] && b == [b[0]] + b[1..];
      }
    }
  }

  // A release number comes before each of its extensions.
  lemma {:induction false} PrefixFirst(a: seq<nat>, b: seq<nat>)
    requires b != []
    ensures KeyLess(a, a + b)
  {
    if a != [] {
      assert (a + b)[1..] == a[1..] + b;
      PrefixFirst(a[1..], b);
    }
  }

  lemma KeyOfTwo(x: string, y: string)
    requires '.' !in x && '.' !in y && DigitsValue(y) != 0
    ensures Key(x + "." + y) == [DigitsValue(x), DigitsValue(y)]
  {
    SplitOfTwo(x, y);
    SegmentValuesOfTwo(x, y);
    NonZeroLastKept([DigitsValue(x), DigitsValue(y)]);
  }

  lemma KeyOfThree(x: string, y: string, z: string)
    requires '.' !in x && '.' !in y && '.' !in z && DigitsValue(z) != 0
    ensures Key(x + "." + y + "." + z) == [DigitsValue(x), DigitsValue(y), DigitsValue(z)]
  {
    SplitOfThree(x, y, z);
    SegmentValuesOfThree(x, y, z);
    NonZeroLastKept([DigitsValue(x), DigitsValue(y), DigitsValue(z)]);
  }

  lemma SplitOfTwo(x: string, y: string)
    requires '.' !in x && '.' !in y
    ensures Split(x + "." + y, ".") == [x, y]
  {
    assert Join(".", [x, y]) == x + "." + y;
    SplitJoinChar([x, y], '.');
  }

  lemma SegmentValuesOfTwo(x: string, y: string)
    ensures SegmentValues([x, y]) == [DigitsValue(x), DigitsValue(y)]
  {
    assert SegmentValues([y]) == [DigitsValue(y)] by {
      SegmentValuesCons(y, []);
      assert [y] + [] == [y];
    }
    SegmentValuesCons(x, [y]);
    assert [x] + [y] == [x, y];
  }

  lemma SegmentValuesOfThree(x: string, y: string, z: string)
    ensures SegmentValues([x, y, z]) == [DigitsValue(x), DigitsValue(y), DigitsValue(z)]
  {
    SegmentValuesOfTwo(y, z);
    SegmentValuesCons(x, [y, z]);
    assert [x] + [y, z] == [x, y, z];
  }

  lemma SegmentValuesCons(x: string, rest: seq<string>)
    ensures SegmentValues([x] + rest) == [DigitsValue(x)] + SegmentValues(rest)
  {
    assert ([x] + rest)[1..] == rest;
  }

  lemma NonZeroLastKept(k: seq<nat>)
    requires k != [] && k[|k| - 1] != 0
    ensures DropTrailingZeros(k) == k
  {
  }

  lemma SplitOfThree(x: string, y: string, z: string)
    requires '.' !in x && '.' !in y && '.' !in z
    ensures Split(x + "." + y + "." + z, ".") == [x, y, z]
  {
    assert Join(".", [x, y, z]) == x + "." + y + "." + z by {
      JoinCons(".", x, [y, z]);
      assert Join(".", [y, z]) == y + "." + z;
    }
    SplitJoinChar([x, y, z], '.');
  }

  lemma SmallDigits()
    ensures DigitsValue("1") == 1 && DigitsValue("2") == 2
    ensures DigitsValue("11") == 11 && DigitsValue("21") == 21
  {
    assert "11"[..1] == "1";
    assert "21"[..1] == "2";
  }

  // The separator of position segments. The example positions below are
  // written with it so that the verifier reasons about them through
  // KeyOfTwo and KeyOfThree rather than by evaluating Key on a literal.
  const Dot: string := "."

  // The order the sections of a style guide are expected in:
  // 1.1 < 1.1.1 < 1.1.2 < 1.2 < 1.11 < 1.21.
  lemma DocumentedOrder()
    ensures KeyLess(Key("1" + Dot + "1"), Key("1" + Dot + "1" + Dot + "1"))
    ensures KeyLess(Key("1" + Dot + "1" + Dot + "1"), Key("1" + Dot + "1" + Dot + "2"))
    ensures KeyLess(Key("1" + Dot + "1" + Dot + "2"), Key("1" + Dot + "2"))
    ensures KeyLess(Key("1" + Dot + "2"), Key("1" + Dot + "11"))
    ensures KeyLess(Key("1" + Dot + "11"), Key("1" + Dot + "21"))
  {
    SmallDigits();
    KeyOfTwo("1", "1");
    KeyOfThree("1", "1", "1");
    KeyOfThree("1", "1", "2");
    KeyOfTwo("1", "2");
    KeyOfTwo("1", "11");
    KeyOfTwo("1", "21");
    assert [1, 1, 1][1..][1..] == [1] && [1, 1, 2][1..][1..] == [2];
  }

  // "1.0" and "1" are the same position for ordering.
  lemma TrailingZeroIgnored()
    ensures Key("1" + Dot + "0") == Key("1")
  {
    assert DigitsValue("0") == 0 && DigitsValue("1") == 1;
    assert Split("1" + Dot + "0", ".") == ["1", "0"] by {
      SplitJoinChar(["1", "0"], '.');
      assert Join(".", ["1", "0"]) == "1" + Dot + "0";
    }
    assert Split("1", ".") == ["1"] by {
      SplitJoinChar(["1"], '.');
    }
    assert SegmentValues(["0"]) == [0] by { assert ["0"][1..] == []; }
    assert SegmentValues(["1", "0"]) == [1, 0] by { assert ["1", "0"][1..] == ["0"]; }
    assert SegmentValues(["1"]) == [1] by { assert ["1"][1..] == []; }
    assert [1, 0][..1] == [1];
  }

  // ---------------------------------------------------------------------
  // The style guide

  // `^p($|\.)` searched in a position: the position is `p`, or `p` and a
  // final newline (where `$` also matches), or starts with `p` and a dot.
  predicate AtOrUnder(position: string, p: string) {
    position == p || position == p + "\n" || p + "." <= position
  }

  function Under(p: string): Section -> bool {
    (s: Section) => AtOrUnder(s.position, p)
  }

  // `get_sections(position)`
  function GetSections(g: StyleGuide, position: string): (r: seq<Section>)
    ensures position == "" ==> r == g.sections
    ensures position != "" ==> forall i :: 0 <= i < |r| ==>
      r[i] in g.sections && AtOrUnder(r[i].position, RStripChar(position, '.'))
    ensures position != "" ==> forall i :: 0 <= i < |g.sections| && AtOrUnder(g.sections[i].position, RStripChar(position, '.')) ==>
      g.sections[i] in r
  {
    if position != "" then Filter(g.sections, Under(RStripChar(position, '.'))) else g.sections
  }

  // "1.1" takes in "1.1" and "1.1.2" but not "1.11", and trailing dots on the
  // requested position make no difference.
  lemma PrefixIsSegmentWise(g: StyleGuide)
    ensures AtOrUnder("1.1", "1.1") && AtOrUnder("1.1.2", "1.1") && !AtOrUnder("1.11", "1.1")
    ensures GetSections(g, "1.1..") == GetSections(g, "1.1")
  {
    assert "1.11"[3] != '.';
    assert RStripChar("1.1..", '.') == "1.1";
    assert RStripChar("1.1", '.') == "1.1";
  }

  // `get_sections(position)` keeps the stored order: the result is the
  // sections at or under the position, each once, at increasing indices.
  lemma GetSectionsInOrder(g: StyleGuide, position: string) returns (idx: seq<nat>)
    requires position != ""
    ensures KeptInOrder(GetSections(g, position), g.sections, idx, Under(RStripChar(position, '.')))
    ensures forall j :: 0 <= j < |g.sections| ==>
      (AtOrUnder(g.sections[j].position, RStripChar(position, '.')) <==> j in idx)
  {
    idx := FilterIndices(g.sections, Under(RStripChar(position, '.')));
  }

  predicate IsRoot(s: Section) {
    Depth(s) == 0
  }

  // `get_root_sections()`: the sections of depth 0, in stored order.
  function GetRootSections(g: StyleGuide): (r: seq<Section>)
    ensures forall i :: 0 <= i < |r| ==> r[i] in g.sections && '.' !in r[i].position
    ensures forall i :: 0 <= i < |g.sections| && '.' !in g.sections[i].position ==> g.sections[i] in r
  {
    Filter(g.sections, IsRoot)
  }

  // `get_root_sections()` keeps the stored order: the result is the sections
  // whose position has no dot, each once, at increasing indices.
  lemma GetRootSectionsInOrder(g: StyleGuide) returns (idx: seq<nat>)
    ensures KeptInOrder(GetRootSections(g), g.sections, idx, IsRoot)
    ensures forall j :: 0 <= j < |g.sections| ==> ('.' !in g.sections[j].position <==> j in idx)
  {
    idx := FilterIndices(g.sections, IsRoot);
  }
}
