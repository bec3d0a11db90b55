// The builder: keeps the comment blocks that declare a position, parses
// each of them into a section and puts the sections, ordered by position,
// into a style guide.
module Builder {
  import opened Text
  import opened Models
  import opened Kss

  // ---------------------------------------------------------------------
  // `sorted(sections, key=comparable_position)`
  //
  // The sort is stated for any key function into release numbers, as
  // Python's `sorted` takes one; the builder passes PositionKey.

  // The key `get_style_guide` sorts by.
  function PositionKey(s: Section): seq<nat> {
    Key(s.position)
  }

  // Elements in non-decreasing key order.
  predicate SortedBy<T>(s: seq<T>, key: T -> seq<nat>) {
    forall i, j :: 0 <= i < j < |s| ==> !KeyLess(key(s[j]), key(s[i]))
  }

  // Sections in non-decreasing position order.
  predicate Sorted(s: seq<Section>) {
    SortedBy(s, PositionKey)
  }

  // Puts `x` after every element whose key is not greater than its own.
  function Insert<T>(x: T, t: seq<T>, key: T -> seq<nat>): (r: seq<T>)
    ensures |r| == |t| + 1
    ensures multiset(r) == multiset(t) + multiset{x}
  {
    if t == [] then [x]
    else if KeyLess(key(x), key(t[0])) then [x] + t
    else
      assert t == [t[0]] + t[1..];
      [t[0]] + Insert(x, t[1..], key)
  }

  // Python's `sorted`, which is stable: insertion of each element in turn.
  function SortBy<T>(s: seq<T>, key: T -> seq<nat>): (r: seq<T>)
    ensures |r| == |s|
    ensures multiset(r) == multiset(s)
  {
    if s == [] then []
    else
      var init := s[..|s| - 1];
      assert s == init + [s[|s| - 1]];
      Insert(s[|s| - 1], SortBy(init, key), key)
  }

  // The sort `get_style_guide` applies: by position, keeping every section.
  function SortByPosition(s: seq<Section>): (r: seq<Section>)
    ensures multiset(r) == multiset(s)
    ensures Sorted(r)
  {
    SortSorted(s, PositionKey);
    SortBy(s, PositionKey)
  }

  lemma {:induction false} InsertSorted<T>(x: T, t: seq<T>, key: T -> seq<nat>)
    requires SortedBy(t, key)
    ensures SortedBy(Insert(x, t, key), key)
  {
    if t == [] {
    } else if KeyLess(key(x), key(t[0])) {
      var r := [x] + t;
      forall i, j | 0 <= i < j < |r| ensures !KeyLess(key(r[j]), key(r[i])) {
        if i == 0 {
          OrderAfterHead(t, j - 1, key);
          if KeyLess(key(t[j - 1]), key(x)) {
            KeyLessTransitive(key(t[j - 1]), key(x), key(t[0]));
            KeyLessIrreflexive(key(t[0]));
          }
        }
      }
    } else {
      InsertSorted(x, t[1..], key);
      var rest := Insert(x, t[1..], key);
      KeyLessTotal(key(x), key(t[0]));
      forall j | 0 <= j < |rest| ensures !KeyLess(key(rest[j]), key(t[0])) {
        InsertFrom(x, t[1..], j, key);
        if rest[j] != x {
          var m :| 0 <= m < |t[1..]| && rest[j] == t[1..][m];
          assert t[m + 1] == rest[j];
        }
      }
    }
  }

  // In a sorted list nothing comes before the head.
  lemma OrderAfterHead<T>(t: seq<T>, j: nat, key: T -> seq<nat>)
    requires SortedBy(t, key) && j < |t|
    ensures !KeyLess(key(t[j]), key(t[0]))
  {
    if j == 0 {
      KeyLessIrreflexive(key(t[0]));
    }
  }

  // Every element of an insertion is the inserted element or one of the list.
  lemma InsertFrom<T>(x: T, t: seq<T>, j: nat, key: T -> seq<nat>)
    requires j < |Insert(x, t, key)|
    ensures Insert(x, t, key)[j] == x || Insert(x, t, key)[j] in t
  {
    assert Insert(x, t, key)[j] in multiset(Insert(x, t, key));
  }

  lemma {:induction false} SortSorted<T>(s: seq<T>, key: T -> seq<nat>)
    ensures SortedBy(SortBy(s, key), key)
  {
    if s != [] {
      SortSorted(s[..|s| - 1], key);
      InsertSorted(s[|s| - 1], SortBy(s[..|s| - 1], key), key);
    }
  }

  // The elements with one given key.
  function WithKey<T>(key: T -> seq<nat>, k: seq<nat>): T -> bool {
    (s: T) => key(s) == k
  }

  lemma FilterCons<T>(x: T, t: seq<T>, keep: T -> bool)
    ensures Filter([x] + t, keep) == (if keep(x) then [x] else []) + Filter(t, keep)
  {
    FilterAppend([x], t, keep);
    assert Filter([x], keep) == Filter([x][..0], keep) + (if keep(x) then [x] else []);
  }

  // Inserting into a sorted list puts the element after every element with
  // the same key.
  lemma {:induction false} InsertStable<T>(x: T, t: seq<T>, key: T -> seq<nat>, k: seq<nat>)
    requires SortedBy(t, key)
    ensures Filter(Insert(x, t, key), WithKey(key, k)) == Filter(t, WithKey(key, k)) + (if key(x) == k then [x] else [])
  {
    if t == [] {
      FilterCons(x, [], WithKey(key, k));
    } else if KeyLess(key(x), key(t[0])) {
      InsertFront(x, t, key, k);
    } else {
      var z := if key(x) == k then [x] else [];
      InsertStable(x, t[1..], key, k);
      assert t == [t[0]] + t[1..];
      assert Insert(x, t, key) == [t[0]] + Insert(x, t[1..], key);
      FilterConsBoth(t[0], Insert(x, t[1..], key), t[1..], z, WithKey(key, k));
    }
  }

  lemma InsertFront<T>(x: T, t: seq<T>, key: T -> seq<nat>, k: seq<nat>)
    requires SortedBy(t, key) && t != [] && KeyLess(key(x), key(t[0]))
    ensures Filter([x] + t, WithKey(key, k)) == Filter(t, WithKey(key, k)) + (if key(x) == k then [x] else [])
  {
    FilterCons(x, t, WithKey(key, k));
    if key(x) == k {
      AllGreater(k, t, key);
      FilterNone(t, WithKey(key, k));
    }
  }

  lemma FilterConsBoth<T>(h: T, a: seq<T>, b: seq<T>, z: seq<T>, keep: T -> bool)
    requires Filter(a, keep) == Filter(b, keep) + z
    ensures Filter([h] + a, keep) == Filter([h] + b, keep) + z
  {
    FilterCons(h, a, keep);
    FilterCons(h, b, keep);
    PrependAssoc(if keep(h) then [h] else [], Filter(a, keep), Filter(b, keep), z);
  }

  lemma PrependAssoc<T>(p: seq<T>, fa: seq<T>, fb: seq<T>, z: seq<T>)
    requires fa == fb + z
    ensures p + fa == (p + fb) + z
  {
  }

  // Every key of a sorted list whose head is above `k` is different from `k`.
  lemma AllGreater<T>(k: seq<nat>, t: seq<T>, key: T -> seq<nat>)
    requires SortedBy(t, key) && t != [] && KeyLess(k, key(t[0]))
    ensures forall j :: 0 <= j < |t| ==> !WithKey(key, k)(t[j])
  {
    forall j | 0 <= j < |t| ensures key(t[j]) != k {
      OrderAfterHead(t, j, key);
      KeyLessTotal(key(t[0]), key(t[j]));
      if KeyLess(key(t[0]), key(t[j])) {
        KeyLessTransitive(k, key(t[0]), key(t[j]));
      }
      KeyLessIrreflexive(k);
    }
  }

  lemma {:induction false} FilterNone<T>(s: seq<T>, keep: T -> bool)
    requires forall i :: 0 <= i < |s| ==> !keep(s[i])
    ensures Filter(s, keep) == []
  {
    if s != [] {
      FilterNone(s[..|s| - 1], keep);
    }
  }

  // The sort is stable: the elements with any one key come out in the
  // order they went in.
  lemma {:induction false} SortStable<T>(s: seq<T>, key: T -> seq<nat>, k: seq<nat>)
    ensures Filter(SortBy(s, key), WithKey(key, k)) == Filter(s, WithKey(key, k))
  {
    if s != [] {
      var init := s[..|s| - 1];
      SortStable(init, key, k);
      SortSorted(init, key);
      InsertStable(s[|s| - 1], SortBy(init, key), key, k);
    }
  }

  // An element no smaller than every other goes to the end.
  lemma {:induction false} InsertAtEnd<T>(x: T, t: seq<T>, key: T -> seq<nat>)
    requires forall i :: 0 <= i < |t| ==> !KeyLess(key(x), key(t[i]))
    ensures Insert(x, t, key) == t + [x]
  {
    if t != [] {
      InsertAtEnd(x, t[1..], key);
      assert t == [t[0]] + t[1..];
    }
  }

  // Elements already in key order come out as they went in.
  lemma {:induction false} SortKeepsSorted<T>(s: seq<T>, key: T -> seq<nat>)
    requires SortedBy(s, key)
    ensures SortBy(s, key) == s
  {
    if s != [] {
      var init := s[..|s| - 1];
      SortKeepsSorted(init, key);
      InsertAtEnd(s[|s| - 1], init, key);
      assert init + [s[|s| - 1]] == s;
    }
  }

  // Elements whose keys strictly increase from each to the next.
  predicate StrictChain<T>(s: seq<T>, key: T -> seq<nat>) {
    forall i :: 0 <= i < |s| - 1 ==> KeyLess(key(s[i]), key(s[i + 1]))
  }

  lemma {:induction false} ChainLess<T>(s: seq<T>, i: nat, j: nat, key: T -> seq<nat>)
    requires StrictChain(s, key) && i < j < |s|
    ensures KeyLess(key(s[i]), key(s[j]))
    decreases j - i
  {
    if i + 1 < j {
      ChainLess(s, i + 1, j, key);
      KeyLessTransitive(key(s[i]), key(s[i + 1]), key(s[j]));
    }
  }

  lemma ChainSorted<T>(s: seq<T>, key: T -> seq<nat>)
    requires StrictChain(s, key)
    ensures SortedBy(s, key)
  {
    forall i, j | 0 <= i < j < |s| ensures !KeyLess(key(s[j]), key(s[i])) {
      ChainLess(s, i, j, key);
      KeyLessAsymmetric(key(s[i]), key(s[j]));
    }
  }

  // Sections at 1.1, 1.1.1, 1.1.2, 1.2, 1.11 and 1.21, in that order, are
  // already in the order sorting puts them in.
  lemma DocumentedOrderSorted(s: seq<Section>)
    requires |s| == 6
    requires s[0].position == "1" + Dot + "1" && s[1].position == "1" + Dot + "1" + Dot + "1"
    requires s[2].position == "1" + Dot + "1" + Dot + "2" && s[3].position == "1" + Dot + "2"
    requires s[4].position == "1" + Dot + "11" && s[5].position == "1" + Dot + "21"
    ensures SortByPosition(s) == s
  {
    DocumentedOrder();
    ChainOfSix(s);
    ChainSorted(s, PositionKey);
    SortKeepsSorted(s, PositionKey);
  }

  lemma ChainOfSix(s: seq<Section>)
    requires |s| == 6
    requires KeyLess(Key(s[0].position), Key(s[1].position)) && KeyLess(Key(s[1].position), Key(s[2].position))
    requires KeyLess(Key(s[2].position), Key(s[3].position)) && KeyLess(Key(s[3].position), Key(s[4].position))
    requires KeyLess(Key(s[4].position), Key(s[5].position))
    ensures StrictChain(s, PositionKey)
  {
  }

  // ---------------------------------------------------------------------
  // `get_style_guide()`

  // The sections the loop collects: each valid block parsed, in collector
  // order, or the first parse failure.
  function ParsedValid(rs: Renderers, comments: seq<string>): (r: Result<seq<Section>, ParseError>)
    ensures r.Ok? ==> |r.value| == |Filter(comments, IsValidSection)|
    ensures r.Ok? ==> forall i :: 0 <= i < |r.value| ==> ParseSection(rs, Filter(comments, IsValidSection)[i]) == Ok(r.value[i])
  {
    if comments == [] then Ok([])
    else
      var n := |comments| - 1;
      var init := comments[..n];
      match ParsedValid(rs, init)
      case Err(e) => Err(e)
      case Ok(sections) =>
        var valid := Filter(init, IsValidSection);
        if !IsValidSection(comments[n]) then
          assert Filter(comments, IsValidSection) == valid;
          Ok(sections)
        else
          match ParseSection(rs, comments[n])
          case Err(e) => Err(e)
          case Ok(s) =>
            assert Filter(comments, IsValidSection) == valid + [comments[n]];
            ParsedSnoc(rs, valid, sections, comments[n], s);
            Ok(sections + [s])
  }

  lemma ParsedSnoc(rs: Renderers, valid: seq<string>, sections: seq<Section>, c: string, s: Section)
    requires |sections| == |valid|
    requires forall i :: 0 <= i < |sections| ==> ParseSection(rs, valid[i]) == Ok(sections[i])
    requires ParseSection(rs, c) == Ok(s)
    ensures forall i :: 0 <= i < |sections| + 1 ==> ParseSection(rs, (valid + [c])[i]) == Ok((sections + [s])[i])
  {
    forall i | 0 <= i < |sections| + 1
      ensures ParseSection(rs, (valid + [c])[i]) == Ok((sections + [s])[i])
    {
      if i < |sections| {
        assert (valid + [c])[i] == valid[i] && (sections + [s])[i] == sections[i];
      }
    }
  }

  function BuiltStyleGuide(rs: Renderers, comments: seq<string>): Result<StyleGuide, ParseError> {
    match ParsedValid(rs, comments)
    case Err(e) => Err(e)
    case Ok(sections) => Ok(StyleGuide("Style Guide", SortByPosition(sections)))
  }

  lemma {:induction false} ParsedValidErrorSticks(rs: Renderers, comments: seq<string>, i: nat)
    requires i <= |comments| && ParsedValid(rs, comments[..i]).Err?
    ensures ParsedValid(rs, comments) == ParsedValid(rs, comments[..i])
    decreases |comments| - i
  {
    if i == |comments| {
      assert comments[..i] == comments;
    } else {
      assert comments[..i + 1][..i] == comments[..i];
      ParsedValidErrorSticks(rs, comments, i + 1);
    }
  }

  method GetStyleGuide(rs: Renderers, comments: seq<string>) returns (r: Result<StyleGuide, ParseError>)
    ensures r == BuiltStyleGuide(rs, comments)
  {
    var sections: seq<Section> := [];
    for i := 0 to |comments|
      invariant ParsedValid(rs, comments[..i]) == Ok(sections)
    {
      assert comments[..i + 1][..i] == comments[..i];
      var rawSection := comments[i];
      if IsValidSection(rawSection) {
        var parsed := ParseSection(rs, rawSection);
        if parsed.Err? {
          ParsedValidErrorSticks(rs, comments, i + 1);
          return Err(parsed.error);
        }
        sections := sections + [parsed.value];
      }
    }
    assert comments[..|comments|] == comments;
    sections := SortByPosition(sections);
    r := Ok(StyleGuide("Style Guide", sections));
  }

  // A built guide is titled "Style Guide" and holds exactly the parsed valid
  // blocks, ordered by position, with blocks of equal position in collector
  // order.
  lemma BuiltGuide(rs: Renderers, comments: seq<string>)
    requires BuiltStyleGuide(rs, comments).Ok?
    ensures var g := BuiltStyleGuide(rs, comments).value;
      var parsed := ParsedValid(rs, comments).value;
      g.title == "Style Guide" &&
      |g.sections| == |Filter(comments, IsValidSection)| &&
      multiset(g.sections) == multiset(parsed) &&
      Sorted(g.sections) &&
      forall k :: Filter(g.sections, WithKey(PositionKey, k)) == Filter(parsed, WithKey(PositionKey, k))
  {
    var parsed := ParsedValid(rs, comments).value;
    forall k ensures Filter(SortByPosition(parsed), WithKey(PositionKey, k)) == Filter(parsed, WithKey(PositionKey, k)) {
      SortStable(parsed, PositionKey, k);
    }
  }

  // The builder fails only on a block it keeps, and never because a
  // position is missing.
  // The failing block is returned as `i`.
  lemma {:induction false} BuildErrors(rs: Renderers, comments: seq<string>) returns (i: nat)
    requires ParsedValid(rs, comments).Err?
    ensures ParsedValid(rs, comments).error != MissingPosition
    ensures i < |comments| && IsValidSection(comments[i])
    ensures ParseSection(rs, comments[i]) == Err(ParsedValid(rs, comments).error)
  {
    var n := |comments| - 1;
    var init := comments[..n];
    if ParsedValid(rs, init).Err? {
      i := BuildErrors(rs, init);
      assert init[i] == comments[i];
    } else {
      i := n;
      ValidSectionHasPosition(rs, comments[n]);
    }
  }
}
