/**
 * The handful of Python string operations the style-guide pipeline is built
 * from, written out over `seq<char>`: `\s` and `str.strip()` whitespace, the
 * length of a `^\s*` match, `rstrip`/`lstrip`/`strip`, substring search,
 * `str.split(sep)`, `sep.join(parts)`, `rstrip(c)`/`lstrip(c)` and counting.
 */
module Text {

  datatype Option<+T> = None | Some(value: T)

  datatype Result<+T, +E> = Ok(value: T) | Err(error: E)

  /**
   * Python 2's `\s` (no UNICODE flag), which is also what a byte `str.strip()`
   * removes. On `unicode` text `strip()` also removes `\x1c`-`\x1f` and other
   * Unicode whitespace; the model treats text as ASCII without those
   * separators, where the two sets agree.
   */
  predicate IsSpace(c: char) {
    c == ' ' || c == '\t' || c == '\n' || c == '\r' || c == '\U{000B}' || c == '\U{000C}'
  }

  predicate AllSpace(s: string) {
    forall i :: 0 <= i < |s| ==> IsSpace(s[i])
  }

  lemma AllSpacePrefix(s: string, k: nat)
    requires AllSpace(s) && k <= |s|
    ensures AllSpace(s[..k])
  {
    assert forall i :: 0 <= i < k ==> s[..k][i] == s[i];
  }

  /** `s.strip() == ""`: the line holds only whitespace. */
  predicate IsBlank(s: string) {
    AllSpace(s)
  }

  /** No whitespace at either end: what `str.strip()` leaves behind. */
  predicate IsTrimmed(s: string) {
    s == [] || (!IsSpace(s[0]) && !IsSpace(s[|s| - 1]))
  }

  /** Length of the `^\s*` match: the run of leading whitespace. */
  function Indent(s: string): (n: nat)
    ensures n <= |s|
    ensures AllSpace(s[..n])
    ensures n < |s| ==> !IsSpace(s[n])
    ensures n == |s| <==> AllSpace(s)
  {
    if s != [] && IsSpace(s[0]) then 1 + Indent(s[1..]) else 0
  }

  /** The indent is the only split of `s` into whitespace and a non-whitespace start. */
  lemma {:induction false} IndentUnique(s: string, k: nat)
    requires k < |s| && AllSpace(s[..k]) && !IsSpace(s[k])
    ensures Indent(s) == k
  {
    if k > 0 {
      assert IsSpace(s[..k][0]);
      assert s[1..][..k - 1] == s[1..k];
      IndentUnique(s[1..], k - 1);
    }
  }

  /** A non-whitespace character lies at or after the end of the indent. */
  lemma {:induction false} IndentBound(s: string, i: nat)
    requires i < |s| && !IsSpace(s[i])
    ensures Indent(s) <= i
  {
    if i > 0 && IsSpace(s[0]) {
      IndentBound(s[1..], i - 1);
    }
  }

  /** `s.rstrip()` */
  function RStrip(s: string): (r: string)
    ensures r <= s
    ensures AllSpace(s[|r|..])
    ensures r == [] || !IsSpace(r[|r| - 1])
    ensures r == [] <==> AllSpace(s)
  {
    if s != [] && IsSpace(s[|s| - 1]) then
      var r := RStrip(s[..|s| - 1]);
      assert s[|r|..] == s[..|s| - 1][|r|..] + [s[|s| - 1]];
      r
    else s
  }

  /** A non-whitespace character survives `rstrip`. */
  lemma {:induction false} RStripBound(s: string, i: nat)
    requires i < |s| && !IsSpace(s[i])
    ensures i < |RStrip(s)|
  {
    if IsSpace(s[|s| - 1]) {
      RStripBound(s[..|s| - 1], i);
    }
  }

  /** `s.lstrip()` */
  function LStrip(s: string): (r: string)
    ensures |r| <= |s| && r == s[|s| - |r|..]
    ensures AllSpace(s[..|s| - |r|])
    ensures r == [] || !IsSpace(r[0])
    ensures r == [] <==> AllSpace(s)
  {
    s[Indent(s)..]
  }

  /** `s.strip()` */
  function Strip(s: string): (r: string)
    ensures IsTrimmed(r)
    ensures r == [] <==> IsBlank(s)
  {
    var t := RStrip(s);
    var r := LStrip(t);
    assert r != [] ==> r[|r| - 1] == t[|t| - 1];
    r
  }

  lemma SliceSnoc<T>(s: seq<T>, a: nat, b: nat)
    requires a <= b < |s|
    ensures s[a..b + 1] == s[a..b] + [s[b]]
  {
  }

  lemma AppendAssoc<T>(a: seq<T>, b: seq<T>, c: seq<T>)
    ensures (a + b) + c == a + (b + c)
  {
  }

  /** Removing the element at `k` shifts every later element down by one. */
  lemma RemovedIndexAfter<T>(s: seq<T>, k: nat, j: nat)
    requires k < j < |s|
    ensures (s[..k] + s[k + 1..])[j - 1] == s[j]
  {
  }

  lemma TakeDrop<T>(s: seq<T>, k: nat)
    requires k <= |s|
    ensures s == s[..k] + s[k..]
  {
  }

  lemma SplitAround<T>(s: seq<T>, i: nat)
    requires i < |s|
    ensures s == s[..i] + [s[i]] + s[i + 1..]
  {
  }

  lemma AppendDropFirst<T>(a: seq<T>, b: seq<T>)
    requires a != []
    ensures (a + b)[1..] == a[1..] + b && (a + b)[0] == a[0]
  {
  }

  lemma AppendLast<T>(a: seq<T>, b: seq<T>)
    requires b != []
    ensures a + b == (a + b[..|b| - 1]) + [b[|b| - 1]]
  {
  }

  lemma PrefixTake<T>(t: seq<T>, s: seq<T>, k: nat)
    requires t <= s && k < |t|
    ensures t[..k] == s[..k] && t[k] == s[k]
  {
    assert forall i :: 0 <= i < k ==> t[..k][i] == s[..k][i];
  }

  /** `s.strip()` is the stretch of `s` from the indent of `s.rstrip()` to its end. */
  lemma StripSlice(s: string)
    ensures Indent(RStrip(s)) <= |RStrip(s)| <= |s|
    ensures Strip(s) == s[Indent(RStrip(s))..|RStrip(s)|]
  {
    var r := RStrip(s);
    SliceOfPrefix(r, s, Indent(r));
  }

  lemma SliceOfPrefix<T>(r: seq<T>, s: seq<T>, a: nat)
    requires r <= s && a <= |r|
    ensures r[a..] == s[a..|r|]
  {
    assert forall i :: 0 <= i < |r| - a ==> r[a..][i] == s[a..|r|][i];
  }

  /** `s.strip()` starts at the end of the indent. */
  lemma StripFirst(s: string)
    ensures Strip(s) != [] <==> Indent(s) < |s|
    ensures Strip(s) != [] ==> Strip(s)[0] == s[Indent(s)]
  {
    var k := Indent(s);
    if k < |s| {
      RStripBound(s, k);
      var t := RStrip(s);
      PrefixTake(t, s, k);
      IndentUnique(t, k);
      assert LStrip(t) == t[k..];
      assert Strip(s) == LStrip(t);
    } else {
      assert IsBlank(s);
    }
  }

  /** `s.rstrip(c)`: drops every trailing `c`. */
  function RStripChar(s: string, c: char): (r: string)
    ensures r <= s
    ensures forall i :: |r| <= i < |s| ==> s[i] == c
    ensures r == [] || r[|r| - 1] != c
  {
    if s != [] && s[|s| - 1] == c then RStripChar(s[..|s| - 1], c) else s
  }

  /** `s.lstrip(c)`: drops every leading `c`. */
  function LStripChar(s: string, c: char): (r: string)
    ensures |r| <= |s| && r == s[|s| - |r|..]
    ensures forall i :: 0 <= i < |s| - |r| ==> s[i] == c
    ensures r == [] || r[0] != c
  {
    if s != [] && s[0] == c then LStripChar(s[1..], c) else s
  }

  /** Number of occurrences of `c` in `s`. */
  function Count(s: string, c: char): (n: nat)
    ensures n <= |s|
    ensures n == 0 <==> c !in s
  {
    if s == [] then 0 else (if s[0] == c then 1 else 0) + Count(s[1..], c)
  }

  lemma {:induction false} CountAppend(a: string, b: string, c: char)
    ensures Count(a + b, c) == Count(a, c) + Count(b, c)
  {
    if a == [] {
      assert a + b == b;
    } else {
      assert (a + b)[1..] == a[1..] + b;
      CountAppend(a[1..], b, c);
    }
  }

  predicate OccursAt(s: string, t: string, i: int) {
    0 <= i && i + |t| <= |s| && s[i..i + |t|] == t
  }

  /** `t in s` */
  predicate Contains(s: string, t: string) {
    exists i | 0 <= i <= |s| - |t| :: OccursAt(s, t, i)
  }

  /** `s.find(t)`: the first occurrence of `t`, or -1. */
  function IndexOf(s: string, t: string): (r: int)
    ensures r >= -1
    ensures r >= 0 ==> OccursAt(s, t, r)
    ensures forall j :: 0 <= j < (if r < 0 then |s| + 1 else r) ==> !OccursAt(s, t, j)
    decreases |s|
  {
    if |s| < |t| then -1
    else if t <= s then 0
    else if s == [] then -1
    else
      var r := IndexOf(s[1..], t);
      assert !OccursAt(s, t, 0) by {
        assert s[0..|t|] == s[..|t|];
      }
      NoOccurrenceShifted(s, t, if r < 0 then |s| else r);
      if r < 0 then -1
      else
        assert s[1..][r..r + |t|] == s[r + 1..r + 1 + |t|];
        r + 1
  }

  // An occurrence in `s[1..]` is one in `s`, one place further on.
  lemma OccursShift(s: string, t: string, i: nat)
    requires s != []
    ensures OccursAt(s[1..], t, i) <==> OccursAt(s, t, i + 1)
  {
    if i + |t| <= |s| - 1 {
      assert s[1..][i..i + |t|] == s[i + 1..i + 1 + |t|];
    }
  }

  // A prefix is an occurrence at 0.
  lemma OccursAtStart(s: string, t: string)
    ensures t <= s[0..] <==> OccursAt(s, t, 0)
  {
    if |t| <= |s| {
      assert s[0..][..|t|] == s[0..|t|];
    }
  }

  // An occurrence-free prefix of `s[1..]` is one of `s` once shifted by one.
  lemma NoOccurrenceShifted(s: string, t: string, n: int)
    requires s != [] && !OccursAt(s, t, 0)
    requires forall j :: 0 <= j < n ==> !OccursAt(s[1..], t, j)
    ensures forall j :: 0 <= j < n + 1 ==> !OccursAt(s, t, j)
  {
    forall j | 1 <= j < n + 1
      ensures !OccursAt(s, t, j)
    {
      assert !OccursAt(s[1..], t, j - 1);
      if j + |t| <= |s| {
        assert s[1..][j - 1..j - 1 + |t|] == s[j..j + |t|];
      }
    }
  }

  lemma IndexOfContains(s: string, t: string)
    ensures Contains(s, t) <==> IndexOf(s, t) >= 0
  {
    var r := IndexOf(s, t);
    if r >= 0 {
      assert s[r..r + |t|] == t;
    }
  }

  /** `s.split(sep)`: cut at every non-overlapping occurrence of `sep`, left to right. */
  function Split(s: string, sep: string): (parts: seq<string>)
    requires sep != []
    ensures |parts| >= 1
    decreases |s|
  {
    var i := IndexOf(s, sep);
    if i < 0 then [s] else [s[..i]] + Split(s[i + |sep|..], sep)
  }

  /** `sep.join(parts)` */
  function Join(sep: string, parts: seq<string>): string {
    if |parts| == 0 then ""
    else if |parts| == 1 then parts[0]
    else parts[0] + sep + Join(sep, parts[1..])
  }

  /** Splitting and joining again gives back the string. */
  lemma {:induction false} JoinSplit(s: string, sep: string)
    requires sep != []
    ensures Join(sep, Split(s, sep)) == s
    decreases |s|
  {
    var i := IndexOf(s, sep);
    if i >= 0 {
      var rest := s[i + |sep|..];
      JoinSplit(rest, sep);
      CutAt(s, sep, i);
      JoinCons(sep, s[..i], Split(rest, sep));
    }
  }

  lemma CutAt(s: string, sep: string, i: nat)
    requires OccursAt(s, sep, i)
    ensures s == s[..i] + sep + s[i + |sep|..]
  {
    assert s == s[..i] + s[i..i + |sep|] + s[i + |sep|..];
  }

  lemma JoinCons(sep: string, head: string, tail: seq<string>)
    requires |tail| >= 1
    ensures Join(sep, [head] + tail) == head + sep + Join(sep, tail)
  {
    assert ([head] + tail)[1..] == tail;
  }

  /** Joining one more piece adds the separator and the piece. */
  lemma {:induction false} JoinSnoc(sep: string, parts: seq<string>, x: string)
    requires parts != []
    ensures Join(sep, parts + [x]) == Join(sep, parts) + sep + x
    decreases |parts|
  {
    if |parts| == 1 {
      assert (parts + [x])[1..] == [x];
    } else {
      assert (parts + [x])[1..] == parts[1..] + [x];
      JoinSnoc(sep, parts[1..], x);
    }
  }

  /** No piece that `split` returns still holds the separator. */
  lemma {:induction false} SplitPartsFree(s: string, sep: string)
    requires sep != []
    ensures forall p :: p in Split(s, sep) ==> !Contains(p, sep)
    decreases |s|
  {
    var i := IndexOf(s, sep);
    if i >= 0 {
      SplitPartsFree(s[i + |sep|..], sep);
      HeadBeforeFirstFree(s, sep, i);
    } else {
      IndexOfContains(s, sep);
    }
  }

  // The text before the first occurrence of `sep` does not contain it.
  lemma HeadBeforeFirstFree(s: string, sep: string, i: int)
    requires sep != [] && 0 <= i == IndexOf(s, sep)
    ensures !Contains(s[..i], sep)
  {
    var head := s[..i];
    forall j | 0 <= j <= |head| - |sep|
      ensures !OccursAt(head, sep, j)
    {
      assert !OccursAt(s, sep, j);
      assert head[j..j + |sep|] == s[j..j + |sep|];
    }
  }

  /**
   * For a one-character separator, splitting a join of pieces that do not
   * hold that character gives back the pieces.
   */
  lemma {:induction false} SplitJoinChar(parts: seq<string>, c: char)
    requires |parts| >= 1
    requires forall k :: 0 <= k < |parts| ==> c !in parts[k]
    ensures Split(Join([c], parts), [c]) == parts
  {
    var s := Join([c], parts);
    if |parts| == 1 {
      forall j | 0 <= j < |s| ensures !OccursAt(s, [c], j) {
        assert s[j..j + 1][0] == s[j];
      }
    } else {
      var rest := Join([c], parts[1..]);
      assert s == parts[0] + [c] + rest;
      var n := |parts[0]|;
      assert OccursAt(s, [c], n);
      forall j | 0 <= j < n ensures !OccursAt(s, [c], j) {
        assert s[j] == parts[0][j];
      }
      assert IndexOf(s, [c]) == n;
      assert s[..n] == parts[0];
      assert s[n + 1..] == rest;
      SplitJoinChar(parts[1..], c);
    }
  }

  /** The pieces `split("\n")` returns hold no newline. */
  lemma SplitLinesNoNewline(s: string)
    ensures forall k :: 0 <= k < |Split(s, "\n")| ==> '\n' !in Split(s, "\n")[k]
  {
    SplitPartsFree(s, "\n");
    forall k | 0 <= k < |Split(s, "\n")| ensures '\n' !in Split(s, "\n")[k] {
      var p := Split(s, "\n")[k];
      assert !Contains(p, "\n");
      forall i | 0 <= i < |p| ensures p[i] != '\n' {
        assert !OccursAt(p, "\n", i);
        assert p[i..i + 1][0] == p[i];
      }
    }
  }

  /** `s.split(c)` gives one more piece than there are `c` in `s`. */
  lemma {:induction false} SplitCount(s: string, c: char)
    ensures |Split(s, [c])| == Count(s, c) + 1
    decreases |s|
  {
    var i := IndexOf(s, [c]);
    if i < 0 {
      NoCharBefore(s, c, |s|);
      assert s[..|s|] == s;
    } else {
      var rest := s[i + 1..];
      SplitCount(rest, c);
      NoCharBefore(s, c, i);
      assert s[i..i + 1][0] == s[i];
      SplitAround(s, i);
      CountAppend(s[..i] + [c], rest, c);
      CountAppend(s[..i], [c], c);
    }
  }

  lemma NoCharBefore(s: string, c: char, n: nat)
    requires n <= |s|
    requires forall j :: 0 <= j < n ==> !OccursAt(s, [c], j)
    ensures c !in s[..n]
  {
    forall j | 0 <= j < n ensures s[..n][j] != c {
      assert !OccursAt(s, [c], j);
      assert s[j..j + 1][0] == s[j];
    }
  }

  /** The order-preserving sub-list of `s` whose elements satisfy `keep`. */
  function Filter<T>(s: seq<T>, keep: T -> bool): (r: seq<T>)
    ensures |r| <= |s|
    ensures forall i :: 0 <= i < |r| ==> r[i] in s && keep(r[i])
    ensures forall i :: 0 <= i < |s| && keep(s[i]) ==> s[i] in r
  {
    if s == [] then []
    else
      var init := Filter(s[..|s| - 1], keep);
      var last := s[|s| - 1];
      assert s == s[..|s| - 1] + [last];
      if keep(last) then init + [last] else init
  }

  /**
   * `r` is the sub-list of `s` at the strictly increasing positions `idx`,
   * and those are exactly the positions whose element satisfies `keep`.
   */
  ghost predicate KeptInOrder<T>(r: seq<T>, s: seq<T>, idx: seq<nat>, keep: T -> bool) {
    && |idx| == |r|
    && (forall i :: 0 <= i < |idx| ==> idx[i] < |s| && r[i] == s[idx[i]])
    && (forall i, j :: 0 <= i < j < |idx| ==> idx[i] < idx[j])
    && (forall j :: 0 <= j < |s| ==> (keep(s[j]) <==> j in idx))
  }

  /** `Filter` keeps each satisfying element once, in its original order. */
  lemma {:induction false} FilterIndices<T>(s: seq<T>, keep: T -> bool) returns (idx: seq<nat>)
    ensures KeptInOrder(Filter(s, keep), s, idx, keep)
  {
    if s == [] {
      idx := [];
    } else {
      var n := |s| - 1;
      var init := s[..n];
      var prev := FilterIndices(init, keep);
      idx := if keep(s[n]) then prev + [n] else prev;
      FilterSnoc(s, keep);
      KeptInOrderSnoc(s, keep, prev, Filter(init, keep), idx, Filter(s, keep));
    }
  }

  /** Filtering one more element keeps it at the end exactly when it satisfies `keep`. */
  lemma FilterSnoc<T>(s: seq<T>, keep: T -> bool)
    requires s != []
    ensures Filter(s, keep) == Filter(s[..|s| - 1], keep) + (if keep(s[|s| - 1]) then [s[|s| - 1]] else [])
  {
  }

  lemma KeptInOrderSnoc<T>(s: seq<T>, keep: T -> bool, prev: seq<nat>, before: seq<T>, idx: seq<nat>, r: seq<T>)
    requires s != [] && KeptInOrder(before, s[..|s| - 1], prev, keep)
    requires idx == if keep(s[|s| - 1]) then prev + [|s| - 1] else prev
    requires r == before + (if keep(s[|s| - 1]) then [s[|s| - 1]] else [])
    ensures KeptInOrder(r, s, idx, keep)
  {
    var n := |s| - 1;
    var init := s[..n];
    forall i | 0 <= i < |prev| ensures prev[i] < n && before[i] == s[prev[i]] {
      assert init[prev[i]] == s[prev[i]];
    }
    assert n !in prev;
    forall j | 0 <= j < |s| ensures keep(s[j]) <==> j in idx {
      if j < n {
        assert init[j] == s[j];
        assert j in prev <==> j in idx;
      }
    }
  }

  /** Extending a prefix by one element. */
  lemma TakeSnoc<T>(s: seq<T>, i: nat)
    requires i < |s|
    ensures s[..i + 1] == s[..i] + [s[i]]
  {
  }

  lemma {:induction false} FilterAppend<T>(a: seq<T>, b: seq<T>, keep: T -> bool)
    ensures Filter(a + b, keep) == Filter(a, keep) + Filter(b, keep)
    decreases |b|
  {
    if b == [] {
      assert a + b == a;
    } else {
      var b' := b[..|b| - 1];
      FilterAppend(a, b', keep);
      assert (a + b)[..|a + b| - 1] == a + b';
    }
  }

  /** Filtering keeps everything when everything is kept. */
  lemma {:induction false} FilterAll<T>(s: seq<T>, keep: T -> bool)
    requires forall i :: 0 <= i < |s| ==> keep(s[i])
    ensures Filter(s, keep) == s
  {
    if s != [] {
      FilterAll(s[..|s| - 1], keep);
    }
  }
}
