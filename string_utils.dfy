/** Delimiter-based splitting and joining of strings, and the count of
    distinct comma-separated gene identifiers (`StringUtils` in the C++
    sources). Strings are sequences of characters; the delimiter must be
    non-empty, because with an empty delimiter the C++ split loop finds the
    delimiter at `start` forever and never advances. */
module StringUtils {
  import opened Wrappers

  /** `d` occurs in `s` beginning at position `p`. */
  predicate OccursAt(s: string, d: string, p: int)
  {
    0 <= p && p + |d| <= |s| && s[p..p + |d|] == d
  }

  /** `d` occurs somewhere in `t`. */
  ghost predicate ContainsDelimiter(t: string, d: string)
  {
    exists p :: OccursAt(t, d, p)
  }

  /** `s.find(d, start)`: the first position at or after `start` where `d`
      occurs, or `None` for `npos`. */
  function Find(s: string, d: string, start: nat): (r: Option<nat>)
    ensures r.Some? ==> start <= r.value && OccursAt(s, d, r.value)
    decreases |s| - start
  {
    if start + |d| > |s| then None
    else if OccursAt(s, d, start) then Some(start)
    else Find(s, d, start + 1)
  }

  /** The tokens of `s[start..]`: each token ends at the first delimiter found
      from its start, and the rest of the string is the last token. */
  function SplitFrom(s: string, d: string, start: nat): (r: seq<string>)
    requires |d| > 0 && start <= |s|
    ensures |r| >= 1
    decreases |s| - start
  {
    match Find(s, d, start)
    case None => [s[start..]]
    case Some(e) => [s[start..e]] + SplitFrom(s, d, e + |d|)
  }

  /** The value of `splitStringToVector(s, d)`. */
  function Split(s: string, d: string): seq<string>
    requires |d| > 0
  {
    SplitFrom(s, d, 0)
  }

  /** The value of `vectorToString(v, d)`: the elements of `v` with `d`
      between consecutive ones, and "" for no elements. */
  function Join(v: seq<string>, d: string): string
  {
    if |v| == 0 then ""
    else if |v| == 1 then v[0]
    else v[0] + d + Join(v[1..], d)
  }

  /** The distinct gene identifiers of a column of comma-separated lists. */
  function UniqueElements(column: seq<string>): set<string>
  {
    if |column| == 0 then {}
    else UniqueElements(column[..|column| - 1]) + Elements(Split(column[|column| - 1], ","))
  }

  /** The total length of the tokens. */
  function TotalLength(v: seq<string>): nat
  {
    if |v| == 0 then 0 else |v[0]| + TotalLength(v[1..])
  }

  // ---------------------------------------------------------------------
  // The operations, as the C++ loops compute them
  // ---------------------------------------------------------------------

  /** `splitStringToVector(input, delimiter)`. */
  method SplitStringToVector(input: string, delimiter: string) returns (result: seq<string>)
    requires |delimiter| > 0
    ensures result == Split(input, delimiter)
  {
    result := [];
    var start: nat := 0;
    ghost var whole := Split(input, delimiter);
    while true
      invariant start <= |input|
      invariant SplitSoFar(result, input, delimiter, start, whole)
      decreases |input| - start
    {
      var end := Find(input, delimiter, start);
      if end.None? {
        break;
      }
      var e := end.value;
      var tokens := result + [input[start..e]];
      var next := e + |delimiter|;
      SplitStep(result, input, delimiter, start, e, whole, tokens, next);
      result, start := tokens, next;
    }
    SplitDone(result, input, delimiter, start, whole);
    result := result + [input[start..]];
  }

  /** `splitStringToUnorderedSet(input, delimiter)`. */
  method SplitStringToUnorderedSet(input: string, delimiter: string) returns (result: set<string>)
    requires |delimiter| > 0
    ensures result == Elements(Split(input, delimiter))
  {
    result := {};
    var start: nat := 0;
    ghost var whole := Elements(Split(input, delimiter));
    while true
      invariant start <= |input|
      invariant SplitSetSoFar(result, input, delimiter, start, whole)
      decreases |input| - start
    {
      var end := Find(input, delimiter, start);
      if end.None? {
        break;
      }
      var e := end.value;
      var tokens := result + {input[start..e]};
      var next := e + |delimiter|;
      SplitSetStep(result, input, delimiter, start, e, whole, tokens, next);
      result, start := tokens, next;
    }
    SplitSetDone(result, input, delimiter, start, whole);
    result := result + {input[start..]};
  }

  /** `vectorToString(vector, delimiter)`. */
  method VectorToString(vector: seq<string>, delimiter: string) returns (r: string)
    ensures r == Join(vector, delimiter)
  {
    r := "";
    if |vector| > 0 {
      r := vector[0];
      var i := 1;
      while i < |vector|
        invariant 1 <= i <= |vector|
        invariant r == Join(vector[..i], delimiter)
      {
        JoinSnoc(vector[..i], vector[i], delimiter);
        assert vector[..i + 1] == vector[..i] + [vector[i]];
        r := r + delimiter + vector[i];
        i := i + 1;
      }
      assert vector[..|vector|] == vector;
    }
  }

  /** `countUniqueElements(column)`: the number of distinct identifiers in a
      column of comma-separated lists. The inner loop visits the set of one
      row's identifiers in an unspecified order. */
  method CountUniqueElements(column: seq<string>) returns (count: nat)
    ensures count == |UniqueElements(column)|
  {
    var uniqueElements: set<string> := {};
    var k := 0;
    while k < |column|
      invariant 0 <= k <= |column|
      invariant uniqueElements == UniqueElements(column[..k])
    {
      var currentElements := SplitStringToUnorderedSet(column[k], ",");
      UniqueElementsPrefix(column, k);
      ghost var after := uniqueElements + currentElements;
      var remaining := currentElements;
      while remaining != {}
        invariant remaining <= currentElements
        invariant uniqueElements + remaining == after
        decreases |remaining|
      {
        var element :| element in remaining;
        uniqueElements := uniqueElements + {element};
        remaining := remaining - {element};
      }
      k := k + 1;
    }
    assert column[..|column|] == column;
    count := |uniqueElements|;
  }

  // ---------------------------------------------------------------------
  // Properties
  // ---------------------------------------------------------------------

  lemma AppendStep<T>(done: seq<T>, here: seq<T>, x: T, rest: seq<T>, done': seq<T>, whole: seq<T>)
    requires done + here == whole && here == [x] + rest && done' == done + [x]
    ensures done' + rest == whole
  {
    assert done + [x] + rest == done + ([x] + rest);
  }

  lemma SetStep<T>(done: set<T>, here: set<T>, x: T, rest: set<T>, done': set<T>, whole: set<T>)
    requires done + here == whole && here == {x} + rest && done' == done + {x}
    ensures done' + rest == whole
  {
  }

  /** Loop invariant of the split loops: the tokens taken so far followed by
      the tokens of `s[start..]` are all the tokens. */
  predicate SplitSoFar(tokens: seq<string>, s: string, d: string, start: nat, whole: seq<string>)
    requires |d| > 0 && start <= |s|
  {
    tokens + SplitFrom(s, d, start) == whole
  }

  /** The same invariant for the loop that collects the tokens in a set. */
  predicate SplitSetSoFar(tokens: set<string>, s: string, d: string, start: nat, whole: set<string>)
    requires |d| > 0 && start <= |s|
  {
    tokens + Elements(SplitFrom(s, d, start)) == whole
  }

  lemma SplitStep(tokens: seq<string>, s: string, d: string, start: nat, e: nat, whole: seq<string>,
                  tokens': seq<string>, next: nat)
    requires |d| > 0 && start <= |s| && Find(s, d, start) == Some(e)
    requires SplitSoFar(tokens, s, d, start, whole)
    requires e <= |s| && tokens' == tokens + [s[start..e]] && next == e + |d|
    ensures next <= |s| && SplitSoFar(tokens', s, d, next, whole)
  {
    SplitFromNext(s, d, start, e);
    AppendStep(tokens, SplitFrom(s, d, start), s[start..e], SplitFrom(s, d, next), tokens', whole);
  }

  lemma SplitDone(tokens: seq<string>, s: string, d: string, start: nat, whole: seq<string>)
    requires |d| > 0 && start <= |s| && Find(s, d, start).None?
    requires SplitSoFar(tokens, s, d, start, whole)
    ensures tokens + [s[start..]] == whole
  {
    SplitFromLast(s, d, start);
  }

  lemma SplitSetStep(tokens: set<string>, s: string, d: string, start: nat, e: nat, whole: set<string>,
                     tokens': set<string>, next: nat)
    requires |d| > 0 && start <= |s| && Find(s, d, start) == Some(e)
    requires SplitSetSoFar(tokens, s, d, start, whole)
    requires e <= |s| && tokens' == tokens + {s[start..e]} && next == e + |d|
    ensures next <= |s| && SplitSetSoFar(tokens', s, d, next, whole)
  {
    SplitFromNext(s, d, start, e);
    var token, here, rest := s[start..e], SplitFrom(s, d, start), SplitFrom(s, d, next);
    assert here == [token] + rest;
    ElementsCons(token, rest);
    SetStep(tokens, Elements(here), token, Elements(rest), tokens', whole);
  }

  lemma SplitSetDone(tokens: set<string>, s: string, d: string, start: nat, whole: set<string>)
    requires |d| > 0 && start <= |s| && Find(s, d, start).None?
    requires SplitSetSoFar(tokens, s, d, start, whole)
    ensures tokens + {s[start..]} == whole
  {
    SplitFromLast(s, d, start);
    ElementsCons(s[start..], []);
  }

  lemma ElementsCons<T>(x: T, rest: seq<T>)
    ensures Elements([x] + rest) == {x} + Elements(rest)
  {
    forall y | y in Elements([x] + rest) ensures y in {x} + Elements(rest) {
      var i :| 0 <= i < |[x] + rest| && ([x] + rest)[i] == y;
      if i > 0 {
        assert rest[i - 1] == y;
      }
    }
    forall y | y in Elements(rest) ensures y in Elements([x] + rest) {
      var i :| 0 <= i < |rest| && rest[i] == y;
      assert ([x] + rest)[i + 1] == y;
    }
  }

  /** With no delimiter left, the rest of the string is the last token. */
  lemma SplitFromLast(s: string, d: string, start: nat)
    requires |d| > 0 && start <= |s| && Find(s, d, start).None?
    ensures SplitFrom(s, d, start) == [s[start..]]
  {
  }

  /** A delimiter at `e` ends the token that begins at `start`. */
  lemma SplitFromNext(s: string, d: string, start: nat, e: nat)
    requires |d| > 0 && start <= |s| && Find(s, d, start) == Some(e)
    ensures e + |d| <= |s|
    ensures SplitFrom(s, d, start) == [s[start..e]] + SplitFrom(s, d, e + |d|)
  {
  }

  lemma UniqueElementsPrefix(column: seq<string>, k: nat)
    requires k < |column|
    ensures UniqueElements(column[..k + 1]) == UniqueElements(column[..k]) + Elements(Split(column[k], ","))
  {
    assert column[..k + 1][..k] == column[..k];
  }

  lemma {:induction false} JoinSnoc(v: seq<string>, x: string, d: string)
    requires |v| >= 1
    ensures Join(v + [x], d) == Join(v, d) + d + x
    decreases |v|
  {
    if |v| == 1 {
      assert (v + [x])[1..] == [x];
    } else {
      assert (v + [x])[1..] == v[1..] + [x];
      JoinSnoc(v[1..], x, d);
    }
  }

  lemma {:induction false} JoinSplitFrom(s: string, d: string, start: nat)
    requires |d| > 0 && start <= |s|
    ensures Join(SplitFrom(s, d, start), d) == s[start..]
    decreases |s| - start
  {
    var f := Find(s, d, start);
    if f.Some? {
      var e := f.value;
      var rest := SplitFrom(s, d, e + |d|);
      SplitFromNext(s, d, start, e);
      JoinSplitFrom(s, d, e + |d|);
      JoinCons(s[start..e], rest, d);
      SliceAround(s, start, e, e + |d|);
      assert OccursAt(s, d, e);
      calc {
        Join(SplitFrom(s, d, start), d);
        Join([s[start..e]] + rest, d);
        s[start..e] + d + Join(rest, d);
        s[start..e] + s[e..e + |d|] + s[e + |d|..];
        s[start..];
      }
    } else {
      SplitFromLast(s, d, start);
    }
  }

  lemma JoinCons(x: string, rest: seq<string>, d: string)
    requires |rest| >= 1
    ensures Join([x] + rest, d) == x + d + Join(rest, d)
  {
    assert ([x] + rest)[1..] == rest;
  }

  lemma SliceAround(s: string, lo: nat, mid: nat, hi: nat)
    requires lo <= mid <= hi <= |s|
    ensures s[lo..] == s[lo..mid] + s[mid..hi] + s[hi..]
  {
  }

  /** Joining the tokens with the same delimiter gives back the string. */
  lemma SplitJoinRoundTrip(s: string, d: string)
    requires |d| > 0
    ensures Join(Split(s, d), d) == s
  {
    JoinSplitFrom(s, d, 0);
  }

  /** Splitting always yields at least one token; "" yields [""]. */
  lemma SplitNonEmpty(s: string, d: string)
    requires |d| > 0
    ensures |Split(s, d)| >= 1
    ensures s == "" ==> Split(s, d) == [""]
  {
  }

  /** `Find` returns the first occurrence: there is none between `start` and
      the position found (or the end, when nothing is found). */
  lemma {:induction false} FindFirst(s: string, d: string, start: nat)
    ensures var r := Find(s, d, start);
      forall p :: start <= p && (r.None? || p < r.value) ==> !OccursAt(s, d, p)
    decreases |s| - start
  {
    if start + |d| <= |s| && s[start..start + |d|] != d {
      FindFirst(s, d, start + 1);
    }
  }

  lemma SliceOfSlice(s: string, lo: nat, hi: nat, p: nat, n: nat)
    requires lo <= hi <= |s| && p + n <= hi - lo
    ensures s[lo..hi][p..p + n] == s[lo + p..lo + p + n]
  {
    var u, v := s[lo..hi][p..p + n], s[lo + p..lo + p + n];
    forall i | 0 <= i < n ensures u[i] == v[i] {
      assert u[i] == s[lo..hi][p + i];
    }
  }

  /** A slice of `s` that covers no occurrence of `d` does not contain `d`. */
  lemma NoOccurrenceInSlice(s: string, d: string, lo: nat, hi: nat)
    requires lo <= hi <= |s|
    requires forall q :: lo <= q && q + |d| <= hi ==> !OccursAt(s, d, q)
    ensures !ContainsDelimiter(s[lo..hi], d)
  {
    var t := s[lo..hi];
    forall p: nat | p + |d| <= |t| ensures !OccursAt(t, d, p) {
      SliceOfSlice(s, lo, hi, p, |d|);
      assert !OccursAt(s, d, lo + p);
    }
  }

  /** No element of `v` contains `d`. */
  ghost predicate DelimiterFree(v: seq<string>, d: string)
  {
    forall k :: 0 <= k < |v| ==> !ContainsDelimiter(v[k], d)
  }

  lemma DelimiterFreeCons(x: string, rest: seq<string>, d: string)
    requires !ContainsDelimiter(x, d) && DelimiterFree(rest, d)
    ensures DelimiterFree([x] + rest, d)
  {
    forall k | 0 <= k < |[x] + rest| ensures !ContainsDelimiter(([x] + rest)[k], d) {
      if k > 0 {
        assert ([x] + rest)[k] == rest[k - 1];
      }
    }
  }

  lemma {:induction false} NoTokenContainsDelimiterFrom(s: string, d: string, start: nat)
    requires |d| > 0 && start <= |s|
    ensures DelimiterFree(SplitFrom(s, d, start), d)
    decreases |s| - start
  {
    var f := Find(s, d, start);
    FindFirst(s, d, start);
    if f.None? {
      NoOccurrenceInSlice(s, d, start, |s|);
      SplitFromLast(s, d, start);
      assert s[start..] == s[start..|s|];
      DelimiterFreeCons(s[start..], [], d);
      assert [s[start..]] + [] == [s[start..]];
    } else {
      var e := f.value;
      NoOccurrenceInSlice(s, d, start, e);
      SplitFromNext(s, d, start, e);
      NoTokenContainsDelimiterFrom(s, d, e + |d|);
      DelimiterFreeCons(s[start..e], SplitFrom(s, d, e + |d|), d);
    }
  }

  /** No token contains the delimiter. */
  lemma NoTokenContainsDelimiter(s: string, d: string)
    requires |d| > 0
    ensures forall k :: 0 <= k < |Split(s, d)| ==> !ContainsDelimiter(Split(s, d)[k], d)
  {
    NoTokenContainsDelimiterFrom(s, d, 0);
  }

  lemma {:induction false} JoinLength(v: seq<string>, d: string)
    requires |v| >= 1
    ensures |Join(v, d)| == TotalLength(v) + (|v| - 1) * |d|
    decreases |v|
  {
    if |v| > 1 {
      JoinLength(v[1..], d);
    }
  }

  /** The tokens are separated by one delimiter each: the string's length is
      the tokens' total length plus one delimiter per token after the first,
      so the token count is one more than the delimiters consumed. */
  lemma SplitTokenCount(s: string, d: string)
    requires |d| > 0
    ensures |s| == TotalLength(Split(s, d)) + (|Split(s, d)| - 1) * |d|
  {
    var v := Split(s, d);
    SplitJoinRoundTrip(s, d);
    JoinLength(v, d);
  }

  /** The number of non-overlapping occurrences of `d` in `s[p..]`, counted
      left to right: an occurrence is skipped past as a whole. */
  function Occurrences(s: string, d: string, p: nat): nat
    requires |d| > 0
    decreases |s| - p
  {
    if p + |d| > |s| then 0
    else if OccursAt(s, d, p) then 1 + Occurrences(s, d, p + |d|)
    else Occurrences(s, d, p + 1)
  }

  lemma {:induction false} OccurrencesSkip(s: string, d: string, p: nat, e: nat)
    requires |d| > 0 && p <= e
    requires forall q :: p <= q < e ==> !OccursAt(s, d, q)
    ensures Occurrences(s, d, p) == Occurrences(s, d, e)
    decreases e - p
  {
    if p < e && p + |d| <= |s| {
      OccurrencesSkip(s, d, p + 1, e);
    }
  }

  lemma {:induction false} SplitFromCount(s: string, d: string, start: nat)
    requires |d| > 0 && start <= |s|
    ensures |SplitFrom(s, d, start)| == 1 + Occurrences(s, d, start)
    decreases |s| - start
  {
    var f := Find(s, d, start);
    if f.None? {
      SplitFromLast(s, d, start);
      OccurrencesAfterLast(s, d, start);
    } else {
      var e := f.value;
      var next := e + |d|;
      SplitFromNext(s, d, start, e);
      ConsLength(SplitFrom(s, d, start), s[start..e], SplitFrom(s, d, next));
      OccurrencesUpToNext(s, d, start, e);
      SplitFromCount(s, d, next);
    }
  }

  lemma ConsLength<T>(v: seq<T>, x: T, rest: seq<T>)
    requires v == [x] + rest
    ensures |v| == 1 + |rest|
  {
  }

  lemma OccurrencesAfterLast(s: string, d: string, start: nat)
    requires |d| > 0 && start <= |s| && Find(s, d, start).None?
    ensures Occurrences(s, d, start) == 0
  {
    FindFirst(s, d, start);
    OccurrencesSkip(s, d, start, |s|);
  }

  lemma OccurrencesUpToNext(s: string, d: string, start: nat, e: nat)
    requires |d| > 0 && start <= |s| && Find(s, d, start) == Some(e)
    ensures Occurrences(s, d, start) == 1 + Occurrences(s, d, e + |d|)
  {
    FindFirst(s, d, start);
    OccurrencesSkip(s, d, start, e);
  }

  /** There is one token more than there are delimiter occurrences found
      left to right without overlap. */
  lemma SplitCountsDelimiters(s: string, d: string)
    requires |d| > 0
    ensures |Split(s, d)| == 1 + Occurrences(s, d, 0)
  {
    SplitFromCount(s, d, 0);
  }

  /** With a one-character delimiter, `Find` stops at that character and
      moves past any other. */
  lemma FindStep(s: string, c: char, start: nat)
    requires start < |s|
    ensures s[start] == c ==> Find(s, [c], start) == Some(start)
    ensures s[start] != c ==> Find(s, [c], start) == Find(s, [c], start + 1)
  {
    assert s[start..start + 1] == [s[start]];
  }

  lemma {:induction false} FindChar(s: string, c: char, start: nat, e: nat)
    requires start <= e < |s| && s[e] == c
    requires forall p :: start <= p < e ==> s[p] != c
    ensures Find(s, [c], start) == Some(e)
    decreases e - start
  {
    FindStep(s, c, start);
    if start < e {
      FindChar(s, c, start + 1, e);
    }
  }

  lemma {:induction false} FindNoChar(s: string, c: char, start: nat)
    requires start <= |s|
    requires forall p :: start <= p < |s| ==> s[p] != c
    ensures Find(s, [c], start) == None
    decreases |s| - start
  {
    if start < |s| {
      FindStep(s, c, start);
      FindNoChar(s, c, start + 1);
    }
  }

  /** The unique-count example of the C++ sources' comment:
      ["hi,how,are,you", "hi,hi,today"] holds 5 distinct identifiers. */
  lemma CountUniqueExample(column: seq<string>, a: string, b: string)
    requires a == "hi,how,are,you" && b == "hi,hi,today" && column == [a, b]
    ensures |UniqueElements(column)| == 5
  {
    UniqueElementsOfTwo(a, b);
    var ea := Elements(Split(a, ","));
    var eb := Elements(Split(b, ","));
    ElementsExampleA(a, ea);
    ElementsExampleB(b, eb);
    CardinalityExample(ea, eb);
  }

  lemma UniqueElementsOfTwo(a: string, b: string)
    ensures UniqueElements([a, b]) == Elements(Split(a, ",")) + Elements(Split(b, ","))
  {
    assert [a][..0] == [];
    assert UniqueElements([a]) == Elements(Split(a, ","));
    assert [a, b][..1] == [a];
    assert UniqueElements([a, b]) == UniqueElements([a]) + Elements(Split(b, ","));
  }

  lemma ElementsExampleA(a: string, ea: set<string>)
    requires a == "hi,how,are,you" && ea == Elements(Split(a, ","))
    ensures ea == {"hi", "how", "are", "you"}
  {
    SplitExampleA(a);
  }

  lemma ElementsExampleB(b: string, eb: set<string>)
    requires b == "hi,hi,today" && eb == Elements(Split(b, ","))
    ensures eb == {"hi", "today"}
  {
    SplitExampleB(b);
  }

  lemma CardinalityExample(ea: set<string>, eb: set<string>)
    requires ea == {"hi", "how", "are", "you"} && eb == {"hi", "today"}
    ensures |ea + eb| == 5
  {
    assert ea + eb == {"hi", "how", "are", "you", "today"};
  }

  lemma SplitExampleA(a: string)
    requires a == "hi,how,are,you"
    ensures Split(a, ",") == ["hi", "how", "are", "you"]
  {
    SplitExampleA3(a);
    CommasA(a);
    FindChar(a, ',', 0, 2);
    SliceOfTwo(a, 0);
    SplitFromToken(a, ',', 0, 2, "hi", ["how", "are", "you"]);
  }

  lemma SplitExampleA3(a: string)
    requires a == "hi,how,are,you"
    ensures SplitFrom(a, ",", 3) == ["how", "are", "you"]
  {
    SplitExampleA7(a);
    CommasA(a);
    FindChar(a, ',', 3, 6);
    SliceOfThree(a, 3);
    SplitFromToken(a, ',', 3, 6, "how", ["are", "you"]);
  }

  lemma SplitExampleA7(a: string)
    requires a == "hi,how,are,you"
    ensures SplitFrom(a, ",", 7) == ["are", "you"]
  {
    CommasA(a);
    FindNoChar(a, ',', 11);
    SplitFromLast(a, ",", 11);
    assert a[11..] == "you";
    FindChar(a, ',', 7, 10);
    SliceOfThree(a, 7);
    SplitFromToken(a, ',', 7, 10, "are", ["you"]);
  }

  lemma SplitExampleB(b: string)
    requires b == "hi,hi,today"
    ensures Split(b, ",") == ["hi", "hi", "today"]
  {
    SplitExampleB3(b);
    CommasB(b);
    FindChar(b, ',', 0, 2);
    SliceOfTwo(b, 0);
    SplitFromToken(b, ',', 0, 2, "hi", ["hi", "today"]);
  }

  lemma SplitExampleB3(b: string)
    requires b == "hi,hi,today"
    ensures SplitFrom(b, ",", 3) == ["hi", "today"]
  {
    CommasB(b);
    FindNoChar(b, ',', 6);
    SplitFromLast(b, ",", 6);
    assert b[6..] == "today";
    FindChar(b, ',', 3, 5);
    SliceOfTwo(b, 3);
    SplitFromToken(b, ',', 3, 5, "hi", ["today"]);
  }

  lemma CommasA(a: string)
    requires a == "hi,how,are,you"
    ensures |a| == 14
    ensures forall p :: 0 <= p < |a| ==> (a[p] == ',' <==> p == 2 || p == 6 || p == 10)
  {
  }

  lemma CommasB(b: string)
    requires b == "hi,hi,today"
    ensures |b| == 11
    ensures forall p :: 0 <= p < |b| ==> (b[p] == ',' <==> p == 2 || p == 5)
  {
  }

  /** A token ended by the one-character delimiter `c` at `e`. */
  lemma SplitFromToken(s: string, c: char, start: nat, e: nat, token: string, rest: seq<string>)
    requires start <= |s| && Find(s, [c], start) == Some(e)
    requires s[start..e] == token && SplitFrom(s, [c], e + 1) == rest
    ensures SplitFrom(s, [c], start) == [token] + rest
  {
    SplitFromNext(s, [c], start, e);
  }

  lemma SliceOfTwo(s: string, lo: nat)
    requires lo + 2 <= |s|
    ensures s[lo..lo + 2] == [s[lo], s[lo + 1]]
  {
  }

  lemma SliceOfThree(s: string, lo: nat)
    requires lo + 3 <= |s|
    ensures s[lo..lo + 3] == [s[lo], s[lo + 1], s[lo + 2]]
  {
  }
}
