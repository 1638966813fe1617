/**
 Go's string helpers: splitting, trimming, prefixes, and the order and sorting of strings.

 Strings are sequences of characters. Go orders strings by their bytes, which for UTF-8 is the order of
 the code points compared here.
 */
module Strings {
  // ---------- Splitting ----------

  function IndexFrom<T(==)>(s: seq<T>, x: T, from: nat): (i: nat)
    requires from <= |s|
    ensures from <= i <= |s|
    ensures forall j :: from <= j < i ==> s[j] != x
    ensures i < |s| ==> s[i] == x
    decreases |s| - from
  {
    if from == |s| || s[from] == x then from else IndexFrom(s, x, from + 1)
  }

  /** The first place of `x`, or the length. */
  function IndexOf<T(==)>(s: seq<T>, x: T): (i: nat)
    ensures i <= |s| && x !in s[..i]
    ensures i < |s| ==> s[i] == x
    ensures i == |s| <==> x !in s
  {
    IndexFrom(s, x, 0)
  }

  /** `strings.Split` with a separator of one element. */
  function Split<T(==)>(s: seq<T>, sep: T): (parts: seq<seq<T>>)
    ensures |parts| >= 1
    ensures forall part :: part in parts ==> sep !in part
    decreases |s|
  {
    var i := IndexOf(s, sep);
    if i == |s| then [s] else [s[..i]] + Split(s[i + 1..], sep)
  }

  lemma SplitAtFirst<T>(head: seq<T>, sep: T, rest: seq<T>)
    requires sep !in head
    ensures Split(head + [sep] + rest, sep) == [head] + Split(rest, sep)
  {
    var s := head + [sep] + rest;
    var i := IndexOf(s, sep);
    assert s[|head|] == sep && (forall j :: 0 <= j < |head| ==> s[j] == head[j]);
    assert i == |head|;
    assert s[..i] == head && s[i + 1..] == rest;
  }

  lemma SplitStep<T>(head: seq<T>, sep: T, rest: seq<T>, last: seq<T>)
    requires sep !in head && Split(rest + [sep] + last, sep) == Split(rest, sep) + [last]
    ensures Split(head + [sep] + rest + [sep] + last, sep) == Split(head + [sep] + rest, sep) + [last]
  {
    Associate(head + [sep], rest, [sep], last);
    SplitAtFirst(head, sep, rest);
    SplitAtFirst(head, sep, rest + [sep] + last);
    Associate([head], Split(rest, sep), [last], []);
  }

  lemma Associate<T>(a: seq<T>, b: seq<T>, c: seq<T>, d: seq<T>)
    ensures a + b + c + d == a + (b + c + d) && a + b + c == a + (b + c)
  {
  }

  lemma CutAt<T>(s: seq<T>, i: nat)
    requires i < |s|
    ensures s == s[..i] + [s[i]] + s[i + 1..]
  {
  }

  lemma {:induction false} SplitSnoc<T>(front: seq<T>, sep: T, last: seq<T>)
    requires sep !in last
    ensures Split(front + [sep] + last, sep) == Split(front, sep) + [last]
    decreases |front|
  {
    var i := IndexOf(front, sep);
    if i == |front| {
      SplitAtFirst(front, sep, last);
      assert Split(last, sep) == [last];
    } else {
      CutAt(front, i);
      SplitSnoc(front[i + 1..], sep, last);
      SplitStep(front[..i], sep, front[i + 1..], last);
    }
  }

  // ---------- Trimming ----------

  predicate IsSpace(c: char) {
    '\t' <= c <= '\r' || c == ' ' || c == '\U{0085}' || c == '\U{00A0}' || c == '\U{1680}'
    || '\U{2000}' <= c <= '\U{200A}' || c == '\U{2028}' || c == '\U{2029}' || c == '\U{202F}'
    || c == '\U{205F}' || c == '\U{3000}'
  }

  predicate Trimmed(s: string) {
    s == "" || (!IsSpace(s[0]) && !IsSpace(s[|s| - 1]))
  }

  function LeadingSpaces(s: string, from: nat): (i: nat)
    requires from <= |s|
    ensures from <= i <= |s|
    ensures forall j :: from <= j < i ==> IsSpace(s[j])
    ensures i < |s| ==> !IsSpace(s[i])
    decreases |s| - from
  {
    if from == |s| || !IsSpace(s[from]) then from else LeadingSpaces(s, from + 1)
  }

  function TrailingEnd(s: string, end: nat): (i: nat)
    requires end <= |s|
    ensures i <= end
    ensures forall j :: i <= j < end ==> IsSpace(s[j])
    ensures i > 0 ==> !IsSpace(s[i - 1])
  {
    if end == 0 || !IsSpace(s[end - 1]) then end else TrailingEnd(s, end - 1)
  }

  function TrimLeft(s: string): (t: string) {
    s[LeadingSpaces(s, 0)..]
  }

  function TrimRight(s: string): (t: string) {
    s[..TrailingEnd(s, |s|)]
  }

  /** `strings.TrimSpace`. */
  function TrimSpace(s: string): (t: string)
    ensures Trimmed(t)
    ensures Trimmed(s) ==> t == s
  {
    TrimRight(TrimLeft(s))
  }

  /** The white space of Unicode. */
  lemma SpacesAre(c: char)
    ensures IsSpace(c) <==>
      || c in [' ', '\t', '\n', '\U{000B}', '\U{000C}', '\r', '\U{0085}', '\U{00A0}', '\U{1680}']
      || c in ['\U{2000}', '\U{2001}', '\U{2002}', '\U{2003}', '\U{2004}', '\U{2005}', '\U{2006}', '\U{2007}']
      || c in ['\U{2008}', '\U{2009}', '\U{200A}', '\U{2028}', '\U{2029}', '\U{202F}', '\U{205F}', '\U{3000}']
  {
  }

  /** Trimming takes away spaces on both sides, and nothing else. */
  lemma TrimSpaceIs(s: string) returns (before: string, after: string)
    ensures s == before + TrimSpace(s) + after
    ensures (forall c :: c in before ==> IsSpace(c)) && (forall c :: c in after ==> IsSpace(c))
  {
    var left := TrimLeft(s);
    before := s[..LeadingSpaces(s, 0)];
    after := left[TrailingEnd(left, |left|)..];
    assert s == before + left && left == TrimSpace(s) + after;
  }

  // ---------- Prefixes and order ----------

  predicate HasPrefix(s: string, prefix: string) {
    prefix <= s
  }

  /** The order of strings. */
  predicate Le(a: string, b: string) {
    a == "" || (b != "" && (a[0] < b[0] || (a[0] == b[0] && Le(a[1..], b[1..]))))
  }

  lemma {:induction false} LeReflexive(a: string)
    ensures Le(a, a)
  {
    if a != "" {
      LeReflexive(a[1..]);
    }
  }

  lemma {:induction false} LeTotal(a: string, b: string)
    ensures Le(a, b) || Le(b, a)
  {
    if a != "" && b != "" {
      LeTotal(a[1..], b[1..]);
    }
  }

  lemma {:induction false} LeTransitive(a: string, b: string, c: string)
    requires Le(a, b) && Le(b, c)
    ensures Le(a, c)
  {
    if a != "" {
      if a[0] == b[0] && b[0] == c[0] {
        LeTransitive(a[1..], b[1..], c[1..]);
      }
    }
  }

  lemma {:induction false} LeAntisymmetric(a: string, b: string)
    requires Le(a, b) && Le(b, a)
    ensures a == b
  {
    if a != "" {
      LeAntisymmetric(a[1..], b[1..]);
      assert a == [a[0]] + a[1..] && b == [b[0]] + b[1..];
    }
  }

  lemma {:induction false} PrefixIsLe(p: string, a: string)
    requires HasPrefix(a, p)
    ensures Le(p, a)
  {
    if p != "" {
      assert a[1..][..|p| - 1] == p[1..];
      PrefixIsLe(p[1..], a[1..]);
    }
  }

  /** Strings with incomparable prefixes are ordered as the prefixes are. */
  lemma {:induction false} PrefixOrder(p: string, q: string, a: string, b: string)
    requires HasPrefix(a, p) && HasPrefix(b, q)
    requires !HasPrefix(q, p) && !HasPrefix(p, q) && Le(p, q)
    ensures Le(a, b) && a != b
  {
    if p[0] == q[0] {
      assert a[1..][..|p| - 1] == p[1..] && b[1..][..|q| - 1] == q[1..];
      assert p == [p[0]] + p[1..] && q == [q[0]] + q[1..];
      PrefixOrder(p[1..], q[1..], a[1..], b[1..]);
    }
  }

  /** Two prefixes of one string are comparable. */
  lemma PrefixesCompare(s: string, p: string, q: string)
    requires HasPrefix(s, p) && HasPrefix(s, q)
    ensures HasPrefix(p, q) || HasPrefix(q, p)
  {
    if |p| <= |q| {
      assert q[..|p|] == p;
    } else {
      assert p[..|q|] == q;
    }
  }

  // ---------- Sorting ----------

  predicate Sorted(a: seq<string>) {
    forall i, j :: 0 <= i < j < |a| ==> Le(a[i], a[j])
  }

  function Insert(a: seq<string>, x: string): (r: seq<string>)
    ensures multiset(r) == multiset(a) + multiset{x}
    ensures |r| == |a| + 1
  {
    if a == [] || Le(x, a[0]) then [x] + a
    else
      assert a == [a[0]] + a[1..];
      [a[0]] + Insert(a[1..], x)
  }

  lemma {:induction false} InsertSorted(a: seq<string>, x: string)
    requires Sorted(a)
    ensures Sorted(Insert(a, x))
  {
    var r := Insert(a, x);
    if a == [] {
    } else if Le(x, a[0]) {
      forall i, j | 0 <= i < j < |r|
        ensures Le(r[i], r[j])
      {
        if i == 0 && j > 1 {
          LeTransitive(x, a[0], a[j - 1]);
        }
      }
    } else {
      InsertSorted(a[1..], x);
      LeTotal(x, a[0]);
      var rest := Insert(a[1..], x);
      assert r == [a[0]] + rest;
      forall j | 0 <= j < |rest|
        ensures Le(a[0], rest[j])
      {
        assert rest[j] in multiset(rest);
        assert rest[j] == x || rest[j] in a[1..];
      }
    }
  }

  /** `sort.Strings`: the sorted permutation of `a`. */
  function Sort(a: seq<string>): (r: seq<string>)
    ensures multiset(r) == multiset(a)
    ensures |r| == |a|
  {
    if a == [] then []
    else
      assert a == a[..|a| - 1] + [a[|a| - 1]];
      Insert(Sort(a[..|a| - 1]), a[|a| - 1])
  }

  lemma {:induction false} SortSorts(a: seq<string>)
    ensures Sorted(Sort(a))
  {
    if a != [] {
      SortSorts(a[..|a| - 1]);
      InsertSorted(Sort(a[..|a| - 1]), a[|a| - 1]);
    }
  }

  lemma {:induction false} InsertLast(a: seq<string>, x: string)
    requires Sorted(a) && forall i :: 0 <= i < |a| ==> Le(a[i], x)
    ensures Insert(a, x) == a + [x]
  {
    if a == [] {
    } else if Le(x, a[0]) {
      forall i | 0 <= i < |a|
        ensures a[i] == x
      {
        if i > 0 {
          LeTransitive(x, a[0], a[i]);
        }
        LeAntisymmetric(a[i], x);
      }
      assert [x] + a == a + [x];
    } else {
      InsertLast(a[1..], x);
      assert a + [x] == [a[0]] + (a[1..] + [x]);
    }
  }

  /** What is sorted is left alone. */
  lemma {:induction false} SortOfSorted(a: seq<string>)
    requires Sorted(a)
    ensures Sort(a) == a
  {
    if a != [] {
      SortOfSorted(a[..|a| - 1]);
      InsertLast(a[..|a| - 1], a[|a| - 1]);
    }
  }

  lemma SortKeepsMembers(a: seq<string>, x: string)
    ensures x in Sort(a) <==> x in a
  {
    assert x in Sort(a) <==> x in multiset(Sort(a));
    assert x in a <==> x in multiset(a);
  }
}
