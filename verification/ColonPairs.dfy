/**
 The incremental search of `findColonSeparatedPairs` (diagnostic/system_collector_utils.go).

 Lines and keys are sorted and walked once, each key being looked for from where the last one was found.
 The reference is the lookup a reader expects: for each key, the least line that starts with it.
 */
module ColonPairs {
  import opened Wrappers
  import opened Strings

  /**
   What the search needs to know about lines and keys. `GoRules` is the instance the source uses; the
   argument about the walk depends on nothing else.
   */
  datatype Rules<V> = Rules(
    starts: (string, string) -> bool,
    hasField: string -> bool,
    field: string -> Option<V>,
    le: (string, string) -> bool)
  {
    ghost predicate Ordered() {
      && (forall a, b :: le(a, b) || le(b, a))
      && (forall a, b :: le(a, b) && le(b, a) ==> a == b)
      && (forall a, b, c :: le(a, b) && le(b, c) ==> le(a, c))
    }

    predicate Sorted(a: seq<string>) {
      forall i, j :: 0 <= i < j < |a| ==> le(a[i], a[j])
    }
  }

  predicate StartsWith(line: string, key: string) {
    HasPrefix(TrimSpace(line), key)
  }

  function Fields(line: string): seq<string> {
    Split(TrimSpace(line), ':')
  }

  /** A line starts with a key up to surrounding space; its field is what lies after the first colon. */
  function GoRules<V>(mapper: string -> Option<V>): Rules<V> {
    Rules(StartsWith,
          (line: string) => |Fields(line)| >= 2,
          (line: string) => if |Fields(line)| >= 2 then mapper(TrimSpace(Fields(line)[1])) else None,
          Le)
  }

  // ---------- The one-pass search ----------

  /** The least index from `from` on whose key the line starts with, or `|keys|`. */
  function MatchFrom<V>(line: string, keys: seq<string>, from: nat, r: Rules<V>): (j: nat)
    requires from <= |keys|
    ensures from <= j <= |keys|
    ensures forall i :: from <= i < j ==> !r.starts(line, keys[i])
    ensures j < |keys| ==> r.starts(line, keys[j])
    decreases |keys| - from
  {
    if from == |keys| || r.starts(line, keys[from]) then from else MatchFrom(line, keys, from + 1, r)
  }

  /** `lastIndex` and `pairs`. */
  datatype Scan<V> = Scan(lastIndex: nat, pairs: map<string, V>)

  function ScanLine<V>(s: Scan<V>, line: string, keys: seq<string>, r: Rules<V>): (t: Scan<V>)
    requires s.lastIndex <= |keys|
    ensures t.lastIndex <= |keys|
  {
    var j := MatchFrom(line, keys, s.lastIndex, r);
    if j == |keys| then s
    else if !r.hasField(line) then s.(lastIndex := j - s.lastIndex + 1)
    else match r.field(line)
      case None => s.(lastIndex := j + 1)
      case Some(v) => Scan(j + 1, s.pairs[keys[j] := v])
  }

  function ScanLines<V>(lines: seq<string>, keys: seq<string>, r: Rules<V>): (t: Scan<V>)
    ensures t.lastIndex <= |keys|
  {
    if lines == [] then Scan(0, map[])
    else ScanLine(ScanLines(lines[..|lines| - 1], keys, r), lines[|lines| - 1], keys, r)
  }

  function Search<V>(output: string, keys: seq<string>, mapper: string -> Option<V>): map<string, V> {
    ScanLines(Sort(Split(output, '\n')), Sort(keys), GoRules(mapper)).pairs
  }

  // ---------- The reference lookup ----------

  /** The least line of `lines` that starts with `key`. */
  predicate Least<V>(line: string, key: string, lines: seq<string>, r: Rules<V>) {
    && line in lines && r.starts(line, key)
    && (forall other :: other in lines && r.starts(other, key) ==> r.le(line, other))
  }

  /** `pairs` holds exactly the keys whose least line has an accepted field, with that field's value. */
  ghost predicate IsLookup<V>(pairs: map<string, V>, lines: seq<string>, keys: seq<string>, r: Rules<V>) {
    && (forall k :: k in pairs ==> k in keys && exists line :: Least(line, k, lines, r) && r.field(line).Some?)
    && (forall k, line :: k in keys && Least(line, k, lines, r) && r.field(line).Some? ==>
          k in pairs && r.field(line) == Some(pairs[k]))
  }

  // ---------- Conditions on the input ----------

  /** Every line that starts with a key has a field. */
  predicate ColonWhereKey<V>(lines: seq<string>, keys: seq<string>, r: Rules<V>) {
    forall line, k :: line in lines && k in keys && r.starts(line, k) ==> r.hasField(line)
  }

  predicate NoDuplicates(keys: seq<string>) {
    forall k :: k in keys ==> multiset(keys)[k] == 1
  }

  /** No line is the least one of two keys. */
  ghost predicate DistinctLeast<V>(lines: seq<string>, keys: seq<string>, r: Rules<V>) {
    forall line, k, k' :: k in keys && k' in keys && k != k' && Least(line, k, lines, r) ==> !Least(line, k', lines, r)
  }

  /** No line that sorts before an accepted key's least line starts with a greater key. */
  ghost predicate NotOvertaken<V>(lines: seq<string>, keys: seq<string>, r: Rules<V>) {
    forall k, line, other, k' ::
      k in keys && Least(line, k, lines, r) && r.field(line).Some?
      && other in lines && other != line && r.le(other, line) && k' in keys && r.starts(other, k')
      ==> r.le(k', k)
  }

  predicate PrefixFree(keys: seq<string>) {
    forall i, j :: 0 <= i < |keys| && 0 <= j < |keys| && i != j ==> !HasPrefix(keys[i], keys[j])
  }

  predicate AllTrimmed(lines: seq<string>) {
    forall line :: line in lines ==> Trimmed(line)
  }

  // ---------- The walk over sorted lines ----------

  /** The first line that starts with the key, or the number of lines. */
  function First<V>(lines: seq<string>, key: string, r: Rules<V>): (i: nat)
    ensures i <= |lines|
    ensures forall h :: 0 <= h < i ==> !r.starts(lines[h], key)
    ensures i < |lines| ==> r.starts(lines[i], key)
  {
    if lines == [] then 0
    else
      var n := |lines| - 1;
      var i := First(lines[..n], key, r);
      if i < n || r.starts(lines[n], key) then i else n + 1
  }

  predicate DistinctFirst<V>(lines: seq<string>, keys: seq<string>, r: Rules<V>) {
    forall i, j :: 0 <= i < j < |keys| && First(lines, keys[i], r) < |lines| ==>
      First(lines, keys[i], r) != First(lines, keys[j], r)
  }

  /** The key at `j` is found: its first line has an accepted field and no greater key came before. */
  predicate Found<V>(lines: seq<string>, keys: seq<string>, r: Rules<V>, j: nat)
    requires j < |keys|
  {
    var i := First(lines, keys[j], r);
    && i < |lines| && r.field(lines[i]).Some?
    && (forall h :: j < h < |keys| ==> First(lines, keys[h], r) > i)
  }

  ghost predicate ScanState<V>(s: Scan<V>, lines: seq<string>, keys: seq<string>, r: Rules<V>) {
    && s.lastIndex <= |keys|
    && (s.lastIndex > 0 ==> First(lines, keys[s.lastIndex - 1], r) < |lines|)
    && (forall j :: s.lastIndex <= j < |keys| ==> First(lines, keys[j], r) == |lines|)
    && (forall j :: 0 <= j < |keys| && Found(lines, keys, r, j) ==>
          keys[j] in s.pairs
          && r.field(lines[First(lines, keys[j], r)]) == Some(s.pairs[keys[j]]))
    && (forall k :: k in s.pairs ==> exists j :: 0 <= j < |keys| && keys[j] == k && Found(lines, keys, r, j))
  }

  lemma FirstSnoc<V>(front: seq<string>, last: string, key: string, r: Rules<V>)
    ensures var i := First(front, key, r);
            First(front + [last], key, r) ==
              if i < |front| then i else if r.starts(last, key) then |front| else |front| + 1
  {
    assert (front + [last])[..|front|] == front;
  }

  /** A key was found among `front + [last]` at an earlier line exactly when it was found in `front`. */
  lemma FoundSnoc<V>(front: seq<string>, last: string, keys: seq<string>, r: Rules<V>, j: nat)
    requires j < |keys| && First(front, keys[j], r) < |front|
    ensures First(front + [last], keys[j], r) == First(front, keys[j], r)
    ensures Found(front + [last], keys, r, j) <==> Found(front, keys, r, j)
  {
    var lines := front + [last];
    forall h | 0 <= h < |keys|
      ensures First(lines, keys[h], r) > First(front, keys[j], r)
         <==> First(front, keys[h], r) > First(front, keys[j], r)
    {
      FirstSnoc(front, last, keys[h], r);
    }
    FirstSnoc(front, last, keys[j], r);
  }

  lemma FrontDistinct<V>(front: seq<string>, last: string, keys: seq<string>, r: Rules<V>)
    requires DistinctFirst(front + [last], keys, r)
    ensures DistinctFirst(front, keys, r)
  {
    forall j | 0 <= j < |keys|
      ensures First(front, keys[j], r) < |front| ==> First(front + [last], keys[j], r) == First(front, keys[j], r)
    {
      FirstSnoc(front, last, keys[j], r);
    }
  }

  /**
   After every line the search holds exactly the keys found so far, and its index is one past the
   greatest key seen: at the last line only a key seen for the first time can be matched.
   */
  lemma {:induction false} ScanInvariant<V>(lines: seq<string>, keys: seq<string>, r: Rules<V>)
    requires DistinctFirst(lines, keys, r) && ColonWhereKey(lines, keys, r)
    ensures ScanState(ScanLines(lines, keys, r), lines, keys, r)
  {
    if lines != [] {
      var n := |lines| - 1;
      var front, last := lines[..n], lines[n];
      assert lines == front + [last];
      FrontDistinct(front, last, keys, r);
      ScanInvariant(front, keys, r);
      ScanLastLine(ScanLines(front, keys, r), front, last, keys, r);
    }
  }

  /** The key matched at the last line starts no earlier line, and it is the only one of its kind. */
  lemma MatchIsNew<V>(s: Scan<V>, front: seq<string>, last: string, keys: seq<string>, r: Rules<V>, j: nat)
    requires DistinctFirst(front + [last], keys, r) && ScanState(s, front, keys, r) && s.lastIndex <= j < |keys|
    ensures var m := MatchFrom(last, keys, s.lastIndex, r);
            First(front + [last], keys[j], r) == if j == m then |front| else |front| + 1
  {
    FirstSnoc(front, last, keys[j], r);
    var m := MatchFrom(last, keys, s.lastIndex, r);
    if m < |keys| {
      FirstSnoc(front, last, keys[m], r);
    }
  }

  /** A key first seen at the last line and overtaken by nothing is the one that is matched. */
  lemma NewlyFoundIsMatched<V>(s: Scan<V>, front: seq<string>, last: string, keys: seq<string>, r: Rules<V>, j: nat)
    requires DistinctFirst(front + [last], keys, r) && ScanState(s, front, keys, r) && j < |keys|
    requires Found(front + [last], keys, r, j) && First(front, keys[j], r) == |front|
    ensures j == MatchFrom(last, keys, s.lastIndex, r)
  {
    FirstSnoc(front, last, keys[j], r);
    if j < s.lastIndex {
      FirstSnoc(front, last, keys[s.lastIndex - 1], r);
    } else {
      MatchIsNew(s, front, last, keys, r, j);
    }
  }

  lemma MatchedKeyDiffers<V>(s: Scan<V>, front: seq<string>, last: string, keys: seq<string>, r: Rules<V>, j: nat)
    requires DistinctFirst(front + [last], keys, r) && ScanState(s, front, keys, r)
    requires j < |keys| && First(front, keys[j], r) < |front|
    ensures var m := MatchFrom(last, keys, s.lastIndex, r);
            m < |keys| ==> keys[m] != keys[j]
  {
    var m := MatchFrom(last, keys, s.lastIndex, r);
    if m < |keys| {
      MatchIsNew(s, front, last, keys, r, m);
      FirstSnoc(front, last, keys[j], r);
    }
  }

  lemma OtherPairsAreKept<V>(s: Scan<V>, line: string, keys: seq<string>, r: Rules<V>, k: string)
    requires s.lastIndex <= |keys| && k in s.pairs
    requires var m := MatchFrom(line, keys, s.lastIndex, r); m < |keys| ==> keys[m] != k
    ensures var t := ScanLine(s, line, keys, r); k in t.pairs && t.pairs[k] == s.pairs[k]
  {
  }

  /** What was found before the last line is not disturbed by it. */
  lemma FoundIsKept<V>(s: Scan<V>, front: seq<string>, last: string, keys: seq<string>, r: Rules<V>, j: nat)
    requires DistinctFirst(front + [last], keys, r) && ScanState(s, front, keys, r)
    requires j < |keys| && Found(front, keys, r, j)
    ensures var t := ScanLine(s, last, keys, r);
            keys[j] in t.pairs && t.pairs[keys[j]] == s.pairs[keys[j]]
  {
    MatchedKeyDiffers(s, front, last, keys, r, j);
    assert keys[j] in s.pairs;
    OtherPairsAreKept(s, last, keys, r, keys[j]);
  }

  lemma LastLineComplete<V>(s: Scan<V>, front: seq<string>, last: string, keys: seq<string>, r: Rules<V>, j: nat)
    requires DistinctFirst(front + [last], keys, r) && ColonWhereKey(front + [last], keys, r) && j < |keys|
    requires ScanState(s, front, keys, r) && Found(front + [last], keys, r, j)
    ensures var t := ScanLine(s, last, keys, r);
            var lines := front + [last];
            keys[j] in t.pairs && r.field(lines[First(lines, keys[j], r)]) == Some(t.pairs[keys[j]])
  {
    if First(front, keys[j], r) < |front| {
      FoundSnoc(front, last, keys, r, j);
      FoundIsKept(s, front, last, keys, r, j);
    } else {
      FirstSnoc(front, last, keys[j], r);
      NewlyFoundIsMatched(s, front, last, keys, r, j);
      assert last in front + [last];
    }
  }

  /** Only the matched key can enter the pairs, and only with an accepted field. */
  lemma NewPairIsMatched<V>(s: Scan<V>, line: string, keys: seq<string>, r: Rules<V>, k: string)
    requires s.lastIndex <= |keys| && k in ScanLine(s, line, keys, r).pairs && k !in s.pairs
    ensures var m := MatchFrom(line, keys, s.lastIndex, r);
            m < |keys| && keys[m] == k && r.field(line).Some?
  {
  }

  lemma MatchIsFound<V>(s: Scan<V>, front: seq<string>, last: string, keys: seq<string>, r: Rules<V>)
    requires DistinctFirst(front + [last], keys, r) && ScanState(s, front, keys, r)
    requires MatchFrom(last, keys, s.lastIndex, r) < |keys| && r.field(last).Some?
    ensures Found(front + [last], keys, r, MatchFrom(last, keys, s.lastIndex, r))
  {
    var m := MatchFrom(last, keys, s.lastIndex, r);
    forall h | m <= h < |keys|
      ensures First(front + [last], keys[h], r) == if h == m then |front| else |front| + 1
    {
      MatchIsNew(s, front, last, keys, r, h);
    }
  }

  lemma LastLineSound<V>(s: Scan<V>, front: seq<string>, last: string, keys: seq<string>, r: Rules<V>, k: string)
    requires DistinctFirst(front + [last], keys, r)
    requires ScanState(s, front, keys, r) && k in ScanLine(s, last, keys, r).pairs
    ensures exists j :: 0 <= j < |keys| && keys[j] == k && Found(front + [last], keys, r, j)
  {
    if k in s.pairs {
      var j :| 0 <= j < |keys| && keys[j] == k && Found(front, keys, r, j);
      FoundSnoc(front, last, keys, r, j);
    } else {
      NewPairIsMatched(s, last, keys, r, k);
      MatchIsFound(s, front, last, keys, r);
    }
  }

  lemma ScanLastLine<V>(s: Scan<V>, front: seq<string>, last: string, keys: seq<string>, r: Rules<V>)
    requires DistinctFirst(front + [last], keys, r) && ColonWhereKey(front + [last], keys, r)
    requires ScanState(s, front, keys, r)
    ensures ScanState(ScanLine(s, last, keys, r), front + [last], keys, r)
  {
    var t := ScanLine(s, last, keys, r);
    var lines := front + [last];
    assert last in lines;
    forall j | 0 <= j < |keys|
      ensures t.lastIndex <= j ==> First(lines, keys[j], r) == |lines|
      ensures t.lastIndex == j + 1 ==> First(lines, keys[j], r) < |lines|
    {
      FirstSnoc(front, last, keys[j], r);
      if s.lastIndex <= j {
        MatchIsNew(s, front, last, keys, r, j);
      }
    }
    forall j | 0 <= j < |keys| && Found(lines, keys, r, j)
      ensures keys[j] in t.pairs && r.field(lines[First(lines, keys[j], r)]) == Some(t.pairs[keys[j]])
    {
      LastLineComplete(s, front, last, keys, r, j);
    }
    forall k | k in t.pairs
      ensures exists j :: 0 <= j < |keys| && keys[j] == k && Found(lines, keys, r, j)
    {
      LastLineSound(s, front, last, keys, r, k);
    }
  }

  // ---------- From sorted indices back to lines and keys ----------

  /** In sorted lines the first line that starts with a key is its least line. */
  lemma FirstIsLeast<V>(lines: seq<string>, key: string, r: Rules<V>)
    requires r.Ordered() && r.Sorted(lines) && First(lines, key, r) < |lines|
    ensures Least(lines[First(lines, key, r)], key, lines, r)
  {
    var i := First(lines, key, r);
    forall other | other in lines && r.starts(other, key)
      ensures r.le(lines[i], other)
    {
      var h :| 0 <= h < |lines| && lines[h] == other;
    }
  }

  lemma LeastIsFirst<V>(lines: seq<string>, key: string, line: string, r: Rules<V>)
    requires r.Ordered() && r.Sorted(lines) && Least(line, key, lines, r)
    ensures First(lines, key, r) < |lines| && lines[First(lines, key, r)] == line
  {
    var h :| 0 <= h < |lines| && lines[h] == line;
    assert First(lines, key, r) <= h;
    FirstIsLeast(lines, key, r);
  }

  lemma TwoPlaces(keys: seq<string>, i: nat, j: nat)
    requires i < j < |keys| && NoDuplicates(keys)
    ensures keys[i] != keys[j]
  {
    assert keys == keys[..j] + [keys[j]] + keys[j + 1..];
    assert multiset(keys)[keys[j]] == multiset(keys[..j])[keys[j]] + 1 + multiset(keys[j + 1..])[keys[j]];
    assert keys[..j][i] in multiset(keys[..j]);
  }

  lemma DistinctLeastIsDistinctFirst<V>(lines: seq<string>, keys: seq<string>, r: Rules<V>)
    requires r.Ordered() && r.Sorted(lines) && DistinctLeast(lines, keys, r) && NoDuplicates(keys)
    ensures DistinctFirst(lines, keys, r)
  {
    forall i, j | 0 <= i < j < |keys| && First(lines, keys[i], r) < |lines|
      ensures First(lines, keys[i], r) != First(lines, keys[j], r)
    {
      TwoPlaces(keys, i, j);
      FirstIsLeast(lines, keys[i], r);
      if First(lines, keys[i], r) == First(lines, keys[j], r) {
        FirstIsLeast(lines, keys[j], r);
      }
    }
  }

  predicate AcceptedAt<V>(lines: seq<string>, key: string, r: Rules<V>) {
    First(lines, key, r) < |lines| && r.field(lines[First(lines, key, r)]).Some?
  }

  ghost predicate AcceptedAreFound<V>(lines: seq<string>, keys: seq<string>, r: Rules<V>) {
    forall j :: 0 <= j < |keys| && AcceptedAt(lines, keys[j], r) ==> Found(lines, keys, r, j)
  }

  lemma NotOvertakenFindsAll<V>(lines: seq<string>, keys: seq<string>, r: Rules<V>)
    requires r.Ordered() && r.Sorted(lines) && r.Sorted(keys) && DistinctFirst(lines, keys, r)
    requires NotOvertaken(lines, keys, r)
    ensures AcceptedAreFound(lines, keys, r)
  {
    forall j, h | 0 <= j < h < |keys| && AcceptedAt(lines, keys[j], r)
      ensures First(lines, keys[h], r) > First(lines, keys[j], r)
    {
      if First(lines, keys[h], r) < First(lines, keys[j], r) {
        OvertakenInstance(lines, keys, r, j, h);
      }
    }
  }

  lemma FindsAllNotOvertaken<V>(lines: seq<string>, keys: seq<string>, r: Rules<V>, k: string, line: string,
                                other: string, k': string)
    requires r.Ordered() && r.Sorted(lines) && r.Sorted(keys) && AcceptedAreFound(lines, keys, r)
    requires k in keys && Least(line, k, lines, r) && r.field(line).Some?
    requires other in lines && other != line && r.le(other, line) && k' in keys && r.starts(other, k')
    ensures r.le(k', k)
  {
    var j :| 0 <= j < |keys| && keys[j] == k;
    var h :| 0 <= h < |keys| && keys[h] == k';
    var o :| 0 <= o < |lines| && lines[o] == other;
    LeastIsFirst(lines, k, line, r);
    assert AcceptedAt(lines, keys[j], r) && Found(lines, keys, r, j);
    assert o <= First(lines, k, r);
    assert First(lines, k', r) <= o;
    assert h <= j;
  }

  /** In sorted input, a key is overtaken exactly when a greater key is first seen before it. */
  lemma FoundMeansNotOvertaken<V>(lines: seq<string>, keys: seq<string>, r: Rules<V>)
    requires r.Ordered() && r.Sorted(lines) && r.Sorted(keys) && DistinctFirst(lines, keys, r)
    ensures NotOvertaken(lines, keys, r) <==> AcceptedAreFound(lines, keys, r)
  {
    if NotOvertaken(lines, keys, r) {
      NotOvertakenFindsAll(lines, keys, r);
    }
    if AcceptedAreFound(lines, keys, r) {
      forall k, line, other, k' |
        k in keys && Least(line, k, lines, r) && r.field(line).Some?
        && other in lines && other != line && r.le(other, line) && k' in keys && r.starts(other, k')
        ensures r.le(k', k)
      {
        FindsAllNotOvertaken(lines, keys, r, k, line, other, k');
      }
    }
  }

  lemma OvertakenInstance<V>(lines: seq<string>, keys: seq<string>, r: Rules<V>, j: nat, h: nat)
    requires r.Ordered() && r.Sorted(lines) && r.Sorted(keys)
    requires j < h < |keys| && First(lines, keys[h], r) < First(lines, keys[j], r) < |lines|
    requires r.field(lines[First(lines, keys[j], r)]).Some?
    ensures !NotOvertaken(lines, keys, r)
  {
    var line, other := lines[First(lines, keys[j], r)], lines[First(lines, keys[h], r)];
    FirstIsLeast(lines, keys[j], r);
    assert other != line && r.le(other, line) && !r.le(keys[h], keys[j]);
  }

  // ---------- The main results ----------

  lemma GoRulesOrdered<V>(mapper: string -> Option<V>)
    ensures GoRules(mapper).Ordered()
  {
    forall a: string, b: string, c: string
      ensures Le(a, b) || Le(b, a)
      ensures Le(a, b) && Le(b, a) ==> a == b
      ensures Le(a, b) && Le(b, c) ==> Le(a, c)
    {
      LeTotal(a, b);
      if Le(a, b) && Le(b, a) {
        LeAntisymmetric(a, b);
      }
      if Le(a, b) && Le(b, c) {
        LeTransitive(a, b, c);
      }
    }
  }

  lemma GoRulesSorted<V>(a: seq<string>, mapper: string -> Option<V>)
    ensures GoRules(mapper).Sorted(Sort(a))
  {
    SortSorts(a);
  }

  lemma FoundAllIsLookup<V>(s: Scan<V>, lines: seq<string>, keys: seq<string>, r: Rules<V>)
    requires r.Ordered() && r.Sorted(lines)
    requires ScanState(s, lines, keys, r) && AcceptedAreFound(lines, keys, r)
    ensures IsLookup(s.pairs, lines, keys, r)
  {
    forall k | k in s.pairs
      ensures k in keys && exists line :: Least(line, k, lines, r) && r.field(line).Some?
    {
      FirstIsLeast(lines, k, r);
    }
    forall k, line | k in keys && Least(line, k, lines, r) && r.field(line).Some?
      ensures k in s.pairs && r.field(line) == Some(s.pairs[k])
    {
      LeastIsFirst(lines, k, line, r);
      var j :| 0 <= j < |keys| && keys[j] == k;
      assert AcceptedAt(lines, keys[j], r) && Found(lines, keys, r, j);
    }
  }

  lemma LookupFindsAll<V>(s: Scan<V>, lines: seq<string>, keys: seq<string>, r: Rules<V>)
    requires r.Ordered() && r.Sorted(lines) && DistinctFirst(lines, keys, r)
    requires ScanState(s, lines, keys, r) && IsLookup(s.pairs, lines, keys, r)
    ensures AcceptedAreFound(lines, keys, r)
  {
    forall j | 0 <= j < |keys| && AcceptedAt(lines, keys[j], r)
      ensures Found(lines, keys, r, j)
    {
      FirstIsLeast(lines, keys[j], r);
      assert keys[j] in s.pairs;
      var h :| 0 <= h < |keys| && keys[h] == keys[j] && Found(lines, keys, r, h);
      assert h == j;
    }
  }

  /** Over sorted input the walk is the lookup exactly when no accepted key is overtaken. */
  lemma SortedScanIsLookup<V>(lines: seq<string>, keys: seq<string>, r: Rules<V>)
    requires r.Ordered() && r.Sorted(lines) && r.Sorted(keys)
    requires DistinctFirst(lines, keys, r) && ColonWhereKey(lines, keys, r)
    ensures IsLookup(ScanLines(lines, keys, r).pairs, lines, keys, r) <==> NotOvertaken(lines, keys, r)
  {
    ScanInvariant(lines, keys, r);
    FoundMeansNotOvertaken(lines, keys, r);
    if AcceptedAreFound(lines, keys, r) {
      FoundAllIsLookup(ScanLines(lines, keys, r), lines, keys, r);
    }
    if IsLookup(ScanLines(lines, keys, r).pairs, lines, keys, r) {
      LookupFindsAll(ScanLines(lines, keys, r), lines, keys, r);
    }
  }

  /** Sorting changes neither which lines and keys there are nor which line is least. */
  lemma SortKeepsMeaning<V>(lines: seq<string>, keys: seq<string>, r: Rules<V>, pairs: map<string, V>)
    ensures NotOvertaken(Sort(lines), Sort(keys), r) <==> NotOvertaken(lines, keys, r)
    ensures IsLookup(pairs, Sort(lines), Sort(keys), r) <==> IsLookup(pairs, lines, keys, r)
    ensures ColonWhereKey(Sort(lines), Sort(keys), r) <==> ColonWhereKey(lines, keys, r)
    ensures DistinctLeast(Sort(lines), Sort(keys), r) <==> DistinctLeast(lines, keys, r)
    ensures NoDuplicates(Sort(keys)) <==> NoDuplicates(keys)
  {
    SameMembers(lines, Sort(lines), keys, Sort(keys), r, pairs) by {
      forall x ensures x in Sort(lines) <==> x in lines {
        SortKeepsMembers(lines, x);
      }
      forall x ensures x in Sort(keys) <==> x in keys {
        SortKeepsMembers(keys, x);
      }
    }
  }

  lemma SameMembers<V>(lines: seq<string>, lines': seq<string>, keys: seq<string>, keys': seq<string>, r: Rules<V>,
                       pairs: map<string, V>)
    requires (forall x :: x in lines <==> x in lines') && (forall x :: x in keys <==> x in keys')
    ensures forall line, k :: Least(line, k, lines, r) <==> Least(line, k, lines', r)
    ensures NotOvertaken(lines', keys', r) <==> NotOvertaken(lines, keys, r)
    ensures IsLookup(pairs, lines', keys', r) <==> IsLookup(pairs, lines, keys, r)
    ensures ColonWhereKey(lines', keys', r) <==> ColonWhereKey(lines, keys, r)
    ensures DistinctLeast(lines', keys', r) <==> DistinctLeast(lines, keys, r)
  {
    assert forall line, k :: Least(line, k, lines, r) <==> Least(line, k, lines', r);
  }

  /**
   For distinct keys, with a field in every line that starts with a key and no line least for two keys,
   the search is the lookup exactly when no accepted key is overtaken.
   */
  lemma SearchIsLookup<V>(output: string, keys: seq<string>, mapper: string -> Option<V>)
    requires NoDuplicates(keys)
    requires DistinctLeast(Split(output, '\n'), keys, GoRules(mapper))
    requires ColonWhereKey(Split(output, '\n'), keys, GoRules(mapper))
    ensures IsLookup(Search(output, keys, mapper), Split(output, '\n'), keys, GoRules(mapper))
       <==> NotOvertaken(Split(output, '\n'), keys, GoRules(mapper))
  {
    var lines, r := Split(output, '\n'), GoRules(mapper);
    GoRulesOrdered(mapper);
    GoRulesSorted(lines, mapper);
    GoRulesSorted(keys, mapper);
    SortKeepsMeaning(lines, keys, r, Search(output, keys, mapper));
    DistinctLeastIsDistinctFirst(Sort(lines), Sort(keys), r);
    SortedScanIsLookup(Sort(lines), Sort(keys), r);
  }

  /** Lines without surrounding space overtake nothing: prefixes are ordered as the lines are. */
  lemma TrimmedNotOvertaken<V>(lines: seq<string>, keys: seq<string>, mapper: string -> Option<V>)
    requires AllTrimmed(lines)
    ensures NotOvertaken(lines, keys, GoRules(mapper))
  {
    var r := GoRules(mapper);
    forall k, line, other, k' |
      k in keys && Least(line, k, lines, r) && r.field(line).Some?
      && other in lines && other != line && r.le(other, line) && k' in keys && r.starts(other, k')
      ensures r.le(k', k)
    {
      NotOvertakenAt(k, line, other, k', lines, mapper);
    }
  }

  lemma NotOvertakenAt<V>(k: string, line: string, other: string, k': string, lines: seq<string>,
                          mapper: string -> Option<V>)
    requires Trimmed(line) && Trimmed(other)
    requires Least(line, k, lines, GoRules(mapper)) && other in lines && other != line && Le(other, line)
    requires StartsWith(other, k')
    ensures Le(k', k)
  {
    assert HasPrefix(line, k) && HasPrefix(other, k');
    if HasPrefix(k', k) {
      // Then the other line starts with both keys, and the least one is not above it.
      assert HasPrefix(other, k) by { PrefixOfPrefix(k, k', other); }
      assert GoRules(mapper).starts(other, k);
      LeAntisymmetric(line, other);
    } else if HasPrefix(k, k') {
      PrefixIsLe(k', k);
    } else {
      LeTotal(k, k');
      if Le(k, k') {
        PrefixOrder(k, k', line, other);
        LeAntisymmetric(line, other);
      }
    }
  }

  lemma PrefixOfPrefix(p: string, q: string, s: string)
    requires HasPrefix(q, p) && HasPrefix(s, q)
    ensures HasPrefix(s, p)
  {
  }

  /** Keys of which none is a prefix of another are distinct and share no line. */
  lemma PrefixFreeIsDistinct<V>(lines: seq<string>, keys: seq<string>, mapper: string -> Option<V>)
    requires PrefixFree(keys)
    ensures NoDuplicates(keys) && DistinctLeast(lines, keys, GoRules(mapper))
  {
    forall k | k in keys
      ensures multiset(keys)[k] == 1
    {
      OnePlace(keys, k);
    }
    forall line, k, k' | k in keys && k' in keys && k != k' && Least(line, k, lines, GoRules(mapper))
      ensures !Least(line, k', lines, GoRules(mapper))
    {
      if StartsWith(line, k') {
        PrefixesCompare(TrimSpace(line), k, k');
      }
    }
  }

  lemma {:induction false} OnePlace(keys: seq<string>, k: string)
    requires forall i, j :: 0 <= i < j < |keys| ==> keys[i] != keys[j]
    ensures multiset(keys)[k] == if k in keys then 1 else 0
  {
    if keys != [] {
      var n := |keys| - 1;
      assert keys == keys[..n] + [keys[n]];
      OnePlace(keys[..n], k);
    }
  }

  /** The search is the lookup for prefix-free keys over lines without surrounding space. */
  lemma CleanSearchIsLookup<V>(output: string, keys: seq<string>, mapper: string -> Option<V>)
    requires PrefixFree(keys) && AllTrimmed(Split(output, '\n'))
    requires ColonWhereKey(Split(output, '\n'), keys, GoRules(mapper))
    ensures IsLookup(Search(output, keys, mapper), Split(output, '\n'), keys, GoRules(mapper))
  {
    PrefixFreeIsDistinct(Split(output, '\n'), keys, mapper);
    TrimmedNotOvertaken(Split(output, '\n'), keys, mapper);
    SearchIsLookup(output, keys, mapper);
  }

  // ---------- The pair of keys the macOS collector uses ----------

  lemma {:induction false} LeUnderPrefix(p: string, x: string, y: string)
    requires Le(x, y)
    ensures Le(p + x, p + y)
  {
    if p == "" {
      assert p + x == x && p + y == y;
    } else {
      assert (p + x)[1..] == p[1..] + x && (p + y)[1..] == p[1..] + y;
      LeUnderPrefix(p[1..], x, y);
    }
  }

  /** A colon sorts before an underscore, so a line for the short key comes before one for the long key. */
  lemma ColonBeforeUnderscore(key: string, suffix: string, short: string, long: string)
    requires HasPrefix(short, key + ":") && HasPrefix(long, key + "_" + suffix)
    ensures Le(short, long) && short != long
  {
    var p, q := key + ":", key + "_" + suffix;
    assert q == key + ("_" + suffix);
    LeUnderPrefix(key, ":", "_" + suffix);
    assert p[|key|] == ':' && q[|key|] == '_';
    PrefixOrder(p, q, short, long);
  }

  /**
   The keys `key` and `key_suffix` are not prefix-free. The search is still the lookup when the output
   has a line of the form `key:...`, as `sysctl` prints it.
   */
  lemma PairSearchIsLookup<V>(output: string, key: string, suffix: string, mapper: string -> Option<V>, own: string)
    requires AllTrimmed(Split(output, '\n'))
    requires ColonWhereKey(Split(output, '\n'), [key, key + "_" + suffix], GoRules(mapper))
    requires own in Split(output, '\n') && HasPrefix(own, key + ":")
    ensures IsLookup(Search(output, [key, key + "_" + suffix], mapper), Split(output, '\n'),
                     [key, key + "_" + suffix], GoRules(mapper))
  {
    var lines, long, r := Split(output, '\n'), key + "_" + suffix, GoRules(mapper);
    var keys := [key, long];
    assert |long| > |key|;
    forall line | Least(line, key, lines, r)
      ensures !Least(line, long, lines, r)
    {
      if HasPrefix(line, long) {
        ColonBeforeUnderscore(key, suffix, own, line);
        PrefixOfPrefix(key, key + ":", own);
        assert r.starts(own, key);
        LeAntisymmetric(own, line);
      }
    }
    assert NoDuplicates(keys) by {
      forall k | k in keys ensures multiset(keys)[k] == 1 {
        OnePlace(keys, k);
      }
    }
    TrimmedNotOvertaken(lines, keys, mapper);
    SearchIsLookup(output, keys, mapper);
  }

  // ---------- Inputs on which the search is not the lookup ----------

  /** A character that is neither space nor a separator. */
  predicate Plain(c: char) {
    !IsSpace(c) && c != ':' && c != '\n'
  }

  lemma FieldRule<V>(line: string, text: string, mapper: string -> Option<V>)
    requires TrimSpace(line) == text
    ensures var r, fields := GoRules(mapper), Split(text, ':');
            && (r.hasField(line) <==> |fields| >= 2)
            && r.field(line) == if |fields| >= 2 then mapper(TrimSpace(fields[1])) else None
  {
  }

  /** The field of a line: what stands between the first two colons, or behind the only one, trimmed. */
  lemma FieldIs<V>(line: string, name: string, value: string, rest: string, mapper: string -> Option<V>)
    requires ':' !in name && ':' !in value
    requires TrimSpace(line) == name + [':'] + value || TrimSpace(line) == name + [':'] + (value + [':'] + rest)
    ensures GoRules(mapper).hasField(line) && GoRules(mapper).field(line) == mapper(TrimSpace(value))
  {
    if TrimSpace(line) == name + [':'] + value {
      SplitAtFirst(name, ':', value);
      assert Split(value, ':') == [value];
      FieldRule(line, name + [':'] + value, mapper);
    } else {
      SplitAtFirst(name, ':', value + [':'] + rest);
      SplitAtFirst(value, ':', rest);
      FieldRule(line, name + [':'] + (value + [':'] + rest), mapper);
    }
  }

  lemma EntryLine(key: string, v: char) returns (line: string)
    requires key != "" && !IsSpace(key[0]) && ':' !in key && '\n' !in key && Plain(v)
    ensures Trimmed(line) && Split(line, ':') == [key, [v]]
    ensures '\n' !in line && |line| == |key| + 2 && line[..|key|] == key && line[|key|] == ':'
  {
    line := key + [':'] + [v];
    SplitAtFirst(key, ':', [v]);
    assert Split([v], ':') == [[v]];
  }

  /** The line `key:v`; the facts about it are all that the counterexamples below use. */
  lemma MakeEntry<V>(key: string, v: char, mapper: string -> Option<V>) returns (line: string)
    requires key != "" && !IsSpace(key[0]) && ':' !in key && '\n' !in key && Plain(v)
    ensures Trimmed(line) && '\n' !in line && |line| == |key| + 2 && line[..|key|] == key && line[|key|] == ':'
    ensures GoRules(mapper).hasField(line) && GoRules(mapper).field(line) == mapper([v])
  {
    line := EntryLine(key, v);
    FieldRule(line, line, mapper);
    assert Trimmed([v]);
  }

  lemma TrimIndented(line: string)
    requires Trimmed(line) && line != ""
    ensures TrimSpace([' '] + line) == line
  {
    assert ([' '] + line)[1..] == line;
    assert TrimLeft([' '] + line) == TrimLeft(line) == line;
    assert TrimSpace([' '] + line) == TrimSpace(line);
  }

  /** The same line behind a blank. */
  lemma Indent<V>(line: string, mapper: string -> Option<V>) returns (indented: string)
    requires Trimmed(line) && line != "" && '\n' !in line
    ensures indented != "" && indented[0] == ' ' && '\n' !in indented
    ensures TrimSpace(indented) == line
    ensures GoRules(mapper).hasField(indented) <==> GoRules(mapper).hasField(line)
  {
    indented := [' '] + line;
    TrimIndented(line);
    FieldRule(indented, line, mapper);
    FieldRule(line, line, mapper);
  }

  lemma TwoLines(first: string, second: string)
    requires '\n' !in first && '\n' !in second
    ensures Split(first + ['\n'] + second, '\n') == [first, second]
  {
    SplitAtFirst(first, '\n', second);
    assert Split(second, '\n') == [second];
  }

  lemma ThreeLines(first: string, second: string, third: string)
    requires '\n' !in first && '\n' !in second && '\n' !in third
    ensures Split(first + ['\n'] + (second + ['\n'] + third), '\n') == [first, second, third]
  {
    SplitAtFirst(first, '\n', second + ['\n'] + third);
    TwoLines(second, third);
  }

  lemma AllHaveFields<V>(l0: string, l1: string, keys: seq<string>, r: Rules<V>)
    requires r.hasField(l0) && r.hasField(l1)
    ensures ColonWhereKey([l0, l1], keys, r)
  {
  }

  lemma OvertakenSearch<V>(output: string, lines: seq<string>, keys: seq<string>, mapper: string -> Option<V>)
    requires Split(output, '\n') == lines && PrefixFree(keys)
    requires ColonWhereKey(lines, keys, GoRules(mapper)) && !NotOvertaken(lines, keys, GoRules(mapper))
    ensures !IsLookup(Search(output, keys, mapper), lines, keys, GoRules(mapper))
  {
    PrefixFreeIsDistinct(lines, keys, mapper);
    SearchIsLookup(output, keys, mapper);
  }

  lemma OvertakenPair<V>(l0: string, l1: string, ka: string, kb: string, r: Rules<V>)
    requires r.starts(l0, kb) && r.starts(l1, ka) && !r.starts(l0, ka) && r.field(l1).Some?
    requires l0 != l1 && r.le(l0, l1) && r.le(l1, l1) && !r.le(kb, ka)
    ensures !NotOvertaken([l0, l1], [ka, kb], r)
  {
    var lines, keys := [l0, l1], [ka, kb];
    assert lines[0] == l0 && lines[1] == l1 && keys[0] == ka && keys[1] == kb;
    assert Least(l1, ka, lines, r);
  }

  lemma IndentedLines<V>(a: char, b: char, x: char, y: char, mapper: string -> Option<V>)
    returns (l0: string, l1: string)
    requires Plain(a) && Plain(b) && Plain(x) && Plain(y) && ' ' < a < b && mapper([y]).Some?
    ensures '\n' !in l0 && '\n' !in l1 && l0 != l1 && Le(l0, l1)
    ensures StartsWith(l0, [b]) && !StartsWith(l0, [a]) && StartsWith(l1, [a])
    ensures GoRules(mapper).hasField(l0) && GoRules(mapper).hasField(l1) && GoRules(mapper).field(l1).Some?
  {
    var entry := MakeEntry([b], x, mapper);
    l0 := Indent(entry, mapper);
    l1 := MakeEntry([a], y, mapper);
    assert entry[0] == b && l1[0] == a && [a][0] == a && [b][0] == b;
    assert TrimSpace(l1) == l1;
  }

  /** A line that keeps its indentation sorts first, and its key makes the search skip a smaller one. */
  lemma IndentedLineOvertakes<V>(a: char, b: char, x: char, y: char, mapper: string -> Option<V>)
    returns (l0: string, l1: string, output: string)
    requires Plain(a) && Plain(b) && Plain(x) && Plain(y) && ' ' < a < b && mapper([y]).Some?
    ensures Split(output, '\n') == [l0, l1] && PrefixFree([[a], [b]])
    ensures !IsLookup(Search(output, [[a], [b]], mapper), [l0, l1], [[a], [b]], GoRules(mapper))
  {
    l0, l1 := IndentedLines(a, b, x, y, mapper);
    LeReflexive(l1);
    LetterKeys(a, b);
    OvertakenPair(l0, l1, [a], [b], GoRules(mapper));
    output := l0 + ['\n'] + l1;
    TwoLines(l0, l1);
    AllHaveFields(l0, l1, [[a], [b]], GoRules(mapper));
    OvertakenSearch(output, [l0, l1], [[a], [b]], mapper);
  }

  lemma LetterKeys(a: char, b: char)
    requires a < b
    ensures PrefixFree([[a], [b]]) && !Le([b], [a]) && Sorted([[a], [b]])
  {
    assert [a][0] == a && [b][0] == b;
  }

  lemma RetriedScan<V>(l0: string, l1: string, l2: string, ka: string, kb: string, r: Rules<V>)
    requires ka != kb && r.Ordered() && r.le(l1, l2) && l1 != l2
    requires r.starts(l0, ka) && r.starts(l1, kb) && r.starts(l2, kb) && !r.starts(l0, kb)
    requires r.hasField(l0) && r.field(l0).Some? && !r.hasField(l1) && r.field(l1).None?
    requires r.hasField(l2) && r.field(l2).Some?
    ensures var pairs := ScanLines([l0, l1, l2], [ka, kb], r).pairs;
            pairs == map[ka := r.field(l0).value, kb := r.field(l2).value]
            && !IsLookup(pairs, [l0, l1, l2], [ka, kb], r)
  {
    var lines, keys := [l0, l1, l2], [ka, kb];
    var s1 := Scan(1, map[ka := r.field(l0).value]);
    assert lines[..2] == [l0, l1] && lines[..2][..1] == [l0] && [l0][..0] == [];
    assert MatchFrom(l0, keys, 0, r) == 0 && MatchFrom(l1, keys, 1, r) == 1 && MatchFrom(l2, keys, 1, r) == 1;
    assert ScanLines([l0], keys, r) == ScanLine(Scan(0, map[]), l0, keys, r) == s1;
    assert ScanLines([l0, l1], keys, r) == ScanLine(s1, l1, keys, r) == s1;
    assert ScanLines(lines, keys, r) == ScanLine(s1, l2, keys, r);
    var pairs := ScanLines(lines, keys, r).pairs;
    assert lines[1] == l1 && kb in pairs;
    assert forall line :: Least(line, kb, lines, r) ==> line == l1;
    assert IsLookup(pairs, lines, keys, r) ==> exists line :: Least(line, kb, lines, r) && r.field(line).Some?;
  }

  lemma RetriedLines<V>(a: char, b: char, x: char, y: char, mapper: string -> Option<V>)
    returns (l0: string, l2: string)
    requires Plain(a) && Plain(b) && Plain(x) && Plain(y) && a < b && mapper([x]).Some? && mapper([y]).Some?
    ensures '\n' !in l0 && '\n' !in l2 && Sorted([l0, [b], l2])
    ensures var lines, keys, r := [l0, [b], l2], [[a], [b]], GoRules(mapper);
            && ScanLines(lines, keys, r).pairs == map[[a] := mapper([x]).value, [b] := mapper([y]).value]
            && !IsLookup(ScanLines(lines, keys, r).pairs, lines, keys, r)
  {
    l0 := MakeEntry([a], x, mapper);
    l2 := MakeEntry([b], y, mapper);
    assert l0[0] == a && l2[0] == b && [a][0] == a && [b][0] == b;
    assert TrimSpace(l0) == l0 && TrimSpace(l2) == l2;
    PrefixIsLe([b], l2);
    NoColon([b], mapper);
    GoRulesOrdered(mapper);
    RetriedScan(l0, [b], l2, [a], [b], GoRules(mapper));
  }

  /**
   A line with its key but no colon puts the index back to its offset in the remaining keys, so the key
   is looked for again and takes a later line; a lookup would have left it out.
   */
  lemma ColonlessLineIsRetried<V>(a: char, b: char, x: char, y: char, mapper: string -> Option<V>)
    returns (lines: seq<string>, output: string)
    requires Plain(a) && Plain(b) && Plain(x) && Plain(y) && a < b && mapper([x]).Some? && mapper([y]).Some?
    ensures Split(output, '\n') == lines && |lines| == 3 && PrefixFree([[a], [b]])
    ensures var pairs := Search(output, [[a], [b]], mapper);
            && pairs == map[[a] := mapper([x]).value, [b] := mapper([y]).value]
            && !IsLookup(pairs, lines, [[a], [b]], GoRules(mapper))
  {
    var l0, l2 := RetriedLines(a, b, x, y, mapper);
    lines, output := [l0, [b], l2], l0 + ['\n'] + ([b] + ['\n'] + l2);
    ThreeLines(l0, [b], l2);
    SortOfSorted(lines);
    LetterKeys(a, b);
    SortOfSorted([[a], [b]]);
  }

  lemma NoColon<V>(line: string, mapper: string -> Option<V>)
    requires Trimmed(line) && ':' !in line
    ensures GoRules(mapper).starts(line, line)
    ensures !GoRules(mapper).hasField(line) && GoRules(mapper).field(line).None?
  {
    assert Split(line, ':') == [line];
  }

  lemma SharedLineScan<V>(line: string, short: string, long: string, r: Rules<V>)
    requires short != long && r.starts(line, short) && r.starts(line, long) && r.le(line, line)
    requires r.hasField(line) && r.field(line).Some?
    ensures var pairs := ScanLines([line], [short, long], r).pairs;
            pairs == map[short := r.field(line).value] && !IsLookup(pairs, [line], [short, long], r)
  {
    var lines, keys := [line], [short, long];
    assert lines[..0] == [] && lines[0] == line && keys[0] == short && keys[1] == long;
    assert MatchFrom(line, keys, 0, r) == 0;
    assert ScanLines(lines, keys, r) == ScanLine(Scan(0, map[]), line, keys, r);
    assert Least(line, long, lines, r);
  }

  /** Without a line of its own the short key takes the long key's line, and the long key is lost. */
  lemma LongKeyLineIsTaken<V>(short: string, long: string, x: char, mapper: string -> Option<V>)
    returns (output: string)
    requires short != "" && !IsSpace(short[0]) && short < long && ':' !in long && '\n' !in long
    requires Plain(x) && mapper([x]).Some?
    ensures Split(output, '\n') == [output]
    ensures var pairs := Search(output, [short, long], mapper);
            && pairs == map[short := mapper([x]).value]
            && !IsLookup(pairs, [output], [short, long], GoRules(mapper))
  {
    output := MakeEntry(long, x, mapper);
    assert HasPrefix(output, long) && TrimSpace(output) == output;
    PrefixOfPrefix(short, long, output);
    LeReflexive(output);
    SharedLineScan(output, short, long, GoRules(mapper));
    assert Split(output, '\n') == [output];
    SortOfSorted([output]);
    PrefixIsLe(short, long);
    SortOfSorted([short, long]);
  }

  // ---------- The loops ----------

  method SortStrings(a: array<string>)
    modifies a
    ensures a[..] == Sort(old(a[..]))
  {
    var s := Sort(a[..]);
    forall i | 0 <= i < a.Length {
      a[i] := s[i];
    }
  }

  /** Once every key has been passed, no line changes anything. */
  lemma {:induction false} SaturatedScan<V>(lines: seq<string>, n: nat, keys: seq<string>, r: Rules<V>)
    requires n <= |lines| && ScanLines(lines[..n], keys, r).lastIndex == |keys|
    ensures ScanLines(lines, keys, r) == ScanLines(lines[..n], keys, r)
    decreases |lines|
  {
    if n < |lines| {
      var front := lines[..|lines| - 1];
      assert front[..n] == lines[..n];
      SaturatedScan(front, n, keys, r);
    } else {
      assert lines[..n] == lines;
    }
  }

  /** The inner loop: the next key, from `lastIndex` on, that the line starts with. */
  method FindKey<V>(rawLine: string, keys: array<string>, lastIndex: nat, ghost r: Rules<V>)
    returns (index: nat, line: string)
    requires lastIndex <= keys.Length && r.starts == StartsWith
    ensures index == MatchFrom(rawLine, keys[..], lastIndex, r) - lastIndex
    ensures index < keys.Length - lastIndex ==> line == TrimSpace(rawLine)
  {
    index, line := 0, rawLine;
    while index < keys.Length - lastIndex
      invariant index <= keys.Length - lastIndex
      invariant line == rawLine || line == TrimSpace(rawLine)
      invariant forall i :: lastIndex <= i < lastIndex + index ==> !StartsWith(rawLine, keys[i])
    {
      line := TrimSpace(line);
      if HasPrefix(line, keys[lastIndex + index]) {
        break;
      }
      index := index + 1;
    }
  }

  method FindColonSeparatedPairs<V>(output: string, keys: array<string>, mapper: string -> Option<V>)
    returns (pairs: map<string, V>)
    modifies keys
    ensures keys[..] == Sort(old(keys[..]))
    ensures pairs == Search(output, old(keys[..]), mapper)
    ensures PrefixFree(old(keys[..])) && AllTrimmed(Split(output, '\n'))
            && ColonWhereKey(Split(output, '\n'), old(keys[..]), GoRules(mapper))
            ==> IsLookup(pairs, Split(output, '\n'), old(keys[..]), GoRules(mapper))
  {
    var lines := Sort(Split(output, '\n'));
    SortStrings(keys);
    pairs := IncrementalSearch(lines, keys, mapper);
    if PrefixFree(old(keys[..])) && AllTrimmed(Split(output, '\n'))
       && ColonWhereKey(Split(output, '\n'), old(keys[..]), GoRules(mapper)) {
      CleanSearchIsLookup(output, old(keys[..]), mapper);
    }
  }

  /** The effect of one line on the index and the pairs. */
  method TakeLine<V>(rawLine: string, keys: array<string>, lastIndex: nat, pairs: map<string, V>,
                     mapper: string -> Option<V>)
    returns (nextIndex: nat, nextPairs: map<string, V>)
    requires lastIndex <= keys.Length
    ensures Scan(nextIndex, nextPairs) == ScanLine(Scan(lastIndex, pairs), rawLine, keys[..], GoRules(mapper))
  {
    nextIndex, nextPairs := lastIndex, pairs;
    var index, line := FindKey(rawLine, keys, lastIndex, GoRules(mapper));
    if index < keys.Length - lastIndex {
      var fields := Split(line, ':');
      if |fields| < 2 {
        nextIndex := index + 1;
      } else {
        var field := mapper(TrimSpace(fields[1]));
        if field.Some? {
          nextPairs := pairs[keys[lastIndex + index] := field.value];
        }
        nextIndex := lastIndex + index + 1;
      }
    }
  }

  /** The outer loop over the sorted lines and keys. */
  method IncrementalSearch<V>(lines: seq<string>, keys: array<string>, mapper: string -> Option<V>)
    returns (pairs: map<string, V>)
    ensures pairs == ScanLines(lines, keys[..], GoRules(mapper)).pairs
  {
    pairs := map[];
    var lastIndex: nat := 0;
    for n := 0 to |lines|
      invariant lastIndex <= keys.Length
      invariant ScanLines(lines[..n], keys[..], GoRules(mapper)) == Scan(lastIndex, pairs)
    {
      if lastIndex == keys.Length {
        SaturatedScan(lines, n, keys[..], GoRules(mapper));
        return;
      }
      assert lines[..n + 1][..n] == lines[..n];
      lastIndex, pairs := TakeLine(lines[n], keys, lastIndex, pairs, mapper);
    }
    assert lines[..|lines|] == lines;
  }
}
