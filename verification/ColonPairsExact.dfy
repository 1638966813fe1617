/**
 When the one-pass search (diagnostic/system_collector_utils.go) is the lookup, without assuming a colon in
 the lines it looks at: exactly, for any keys and any output in terms of the lines that the walk hands to each
 key, and in terms of the input alone for keys of which one is a prefix of the other, and for prefix-free keys
 over lines without surrounding space.
 */
module ColonPairsExact {
  import opened Wrappers
  import opened Strings
  import opened ColonPairs

  /** The same rules for the lines that have a field. */
  function WithField<V>(r: Rules<V>): Rules<V> {
    r.(starts := (line: string, key: string) => r.starts(line, key) && r.hasField(line))
  }

  function FieldAt<V>(lines: seq<string>, i: nat, r: Rules<V>): Option<V> {
    if i < |lines| then r.field(lines[i]) else None
  }

  /** The field of the least line that starts with the key, or none without such a line. */
  function FirstField<V>(lines: seq<string>, key: string, r: Rules<V>): Option<V> {
    FieldAt(lines, First(lines, key, r), r)
  }

  /** A line without a field has none that is accepted. */
  ghost predicate FieldNeedsColon<V>(r: Rules<V>) {
    forall line :: r.field(line).Some? ==> r.hasField(line)
  }

  lemma GoFieldNeedsColon<V>(mapper: string -> Option<V>)
    ensures FieldNeedsColon(GoRules(mapper))
  {
  }

  lemma FirstFieldSnoc<V>(front: seq<string>, last: string, key: string, r: Rules<V>)
    ensures FirstField(front + [last], key, r) ==
              if First(front, key, r) < |front| then FirstField(front, key, r)
              else if r.starts(last, key) then r.field(last)
              else None
  {
    FirstSnoc(front, last, key, r);
  }

  // ---------- What a lookup holds ----------

  /** The pairs hold exactly the values given for the keys. */
  ghost predicate Holds<V>(pairs: map<string, V>, keys: seq<string>, values: seq<Option<V>>)
    requires |values| == |keys|
  {
    && (forall j :: 0 <= j < |keys| ==>
          && (keys[j] in pairs <==> values[j].Some?)
          && (values[j].Some? ==> pairs[keys[j]] == values[j].value))
    && (forall k :: k in pairs ==> k in keys)
  }

  /** In sorted lines the lookup has for each key the field of the first line that starts with it. */
  lemma HoldsLookupIff<V>(pairs: map<string, V>, lines: seq<string>, keys: seq<string>, values: seq<Option<V>>,
                          r: Rules<V>)
    requires r.Ordered() && r.Sorted(lines) && |values| == |keys| && Holds(pairs, keys, values)
    ensures IsLookup(pairs, lines, keys, r)
       <==> forall j :: 0 <= j < |keys| ==> values[j] == FirstField(lines, keys[j], r)
  {
    forall j | 0 <= j < |keys|
      ensures values[j] == FirstField(lines, keys[j], r) <==> LookedUp(pairs, lines, keys[j], r)
    {
      LookedUpIff(pairs, lines, keys[j], r);
    }
    IsLookupByKey(pairs, lines, keys, r);
    assert forall k :: k in keys ==> exists j :: 0 <= j < |keys| && keys[j] == k;
  }

  ghost predicate LookedUp<V>(pairs: map<string, V>, lines: seq<string>, k: string, r: Rules<V>) {
    && (k in pairs ==> exists line :: Least(line, k, lines, r) && r.field(line).Some?)
    && (forall line :: Least(line, k, lines, r) && r.field(line).Some? ==>
          k in pairs && r.field(line) == Some(pairs[k]))
  }

  lemma IsLookupByKey<V>(pairs: map<string, V>, lines: seq<string>, keys: seq<string>, r: Rules<V>)
    requires forall k :: k in pairs ==> k in keys
    ensures IsLookup(pairs, lines, keys, r) <==> forall k :: k in keys ==> LookedUp(pairs, lines, k, r)
  {
    if IsLookup(pairs, lines, keys, r) {
      forall k | k in keys
        ensures LookedUp(pairs, lines, k, r)
      {
      }
    }
  }

  lemma LookedUpIff<V>(pairs: map<string, V>, lines: seq<string>, k: string, r: Rules<V>)
    requires r.Ordered() && r.Sorted(lines)
    ensures LookedUp(pairs, lines, k, r) <==>
              FirstField(lines, k, r) == if k in pairs then Some(pairs[k]) else None
  {
    var i := First(lines, k, r);
    if i < |lines| {
      FirstIsLeast(lines, k, r);
    }
    forall line | Least(line, k, lines, r)
      ensures i < |lines| && line == lines[i]
    {
      LeastIsFirst(lines, k, line, r);
    }
  }

  // ---------- A key that is a prefix of the other ----------

  /** The field that the long key gets: of the first line with a colon behind the line the short key took. */
  function LongField<V>(lines: seq<string>, short: string, long: string, r: Rules<V>): Option<V> {
    var i := First(lines, short, r);
    if i == |lines| then None else FirstField(lines[i + 1..], long, WithField(r))
  }

  /** Where the search stands after the line the short key took and the lines behind it. */
  ghost predicate BehindState<V>(s: Scan<V>, own: Option<V>, behind: seq<string>, short: string, long: string,
                                 r: Rules<V>)
  {
    && s.lastIndex == (if First(behind, long, WithField(r)) == |behind| then 1 else 2)
    && Holds(s.pairs, [short, long], [own, FirstField(behind, long, WithField(r))])
  }

  /** Where it stands after any lines. */
  ghost predicate PairState<V>(s: Scan<V>, lines: seq<string>, short: string, long: string, r: Rules<V>) {
    var i := First(lines, short, r);
    if i == |lines| then s == Scan(0, map[])
    else BehindState(s, r.field(lines[i]), lines[i + 1..], short, long, r)
  }

  /** The first line that starts with the short key, if this is one. */
  lemma PairBefore<V>(line: string, short: string, long: string, r: Rules<V>)
    requires short != long && (r.starts(line, long) ==> r.starts(line, short)) && FieldNeedsColon(r)
    ensures var s := ScanLine(Scan(0, map[]), line, [short, long], r);
            if r.starts(line, short) then BehindState(s, r.field(line), [], short, long, r) else s == Scan(0, map[])
  {
    var keys := [short, long];
    assert keys[0] == short && keys[1] == long;
    assert MatchFrom(line, keys, 0, r) == if r.starts(line, short) then 0 else 2;
    assert First<V>([], long, WithField(r)) == 0;
  }

  /** Behind the line the short key took, a line counts only for the long key, and only with a colon. */
  lemma LongStep<V>(s: Scan<V>, last: string, short: string, long: string, r: Rules<V>, seen: bool,
                    own: Option<V>, other: Option<V>)
    requires short != long && FieldNeedsColon(r) && s.lastIndex == (if seen then 2 else 1)
    requires Holds(s.pairs, [short, long], [own, other]) && (!seen ==> other == None)
    ensures var t := ScanLine(s, last, [short, long], r);
            var hit := !seen && r.starts(last, long) && r.hasField(last);
            && t.lastIndex == (if seen || hit then 2 else 1)
            && Holds(t.pairs, [short, long], [own, if hit then r.field(last) else other])
  {
    var keys := [short, long];
    assert keys[0] == short && keys[1] == long;
    if !seen {
      assert MatchFrom(last, keys, 1, r) == if r.starts(last, long) then 1 else 2;
    }
  }

  lemma BehindStep<V>(s: Scan<V>, own: Option<V>, behind: seq<string>, last: string, short: string, long: string,
                      r: Rules<V>)
    requires short != long && FieldNeedsColon(r) && BehindState(s, own, behind, short, long, r)
    ensures BehindState(ScanLine(s, last, [short, long], r), own, behind + [last], short, long, r)
  {
    FirstSnoc(behind, last, long, WithField(r));
    FirstFieldSnoc(behind, last, long, WithField(r));
    var seen := First(behind, long, WithField(r)) < |behind|;
    LongStep(s, last, short, long, r, seen, own, FirstField(behind, long, WithField(r)));
  }

  /** The first line that starts with a key, and the lines behind it, after one more line. */
  lemma BehindSnoc<V>(front: seq<string>, last: string, key: string, r: Rules<V>)
    ensures var i, lines := First(front, key, r), front + [last];
            if i < |front| then
              First(lines, key, r) == i && lines[i] == front[i] && lines[i + 1..] == front[i + 1..] + [last]
            else if r.starts(last, key) then
              First(lines, key, r) == i && lines[i] == last && lines[i + 1..] == []
            else First(lines, key, r) == |lines|
  {
    FirstSnoc(front, last, key, r);
  }

  lemma PairStep<V>(s: Scan<V>, front: seq<string>, last: string, short: string, long: string, r: Rules<V>)
    requires short != long && FieldNeedsColon(r) && (r.starts(last, long) ==> r.starts(last, short))
    requires PairState(s, front, short, long, r)
    ensures PairState(ScanLine(s, last, [short, long], r), front + [last], short, long, r)
  {
    BehindSnoc(front, last, short, r);
    var i := First(front, short, r);
    if i < |front| {
      BehindStep(s, r.field(front[i]), front[i + 1..], last, short, long, r);
    } else {
      PairBefore(last, short, long, r);
    }
  }

  lemma {:induction false} PairScan<V>(lines: seq<string>, short: string, long: string, r: Rules<V>)
    requires short != long && FieldNeedsColon(r)
    requires forall line :: r.starts(line, long) ==> r.starts(line, short)
    ensures PairState(ScanLines(lines, [short, long], r), lines, short, long, r)
  {
    if lines != [] {
      var front, last := lines[..|lines| - 1], lines[|lines| - 1];
      PairScan(front, short, long, r);
      PairStep(ScanLines(front, [short, long], r), front, last, short, long, r);
      assert lines == front + [last];
    }
  }

  lemma PairHolds<V>(lines: seq<string>, short: string, long: string, r: Rules<V>)
    requires short != long && FieldNeedsColon(r)
    requires forall line :: r.starts(line, long) ==> r.starts(line, short)
    ensures Holds(ScanLines(lines, [short, long], r).pairs, [short, long],
                  [FirstField(lines, short, r), LongField(lines, short, long, r)])
  {
    PairScan(lines, short, long, r);
    assert [short, long][0] == short && [short, long][1] == long;
  }

  lemma HoldsPairIff<V>(pairs: map<string, V>, lines: seq<string>, a: string, b: string, v: Option<V>, w: Option<V>,
                        r: Rules<V>)
    requires r.Ordered() && r.Sorted(lines) && Holds(pairs, [a, b], [v, w])
    ensures IsLookup(pairs, lines, [a, b], r) <==> v == FirstField(lines, a, r) && w == FirstField(lines, b, r)
  {
    var keys, values := [a, b], [v, w];
    HoldsLookupIff(pairs, lines, keys, values, r);
    assert keys[0] == a && keys[1] == b && values[0] == v && values[1] == w;
  }

  lemma PairLookupIff<V>(lines: seq<string>, short: string, long: string, r: Rules<V>)
    requires r.Ordered() && r.Sorted(lines) && short != long && FieldNeedsColon(r)
    requires forall line :: r.starts(line, long) ==> r.starts(line, short)
    ensures IsLookup(ScanLines(lines, [short, long], r).pairs, lines, [short, long], r)
       <==> FirstField(lines, long, r) == LongField(lines, short, long, r)
  {
    PairHolds(lines, short, long, r);
    HoldsPairIff(ScanLines(lines, [short, long], r).pairs, lines, short, long,
                 FirstField(lines, short, r), LongField(lines, short, long, r), r);
  }

  /**
   For a key and one that extends it the search is the lookup exactly when the first line of the long key
   gives the same as the first one with a colon behind the line the short key took. No colons are assumed.
   */
  lemma PairSearchIff<V>(output: string, short: string, long: string, mapper: string -> Option<V>)
    requires short < long
    ensures var lines := Sort(Split(output, '\n'));
            IsLookup(Search(output, [short, long], mapper), Split(output, '\n'), [short, long], GoRules(mapper))
            <==> FirstField(lines, long, GoRules(mapper)) == LongField(lines, short, long, GoRules(mapper))
  {
    var lines, keys, r := Sort(Split(output, '\n')), [short, long], GoRules(mapper);
    GoRulesOrdered(mapper);
    GoRulesSorted(Split(output, '\n'), mapper);
    GoFieldNeedsColon(mapper);
    PrefixIsLe(short, long);
    SortOfSorted(keys);
    LongStartsShort(short, long, mapper);
    PairLookupIff(lines, short, long, r);
    SortKeepsMeaning(Split(output, '\n'), keys, r, Search(output, keys, mapper));
  }

  lemma LongStartsShort<V>(short: string, long: string, mapper: string -> Option<V>)
    requires short < long
    ensures forall line :: GoRules(mapper).starts(line, long) ==> GoRules(mapper).starts(line, short)
  {
    forall line | GoRules(mapper).starts(line, long)
      ensures GoRules(mapper).starts(line, short)
    {
      PrefixOfPrefix(short, long, TrimSpace(line));
    }
  }

  /** The lines of the long key are lines of the short one, and have a colon. */
  ghost predicate LongHasColon<V>(lines: seq<string>, short: string, long: string, r: Rules<V>) {
    forall line :: line in lines && r.starts(line, long) ==> r.starts(line, short) && r.hasField(line)
  }

  /**
   The long key has no line, or the short key has one of its own before them, or the first two of them, a
   missing second counting as refused, have the same field.
   */
  ghost predicate LongIsFound<V>(lines: seq<string>, short: string, long: string, r: Rules<V>) {
    var i, j := First(lines, short, r), First(lines, long, r);
    || j == |lines| || i < j
    || FirstField(lines, long, r) == FirstField(lines[j + 1..], long, r)
  }

  lemma LongFieldCases<V>(lines: seq<string>, short: string, long: string, r: Rules<V>)
    requires LongHasColon(lines, short, long, r)
    ensures FirstField(lines, long, r) == LongField(lines, short, long, r) <==> LongIsFound(lines, short, long, r)
  {
    var i, j := First(lines, short, r), First(lines, long, r);
    assert i <= j;
    if i < |lines| {
      SameField(lines[i + 1..], long, r);
    }
    if i < j {
      FieldBehind(lines, long, i + 1, r);
    }
  }

  /** So when every line of the long key has a colon, the search is the lookup exactly in the cases above. */
  lemma PairSearchCases<V>(output: string, short: string, long: string, mapper: string -> Option<V>)
    requires short < long && ColonWhereKey(Split(output, '\n'), [long], GoRules(mapper))
    ensures IsLookup(Search(output, [short, long], mapper), Split(output, '\n'), [short, long], GoRules(mapper))
       <==> LongIsFound(Sort(Split(output, '\n')), short, long, GoRules(mapper))
  {
    LongHasField(Split(output, '\n'), short, long, mapper);
    PairSearchIff(output, short, long, mapper);
    LongFieldCases(Sort(Split(output, '\n')), short, long, GoRules(mapper));
  }

  lemma LongHasField<V>(a: seq<string>, short: string, long: string, mapper: string -> Option<V>)
    requires short < long && ColonWhereKey(a, [long], GoRules(mapper))
    ensures LongHasColon(Sort(a), short, long, GoRules(mapper))
  {
    LongStartsShort(short, long, mapper);
    assert long in [long];
    forall line | line in Sort(a)
      ensures line in a
    {
      SortKeepsMembers(a, line);
    }
  }

  lemma {:induction false} SameFirst<V>(lines: seq<string>, key: string, r: Rules<V>, q: Rules<V>)
    requires forall line :: line in lines ==> r.starts(line, key) == q.starts(line, key)
    ensures First(lines, key, r) == First(lines, key, q)
  {
    if lines != [] {
      SameFirst(lines[..|lines| - 1], key, r, q);
    }
  }

  lemma SameField<V>(lines: seq<string>, key: string, r: Rules<V>)
    requires forall line :: line in lines && r.starts(line, key) ==> r.hasField(line)
    ensures FirstField(lines, key, WithField(r)) == FirstField(lines, key, r)
  {
    SameFirst(lines, key, r, WithField(r));
  }

  /** Leaving out lines in front of the first one moves it forward by as many. */
  lemma FirstBehind<V>(lines: seq<string>, key: string, from: nat, r: Rules<V>)
    requires from <= First(lines, key, r)
    ensures First(lines[from..], key, r) == First(lines, key, r) - from
  {
    assert forall h :: 0 <= h < |lines| - from ==> lines[from..][h] == lines[from + h];
  }

  lemma FieldBehind<V>(lines: seq<string>, key: string, from: nat, r: Rules<V>)
    requires from <= First(lines, key, r)
    ensures FirstField(lines[from..], key, r) == FirstField(lines, key, r)
  {
    FirstBehind(lines, key, from, r);
  }

  // ---------- Prefix-free keys over trimmed lines ----------

  predicate Seen<V>(lines: seq<string>, key: string, r: Rules<V>) {
    First(lines, key, r) < |lines|
  }

  /** The keys of the lines never go back, and no line has two. */
  ghost predicate Grouped<V>(lines: seq<string>, keys: seq<string>, r: Rules<V>) {
    forall x, y, i, j ::
      0 <= x <= y < |lines| && 0 <= i < |keys| && 0 <= j < |keys|
      && r.starts(lines[x], keys[i]) && r.starts(lines[y], keys[j])
      ==> i <= j
  }

  /** A smaller key has a line. */
  ghost predicate Smaller<V>(lines: seq<string>, keys: seq<string>, j: nat, r: Rules<V>)
    requires j < |keys|
  {
    exists h :: 0 <= h < j && Seen(lines, keys[h], r)
  }

  /** The key at `j` is passed: it was the first to be met, or one of its lines had a colon. */
  ghost predicate Settled<V>(lines: seq<string>, keys: seq<string>, j: nat, r: Rules<V>)
    requires j < |keys|
  {
    !Smaller(lines, keys, j, r) || Seen(lines, keys[j], WithField(r))
  }

  /** What the search finds for a key: behind a smaller key it waits for a line with a colon. */
  ghost function Value<V>(lines: seq<string>, keys: seq<string>, j: nat, r: Rules<V>): Option<V>
    requires j < |keys|
  {
    if Smaller(lines, keys, j, r) then FirstField(lines, keys[j], WithField(r)) else FirstField(lines, keys[j], r)
  }

  /** Where the search stands: `top` is the greatest key met so far, or -1. */
  ghost predicate Placed<V>(lastIndex: nat, top: int, lines: seq<string>, keys: seq<string>, r: Rules<V>) {
    && -1 <= top < |keys|
    && (forall j :: 0 <= j < |keys| && Seen(lines, keys[j], r) ==> j <= top)
    && (top >= 0 ==> Seen(lines, keys[top], r))
    && (if top == -1 then lastIndex == 0
        else if Settled(lines, keys, top, r) then lastIndex == top + 1
        else 1 <= lastIndex <= top)
  }

  ghost function Values<V>(lines: seq<string>, keys: seq<string>, r: Rules<V>): seq<Option<V>> {
    seq(|keys|, j requires 0 <= j < |keys| => Value(lines, keys, j, r))
  }

  lemma SeenSnoc<V>(front: seq<string>, last: string, key: string, r: Rules<V>)
    ensures Seen(front + [last], key, r) <==> Seen(front, key, r) || r.starts(last, key)
  {
    FirstSnoc(front, last, key, r);
  }

  /** A seen key was seen at a line of the front. */
  lemma NoSmallerBehind<V>(front: seq<string>, last: string, keys: seq<string>, r: Rules<V>, h: nat, j: nat)
    requires Grouped(front + [last], keys, r) && h < |keys| && j < |keys| && r.starts(last, keys[h])
    requires Seen(front, keys[j], r) || r.starts(last, keys[j])
    ensures j <= h
  {
    var lines, n := front + [last], |front|;
    assert lines[n] == last;
    if Seen(front, keys[j], r) {
      var x := First(front, keys[j], r);
      assert lines[x] == front[x];
      assert r.starts(lines[x], keys[j]) && r.starts(lines[n], keys[h]);
    } else {
      assert r.starts(lines[n], keys[j]) && r.starts(lines[n], keys[h]);
    }
  }

  /** Once a key is met, no later line adds a smaller one. */
  lemma SmallerSnoc<V>(front: seq<string>, last: string, keys: seq<string>, r: Rules<V>, j: nat)
    requires Grouped(front + [last], keys, r) && j < |keys|
    requires Seen(front, keys[j], r) || r.starts(last, keys[j])
    ensures Smaller(front + [last], keys, j, r) <==> Smaller(front, keys, j, r)
  {
    forall h: nat | h < j
      ensures Seen(front + [last], keys[h], r) <==> Seen(front, keys[h], r)
    {
      SeenSnoc(front, last, keys[h], r);
      if r.starts(last, keys[h]) {
        NoSmallerBehind(front, last, keys, r, h, j);
      }
    }
  }

  /** A line gives its key a new value exactly when the key is not settled yet. */
  lemma ValueSnoc<V>(front: seq<string>, last: string, keys: seq<string>, r: Rules<V>, j: nat)
    requires Grouped(front + [last], keys, r) && j < |keys| && FieldNeedsColon(r)
    ensures Value(front + [last], keys, j, r) ==
              if r.starts(last, keys[j]) && !(Seen(front, keys[j], r) && Settled(front, keys, j, r)) then r.field(last)
              else Value(front, keys, j, r)
  {
    FirstFieldSnoc(front, last, keys[j], r);
    FirstFieldSnoc(front, last, keys[j], WithField(r));
    ColonSeen(front, keys[j], r);
    if Seen(front, keys[j], r) || r.starts(last, keys[j]) {
      SmallerSnoc(front, last, keys, r, j);
    }
  }

  /** A line with a colon that starts with the key is a line that starts with it. */
  lemma ColonSeen<V>(lines: seq<string>, key: string, r: Rules<V>)
    ensures First(lines, key, r) <= First(lines, key, WithField(r))
  {
  }

  lemma SettledSnoc<V>(front: seq<string>, last: string, keys: seq<string>, r: Rules<V>, j: nat)
    requires Grouped(front + [last], keys, r) && j < |keys| && r.starts(last, keys[j])
    ensures Settled(front + [last], keys, j, r) <==>
              !Smaller(front, keys, j, r) || Seen(front, keys[j], WithField(r)) || r.hasField(last)
  {
    SmallerSnoc(front, last, keys, r, j);
    SeenSnoc(front, last, keys[j], WithField(r));
  }

  /** A line without a key changes nothing. */
  lemma StrayLine<V>(s: Scan<V>, top: int, front: seq<string>, last: string, keys: seq<string>, r: Rules<V>)
    requires Grouped(front + [last], keys, r) && FieldNeedsColon(r) && s.lastIndex <= |keys|
    requires Placed(s.lastIndex, top, front, keys, r)
    requires forall j :: 0 <= j < |keys| ==> !r.starts(last, keys[j])
    ensures ScanLine(s, last, keys, r) == s && Values(front + [last], keys, r) == Values(front, keys, r)
    ensures Placed(s.lastIndex, top, front + [last], keys, r)
  {
    forall j | 0 <= j < |keys|
      ensures Value(front + [last], keys, j, r) == Value(front, keys, j, r)
      ensures Seen(front + [last], keys[j], r) <==> Seen(front, keys[j], r)
    {
      ValueSnoc(front, last, keys, r, j);
      SeenSnoc(front, last, keys[j], r);
    }
    if top >= 0 {
      SmallerSnoc(front, last, keys, r, top);
      SeenSnoc(front, last, keys[top], WithField(r));
    }
  }

  /** The search matches the key of a line unless it has passed it. */
  lemma MatchesOwner<V>(last: string, keys: seq<string>, from: nat, o: nat, r: Rules<V>)
    requires from <= |keys| && o < |keys| && r.starts(last, keys[o])
    requires forall j :: 0 <= j < |keys| && r.starts(last, keys[j]) ==> j == o
    ensures MatchFrom(last, keys, from, r) == if from <= o then o else |keys|
  {
  }

  lemma OwnerIsOne<V>(front: seq<string>, last: string, keys: seq<string>, o: nat, r: Rules<V>)
    requires Grouped(front + [last], keys, r) && o < |keys| && r.starts(last, keys[o])
    ensures forall j :: 0 <= j < |keys| && r.starts(last, keys[j]) ==> j == o
  {
    forall j: nat | j < |keys| && r.starts(last, keys[j])
      ensures j == o
    {
      NoSmallerBehind(front, last, keys, r, j, o);
      NoSmallerBehind(front, last, keys, r, o, j);
    }
  }

  /** What one line of the key at `o` does to the search. */
  lemma OwnerLine<V>(s: Scan<V>, last: string, keys: seq<string>, o: nat, r: Rules<V>)
    requires s.lastIndex <= |keys| && o < |keys| && r.starts(last, keys[o]) && FieldNeedsColon(r)
    requires forall j :: 0 <= j < |keys| && r.starts(last, keys[j]) ==> j == o
    ensures ScanLine(s, last, keys, r) ==
              if s.lastIndex > o then s
              else Scan(if r.hasField(last) then o + 1 else o - s.lastIndex + 1,
                        if r.field(last).Some? then s.pairs[keys[o] := r.field(last).value] else s.pairs)
  {
    MatchesOwner(last, keys, s.lastIndex, o, r);
  }

  /** A line of the key at `o` finds the search before it exactly when the key is not settled. */
  lemma OwnerReached<V>(lastIndex: nat, top: int, front: seq<string>, last: string, keys: seq<string>, o: nat,
                        r: Rules<V>)
    requires Grouped(front + [last], keys, r) && Placed(lastIndex, top, front, keys, r)
    requires o < |keys| && r.starts(last, keys[o])
    ensures top <= o && (Seen(front, keys[o], r) <==> top == o)
    ensures Smaller(front, keys, o, r) <==> 0 <= top && (top < o || Smaller(front, keys, top, r))
    ensures lastIndex <= o <==> !(top == o && Settled(front, keys, o, r))
  {
    if top >= 0 {
      NoSmallerBehind(front, last, keys, r, o, top);
    }
  }

  lemma OwnerIndex<V>(lastIndex: nat, top: int, front: seq<string>, last: string, keys: seq<string>, o: nat,
                      r: Rules<V>)
    requires Grouped(front + [last], keys, r) && Placed(lastIndex, top, front, keys, r)
    requires o < |keys| && r.starts(last, keys[o])
    ensures var next := if lastIndex > o then lastIndex else if r.hasField(last) then o + 1 else o - lastIndex + 1;
            if Settled(front + [last], keys, o, r) then next == o + 1 else 1 <= next <= o
  {
    OwnerReached(lastIndex, top, front, last, keys, o, r);
    SettledSnoc(front, last, keys, r, o);
    ColonSeen(front, keys[o], r);
  }

  /** Where the search stands after a line of the key at `o`. */
  lemma OwnerPlaced<V>(lastIndex: nat, top: int, front: seq<string>, last: string, keys: seq<string>, o: nat,
                       r: Rules<V>)
    requires Grouped(front + [last], keys, r) && Placed(lastIndex, top, front, keys, r)
    requires o < |keys| && r.starts(last, keys[o])
    ensures var next := if lastIndex > o then lastIndex else if r.hasField(last) then o + 1 else o - lastIndex + 1;
            Placed(next, o, front + [last], keys, r)
  {
    OwnerReached(lastIndex, top, front, last, keys, o, r);
    OwnerIndex(lastIndex, top, front, last, keys, o, r);
    OwnerIsOne(front, last, keys, o, r);
    forall j | 0 <= j < |keys|
      ensures Seen(front + [last], keys[j], r) <==> Seen(front, keys[j], r) || j == o
    {
      SeenSnoc(front, last, keys[j], r);
    }
  }

  /** A line of the key at `o` gives a value to that key, if it is not settled, and to no other. */
  lemma OwnerValues<V>(front: seq<string>, last: string, keys: seq<string>, o: nat, r: Rules<V>)
    requires Grouped(front + [last], keys, r) && FieldNeedsColon(r) && o < |keys| && r.starts(last, keys[o])
    ensures Values(front + [last], keys, r) ==
              if Seen(front, keys[o], r) && Settled(front, keys, o, r) then Values(front, keys, r)
              else Values(front, keys, r)[o := r.field(last)]
  {
    OwnerIsOne(front, last, keys, o, r);
    forall j | 0 <= j < |keys|
      ensures Value(front + [last], keys, j, r) ==
                if j == o && !(Seen(front, keys[o], r) && Settled(front, keys, o, r)) then r.field(last)
                else Value(front, keys, j, r)
    {
      ValueSnoc(front, last, keys, r, j);
    }
  }

  lemma HoldsUpdate<V>(pairs: map<string, V>, keys: seq<string>, values: seq<Option<V>>, o: nat, v: Option<V>)
    requires |values| == |keys| && Holds(pairs, keys, values) && o < |keys| && values[o] == None
    requires forall i, j :: 0 <= i < j < |keys| ==> keys[i] != keys[j]
    ensures Holds(if v.Some? then pairs[keys[o] := v.value] else pairs, keys, values[o := v])
  {
  }

  /** A key that is not settled has no value yet. */
  lemma UnsettledHasNone<V>(lines: seq<string>, keys: seq<string>, j: nat, r: Rules<V>)
    requires j < |keys| && !(Seen(lines, keys[j], r) && Settled(lines, keys, j, r))
    ensures Value(lines, keys, j, r) == None
  {
    ColonSeen(lines, keys[j], r);
  }

  /** A line of the key at `o` leaves the search with the values of its keys. */
  lemma OwnerHolds<V>(s: Scan<V>, was: int, front: seq<string>, last: string, keys: seq<string>, o: nat, r: Rules<V>)
    requires Grouped(front + [last], keys, r) && FieldNeedsColon(r) && o < |keys| && r.starts(last, keys[o])
    requires forall i, j :: 0 <= i < j < |keys| ==> keys[i] != keys[j]
    requires Placed(s.lastIndex, was, front, keys, r) && Holds(s.pairs, keys, Values(front, keys, r))
    ensures var pairs := if s.lastIndex <= o && r.field(last).Some? then s.pairs[keys[o] := r.field(last).value]
                         else s.pairs;
            Holds(pairs, keys, Values(front + [last], keys, r))
  {
    OwnerReached(s.lastIndex, was, front, last, keys, o, r);
    OwnerValues(front, last, keys, o, r);
    if s.lastIndex <= o {
      UnsettledHasNone(front, keys, o, r);
      HoldsUpdate(s.pairs, keys, Values(front, keys, r), o, r.field(last));
    }
  }

  /** One more line takes the search to where the keys then say. */
  lemma GroupedStep<V>(s: Scan<V>, was: int, front: seq<string>, last: string, keys: seq<string>, r: Rules<V>)
    returns (top: int)
    requires Grouped(front + [last], keys, r) && FieldNeedsColon(r)
    requires forall i, j :: 0 <= i < j < |keys| ==> keys[i] != keys[j]
    requires Placed(s.lastIndex, was, front, keys, r) && Holds(s.pairs, keys, Values(front, keys, r))
    ensures var t := ScanLine(s, last, keys, r);
            && Placed(t.lastIndex, top, front + [last], keys, r)
            && Holds(t.pairs, keys, Values(front + [last], keys, r))
  {
    if forall j :: 0 <= j < |keys| ==> !r.starts(last, keys[j]) {
      StrayLine(s, was, front, last, keys, r);
      return was;
    }
    top :| 0 <= top < |keys| && r.starts(last, keys[top]);
    OwnerIsOne(front, last, keys, top, r);
    OwnerLine(s, last, keys, top, r);
    OwnerPlaced(s.lastIndex, was, front, last, keys, top, r);
    OwnerHolds(s, was, front, last, keys, top, r);
  }

  /** The search over grouped lines stands where its keys say, and has found their values. */
  lemma {:induction false} GroupedScan<V>(lines: seq<string>, keys: seq<string>, r: Rules<V>) returns (top: int)
    requires Grouped(lines, keys, r) && FieldNeedsColon(r)
    requires forall i, j :: 0 <= i < j < |keys| ==> keys[i] != keys[j]
    ensures var s := ScanLines(lines, keys, r);
            Placed(s.lastIndex, top, lines, keys, r) && Holds(s.pairs, keys, Values(lines, keys, r))
  {
    if lines == [] {
      return -1;
    }
    var front, last := lines[..|lines| - 1], lines[|lines| - 1];
    assert lines == front + [last];
    GroupedFront(front, last, keys, r);
    var was := GroupedScan(front, keys, r);
    top := GroupedStep(ScanLines(front, keys, r), was, front, last, keys, r);
  }

  lemma GroupedFront<V>(front: seq<string>, last: string, keys: seq<string>, r: Rules<V>)
    requires Grouped(front + [last], keys, r)
    ensures Grouped(front, keys, r)
  {
    assert forall x :: 0 <= x < |front| ==> (front + [last])[x] == front[x];
  }

  // ---------- The exact condition ----------

  /**
   A key is retaken: its least line has no colon, a smaller key has a line, and the least of its lines with a
   colon has an accepted field.
   */
  ghost predicate Retaken<V>(k: string, lines: seq<string>, keys: seq<string>, r: Rules<V>) {
    && (exists line :: Least(line, k, lines, r) && !r.hasField(line))
    && (exists smaller, line ::
          smaller in keys && smaller != k && r.le(smaller, k) && line in lines && r.starts(line, smaller))
    && (exists line :: Least(line, k, lines, WithField(r)) && r.field(line).Some?)
  }

  /** The same at the index of a key in sorted lines and keys. */
  ghost predicate RetakenAt<V>(lines: seq<string>, keys: seq<string>, j: nat, r: Rules<V>)
    requires j < |keys|
  {
    var i := First(lines, keys[j], r);
    && i < |lines| && !r.hasField(lines[i])
    && Smaller(lines, keys, j, r)
    && FirstField(lines, keys[j], WithField(r)).Some?
  }

  lemma ValueIsFirstFieldIff<V>(lines: seq<string>, keys: seq<string>, j: nat, r: Rules<V>)
    requires j < |keys| && FieldNeedsColon(r)
    ensures Value(lines, keys, j, r) == FirstField(lines, keys[j], r) <==> !RetakenAt(lines, keys, j, r)
  {
    ColonSeen(lines, keys[j], r);
    var i := First(lines, keys[j], r);
    if i < |lines| && r.hasField(lines[i]) {
      assert First(lines, keys[j], WithField(r)) == i;
    }
  }

  lemma ValuesAreFieldsIff<V>(lines: seq<string>, keys: seq<string>, r: Rules<V>)
    requires FieldNeedsColon(r)
    ensures (forall j :: 0 <= j < |keys| ==> Values(lines, keys, r)[j] == FirstField(lines, keys[j], r))
       <==> (forall j :: 0 <= j < |keys| ==> !RetakenAt(lines, keys, j, r))
  {
    forall j: nat | j < |keys|
      ensures Values(lines, keys, r)[j] == FirstField(lines, keys[j], r) <==> !RetakenAt(lines, keys, j, r)
    {
      ValueIsFirstFieldIff(lines, keys, j, r);
    }
  }

  lemma GroupedLookupIff<V>(lines: seq<string>, keys: seq<string>, r: Rules<V>)
    requires r.Ordered() && r.Sorted(lines) && Grouped(lines, keys, r) && FieldNeedsColon(r)
    requires forall i, j :: 0 <= i < j < |keys| ==> keys[i] != keys[j]
    ensures IsLookup(ScanLines(lines, keys, r).pairs, lines, keys, r)
       <==> forall j :: 0 <= j < |keys| ==> !RetakenAt(lines, keys, j, r)
  {
    var top := GroupedScan(lines, keys, r);
    HoldsLookupIff(ScanLines(lines, keys, r).pairs, lines, keys, Values(lines, keys, r), r);
    ValuesAreFieldsIff(lines, keys, r);
  }

  /** Least lines are first lines. */
  lemma LeastField<V>(lines: seq<string>, k: string, r: Rules<V>)
    requires r.Ordered() && r.Sorted(lines)
    ensures (exists line :: Least(line, k, lines, r) && !r.hasField(line))
       <==> First(lines, k, r) < |lines| && !r.hasField(lines[First(lines, k, r)])
    ensures (exists line :: Least(line, k, lines, r) && r.field(line).Some?) <==> FirstField(lines, k, r).Some?
  {
    if First(lines, k, r) < |lines| {
      FirstIsLeast(lines, k, r);
    }
    forall line | Least(line, k, lines, r)
      ensures First(lines, k, r) < |lines| && line == lines[First(lines, k, r)]
    {
      LeastIsFirst(lines, k, line, r);
    }
  }

  lemma SmallerIff<V>(lines: seq<string>, keys: seq<string>, j: nat, r: Rules<V>)
    requires r.Ordered() && r.Sorted(keys) && j < |keys|
    requires forall i, j :: 0 <= i < j < |keys| ==> keys[i] != keys[j]
    ensures Smaller(lines, keys, j, r) <==>
      exists smaller, line ::
        smaller in keys && smaller != keys[j] && r.le(smaller, keys[j]) && line in lines && r.starts(line, smaller)
  {
    if Smaller(lines, keys, j, r) {
      var h :| 0 <= h < j && Seen(lines, keys[h], r);
      var line := lines[First(lines, keys[h], r)];
      assert keys[h] in keys && line in lines && r.starts(line, keys[h]);
    }
    if smaller, line :| smaller in keys && smaller != keys[j] && r.le(smaller, keys[j]) && line in lines
                        && r.starts(line, smaller) {
      var h :| 0 <= h < |keys| && keys[h] == smaller;
      var x :| 0 <= x < |lines| && lines[x] == line;
      assert First(lines, smaller, r) <= x;
      assert h < j;
    }
  }

  lemma WithFieldOrdered<V>(lines: seq<string>, r: Rules<V>)
    requires r.Ordered() && r.Sorted(lines)
    ensures WithField(r).Ordered() && WithField(r).Sorted(lines)
  {
  }

  lemma RetakenIff<V>(lines: seq<string>, keys: seq<string>, j: nat, r: Rules<V>)
    requires r.Ordered() && r.Sorted(lines) && r.Sorted(keys) && j < |keys|
    requires forall i, j :: 0 <= i < j < |keys| ==> keys[i] != keys[j]
    ensures Retaken(keys[j], lines, keys, r) <==> RetakenAt(lines, keys, j, r)
  {
    LeastField(lines, keys[j], r);
    WithFieldOrdered(lines, r);
    LeastField(lines, keys[j], WithField(r));
    SmallerIff(lines, keys, j, r);
  }

  /** Prefix-free keys group sorted lines without surrounding space. */
  lemma TrimmedIsGrouped<V>(lines: seq<string>, keys: seq<string>, mapper: string -> Option<V>)
    requires Sorted(lines) && Sorted(keys) && AllTrimmed(lines) && PrefixFree(keys)
    ensures Grouped(lines, keys, GoRules(mapper))
  {
    forall x, y, i, j |
      0 <= x <= y < |lines| && 0 <= i < |keys| && 0 <= j < |keys|
      && StartsWith(lines[x], keys[i]) && StartsWith(lines[y], keys[j])
      ensures i <= j
    {
      LeReflexive(lines[x]);
      assert Trimmed(lines[x]) && Trimmed(lines[y]);
      if j < i {
        PrefixOrder(keys[j], keys[i], lines[y], lines[x]);
        LeAntisymmetric(lines[x], lines[y]);
      }
    }
  }

  lemma SortedKeysPrefixFree(keys: seq<string>)
    requires PrefixFree(keys)
    ensures PrefixFree(Sort(keys)) && forall i, j :: 0 <= i < j < |keys| ==> Sort(keys)[i] != Sort(keys)[j]
  {
    var sorted := Sort(keys);
    forall k | k in sorted
      ensures multiset(sorted)[k] == 1
    {
      assert k in multiset(sorted);
      OnePlace(keys, k);
    }
    forall i: nat, j: nat | i < j < |sorted|
      ensures sorted[i] != sorted[j] && !HasPrefix(sorted[i], sorted[j]) && !HasPrefix(sorted[j], sorted[i])
    {
      TwoPlaces(sorted, i, j);
      SortKeepsMembers(keys, sorted[i]);
      SortKeepsMembers(keys, sorted[j]);
      var p :| 0 <= p < |keys| && keys[p] == sorted[i];
      var q :| 0 <= q < |keys| && keys[q] == sorted[j];
      assert p != q;
    }
  }

  lemma RetakenIgnoresOrder<V>(k: string, lines: seq<string>, lines': seq<string>, keys: seq<string>,
                               keys': seq<string>, r: Rules<V>)
    requires (forall x :: x in lines <==> x in lines') && (forall x :: x in keys <==> x in keys')
    ensures Retaken(k, lines, keys, r) <==> Retaken(k, lines', keys', r)
  {
    assert forall line :: Least(line, k, lines, r) <==> Least(line, k, lines', r);
    assert forall line :: Least(line, k, lines, WithField(r)) <==> Least(line, k, lines', WithField(r));
  }

  lemma SortedLookupIff<V>(lines: seq<string>, keys: seq<string>, mapper: string -> Option<V>)
    requires Sorted(lines) && Sorted(keys) && AllTrimmed(lines) && PrefixFree(keys)
    requires forall i, j :: 0 <= i < j < |keys| ==> keys[i] != keys[j]
    requires GoRules(mapper).Sorted(lines) && GoRules(mapper).Sorted(keys)
    ensures IsLookup(ScanLines(lines, keys, GoRules(mapper)).pairs, lines, keys, GoRules(mapper))
       <==> forall k :: k in keys ==> !Retaken(k, lines, keys, GoRules(mapper))
  {
    var r := GoRules(mapper);
    GoRulesOrdered(mapper);
    GoFieldNeedsColon(mapper);
    TrimmedIsGrouped(lines, keys, mapper);
    GroupedLookupIff(lines, keys, r);
    forall j: nat | j < |keys|
      ensures Retaken(keys[j], lines, keys, r) <==> RetakenAt(lines, keys, j, r)
    {
      RetakenIff(lines, keys, j, r);
    }
    assert forall k :: k in keys ==> exists j :: 0 <= j < |keys| && keys[j] == k;
  }

  /**
   For prefix-free keys over lines without surrounding space the search is the lookup exactly when no key is
   retaken. No colons are assumed.
   */
  lemma CleanSearchIff<V>(output: string, keys: seq<string>, mapper: string -> Option<V>)
    requires PrefixFree(keys) && AllTrimmed(Split(output, '\n'))
    ensures IsLookup(Search(output, keys, mapper), Split(output, '\n'), keys, GoRules(mapper))
       <==> forall k :: k in keys ==> !Retaken(k, Split(output, '\n'), keys, GoRules(mapper))
  {
    var lines, r := Split(output, '\n'), GoRules(mapper);
    GoRulesSorted(lines, mapper);
    GoRulesSorted(keys, mapper);
    SortSorts(lines);
    SortSorts(keys);
    SortedKeysPrefixFree(keys);
    forall x: string
      ensures x in Sort(lines) <==> x in lines
      ensures x in Sort(keys) <==> x in keys
    {
      SortKeepsMembers(lines, x);
      SortKeepsMembers(keys, x);
    }
    SortedLookupIff(Sort(lines), Sort(keys), mapper);
    SortKeepsMeaning(lines, keys, r, Search(output, keys, mapper));
    forall k
      ensures Retaken(k, lines, keys, r) <==> Retaken(k, Sort(lines), Sort(keys), r)
    {
      RetakenIgnoresOrder(k, lines, Sort(lines), keys, Sort(keys), r);
    }
  }

  // ---------- Any keys and any output ----------

  /**
   Where the search stands behind some lines. This depends on which lines start with which keys and which have
   a colon, not on what the fields are.
   */
  function Stand<V>(lines: seq<string>, keys: seq<string>, r: Rules<V>): (from: nat)
    ensures from <= |keys|
  {
    if lines == [] then 0
    else
      var front, last := lines[..|lines| - 1], lines[|lines| - 1];
      var from := Stand(front, keys, r);
      var j := MatchFrom(last, keys, from, r);
      if j == |keys| then from else if r.hasField(last) then j + 1 else j - from + 1
  }

  lemma {:induction false} StandIsIndex<V>(lines: seq<string>, keys: seq<string>, r: Rules<V>)
    ensures ScanLines(lines, keys, r).lastIndex == Stand(lines, keys, r)
  {
    if lines != [] {
      StandIsIndex(lines[..|lines| - 1], keys, r);
    }
  }

  /** From this place, the line goes to the key: it is the first one left that the line starts with. */
  predicate GoesTo<V>(line: string, keys: seq<string>, from: nat, k: string, r: Rules<V>)
    requires from <= |keys|
  {
    var j := MatchFrom(line, keys, from, r);
    j < |keys| && keys[j] == k && r.field(line).Some?
  }

  /** The line at `i` goes to the key and has an accepted field. */
  predicate Hands<V>(lines: seq<string>, keys: seq<string>, i: nat, k: string, r: Rules<V>)
    requires i < |lines|
  {
    GoesTo(lines[i], keys, Stand(lines[..i], keys, r), k, r)
  }

  /** No later line does. */
  predicate HandsLast<V>(lines: seq<string>, keys: seq<string>, i: nat, k: string, r: Rules<V>)
    requires i < |lines|
  {
    Hands(lines, keys, i, k, r) && forall h :: i < h < |lines| ==> !Hands(lines, keys, h, k, r)
  }

  /** The field of the last line handed to the key. */
  function Handed<V>(lines: seq<string>, keys: seq<string>, k: string, r: Rules<V>): Option<V> {
    if lines == [] then None
    else
      var front, last := lines[..|lines| - 1], lines[|lines| - 1];
      if GoesTo(last, keys, Stand(front, keys, r), k, r) then r.field(last) else Handed(front, keys, k, r)
  }

  lemma HandsSnoc<V>(front: seq<string>, last: string, keys: seq<string>, i: nat, k: string, r: Rules<V>)
    requires i <= |front|
    ensures Hands(front + [last], keys, i, k, r) <==>
              if i < |front| then Hands(front, keys, i, k, r) else GoesTo(last, keys, Stand(front, keys, r), k, r)
  {
    assert (front + [last])[..i] == front[..i];
    assert front[..|front|] == front;
  }

  /** What is handed is the field of the last such line, or none. */
  lemma {:induction false} HandedIsLast<V>(lines: seq<string>, keys: seq<string>, k: string, r: Rules<V>)
    ensures match Handed(lines, keys, k, r)
            case None => forall i :: 0 <= i < |lines| ==> !Hands(lines, keys, i, k, r)
            case Some(v) =>
              exists i :: 0 <= i < |lines| && HandsLast(lines, keys, i, k, r) && r.field(lines[i]) == Some(v)
  {
    if lines != [] {
      var front, last := lines[..|lines| - 1], lines[|lines| - 1];
      assert lines == front + [last];
      HandedIsLast(front, keys, k, r);
      forall i: nat | i < |lines|
        ensures Hands(lines, keys, i, k, r) <==>
                  if i < |front| then Hands(front, keys, i, k, r) else GoesTo(last, keys, Stand(front, keys, r), k, r)
      {
        HandsSnoc(front, last, keys, i, k, r);
      }
      if GoesTo(last, keys, Stand(front, keys, r), k, r) {
        assert HandsLast(lines, keys, |front|, k, r);
      } else if Handed(front, keys, k, r).Some? {
        var i :| 0 <= i < |front| && HandsLast(front, keys, i, k, r)
                 && r.field(front[i]) == Handed(front, keys, k, r);
        assert HandsLast(lines, keys, i, k, r);
      }
    }
  }

  /** The search holds for each key what its lines hand it. */
  lemma {:induction false} PairsAreHanded<V>(lines: seq<string>, keys: seq<string>, k: string, r: Rules<V>)
    requires FieldNeedsColon(r)
    ensures var pairs := ScanLines(lines, keys, r).pairs;
            Handed(lines, keys, k, r) == if k in pairs then Some(pairs[k]) else None
  {
    if lines != [] {
      var front := lines[..|lines| - 1];
      PairsAreHanded(front, keys, k, r);
      StandIsIndex(front, keys, r);
    }
  }

  lemma {:induction false} PairsAreKeys<V>(lines: seq<string>, keys: seq<string>, r: Rules<V>)
    ensures forall k :: k in ScanLines(lines, keys, r).pairs ==> k in keys
  {
    if lines != [] {
      PairsAreKeys(lines[..|lines| - 1], keys, r);
    }
  }

  /**
   A key is served: its least line has an accepted field and the last line handed to the key has the same one,
   or its least line has none and no line is handed to it.
   */
  ghost predicate Served<V>(lines: seq<string>, keys: seq<string>, k: string, r: Rules<V>) {
    match FirstField(lines, k, r)
    case None => forall i :: 0 <= i < |lines| ==> !Hands(lines, keys, i, k, r)
    case Some(v) => exists i :: 0 <= i < |lines| && HandsLast(lines, keys, i, k, r) && r.field(lines[i]) == Some(v)
  }

  lemma ServedIff<V>(lines: seq<string>, keys: seq<string>, k: string, r: Rules<V>)
    ensures Served(lines, keys, k, r) <==> Handed(lines, keys, k, r) == FirstField(lines, k, r)
  {
    HandedIsLast(lines, keys, k, r);
  }

  lemma KeyIsLookedUpIff<V>(lines: seq<string>, keys: seq<string>, k: string, r: Rules<V>)
    requires r.Ordered() && r.Sorted(lines) && FieldNeedsColon(r)
    ensures LookedUp(ScanLines(lines, keys, r).pairs, lines, k, r) <==> Served(lines, keys, k, r)
  {
    LookedUpIff(ScanLines(lines, keys, r).pairs, lines, k, r);
    PairsAreHanded(lines, keys, k, r);
    ServedIff(lines, keys, k, r);
  }

  lemma WalkIff<V>(lines: seq<string>, keys: seq<string>, r: Rules<V>)
    requires r.Ordered() && r.Sorted(lines) && FieldNeedsColon(r)
    ensures IsLookup(ScanLines(lines, keys, r).pairs, lines, keys, r)
       <==> forall k :: k in keys ==> Served(lines, keys, k, r)
  {
    PairsAreKeys(lines, keys, r);
    IsLookupByKey(ScanLines(lines, keys, r).pairs, lines, keys, r);
    forall k
      ensures LookedUp(ScanLines(lines, keys, r).pairs, lines, k, r) <==> Served(lines, keys, k, r)
    {
      KeyIsLookedUpIff(lines, keys, k, r);
    }
  }

  /** For any keys and any output the search is the lookup exactly when every key is served. */
  lemma SearchIff<V>(output: string, keys: seq<string>, mapper: string -> Option<V>)
    ensures IsLookup(Search(output, keys, mapper), Split(output, '\n'), keys, GoRules(mapper))
       <==> forall k :: k in keys ==> Served(Sort(Split(output, '\n')), Sort(keys), k, GoRules(mapper))
  {
    var lines, r := Split(output, '\n'), GoRules(mapper);
    GoRulesOrdered(mapper);
    GoRulesSorted(lines, mapper);
    GoFieldNeedsColon(mapper);
    WalkIff(Sort(lines), Sort(keys), r);
    SortKeepsMeaning(lines, keys, r, Search(output, keys, mapper));
    forall k: string
      ensures k in Sort(keys) <==> k in keys
    {
      SortKeepsMembers(keys, k);
    }
  }
}
