/**
 The allocator of echo IDs (ingress/icmp_darwin.go): each flow owns one of 65535 IDs, handed out next-fit.
 Addresses are numbers; the 16-bit arithmetic of the source is written out.
 */
module EchoID {
  import opened Wrappers

  const MAX_UINT16 := 65535
  const TWO_TO_16 := 65536

  function ToUint16(n: nat): (r: nat)
    ensures n < TWO_TO_16 ==> r == n
  {
    n % TWO_TO_16
  }

  /** Source IP, destination IP and original echo ID. */
  datatype FlowKey = FlowKey(src: nat, dst: nat, originalEchoID: int)

  datatype IDs = IDs(mapping: map<FlowKey, nat>, assignment: seq<bool>, nextAssignment: nat) {
    /** Where the search for a free ID starts. */
    function Cursor(): nat {
      if nextAssignment == MAX_UINT16 then 0 else nextAssignment
    }
  }

  function NewIDs(): IDs {
    IDs(map[], seq(MAX_UINT16, _ => false), 0)
  }

  /** The ID at distance `k` from the cursor, going round. */
  function Cyclic(cursor: nat, k: nat): (id: nat)
    requires cursor < MAX_UINT16 && k < MAX_UINT16
    ensures id < MAX_UINT16
  {
    if cursor + k < MAX_UINT16 then cursor + k else cursor + k - MAX_UINT16
  }

  predicate WellFormed(t: IDs) {
    |t.assignment| == MAX_UINT16 && t.nextAssignment <= MAX_UINT16
  }

  /** The least distance, from `k` on, at which an ID is free. */
  function FreeDistance(assignment: seq<bool>, cursor: nat, k: nat): (d: nat)
    requires |assignment| == MAX_UINT16 && cursor < MAX_UINT16 && k <= MAX_UINT16
    ensures k <= d <= MAX_UINT16
    ensures forall j :: k <= j < d ==> assignment[Cyclic(cursor, j)]
    ensures d < MAX_UINT16 ==> !assignment[Cyclic(cursor, d)]
    decreases MAX_UINT16 - k
  {
    if k == MAX_UINT16 || !assignment[Cyclic(cursor, k)] then k else FreeDistance(assignment, cursor, k + 1)
  }

  /** The first free ID in cyclic order from the cursor. */
  function FirstFree(t: IDs): Option<nat>
    requires WellFormed(t)
  {
    var d := FreeDistance(t.assignment, t.Cursor(), 0);
    if d == MAX_UINT16 then None else Some(Cyclic(t.Cursor(), d))
  }

  function AfterSet(t: IDs, key: FlowKey, id: nat): IDs
    requires WellFormed(t) && id < MAX_UINT16
  {
    IDs(t.mapping[key := id], t.assignment[id := true], id + 1)
  }

  function Assigned(t: IDs, key: FlowKey): (id: Option<nat>)
    requires WellFormed(t)
  {
    if key in t.mapping then Some(t.mapping[key]) else FirstFree(t)
  }

  function AfterGetOrAssign(t: IDs, key: FlowKey): IDs
    requires WellFormed(t)
  {
    if key in t.mapping then t
    else match FirstFree(t)
      case Some(id) => AfterSet(t, key, id)
      case None => t.(nextAssignment := t.Cursor())
  }

  function AfterRelease(t: IDs, key: FlowKey, id: nat): IDs
    requires WellFormed(t)
  {
    if key in t.mapping && t.mapping[key] == id && id < MAX_UINT16
    then t.(mapping := t.mapping - {key}, assignment := t.assignment[id := false])
    else t
  }

  // ---------- The invariant ----------

  ghost predicate Injective(m: map<FlowKey, nat>) {
    forall a, b :: a in m && b in m && m[a] == m[b] ==> a == b
  }

  /** No two flows share an ID, and the IDs marked as assigned are those that some flow has. */
  ghost predicate Inv(t: IDs) {
    && WellFormed(t)
    && Injective(t.mapping)
    && (forall key :: key in t.mapping ==> t.mapping[key] < MAX_UINT16)
    && (forall id :: 0 <= id < MAX_UINT16 ==> (t.assignment[id] <==> id in t.mapping.Values))
  }

  lemma InitialInv()
    ensures Inv(NewIDs())
  {
  }

  lemma AssignKeepsInv(t: IDs, key: FlowKey)
    requires Inv(t)
    ensures Inv(AfterGetOrAssign(t, key))
  {
    if key !in t.mapping && FirstFree(t).Some? {
      var id := FirstFree(t).value;
      assert !t.assignment[id];
      var after := t.mapping[key := id];
      assert id in after.Values by {
        assert after[key] == id;
      }
      forall other | other in t.mapping.Values
        ensures other in after.Values
      {
        var k :| k in t.mapping && t.mapping[k] == other;
        assert after[k] == other;
      }
    }
  }

  lemma ReleaseKeepsInv(t: IDs, key: FlowKey, id: nat)
    requires Inv(t)
    ensures Inv(AfterRelease(t, key, id))
  {
    var after := t.mapping - {key};
    forall other | other in t.mapping.Values && key in t.mapping && other != t.mapping[key]
      ensures other in after.Values
    {
      var k :| k in t.mapping && t.mapping[k] == other;
      assert k in after && after[k] == other;
    }
  }

  // ---------- When the allocator refuses ----------

  lemma {:induction false} ValuesCount(m: map<FlowKey, nat>)
    requires Injective(m)
    ensures |m.Values| == |m|
    decreases |m|
  {
    if m.Keys == {} {
      assert m == map[];
    } else {
      var key :| key in m;
      var rest := m - {key};
      ValuesCount(rest);
      assert m.Keys == rest.Keys + {key};
      assert m.Values == rest.Values + {m[key]};
      assert m[key] !in rest.Values;
    }
  }

  /** A set of numbers below n has at most n of them, and n only when it has them all. */
  lemma {:induction false} Pigeonhole(s: set<nat>, n: nat)
    requires forall k :: k in s ==> k < n
    ensures |s| <= n
    ensures |s| == n <==> forall k: nat :: k < n ==> k in s
  {
    if n > 0 {
      var rest := s - {n - 1};
      Pigeonhole(rest, n - 1);
      if n - 1 in s {
        assert s == rest + {n - 1};
      } else {
        assert s == rest;
      }
    }
  }

  /** Distances from the cursor reach every ID. */
  lemma EveryIDIsReached(cursor: nat, id: nat)
    requires cursor < MAX_UINT16 && id < MAX_UINT16
    ensures exists d: nat :: d < MAX_UINT16 && Cyclic(cursor, d) == id
  {
    var d: nat := if id >= cursor then id - cursor else id + MAX_UINT16 - cursor;
    assert Cyclic(cursor, d) == id;
  }

  lemma NoneFreeMeansAllAssigned(t: IDs)
    requires Inv(t)
    ensures FirstFree(t).None? <==> forall id: nat :: id < MAX_UINT16 ==> id in t.mapping.Values
  {
    if FirstFree(t).None? {
      forall id: nat | id < MAX_UINT16
        ensures id in t.mapping.Values
      {
        EveryIDIsReached(t.Cursor(), id);
      }
    }
  }

  /** A flow is refused exactly when it has no ID and all 65535 are taken. */
  lemma RefusesIffFull(t: IDs, key: FlowKey)
    requires Inv(t)
    ensures Assigned(t, key).None? <==> key !in t.mapping && |t.mapping| == 65535
    ensures |t.mapping| <= 65535
  {
    ValuesCount(t.mapping);
    NoneFreeMeansAllAssigned(t);
    Pigeonhole(t.mapping.Values, MAX_UINT16);
  }

  /** A new flow gets an ID that is free, and every ID between the cursor and it is taken. */
  lemma AssignsFirstFree(t: IDs, key: FlowKey, id: nat)
    requires Inv(t) && key !in t.mapping && Assigned(t, key) == Some(id)
    ensures id < MAX_UINT16 && id !in t.mapping.Values
    ensures var cursor := t.Cursor();
            forall other: nat ::
              (if cursor <= id then cursor <= other < id else other < id || cursor <= other < MAX_UINT16)
              ==> other in t.mapping.Values
  {
    var cursor := t.Cursor();
    var d := FreeDistance(t.assignment, cursor, 0);
    forall other: nat |
        if cursor <= id then cursor <= other < id else other < id || cursor <= other < MAX_UINT16
      ensures other in t.mapping.Values
    {
      var k: nat := if other >= cursor then other - cursor else other + MAX_UINT16 - cursor;
      assert Cyclic(cursor, k) == other && k < d;
    }
  }

  /**
   The cursor has moved on: an ID released straight after it was assigned goes to another flow only when
   every other ID is taken.
   */
  lemma JustReleasedIsReusedLast(t: IDs, key: FlowKey, id: nat, other: FlowKey)
    requires Inv(t) && key !in t.mapping && other !in t.mapping && Assigned(t, key) == Some(id)
    ensures var released := AfterRelease(AfterGetOrAssign(t, key), key, id);
            && released.mapping == t.mapping
            && (Assigned(released, other) == Some(id) <==>
                  forall taken: nat :: taken < MAX_UINT16 && taken != id ==> taken in t.mapping.Values)
  {
    var owned := AfterGetOrAssign(t, key);
    var released := AfterRelease(owned, key, id);
    AssignsFirstFree(t, key, id);
    AssignKeepsInv(t, key);
    ReleaseKeepsInv(owned, key, id);
    assert released.mapping == t.mapping;
    NoneFreeMeansAllAssigned(released);
    if Assigned(released, other).Some? {
      AssignsFirstFree(released, other, Assigned(released, other).value);
    }
  }

  // ---------- Runs ----------

  datatype Event = GetOrAssign(key: FlowKey) | Release(key: FlowKey, id: nat)

  function Step(t: IDs, e: Event): IDs
    requires WellFormed(t)
  {
    match e
    case GetOrAssign(key) => AfterGetOrAssign(t, key)
    case Release(key, id) => AfterRelease(t, key, id)
  }

  lemma StepKeepsInv(t: IDs, e: Event)
    requires Inv(t)
    ensures Inv(Step(t, e))
  {
    match e
    case GetOrAssign(key) => AssignKeepsInv(t, key);
    case Release(key, id) => ReleaseKeepsInv(t, key, id);
  }

  function After(t: IDs, events: seq<Event>): (last: IDs)
    requires WellFormed(t)
    ensures WellFormed(last)
    decreases |events|
  {
    if events == [] then t else After(Step(t, events[0]), events[1..])
  }

  lemma {:induction false} RunKeepsInv(t: IDs, events: seq<Event>)
    requires Inv(t)
    ensures Inv(After(t, events))
    decreases |events|
  {
    if events != [] {
      StepKeepsInv(t, events[0]);
      RunKeepsInv(Step(t, events[0]), events[1..]);
    }
  }

  /** A flow keeps its ID, and nobody else gets it, until the flow itself releases that ID. */
  lemma {:induction false} StableUntilRelease(t: IDs, key: FlowKey, id: nat, events: seq<Event>)
    requires Inv(t) && key in t.mapping && t.mapping[key] == id
    requires Release(key, id) !in events
    ensures Assigned(After(t, events), key) == Some(id)
    ensures forall other :: other != key ==> Assigned(After(t, events), other) != Some(id)
    decreases |events|
  {
    if events == [] {
      NobodyElseGets(t, key, id);
    } else {
      StepKeepsInv(t, events[0]);
      assert events[0] != Release(key, id) && Release(key, id) !in events[1..];
      StepKeepsID(t, key, id, events[0]);
      StableUntilRelease(Step(t, events[0]), key, id, events[1..]);
    }
  }

  lemma StepKeepsID(t: IDs, key: FlowKey, id: nat, e: Event)
    requires Inv(t) && key in t.mapping && t.mapping[key] == id && e != Release(key, id)
    ensures key in Step(t, e).mapping && Step(t, e).mapping[key] == id
  {
  }

  lemma NobodyElseGets(t: IDs, key: FlowKey, id: nat)
    requires Inv(t) && key in t.mapping && t.mapping[key] == id
    ensures forall other :: other != key ==> Assigned(t, other) != Some(id)
  {
    forall other | other != key
      ensures Assigned(t, other) != Some(id)
    {
      if other !in t.mapping && Assigned(t, other).Some? {
        AssignsFirstFree(t, other, Assigned(t, other).value);
      }
    }
  }

  // ---------- The object ----------

  /** With every ID nearer than `i` taken, looking at distance `i` decides whether it is the first free. */
  lemma Probe(t: IDs, i: nat)
    requires WellFormed(t) && i < MAX_UINT16 && i <= FreeDistance(t.assignment, t.Cursor(), 0)
    ensures if t.assignment[Cyclic(t.Cursor(), i)]
            then i + 1 <= FreeDistance(t.assignment, t.Cursor(), 0)
            else FirstFree(t) == Some(Cyclic(t.Cursor(), i))
  {
  }

  class EchoIDTracker {
    var mapping: map<FlowKey, nat>
    const assignment: array<bool>
    var nextAssignment: nat

    ghost function View(): IDs
      reads this, assignment
    {
      IDs(mapping, assignment[..], nextAssignment)
    }

    constructor ()
      ensures View() == NewIDs() && fresh(assignment)
    {
      mapping, nextAssignment := map[], 0;
      assignment := new bool[MAX_UINT16](_ => false);
      new;
      assert assignment[..] == seq(MAX_UINT16, _ => false);
    }

    method GetOrAssign(key: FlowKey) returns (id: nat, success: bool)
      requires WellFormed(View())
      modifies this, assignment
      ensures View() == AfterGetOrAssign(old(View()), key)
      ensures (if success then Some(id) else None) == Assigned(old(View()), key)
    {
      if key in mapping {
        return mapping[key], true;
      }
      if nextAssignment == MAX_UINT16 {
        nextAssignment := 0;
      }
      id, success := FindFree();
      if success {
        Set(key, id);
      }
    }

    /** The two loops cover the IDs from the cursor to the end and then those before it. */
    method FindFree() returns (id: nat, found: bool)
      requires WellFormed(View()) && nextAssignment < MAX_UINT16
      ensures (if found then Some(id) else None) == FirstFree(View())
    {
      var cursor := nextAssignment;
      ghost var d := FreeDistance(assignment[..], cursor, 0);
      for i := 0 to MAX_UINT16 - cursor
        invariant i <= d
      {
        Probe(View(), i);
        if !assignment[cursor + i] {
          return ToUint16(ToUint16(i) + cursor), true;
        }
      }
      for i := 0 to cursor
        invariant MAX_UINT16 - cursor + i <= d
      {
        Probe(View(), MAX_UINT16 - cursor + i);
        if !assignment[i] {
          return ToUint16(i), true;
        }
      }
      return 0, false;
    }

    method Set(key: FlowKey, assignedEchoID: nat)
      requires WellFormed(View()) && assignedEchoID < MAX_UINT16
      modifies this, assignment
      ensures View() == AfterSet(old(View()), key, assignedEchoID)
    {
      assignment[assignedEchoID] := true;
      mapping := mapping[key := assignedEchoID];
      nextAssignment := ToUint16(assignedEchoID + 1);
    }

    method Release(key: FlowKey, assignedID: nat) returns (ok: bool)
      requires Inv(View())
      modifies this, assignment
      ensures View() == AfterRelease(old(View()), key, assignedID)
      ensures ok <==> key in old(mapping) && old(mapping)[key] == assignedID
    {
      if key in mapping && assignedID == mapping[key] {
        mapping := mapping - {key};
        assignment[assignedID] := false;
        return true;
      }
      return false;
    }
  }
}
