/**
 The ICMP proxy for Darwin (ingress/icmp_darwin.go): the echo-ID allocator and the funnel tracker, whose
 flows release their IDs when they close, must agree on who owns which ID.

 A request takes an ID and then gets or registers the funnel under it; the two are separate critical
 sections, so between them the request is pending. Cleanup closes idle funnels one by one.
 */
module ICMPDarwin {
  import opened Wrappers
  import EchoID
  import Funnels

  type FlowKey = EchoID.FlowKey

  datatype Pending = Pending(key: FlowKey, id: nat)

  datatype State = State(ids: EchoID.IDs, tracker: Funnels.Tracker<nat>, pending: map<nat, Pending>) {
    ghost predicate WellFormed() {
      EchoID.WellFormed(ids) && tracker.Inv()
    }

    function FlowAt(id: nat): Funnels.Flow<nat>
      requires id in tracker.funnels && tracker.funnels[id] < |tracker.flows|
    {
      tracker.flows[tracker.funnels[id]]
    }
  }

  function Initial(): State {
    State(EchoID.NewIDs(), Funnels.Tracker(map[], []), map[])
  }

  datatype Event =
    | Begin(request: nat, key: FlowKey)
    | Finish(request: nat, responder: nat, now: int)
    | Evict(id: nat, now: int, timeout: int)
    | Reply(id: nat, now: int)

  ghost predicate Enabled(s: State, e: Event)
    requires s.WellFormed()
  {
    match e
    case Begin(r, key) => r !in s.pending
    case Finish(r, responder, now) => r in s.pending
    case Evict(id, now, timeout) => id in s.tracker.funnels && s.FlowAt(id).Idle(now, timeout)
    case Reply(id, now) => true
  }

  /** The close callback of the flow under `id`. */
  ghost function Released(s: State, id: nat): EchoID.IDs
    requires s.WellFormed() && id in s.tracker.funnels
  {
    EchoID.AfterRelease(s.ids, s.FlowAt(id).key, s.FlowAt(id).assignedEchoID)
  }

  /** A request without an ID fails at once; otherwise it goes on with the ID it got. */
  ghost function AfterBegin(s: State, r: nat, key: FlowKey): State
    requires s.WellFormed()
  {
    var ids := EchoID.AfterGetOrAssign(s.ids, key);
    match EchoID.Assigned(s.ids, key)
    case None => s.(ids := ids)
    case Some(id) => s.(ids := ids, pending := s.pending[r := Pending(key, id)])
  }

  ghost function NewFlow(p: Pending, responder: nat, now: int): Funnels.Flow<nat> {
    Funnels.NewFlow(p.id, p.key, p.id, responder, now)
  }

  /** The tracker once the flow is there, and once the request was sent through it. */
  ghost function Sent(s: State, p: Pending, responder: nat, now: int): Funnels.Tracker<nat>
    requires s.WellFormed()
  {
    var flow := NewFlow(p, responder, now);
    Funnels.RegisterKeepsInv(s.tracker, flow, true);
    var registered := Funnels.AfterGetOrRegister(s.tracker, flow, true);
    Funnels.Touch(registered, registered.funnels[p.id], now)
  }

  ghost function AfterFinish(s: State, r: nat, responder: nat, now: int): State
    requires s.WellFormed() && r in s.pending
  {
    var p := s.pending[r];
    State(
      if Replaces(s, p.id, responder) then Released(s, p.id) else s.ids,
      Sent(s, p, responder, now),
      s.pending - {r})
  }

  ghost predicate Replaces(s: State, id: nat, responder: nat)
    requires s.WellFormed()
  {
    id in s.tracker.funnels && Funnels.ShouldReplace(s.tracker, s.tracker.funnels[id], responder)
  }

  ghost function AfterEvict(s: State, id: nat): State
    requires s.WellFormed() && id in s.tracker.funnels
  {
    s.(ids := Released(s, id), tracker := Funnels.Evict(s.tracker, id))
  }

  ghost function AfterReply(s: State, id: nat, now: int): State
    requires s.WellFormed()
  {
    if id in s.tracker.funnels then s.(tracker := Funnels.Touch(s.tracker, s.tracker.funnels[id], now)) else s
  }

  ghost function Step(s: State, e: Event): State
    requires s.WellFormed() && Enabled(s, e)
  {
    match e
    case Begin(r, key) => AfterBegin(s, r, key)
    case Finish(r, responder, now) => AfterFinish(s, r, responder, now)
    case Evict(id, now, timeout) => AfterEvict(s, id)
    case Reply(id, now) => AfterReply(s, id, now)
  }

  lemma StepWellFormed(s: State, e: Event)
    requires s.WellFormed() && Enabled(s, e)
    ensures Step(s, e).WellFormed()
  {
    match e
    case Begin(r, key) =>
    case Finish(r, responder, now) =>
      var flow := NewFlow(s.pending[r], responder, now);
      Funnels.RegisterKeepsInv(s.tracker, flow, true);
      var registered := Funnels.AfterGetOrRegister(s.tracker, flow, true);
      Funnels.TouchKeepsInv(registered, registered.funnels[flow.id], now);
    case Evict(id, now, timeout) => Funnels.EvictKeepsInv(s.tracker, id);
    case Reply(id, now) =>
      if id in s.tracker.funnels {
        Funnels.TouchKeepsInv(s.tracker, s.tracker.funnels[id], now);
      }
  }

  // ---------- Agreement ----------

  ghost predicate Owns(ids: EchoID.IDs, key: FlowKey, id: nat) {
    key in ids.mapping && ids.mapping[key] == id
  }

  /** The funnel under each ID belongs to the flow that owns the ID. */
  ghost predicate FunnelsAreOwned(s: State)
    requires s.WellFormed()
  {
    forall id :: id in s.tracker.funnels ==>
      s.FlowAt(id).assignedEchoID == id && Owns(s.ids, s.FlowAt(id).key, id)
  }

  ghost predicate PendingAreOwned(s: State) {
    forall r :: r in s.pending ==> Owns(s.ids, s.pending[r].key, s.pending[r].id)
  }

  ghost predicate Awaited(s: State, id: nat) {
    exists r :: r in s.pending && s.pending[r].id == id
  }

  /** Every owned ID has a funnel, or a request on its way to register one. */
  ghost predicate OwnersAreServed(s: State) {
    forall key :: key in s.ids.mapping ==>
      s.ids.mapping[key] in s.tracker.funnels || Awaited(s, s.ids.mapping[key])
  }

  ghost predicate Agree(s: State) {
    && EchoID.Inv(s.ids) && s.WellFormed()
    && FunnelsAreOwned(s) && PendingAreOwned(s) && OwnersAreServed(s)
  }

  lemma InitialAgrees()
    ensures Agree(Initial())
  {
    EchoID.InitialInv();
  }

  /** With no request under way, the funnel IDs are exactly the assigned IDs. */
  lemma AgreementAtRest(s: State)
    requires Agree(s) && s.pending == map[]
    ensures s.tracker.funnels.Keys == s.ids.mapping.Values
  {
    forall id | id in s.tracker.funnels
      ensures id in s.ids.mapping.Values
    {
      assert Owns(s.ids, s.FlowAt(id).key, id);
    }
  }

  /**
   The steps that break the agreement: replacing a funnel, because closing the old flow frees the ID under
   which the new one is registered; and closing a funnel that a request is about to use.
   */
  ghost predicate Breaks(s: State, e: Event)
    requires s.WellFormed() && Enabled(s, e)
  {
    match e
    case Finish(r, responder, now) => Replaces(s, s.pending[r].id, responder)
    case Evict(id, now, timeout) => Awaited(s, id)
    case _ => false
  }

  lemma BeginServes(s: State, r: nat, key: FlowKey)
    requires EchoID.WellFormed(s.ids) && s.tracker.Inv() && OwnersAreServed(s) && r !in s.pending
    ensures OwnersAreServed(AfterBegin(s, r, key))
  {
    var next := AfterBegin(s, r, key);
    forall k | k in next.ids.mapping
      ensures next.ids.mapping[k] in next.tracker.funnels || Awaited(next, next.ids.mapping[k])
    {
      if k in s.ids.mapping {
        if s.ids.mapping[k] !in s.tracker.funnels {
          var q :| q in s.pending && s.pending[q].id == s.ids.mapping[k];
          assert q in next.pending && next.pending[q] == s.pending[q];
        }
      } else {
        assert k == key && next.pending[r].id == next.ids.mapping[k];
      }
    }
  }

  lemma BeginAgrees(s: State, r: nat, key: FlowKey)
    requires Agree(s) && r !in s.pending
    ensures Agree(AfterBegin(s, r, key))
  {
    EchoID.AssignKeepsInv(s.ids, key);
    BeginServes(s, r, key);
    var next := AfterBegin(s, r, key);
    forall k, id | Owns(s.ids, k, id)
      ensures Owns(next.ids, k, id)
    {
    }
    forall id | id in next.tracker.funnels
      ensures next.FlowAt(id).assignedEchoID == id && Owns(next.ids, next.FlowAt(id).key, id)
    {
      assert Owns(s.ids, s.FlowAt(id).key, id);
    }
    forall q | q in next.pending
      ensures Owns(next.ids, next.pending[q].key, next.pending[q].id)
    {
      if q in s.pending {
        assert next.pending[q] == s.pending[q] && Owns(s.ids, s.pending[q].key, s.pending[q].id);
      }
    }
  }

  /** What `Sent` does to the funnels, when nothing is replaced. */
  lemma SentFunnels(s: State, p: Pending, responder: nat, now: int)
    requires s.WellFormed() && !Replaces(s, p.id, responder)
    ensures var t := Sent(s, p, responder, now);
            && t.Inv() && t.funnels.Keys == s.tracker.funnels.Keys + {p.id}
            && (forall id :: id in t.funnels ==>
                  var f := t.flows[t.funnels[id]];
                  if id in s.tracker.funnels
                  then f.key == s.FlowAt(id).key && f.assignedEchoID == s.FlowAt(id).assignedEchoID
                  else id == p.id && f.key == p.key && f.assignedEchoID == p.id)
  {
    var flow := NewFlow(p, responder, now);
    Funnels.RegisterKeepsInv(s.tracker, flow, true);
    var registered := Funnels.AfterGetOrRegister(s.tracker, flow, true);
    Funnels.TouchKeepsInv(registered, registered.funnels[p.id], now);
  }

  lemma FinishAgrees(s: State, r: nat, responder: nat, now: int)
    requires Agree(s) && r in s.pending && !Replaces(s, s.pending[r].id, responder)
    ensures Agree(AfterFinish(s, r, responder, now))
  {
    SentFunnels(s, s.pending[r], responder, now);
    var next := AfterFinish(s, r, responder, now);
    assert Owns(s.ids, s.pending[r].key, s.pending[r].id);
    forall k | k in next.ids.mapping
      ensures next.ids.mapping[k] in next.tracker.funnels || Awaited(next, next.ids.mapping[k])
    {
      if s.ids.mapping[k] !in next.tracker.funnels {
        var q :| q in s.pending && s.pending[q].id == s.ids.mapping[k];
        assert q != r;
        assert q in next.pending && next.pending[q] == s.pending[q];
      }
    }
  }

  /** A replacement leaves a funnel under an ID that is free. */
  lemma ReplacingBreaks(s: State, r: nat, responder: nat, now: int)
    requires Agree(s) && r in s.pending && Replaces(s, s.pending[r].id, responder)
    ensures var next := AfterFinish(s, r, responder, now);
            var id := s.pending[r].id;
            && !Agree(next)
            && id in next.tracker.funnels && id < |next.ids.assignment| && !next.ids.assignment[id]
  {
    var p := s.pending[r];
    var flow := NewFlow(p, responder, now);
    var next := AfterFinish(s, r, responder, now);
    assert Owns(s.ids, p.key, p.id) && Owns(s.ids, s.FlowAt(p.id).key, p.id);
    assert p.key !in next.ids.mapping;
    Funnels.RegisterKeepsInv(s.tracker, flow, true);
    assert p.id in next.tracker.funnels;
    if next.WellFormed() {
      assert next.FlowAt(p.id).key == p.key;
    }
  }

  lemma EvictAgreesUnlessAwaited(s: State, id: nat)
    requires Agree(s) && id in s.tracker.funnels
    ensures Agree(AfterEvict(s, id)) <==> !Awaited(s, id)
  {
    var next := AfterEvict(s, id);
    var f := s.FlowAt(id);
    assert Owns(s.ids, f.key, id);
    Funnels.EvictKeepsInv(s.tracker, id);
    EchoID.ReleaseKeepsInv(s.ids, f.key, id);
    assert next.ids.mapping == s.ids.mapping - {f.key};
    if Awaited(s, id) {
      var r :| r in s.pending && s.pending[r].id == id;
      assert Owns(s.ids, s.pending[r].key, id);
      assert !Owns(next.ids, next.pending[r].key, id);
    } else {
      EvictAgrees(s, id);
    }
  }

  lemma EvictAgrees(s: State, id: nat)
    requires Agree(s) && id in s.tracker.funnels && !Awaited(s, id)
    ensures var next := AfterEvict(s, id);
            next.WellFormed() && FunnelsAreOwned(next) && PendingAreOwned(next) && OwnersAreServed(next)
  {
    var next := AfterEvict(s, id);
    var f := s.FlowAt(id);
    assert Owns(s.ids, f.key, id);
    Funnels.EvictKeepsInv(s.tracker, id);
    forall other | other in next.tracker.funnels
      ensures next.FlowAt(other).assignedEchoID == other && Owns(next.ids, next.FlowAt(other).key, other)
    {
      assert next.FlowAt(other) == s.FlowAt(other);
      assert Owns(s.ids, s.FlowAt(other).key, other);
    }
    forall k | k in next.ids.mapping
      ensures next.ids.mapping[k] in next.tracker.funnels || Awaited(next, next.ids.mapping[k])
    {
      assert k != f.key && s.ids.mapping[k] != id;
      if s.ids.mapping[k] !in s.tracker.funnels {
        var q :| q in s.pending && s.pending[q].id == s.ids.mapping[k];
        assert next.pending[q] == s.pending[q];
      }
    }
    forall r | r in next.pending
      ensures Owns(next.ids, next.pending[r].key, next.pending[r].id)
    {
      assert Owns(s.ids, s.pending[r].key, s.pending[r].id);
    }
  }

  lemma ReplyAgrees(s: State, id: nat, now: int)
    requires Agree(s)
    ensures Agree(AfterReply(s, id, now))
  {
    if id in s.tracker.funnels {
      Funnels.TouchKeepsInv(s.tracker, s.tracker.funnels[id], now);
      var next := AfterReply(s, id, now);
      forall other | other in next.tracker.funnels
        ensures next.FlowAt(other).assignedEchoID == other && Owns(next.ids, next.FlowAt(other).key, other)
      {
        assert Owns(s.ids, s.FlowAt(other).key, other);
      }
      forall k | k in next.ids.mapping
        ensures next.ids.mapping[k] in next.tracker.funnels || Awaited(next, next.ids.mapping[k])
      {
        if s.ids.mapping[k] !in s.tracker.funnels {
          var q :| q in s.pending && s.pending[q].id == s.ids.mapping[k];
          assert next.pending[q] == s.pending[q];
        }
      }
    }
  }

  /** A step from an agreeing state keeps the agreement exactly when it is not one of those named above. */
  lemma StepAgreesIff(s: State, e: Event)
    requires Agree(s) && Enabled(s, e)
    ensures Agree(Step(s, e)) <==> !Breaks(s, e)
  {
    match e
    case Begin(r, key) => BeginAgrees(s, r, key);
    case Finish(r, responder, now) =>
      if Replaces(s, s.pending[r].id, responder) {
        ReplacingBreaks(s, r, responder, now);
      } else {
        FinishAgrees(s, r, responder, now);
      }
    case Evict(id, now, timeout) => EvictAgreesUnlessAwaited(s, id);
    case Reply(id, now) => ReplyAgrees(s, id, now);
  }

  // ---------- Runs ----------

  ghost predicate IsRun(s: State, events: seq<Event>, last: State)
    requires s.WellFormed()
    decreases |events|
  {
    if events == [] then last == s
    else Enabled(s, events[0]) && (StepWellFormed(s, events[0]); IsRun(Step(s, events[0]), events[1..], last))
  }

  /** No step of the run is one that breaks the agreement. */
  ghost predicate NeverBreaks(s: State, events: seq<Event>)
    requires s.WellFormed()
    decreases |events|
  {
    events == []
    || (Enabled(s, events[0]) && !Breaks(s, events[0])
        && (StepWellFormed(s, events[0]); NeverBreaks(Step(s, events[0]), events[1..])))
  }

  lemma {:induction false} RunAgrees(s: State, events: seq<Event>, last: State)
    requires Agree(s) && IsRun(s, events, last) && NeverBreaks(s, events)
    ensures Agree(last)
    decreases |events|
  {
    if events != [] {
      StepAgreesIff(s, events[0]);
      RunAgrees(Step(s, events[0]), events[1..], last);
    }
  }

  /** Where a reply to `id` is sent: the destination address, the echo ID put back, and the responder. */
  datatype Delivery = Delivery(dst: nat, echoID: int, responder: nat)

  ghost function DeliveryOf(s: State, id: nat): Option<Delivery>
    requires s.WellFormed()
  {
    if id in s.tracker.funnels
    then Some(Delivery(s.FlowAt(id).key.src, s.FlowAt(id).key.originalEchoID, s.FlowAt(id).responder))
    else None
  }

  /** In an agreeing state a reply reaches the source of the flow that owns the ID, with its own echo ID. */
  lemma ReplyReachesOwner(s: State, key: FlowKey, id: nat)
    requires Agree(s) && Owns(s.ids, key, id)
    ensures DeliveryOf(s, id).Some? ==>
              DeliveryOf(s, id).value.dst == key.src && DeliveryOf(s, id).value.echoID == key.originalEchoID
    ensures DeliveryOf(s, id).None? ==> Awaited(s, id)
  {
    if id in s.tracker.funnels {
      assert Owns(s.ids, s.FlowAt(id).key, id);
    }
  }

  predicate EvictsID(e: Event, id: nat) {
    e.Evict? && e.id == id
  }

  lemma StepKeepsOwner(s: State, e: Event, key: FlowKey, id: nat)
    requires Agree(s) && Enabled(s, e) && !Breaks(s, e) && !EvictsID(e, id)
    requires Owns(s.ids, key, id) && id in s.tracker.funnels
    ensures Owns(Step(s, e).ids, key, id) && id in Step(s, e).tracker.funnels
  {
    match e
    case Begin(r, other) =>
    case Finish(r, responder, now) => SentFunnels(s, s.pending[r], responder, now);
    case Evict(other, now, timeout) => assert Owns(s.ids, s.FlowAt(other).key, other);
    case Reply(other, now) =>
  }

  /**
   The round trip: a request of `key` leaves with the ID it owns, and for as long as its funnel is not
   closed, whatever else happens, a reply to that ID goes back to the request's source with its echo ID.
   */
  lemma RequestRoundTrip(s: State, r: nat, responder: nat, now: int, events: seq<Event>, last: State)
    requires Agree(s) && r in s.pending && !Replaces(s, s.pending[r].id, responder)
    requires var next := AfterFinish(s, r, responder, now);
             next.WellFormed() && IsRun(next, events, last) && NeverBreaks(next, events)
    requires forall e :: e in events ==> !EvictsID(e, s.pending[r].id)
    ensures last.WellFormed()
    ensures var key, id := s.pending[r].key, s.pending[r].id;
            && DeliveryOf(last, id).Some?
            && DeliveryOf(last, id).value.dst == key.src
            && DeliveryOf(last, id).value.echoID == key.originalEchoID
  {
    var key, id := s.pending[r].key, s.pending[r].id;
    var next := AfterFinish(s, r, responder, now);
    FinishAgrees(s, r, responder, now);
    SentFunnels(s, s.pending[r], responder, now);
    assert Owns(s.ids, key, id);
    OwnerStays(next, events, last, key, id);
    ReplyReachesOwner(last, key, id);
  }

  lemma {:induction false} OwnerStays(s: State, events: seq<Event>, last: State, key: FlowKey, id: nat)
    requires Agree(s) && IsRun(s, events, last) && NeverBreaks(s, events)
    requires Owns(s.ids, key, id) && id in s.tracker.funnels
    requires forall e :: e in events ==> !EvictsID(e, id)
    ensures Agree(last) && Owns(last.ids, key, id) && id in last.tracker.funnels
    decreases |events|
  {
    if events != [] {
      assert events[0] in events;
      StepAgreesIff(s, events[0]);
      StepKeepsOwner(s, events[0], key, id);
      OwnerStays(Step(s, events[0]), events[1..], last, key, id);
    }
  }

  // ---------- What counts as activity ----------

  /** A request that goes out, and a reply that comes back, keep their flow for a whole timeout. */
  lemma RequestIsActivity(s: State, r: nat, responder: nat, now: int)
    requires s.WellFormed() && r in s.pending
    ensures var next, id := Step(s, Finish(r, responder, now)), s.pending[r].id;
            next.WellFormed() && id in next.tracker.funnels
            && Funnels.CleanupDecides(next.tracker, next.tracker.funnels[id], now)
  {
    StepWellFormed(s, Finish(r, responder, now));
    var next, id := Step(s, Finish(r, responder, now)), s.pending[r].id;
    var flow := NewFlow(s.pending[r], responder, now);
    Funnels.RegisterKeepsInv(s.tracker, flow, true);
    Funnels.TouchIsActivity(
      Funnels.AfterGetOrRegister(s.tracker, flow, true), next.tracker.funnels[id], now);
  }

  lemma ReplyIsActivity(s: State, id: nat, now: int)
    requires s.WellFormed() && id in s.tracker.funnels
    ensures var next := Step(s, Reply(id, now));
            next.WellFormed() && id in next.tracker.funnels
            && Funnels.CleanupDecides(next.tracker, next.tracker.funnels[id], now)
  {
    StepWellFormed(s, Reply(id, now));
    Funnels.TouchIsActivity(s.tracker, s.tracker.funnels[id], now);
  }

  // ---------- Cleanup as a run ----------

  function Evictions(order: seq<nat>, now: int, timeout: int): seq<Event> {
    seq(|order|, i requires 0 <= i < |order| => Evict(order[i], now, timeout))
  }

  ghost predicate Distinct(order: seq<nat>) {
    forall i, j :: 0 <= i < j < |order| ==> order[i] != order[j]
  }

  lemma RunCons(s: State, e: Event, events: seq<Event>, last: State)
    requires s.WellFormed() && Enabled(s, e) && Step(s, e).WellFormed() && IsRun(Step(s, e), events, last)
    ensures IsRun(s, [e] + events, last)
  {
    assert ([e] + events)[1..] == events;
  }

  lemma EvictionsCons(id: nat, rest: seq<nat>, now: int, timeout: int)
    ensures Evictions([id] + rest, now, timeout) == [Evict(id, now, timeout)] + Evictions(rest, now, timeout)
  {
  }

  lemma {:induction false} EvictionsRun(
      start: Funnels.Tracker<nat>, s: State, todo: set<nat>, order: seq<nat>, now: int, timeout: int)
    returns (last: State)
    requires s.WellFormed() && Distinct(order)
    requires forall id :: id in todo <==> id in order
    requires Funnels.CleanedUpTo(start, now, timeout, todo, s.tracker)
    requires forall id :: id in order ==> id in start.funnels && start.flows[start.funnels[id]].Idle(now, timeout)
    ensures IsRun(s, Evictions(order, now, timeout), last)
    ensures last.tracker == Funnels.AfterCleanup(start, now, timeout) && last.pending == s.pending
    decreases |order|
  {
    if order == [] {
      assert todo == {};
      Funnels.CleanedAll(start, now, timeout, s.tracker);
      return s;
    }
    var id, rest := order[0], order[1..];
    assert order == [id] + rest && id in order;
    EvictOne(start, s, todo, id, now, timeout);
    last := EvictionsRun(start, AfterEvict(s, id), todo - {id}, rest, now, timeout);
    RunCons(s, Evict(id, now, timeout), Evictions(rest, now, timeout), last);
    EvictionsCons(id, rest, now, timeout);
  }

  lemma EvictOne(
      start: Funnels.Tracker<nat>, s: State, todo: set<nat>, id: nat, now: int, timeout: int)
    requires s.WellFormed() && Funnels.CleanedUpTo(start, now, timeout, todo, s.tracker) && id in todo
    requires start.flows[start.funnels[id]].Idle(now, timeout)
    ensures Enabled(s, Evict(id, now, timeout))
    ensures AfterEvict(s, id).WellFormed()
    ensures Funnels.CleanedUpTo(start, now, timeout, todo - {id}, AfterEvict(s, id).tracker)
  {
    assert s.FlowAt(id) == start.flows[start.funnels[id]];
    Funnels.CleanOne(start, now, timeout, todo, s.tracker, id);
    Funnels.EvictKeepsInv(s.tracker, id);
  }

  /** A cleanup, in whatever order it visits the idle funnels, is a run of evictions. */
  lemma CleanupIsRun(s: State, order: seq<nat>, now: int, timeout: int) returns (last: State)
    requires s.WellFormed() && Distinct(order)
    requires forall id :: id in order <==> id in s.tracker.funnels && s.FlowAt(id).Idle(now, timeout)
    ensures IsRun(s, Evictions(order, now, timeout), last)
    ensures last.tracker == Funnels.AfterCleanup(s.tracker, now, timeout) && last.pending == s.pending
  {
    last := EvictionsRun(s.tracker, s, (set id | id in order), order, now, timeout);
  }

  // ---------- What replacement does ----------

  /** The state of a new proxy after one request over the first connection. */
  lemma FirstRequest(key: FlowKey) returns (begun: State, served: State)
    ensures Agree(begun) && begun == AfterBegin(Initial(), 0, key) && 0 in begun.pending
    ensures Agree(served) && served == AfterFinish(begun, 0, 0, 0) && served.pending == map[]
    ensures Owns(served.ids, key, 0) && served.ids == EchoID.AfterSet(EchoID.NewIDs(), key, 0)
    ensures 0 in served.tracker.funnels && served.FlowAt(0).key == key && served.FlowAt(0).assignedEchoID == 0
    ensures served.FlowAt(0).responder == 0
  {
    var s0 := Initial();
    InitialAgrees();
    begun := AfterBegin(s0, 0, key);
    BeginAgrees(s0, 0, key);
    assert Owns(begun.ids, key, 0) && begun.pending == map[0 := Pending(key, 0)];
    served := AfterFinish(begun, 0, 0, 0);
    FinishAgrees(begun, 0, 0, 0);
    SentFunnels(begun, begun.pending[0], 0, 0);
  }

  /** And after another over the second connection: the funnel is replaced, and its ID free. */
  lemma SecondRequest(key: FlowKey, served: State) returns (begun: State, last: State)
    requires Agree(served) && served.pending == map[] && 0 in served.tracker.funnels
    requires Owns(served.ids, key, 0) && served.ids == EchoID.AfterSet(EchoID.NewIDs(), key, 0)
    requires served.FlowAt(0).key == key && served.FlowAt(0).assignedEchoID == 0 && served.FlowAt(0).responder == 0
    ensures begun.WellFormed() && begun == AfterBegin(served, 0, key) && 0 in begun.pending
    ensures last.WellFormed() && last == AfterFinish(begun, 0, 1, 0) && last.pending == map[]
    ensures 0 in last.tracker.funnels && last.FlowAt(0).key == key && last.FlowAt(0).responder == 1
    ensures EchoID.Inv(last.ids) && last.ids == EchoID.NewIDs().(nextAssignment := 1)
  {
    begun := AfterBegin(served, 0, key);
    BeginAgrees(served, 0, key);
    last := AfterFinish(begun, 0, 1, 0);
    StepWellFormed(begun, Finish(0, 1, 0));
    EchoID.ReleaseKeepsInv(begun.ids, key, 0);
    assert last.ids == EchoID.AfterRelease(begun.ids, key, 0);
    assert last.ids.mapping == map[];
  }

  /**
   From a fresh proxy: a flow gets a funnel, and its next request comes over another connection. The new
   funnel then sits under an ID that the allocator counts as free.
   */
  lemma ReplacementStrandsFunnel(key: FlowKey) returns (events: seq<Event>, last: State)
    ensures IsRun(Initial(), events, last) && last.pending == map[]
    ensures last.tracker.funnels.Keys != last.ids.mapping.Values
    ensures EchoID.Inv(last.ids) && 0 in last.tracker.funnels && !last.ids.assignment[0]
    ensures last.WellFormed() && last.FlowAt(0).key == key && last.FlowAt(0).responder == 1
    ensures last.ids == EchoID.NewIDs().(nextAssignment := 1)
  {
    var s1, s2, s3;
    s1, s2 := FirstRequest(key);
    s3, last := SecondRequest(key, s2);
    RunCons(s3, Finish(0, 1, 0), [], last);
    RunCons(s2, Begin(0, key), [Finish(0, 1, 0)], last);
    RunCons(s1, Finish(0, 0, 0), [Begin(0, key), Finish(0, 1, 0)], last);
    RunCons(Initial(), Begin(0, key), [Finish(0, 0, 0), Begin(0, key), Finish(0, 1, 0)], last);
    events := [Begin(0, key)] + [Finish(0, 0, 0), Begin(0, key), Finish(0, 1, 0)];
    assert 0 in last.tracker.funnels;
  }

  /**
   A funnel left under a free ID is picked up by the next flow that gets this ID over the same connection,
   and the replies of that flow go to the owner of the old one.
   */
  lemma StrandedFunnelMisroutes(s: State, key: FlowKey, id: nat, r: nat, now: int)
    requires s.WellFormed() && r !in s.pending && key !in s.ids.mapping
    requires EchoID.FirstFree(s.ids) == Some(id) && id in s.tracker.funnels
    ensures var begun := AfterBegin(s, r, key);
            var done := AfterFinish(begun, r, s.FlowAt(id).responder, now);
            && Owns(done.ids, key, id) && done.WellFormed()
            && DeliveryOf(done, id) == DeliveryOf(s, id)
  {
    var begun := AfterBegin(s, r, key);
    SentFunnels(begun, Pending(key, id), s.FlowAt(id).responder, now);
  }

  // ---------- A run that misroutes ----------

  lemma {:induction false} RunAppend(s: State, first: seq<Event>, mid: State, second: seq<Event>, last: State)
    requires s.WellFormed() && IsRun(s, first, mid)
    requires mid.WellFormed() && IsRun(mid, second, last)
    ensures IsRun(s, first + second, last)
    decreases |first|
  {
    if first == [] {
      assert first + second == second;
    } else {
      StepWellFormed(s, first[0]);
      RunAppend(Step(s, first[0]), first[1..], mid, second, last);
      assert (first + second)[1..] == first[1..] + second;
    }
  }

  /** The `n`-th of the other flows that use up IDs: as `other`, with an echo ID of its own. */
  function Filler(other: FlowKey, n: nat): FlowKey {
    other.(originalEchoID := other.originalEchoID + n)
  }

  /** ID 0 is free, the fillers up to `n` are the only flows with an ID, and the cursor stands behind them. */
  ghost predicate Filling(s: State, other: FlowKey, n: nat) {
    && s.WellFormed() && s.ids.nextAssignment == n + 1
    && !s.ids.assignment[0] && (forall id :: n < id < EchoID.MAX_UINT16 ==> !s.ids.assignment[id])
    && (forall key :: key in s.ids.mapping ==>
          other.originalEchoID < key.originalEchoID <= other.originalEchoID + n)
    && (forall r :: r in s.pending ==> 0 < r <= n)
  }

  lemma FillOne(s: State, other: FlowKey, n: nat)
    requires Filling(s, other, n) && n + 1 < EchoID.MAX_UINT16
    ensures Enabled(s, Begin(n + 1, Filler(other, n + 1)))
    ensures var next := AfterBegin(s, n + 1, Filler(other, n + 1));
            Filling(next, other, n + 1) && next.tracker == s.tracker
  {
    assert EchoID.Cyclic(n + 1, 0) == n + 1;
    assert EchoID.FreeDistance(s.ids.assignment, n + 1, 0) == 0;
  }

  lemma {:induction false} Fill(s: State, other: FlowKey, n: nat, m: nat) returns (events: seq<Event>, last: State)
    requires Filling(s, other, n) && n <= m < EchoID.MAX_UINT16
    ensures IsRun(s, events, last) && Filling(last, other, m) && last.tracker == s.tracker
    decreases m - n
  {
    if n == m {
      return [], s;
    }
    FillOne(s, other, n);
    var rest;
    rest, last := Fill(AfterBegin(s, n + 1, Filler(other, n + 1)), other, n + 1, m);
    RunCons(s, Begin(n + 1, Filler(other, n + 1)), rest, last);
    events := [Begin(n + 1, Filler(other, n + 1))] + rest;
  }

  /** Once every other ID has been handed out, the allocator comes back to ID 0. */
  lemma BackToZero(s: State, other: FlowKey)
    requires Filling(s, other, EchoID.MAX_UINT16 - 1)
    ensures other !in s.ids.mapping && 0 !in s.pending && EchoID.FirstFree(s.ids) == Some(0)
  {
    assert EchoID.Cyclic(0, 0) == 0;
    assert EchoID.FreeDistance(s.ids.assignment, 0, 0) == 0;
  }

  /** A request of a flow that owns an ID, and its completion over the connection of the stranded funnel. */
  lemma RequestRun(s: State, other: FlowKey, now: int) returns (last: State)
    requires s.WellFormed() && 0 !in s.pending && other !in s.ids.mapping
    requires EchoID.FirstFree(s.ids) == Some(0) && 0 in s.tracker.funnels
    ensures var responder := s.FlowAt(0).responder;
            IsRun(s, [Begin(0, other), Finish(0, responder, now)], last)
    ensures last.WellFormed() && Owns(last.ids, other, 0) && DeliveryOf(last, 0) == DeliveryOf(s, 0)
  {
    var responder := s.FlowAt(0).responder;
    var begun := AfterBegin(s, 0, other);
    StrandedFunnelMisroutes(s, other, 0, 0, now);
    last := AfterFinish(begun, 0, responder, now);
    RunCons(begun, Finish(0, responder, now), [], last);
    RunCons(s, Begin(0, other), [Finish(0, responder, now)], last);
    assert [Begin(0, other)] + ([Finish(0, responder, now)] + []) == [Begin(0, other), Finish(0, responder, now)];
  }

  /**
   A run from a new proxy after which replies to the ID that `other` owns go to the source of `key`: a second
   connection replaces the funnel of `key`, and 65534 more flows bring the allocator back to its ID.
   */
  lemma ReplacementMisroutes(key: FlowKey, other: FlowKey, now: int) returns (events: seq<Event>, last: State)
    ensures IsRun(Initial(), events, last) && last.WellFormed()
    ensures Owns(last.ids, other, 0)
    ensures DeliveryOf(last, 0) == Some(Delivery(key.src, key.originalEchoID, 1))
  {
    var stranded, mid, filled, full;
    stranded, mid := ReplacementStrandsFunnel(key);
    filled, full := Fill(mid, other, 0, EchoID.MAX_UINT16 - 1);
    BackToZero(full, other);
    last := RequestRun(full, other, now);
    var request := [Begin(0, other), Finish(0, 1, now)];
    RunAppend(mid, filled, full, request, last);
    RunAppend(Initial(), stranded, mid, filled + request, last);
    events := stranded + (filled + request);
  }

  // ---------- The object ----------

  class ICMPProxy {
    const srcFunnelTracker: Funnels.FunnelTracker<nat>
    const echoIDTracker: EchoID.EchoIDTracker

    ghost function View(): State
      reads srcFunnelTracker, echoIDTracker, echoIDTracker.assignment
    {
      State(echoIDTracker.View(), srcFunnelTracker.View(), map[])
    }

    constructor ()
      ensures View() == Initial() && Agree(View())
      ensures fresh(srcFunnelTracker) && fresh(echoIDTracker) && fresh(echoIDTracker.assignment)
    {
      srcFunnelTracker := new Funnels.FunnelTracker<nat>();
      echoIDTracker := new EchoID.EchoIDTracker();
      new;
      InitialAgrees();
    }

    ghost predicate Valid()
      reads srcFunnelTracker, echoIDTracker, echoIDTracker.assignment
    {
      EchoID.Inv(View().ids) && View().WellFormed()
    }

    /**
     One request, undisturbed. `echo` is the echo ID of the message, if it is an echo. What is sent is an
     echo to the destination with the ID of the flow that the two steps above fetch or make.
     */
    method Request(src: nat, dst: nat, echo: Option<int>, responder: nat, now: int) returns (sent: Option<nat>)
      requires Valid()
      modifies srcFunnelTracker, echoIDTracker, echoIDTracker.assignment
      ensures Valid()
      ensures echo.None? ==> View() == old(View()) && sent == None
      ensures echo.Some? ==>
                RequestDone(old(View()), EchoID.FlowKey(src, dst, echo.value), responder, now, sent, View())
    {
      if echo.None? {
        return None;
      }
      var key := EchoID.FlowKey(src, dst, echo.value);
      ghost var start := View();
      EchoID.AssignKeepsInv(start.ids, key);
      var id, success := echoIDTracker.GetOrAssign(key);
      if !success {
        return None;
      }
      ghost var begun := AfterBegin(start, 0, key);
      assert begun.pending[0] == Pending(key, id);
      var flow := Funnels.NewFlow(id, key, id, responder, now);
      RunCloseCallback(id, responder);
      var h, isNew, failed := srcFunnelTracker.GetOrRegister(flow, true);
      srcFunnelTracker.UpdateLastActive(h, now);
      sent := Some(srcFunnelTracker.flows[h].assignedEchoID);
      StepWellFormed(begun, Finish(0, responder, now));
      assert View().tracker == AfterFinish(begun, 0, responder, now).tracker;
      assert View().pending == AfterFinish(begun, 0, responder, now).pending;
    }

    /** The callback of the funnel that is about to be replaced, if one is. */
    method RunCloseCallback(id: nat, responder: nat)
      requires Valid()
      modifies echoIDTracker, echoIDTracker.assignment
      ensures Valid()
      ensures View().ids == if Replaces(old(View()), id, responder) then Released(old(View()), id) else old(View()).ids
    {
      var current, found := srcFunnelTracker.Get(id);
      if found {
        var flow := srcFunnelTracker.flows[current];
        if flow.responder != responder {
          EchoID.ReleaseKeepsInv(View().ids, flow.key, flow.assignedEchoID);
          var released := echoIDTracker.Release(flow.key, flow.assignedEchoID);
        }
      }
    }

    /** `None` stands for the error that no funnel is found. */
    method SendReply(id: nat, now: int) returns (delivered: Option<Delivery>)
      requires Valid()
      modifies srcFunnelTracker
      ensures Valid()
      ensures View() == AfterReply(old(View()), id, now)
      ensures delivered == DeliveryOf(old(View()), id)
    {
      var h, found := srcFunnelTracker.Get(id);
      if !found {
        return None;
      }
      StepWellFormed(View(), Reply(id, now));
      srcFunnelTracker.UpdateLastActive(h, now);
      var flow := srcFunnelTracker.flows[h];
      return Some(Delivery(flow.key.src, flow.key.originalEchoID, flow.responder));
    }
  }

  /** What a request leaves behind, and the ID it sends: with agreement, the one its key owns. */
  ghost predicate RequestDone(
    before: State, key: FlowKey, responder: nat, now: int, sent: Option<nat>, after: State)
    requires before.WellFormed() && 0 !in before.pending
  {
    var begun := AfterBegin(before, 0, key);
    match EchoID.Assigned(before.ids, key)
    case None => sent == None && after == begun
    case Some(id) =>
      && after == AfterFinish(begun, 0, responder, now)
      && (Agree(before) ==> sent == Some(id))
  }
}
