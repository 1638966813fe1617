/**
 The tracker of open ICMP flows (packet/funnel.go), with the flow objects of ingress/icmp_posix.go.

 Flow objects live in `flows`; a funnel is an index into it. Times are nanoseconds, but a flow keeps its
 last activity in whole seconds.
 */
module Funnels {
  import EchoID

  const SECOND := 1_000_000_000

  datatype Flow<ID> = Flow(
    id: ID,
    key: EchoID.FlowKey,
    assignedEchoID: nat,
    responder: nat,
    lastActive: int,
    closes: nat)
  {
    /** `Equal` compares the source and both echo IDs. */
    predicate Equal(other: Flow<ID>) {
      other.key.src == key.src && other.key.originalEchoID == key.originalEchoID
      && other.assignedEchoID == assignedEchoID
    }

    predicate Idle(now: int, timeout: int) {
      now > lastActive * SECOND + timeout
    }

    function Touched(now: int): Flow<ID> {
      this.(lastActive := now / SECOND)
    }

    function Closed(): Flow<ID> {
      this.(closes := closes + 1)
    }
  }

  function NewFlow<ID>(id: ID, key: EchoID.FlowKey, assignedEchoID: nat, responder: nat, now: int): Flow<ID> {
    Flow(id, key, assignedEchoID, responder, now / SECOND, 0)
  }

  datatype Tracker<ID> = Tracker(funnels: map<ID, nat>, flows: seq<Flow<ID>>) {
    /** The funnel under `id` is the flow object `h`. */
    predicate Holds(id: ID, h: nat) {
      id in funnels && funnels[id] == h
    }

    predicate Registered(h: nat)
      requires h < |flows|
    {
      Holds(flows[h].id, h)
    }

    /** Every flow ever created is registered and never closed, or unregistered and closed exactly once. */
    ghost predicate Inv() {
      && (forall id :: id in funnels ==> funnels[id] < |flows| && flows[funnels[id]].id == id)
      && (forall h :: 0 <= h < |flows| ==> flows[h].closes == if Registered(h) then 0 else 1)
    }
  }

  /** Closes the funnel under `id` and forgets it. */
  function Evict<ID>(t: Tracker<ID>, id: ID): Tracker<ID>
    requires id in t.funnels && t.funnels[id] < |t.flows|
  {
    var h := t.funnels[id];
    Tracker(t.funnels - {id}, t.flows[h := t.flows[h].Closed()])
  }

  function Touch<ID>(t: Tracker<ID>, h: nat, now: int): Tracker<ID>
    requires h < |t.flows|
  {
    t.(flows := t.flows[h := t.flows[h].Touched(now)])
  }

  /** A funnel whose responder sits on another connection is replaced. */
  predicate ShouldReplace<ID>(t: Tracker<ID>, h: nat, responder: nat)
    requires h < |t.flows|
  {
    t.flows[h].responder != responder
  }

  predicate Reuses<ID>(t: Tracker<ID>, id: ID, responder: nat)
    requires id in t.funnels ==> t.funnels[id] < |t.flows|
  {
    id in t.funnels && !ShouldReplace(t, t.funnels[id], responder)
  }

  function Add<ID>(t: Tracker<ID>, flow: Flow<ID>): Tracker<ID> {
    Tracker(t.funnels[flow.id := |t.flows|], t.flows + [flow])
  }

  function WithoutOld<ID>(t: Tracker<ID>, id: ID): Tracker<ID>
    requires id in t.funnels ==> t.funnels[id] < |t.flows|
  {
    if id in t.funnels then Evict(t, id) else t
  }

  /** `flow` is what the constructor function would make, and `ok` whether it succeeds. */
  function AfterGetOrRegister<ID>(t: Tracker<ID>, flow: Flow<ID>, ok: bool): Tracker<ID>
    requires flow.id in t.funnels ==> t.funnels[flow.id] < |t.flows|
  {
    if Reuses(t, flow.id, flow.responder) then t
    else
      var freed := WithoutOld(t, flow.id);
      if ok then Add(freed, flow) else freed
  }

  /** Closes and forgets the current funnel when it equals `h`, which need not be the same object. */
  function AfterUnregister<ID>(t: Tracker<ID>, id: ID, h: nat): Tracker<ID>
    requires h < |t.flows| && (id in t.funnels ==> t.funnels[id] < |t.flows|)
  {
    if id in t.funnels && t.flows[t.funnels[id]].Equal(t.flows[h]) then Evict(t, id) else t
  }

  /** Every idle funnel closed and forgotten, and nothing else touched. */
  function AfterCleanup<ID>(t: Tracker<ID>, now: int, timeout: int): Tracker<ID>
    requires forall id :: id in t.funnels ==> t.funnels[id] < |t.flows|
  {
    Tracker(
      map id | id in t.funnels && !t.flows[t.funnels[id]].Idle(now, timeout) :: t.funnels[id],
      seq(|t.flows|, h requires 0 <= h < |t.flows| =>
        if t.Registered(h) && t.flows[h].Idle(now, timeout) then t.flows[h].Closed() else t.flows[h]))
  }

  // ---------- Each operation keeps the invariant ----------

  lemma EvictKeepsInv<ID>(t: Tracker<ID>, id: ID)
    requires t.Inv() && id in t.funnels
    ensures Evict(t, id).Inv()
  {
    var next := Evict(t, id);
    forall h | 0 <= h < |next.flows|
      ensures next.flows[h].closes == if next.Registered(h) then 0 else 1
    {
      assert next.flows[h].id == t.flows[h].id;
      assert t.Registered(h) <==> next.Registered(h) || h == t.funnels[id];
    }
  }

  lemma AddKeepsInv<ID>(t: Tracker<ID>, flow: Flow<ID>)
    requires t.Inv() && flow.id !in t.funnels && flow.closes == 0
    ensures Add(t, flow).Inv()
  {
    var next := Add(t, flow);
    forall h | 0 <= h < |next.flows|
      ensures next.flows[h].closes == if next.Registered(h) then 0 else 1
    {
      if h < |t.flows| {
        assert next.flows[h] == t.flows[h];
        assert t.Registered(h) <==> next.Registered(h);
      }
    }
  }

  lemma TouchKeepsInv<ID>(t: Tracker<ID>, h: nat, now: int)
    requires t.Inv() && h < |t.flows|
    ensures Touch(t, h, now).Inv()
  {
    var next := Touch(t, h, now);
    forall k | 0 <= k < |next.flows|
      ensures next.flows[k].closes == if next.Registered(k) then 0 else 1
    {
      assert next.flows[k].id == t.flows[k].id;
      assert t.Registered(k) <==> next.Registered(k);
    }
  }

  lemma CleanupKeepsInv<ID>(t: Tracker<ID>, now: int, timeout: int)
    requires t.Inv()
    ensures AfterCleanup(t, now, timeout).Inv()
  {
    var next := AfterCleanup(t, now, timeout);
    forall h | 0 <= h < |next.flows|
      ensures next.flows[h].closes == if next.Registered(h) then 0 else 1
    {
      assert next.flows[h].id == t.flows[h].id;
      assert next.Registered(h) <==> t.Registered(h) && !t.flows[h].Idle(now, timeout);
    }
  }

  // ---------- Runs ----------

  datatype Event<ID> =
    | GetOrRegister(flow: Flow<ID>, ok: bool)
    | Unregister(id: ID, h: nat)
    | Cleanup(now: int, timeout: int)
    | Traffic(h: nat, now: int)

  /** A new flow has not been closed; the others name flows that exist. */
  predicate Enabled<ID>(t: Tracker<ID>, e: Event<ID>) {
    match e
    case GetOrRegister(flow, ok) => flow.closes == 0
    case Unregister(id, h) => h < |t.flows|
    case Cleanup(now, timeout) => true
    case Traffic(h, now) => h < |t.flows|
  }

  function Step<ID>(t: Tracker<ID>, e: Event<ID>): Tracker<ID>
    requires Enabled(t, e) && t.Inv()
  {
    match e
    case GetOrRegister(flow, ok) => AfterGetOrRegister(t, flow, ok)
    case Unregister(id, h) => AfterUnregister(t, id, h)
    case Cleanup(now, timeout) => AfterCleanup(t, now, timeout)
    case Traffic(h, now) => Touch(t, h, now)
  }

  lemma RegisterKeepsInv<ID>(t: Tracker<ID>, flow: Flow<ID>, ok: bool)
    requires t.Inv() && flow.closes == 0
    ensures AfterGetOrRegister(t, flow, ok).Inv()
  {
    if !Reuses(t, flow.id, flow.responder) {
      if flow.id in t.funnels {
        EvictKeepsInv(t, flow.id);
      }
      if ok {
        AddKeepsInv(WithoutOld(t, flow.id), flow);
      }
    }
  }

  /** No step forgets a flow object, changes what it is, or undoes a close. */
  ghost predicate Extends<ID>(t: Tracker<ID>, next: Tracker<ID>) {
    && |t.flows| <= |next.flows|
    && (forall h :: 0 <= h < |t.flows| ==>
          && t.flows[h].id == next.flows[h].id
          && t.flows[h].key == next.flows[h].key
          && t.flows[h].assignedEchoID == next.flows[h].assignedEchoID
          && t.flows[h].responder == next.flows[h].responder
          && t.flows[h].closes <= next.flows[h].closes)
  }

  lemma StepKeepsInv<ID>(t: Tracker<ID>, e: Event<ID>)
    requires t.Inv() && Enabled(t, e)
    ensures Step(t, e).Inv()
  {
    match e
    case GetOrRegister(flow, ok) => RegisterKeepsInv(t, flow, ok);
    case Unregister(id, h) =>
      if id in t.funnels {
        EvictKeepsInv(t, id);
      }
    case Cleanup(now, timeout) => CleanupKeepsInv(t, now, timeout);
    case Traffic(h, now) => TouchKeepsInv(t, h, now);
  }

  lemma StepExtends<ID>(t: Tracker<ID>, e: Event<ID>)
    requires t.Inv() && Enabled(t, e)
    ensures Extends(t, Step(t, e))
  {
  }

  ghost predicate IsRun<ID>(t: Tracker<ID>, events: seq<Event<ID>>, last: Tracker<ID>)
    requires t.Inv()
    decreases |events|
  {
    if events == [] then last == t
    else
      Enabled(t, events[0]) &&
      (StepKeepsInv(t, events[0]); IsRun(Step(t, events[0]), events[1..], last))
  }

  /**
   Over every run, each flow ever created ends registered and never closed, or unregistered and closed
   exactly once; and a flow that was closed stays so.
   */
  lemma {:induction false} RunKeepsInv<ID>(t: Tracker<ID>, events: seq<Event<ID>>, last: Tracker<ID>)
    requires t.Inv() && IsRun(t, events, last)
    ensures last.Inv() && Extends(t, last)
    decreases |events|
  {
    if events != [] {
      StepKeepsInv(t, events[0]);
      StepExtends(t, events[0]);
      RunKeepsInv(Step(t, events[0]), events[1..], last);
    }
  }

  /** `cleanup` closes a flow exactly when it is registered and idle past the timeout. */
  lemma CleanupClosesIdle<ID>(t: Tracker<ID>, now: int, timeout: int, h: nat)
    requires t.Inv() && h < |t.flows|
    ensures var next := AfterCleanup(t, now, timeout);
            && (next.flows[h].closes > t.flows[h].closes <==> t.Registered(h) && t.flows[h].Idle(now, timeout))
            && (next.Registered(h) <==> t.Registered(h) && !t.flows[h].Idle(now, timeout))
  {
    var next := AfterCleanup(t, now, timeout);
    assert next.flows[h].id == t.flows[h].id;
  }

  // ---------- How long a flow is kept ----------

  /** The last cleanup at which a flow is still kept that was last used at `at`. */
  function KeptUntil(at: int, timeout: int): int {
    at / 1_000_000_000 * 1_000_000_000 + timeout
  }

  /** The event may close the flow `h`, which sits under `id`, or is a use of it. */
  ghost predicate Concerns<ID>(e: Event<ID>, id: ID, h: nat) {
    match e
    case GetOrRegister(flow, ok) => flow.id == id
    case Unregister(other, g) => other == id
    case Traffic(g, now) => g == h
    case Cleanup(now, timeout) => false
  }

  /** No cleanup comes after the time to which the flow is kept. */
  ghost predicate CleanedInTime<ID>(events: seq<Event<ID>>, at: int) {
    forall k :: 0 <= k < |events| && events[k].Cleanup? ==> events[k].now <= KeptUntil(at, events[k].timeout)
  }

  ghost predicate LeavesAlone<ID>(events: seq<Event<ID>>, id: ID, h: nat) {
    forall k :: 0 <= k < |events| ==> !Concerns(events[k], id, h)
  }

  /** The flow is in place, and its last use is the one at `at`. */
  ghost predicate InUse<ID>(t: Tracker<ID>, id: ID, h: nat, at: int) {
    t.Inv() && h < |t.flows| && t.flows[h].id == id && t.Registered(h)
    && t.flows[h].lastActive * 1_000_000_000 == KeptUntil(at, 0)
  }

  lemma StepKeepsInUse<ID>(t: Tracker<ID>, e: Event<ID>, id: ID, h: nat, at: int)
    requires InUse(t, id, h, at) && Enabled(t, e) && !Concerns(e, id, h)
    requires e.Cleanup? ==> e.now <= KeptUntil(at, e.timeout)
    ensures InUse(Step(t, e), id, h, at)
  {
    StepKeepsInv(t, e);
  }

  /** What the next cleanup does to the flow, by its time alone. */
  ghost predicate CleanupDecides<ID>(t: Tracker<ID>, h: nat, at: int)
    requires t.Inv() && h < |t.flows|
  {
    forall now, timeout ::
      var next := Step(t, Cleanup(now, timeout));
      && |next.flows| == |t.flows|
      && (next.Registered(h) <==> now <= KeptUntil(at, timeout))
      && next.flows[h].closes == if now <= KeptUntil(at, timeout) then 0 else 1
  }

  lemma {:induction false} KeptInUse<ID>(
      t: Tracker<ID>, events: seq<Event<ID>>, last: Tracker<ID>, id: ID, h: nat, at: int)
    requires InUse(t, id, h, at) && IsRun(t, events, last)
    requires LeavesAlone(events, id, h) && CleanedInTime(events, at)
    ensures last.Inv() && h < |last.flows| && last.Registered(h) && last.flows[h].closes == 0
    ensures CleanupDecides(last, h, at)
    decreases |events|
  {
    if events == [] {
      forall now, timeout
        ensures var next := Step(t, Cleanup(now, timeout));
                && |next.flows| == |t.flows|
                && (next.Registered(h) <==> now <= KeptUntil(at, timeout))
                && next.flows[h].closes == if now <= KeptUntil(at, timeout) then 0 else 1
      {
        CleanupClosesIdle(t, now, timeout, h);
        CleanupKeepsInv(t, now, timeout);
      }
    } else {
      StepKeepsInUse(t, events[0], id, h, at);
      KeptInUse(Step(t, events[0]), events[1..], last, id, h, at);
    }
  }

  lemma TouchIsActivity<ID>(t: Tracker<ID>, h: nat, at: int)
    requires t.Inv() && h < |t.flows| && t.Registered(h)
    ensures var next := Touch(t, h, at);
            next.Inv() && h < |next.flows| && next.Registered(h) && CleanupDecides(next, h, at)
  {
    TouchKeepsInv(t, h, at);
    KeptInUse(Touch(t, h, at), [], Touch(t, h, at), t.flows[h].id, h, at);
  }

  /**
   A flow that was used at `at` survives, whatever happens to others, every cleanup up to the timeout after
   the second of that use; and the first cleanup behind that closes it.
   */
  lemma UsedFlowIsKept<ID>(
      t: Tracker<ID>, h: nat, at: int, events: seq<Event<ID>>, last: Tracker<ID>)
    requires t.Inv() && h < |t.flows| && t.Registered(h) && IsRun(t, [Traffic(h, at)] + events, last)
    requires LeavesAlone(events, t.flows[h].id, h) && CleanedInTime(events, at)
    ensures last.Inv() && h < |last.flows| && last.Registered(h) && last.flows[h].closes == 0
    ensures CleanupDecides(last, h, at)
  {
    StepKeepsInv(t, Traffic(h, at));
    assert ([Traffic(h, at)] + events)[1..] == events;
    KeptInUse(Step(t, Traffic(h, at)), events, last, t.flows[h].id, h, at);
  }

  /** The same holds of a flow that was made at `at`. */
  lemma NewFlowIsKept<ID>(
      t: Tracker<ID>, id: ID, key: EchoID.FlowKey, assignedEchoID: nat, responder: nat, at: int,
      events: seq<Event<ID>>, last: Tracker<ID>)
    requires t.Inv() && (id in t.funnels ==> t.flows[t.funnels[id]].responder != responder)
    requires var made := GetOrRegister(NewFlow(id, key, assignedEchoID, responder, at), true);
             IsRun(t, [made] + events, last)
    requires LeavesAlone(events, id, |t.flows|) && CleanedInTime(events, at)
    ensures var h := |t.flows|;
            && last.Inv() && h < |last.flows| && last.Registered(h) && last.flows[h].closes == 0
            && CleanupDecides(last, h, at)
  {
    var made := GetOrRegister(NewFlow(id, key, assignedEchoID, responder, at), true);
    StepKeepsInv(t, made);
    assert ([made] + events)[1..] == events;
    KeptInUse(Step(t, made), events, last, id, |t.flows|, at);
  }

  // ---------- What registering and unregistering closes ----------

  /**
   Registering under an ID in use: the flow there stays exactly when it replies over the same responder;
   otherwise it is closed, and replaced if the new one can be made.
   */
  lemma RegisterReplacesIff<ID>(t: Tracker<ID>, flow: Flow<ID>, ok: bool)
    requires t.Inv() && flow.closes == 0 && flow.id in t.funnels
    ensures var was, next := t.funnels[flow.id], Step(t, GetOrRegister(flow, ok));
            if t.flows[was].responder == flow.responder then next == t
            else
              && next.flows[was].closes == 1
              && if ok then next.Holds(flow.id, |t.flows|) && next.flows[|t.flows|..] == [flow]
                 else flow.id !in next.funnels && |next.flows| == |t.flows|
  {
  }

  /** Unregistering closes the flow under the ID exactly when source and both echo IDs are those of `h`. */
  lemma UnregisterClosesIff<ID>(t: Tracker<ID>, id: ID, h: nat)
    requires t.Inv() && h < |t.flows| && id in t.funnels
    ensures var current, next := t.flows[t.funnels[id]], Step(t, Unregister(id, h));
            var same := && current.key.src == t.flows[h].key.src
                        && current.key.originalEchoID == t.flows[h].key.originalEchoID
                        && current.assignedEchoID == t.flows[h].assignedEchoID;
            && next.flows[t.funnels[id]].closes == (if same then 1 else 0)
            && next.funnels == if same then t.funnels - {id} else t.funnels
  {
    assert t.Registered(t.funnels[id]);
  }

  // ---------- The loop of cleanup ----------

  /** The state of a cleanup that has still to look at `todo`. */
  ghost predicate CleanedUpTo<ID>(start: Tracker<ID>, now: int, timeout: int, todo: set<ID>, t: Tracker<ID>) {
    && start.Inv() && t.Inv() && |t.flows| == |start.flows|
    && todo <= t.funnels.Keys <= start.funnels.Keys
    && (forall id :: id in start.funnels ==>
          (id in t.funnels <==> id in todo || !start.flows[start.funnels[id]].Idle(now, timeout)))
    && (forall id :: id in t.funnels ==> t.funnels[id] == start.funnels[id])
    && (forall h :: 0 <= h < |t.flows| ==>
          t.flows[h] == if start.Registered(h) && start.flows[h].id !in t.funnels
                        then start.flows[h].Closed() else start.flows[h])
  }

  lemma CleanOne<ID>(start: Tracker<ID>, now: int, timeout: int, todo: set<ID>, t: Tracker<ID>, id: ID)
    requires CleanedUpTo(start, now, timeout, todo, t) && id in todo
    ensures var next := if t.flows[t.funnels[id]].Idle(now, timeout) then Evict(t, id) else t;
            CleanedUpTo(start, now, timeout, todo - {id}, next)
  {
    if t.flows[t.funnels[id]].Idle(now, timeout) {
      EvictKeepsInv(t, id);
    }
  }

  lemma CleanedAll<ID>(start: Tracker<ID>, now: int, timeout: int, t: Tracker<ID>)
    requires CleanedUpTo(start, now, timeout, {}, t)
    ensures t == AfterCleanup(start, now, timeout)
  {
    assert t.funnels == AfterCleanup(start, now, timeout).funnels;
    assert t.flows == AfterCleanup(start, now, timeout).flows;
  }

  // ---------- The object ----------

  class FunnelTracker<ID(==)> {
    var funnels: map<ID, nat>
    var flows: seq<Flow<ID>>

    ghost function View(): Tracker<ID>
      reads this
    {
      Tracker(funnels, flows)
    }

    constructor ()
      ensures View() == Tracker(map[], []) && View().Inv()
    {
      funnels, flows := map[], [];
    }

    method Get(id: ID) returns (h: nat, found: bool)
      ensures found <==> id in funnels
      ensures found ==> View().Holds(id, h)
    {
      if id in funnels {
        return funnels[id], true;
      }
      return 0, false;
    }

    method UpdateLastActive(h: nat, now: int)
      requires h < |flows|
      modifies this
      ensures View() == Touch(old(View()), h, now)
    {
      flows := flows[h := flows[h].Touched(now)];
    }

    method Close(id: ID)
      requires id in funnels && funnels[id] < |flows|
      modifies this
      ensures View() == Evict(old(View()), id)
    {
      var h := funnels[id];
      flows := flows[h := flows[h].Closed()];
      funnels := funnels - {id};
    }

    method GetOrRegister(flow: Flow<ID>, ok: bool) returns (h: nat, isNew: bool, failed: bool)
      requires View().Inv() && flow.closes == 0
      modifies this
      ensures View() == AfterGetOrRegister(old(View()), flow, ok)
      ensures failed <==> !ok && !Reuses(old(View()), flow.id, flow.responder)
      ensures isNew <==> ok && !Reuses(old(View()), flow.id, flow.responder)
      ensures !failed ==> View().Holds(flow.id, h)
      ensures failed ==> flow.id !in funnels
    {
      if flow.id in funnels {
        h := funnels[flow.id];
        if flows[h].responder == flow.responder {
          return h, false, false;
        }
        Close(flow.id);
      }
      if !ok {
        return 0, false, true;
      }
      h := |flows|;
      flows := flows + [flow];
      funnels := funnels[flow.id := h];
      return h, true, false;
    }

    method Unregister(id: ID, h: nat) returns (deleted: bool)
      requires View().Inv() && h < |flows|
      modifies this
      ensures View() == AfterUnregister(old(View()), id, h)
      ensures deleted <==> id !in funnels
    {
      if id !in funnels {
        return true;
      }
      if flows[funnels[id]].Equal(flows[h]) {
        Close(id);
        return true;
      }
      return false;
    }

    /** The map is iterated in any order, and entries are deleted on the way. */
    method Cleanup(now: int, timeout: int)
      requires View().Inv()
      modifies this
      ensures View() == AfterCleanup(old(View()), now, timeout)
    {
      ghost var start := View();
      var todo := funnels.Keys;
      while todo != {}
        invariant CleanedUpTo(start, now, timeout, todo, View())
        decreases todo
      {
        var id :| id in todo;
        CleanOne(start, now, timeout, todo, View(), id);
        if flows[funnels[id]].Idle(now, timeout) {
          Close(id);
        }
        todo := todo - {id};
      }
      CleanedAll(start, now, timeout, View());
    }
  }
}
