/**
 UDP sessions of a connection (connection/quic_datagram_v2.go): the remote call that registers and serves a
 session, the flow limiter whose slot it holds meanwhile, and the end of the session.

 A slot is a holder of `Limiter`. `dialing` are the slots of calls that have no session yet, `serving` maps
 the slot of every session whose server has not finished to the session, and `others` are slots held
 elsewhere, by TCP flows or other connections.
 */
module DatagramV2 {
  import opened Wrappers
  import Limiter
  import Sessions

  datatype State = State(
    manager: Sessions.Table,
    isShutDown: bool,
    world: Limiter.World,
    dialing: set<nat>,
    serving: map<nat, nat>,
    others: set<nat>)

  function Initial(limits: Limiter.Limits, others: set<nat>): State {
    State(Sessions.NewTable(), false, Limiter.World(limits, others), {}, map[], others)
  }

  /**
   `DialFails` is every exit of the registration that returns an error after the slot was taken. `GivesUp`
   is a server that stops because its session is idle or its context done.
   */
  datatype Event =
    | Dial(slot: nat)
    | DialFails(slot: nat)
    | Register(slot: nat, id: nat)
    | Unregister(id: nat, byRemote: bool)
    | Shutdown
    | ReaderFails(h: nat)
    | Takes(h: nat)
    | GivesUp(h: nat)
    | Ends(h: nat, told: bool)
    | Elsewhere(e: Limiter.Event)

  predicate Enabled(s: State, e: Event) {
    match e
    case Dial(slot) => slot !in s.world.holders
    case DialFails(slot) => slot in s.dialing
    case Register(slot, id) => slot in s.dialing && !s.isShutDown
    case Unregister(id, byRemote) => !s.isShutDown
    case Shutdown => !s.isShutDown
    case ReaderFails(h) => h < |s.manager.arena| && s.manager.arena[h].readerCloses == 0
    case Takes(h) =>
      h < |s.manager.arena| && s.manager.arena[h].stage == Sessions.Serving && s.manager.arena[h].queue != []
    case GivesUp(h) => h < |s.manager.arena| && s.manager.arena[h].stage == Sessions.Serving
    case Ends(h, told) =>
      h < |s.manager.arena| && s.manager.arena[h].stage == Sessions.Ending && (told ==> !s.isShutDown)
    case Elsewhere(le) => Limiter.Enabled(s.world, le) && (le.Release? ==> le.holder in s.others)
  }

  // ---------- The slots ----------

  /** What the step does to the limiter. */
  function LimiterEvent(s: State, e: Event): Option<Limiter.Event>
    requires Enabled(s, e)
  {
    match e
    case Dial(slot) => Some(Limiter.Acquire(slot))
    case DialFails(slot) => Some(Limiter.Release(slot))
    case Takes(h) =>
      if s.manager.arena[h].Took().stage.Done? then Some(Limiter.Release(s.manager.arena[h].token)) else None
    case Ends(h, told) => Some(Limiter.Release(s.manager.arena[h].token))
    case Elsewhere(le) => Some(le)
    case _ => None
  }

  function NextWorld(s: State, e: Event): Limiter.World
    requires Enabled(s, e)
  {
    match LimiterEvent(s, e)
    case None => s.world
    case Some(le) => Limiter.Step(s.world, le)
  }

  function NextDialing(s: State, e: Event): set<nat>
    requires Enabled(s, e)
  {
    match e
    case Dial(slot) => if s.world.limits.Full() then s.dialing else s.dialing + {slot}
    case DialFails(slot) => s.dialing - {slot}
    case Register(slot, id) => s.dialing - {slot}
    case _ => s.dialing
  }

  function NextServing(s: State, e: Event): map<nat, nat>
    requires Enabled(s, e)
  {
    match e
    case Register(slot, id) => s.serving[slot := |s.manager.arena|]
    case Takes(h) =>
      if s.manager.arena[h].Took().stage.Done? then s.serving - {s.manager.arena[h].token} else s.serving
    case Ends(h, told) => s.serving - {s.manager.arena[h].token}
    case _ => s.serving
  }

  function NextOthers(s: State, e: Event): set<nat>
    requires Enabled(s, e)
  {
    match e
    case Elsewhere(Acquire(holder)) => if s.world.limits.Full() then s.others else s.others + {holder}
    case Elsewhere(Release(holder)) => s.others - {holder}
    case _ => s.others
  }

  // ---------- The sessions ----------

  /** The end of a server that tells the manager, or fails to. */
  ghost function AfterEnd(m: Sessions.Table, h: nat, told: bool): Sessions.Table
    requires Sessions.Indexed(m) && h < |m.arena|
  {
    var ended := Sessions.WithSession(m, h, m.arena[h].(stage := Sessions.Done(told)));
    if told then Sessions.AfterUnregister(ended, m.arena[h].id, false) else ended
  }

  ghost function NextManager(s: State, e: Event): Sessions.Table
    requires Enabled(s, e) && Sessions.Indexed(s.manager)
  {
    var m := s.manager;
    match e
    case Register(slot, id) => Sessions.AfterRegister(m, id, slot)
    case Unregister(id, byRemote) => Sessions.AfterUnregister(m, id, byRemote)
    case Shutdown => Sessions.AfterShutdown(m)
    case ReaderFails(h) => Sessions.WithSession(m, h, m.arena[h].ReaderClosed())
    case Takes(h) => Sessions.WithSession(m, h, m.arena[h].Took())
    case GivesUp(h) => Sessions.WithSession(m, h, m.arena[h].(stage := Sessions.Ending))
    case Ends(h, told) => AfterEnd(m, h, told)
    case _ => m
  }

  ghost function Step(s: State, e: Event): State
    requires Enabled(s, e) && Sessions.Indexed(s.manager)
  {
    State(NextManager(s, e), s.isShutDown || e.Shutdown?, NextWorld(s, e), NextDialing(s, e), NextServing(s, e),
          NextOthers(s, e))
  }

  // ---------- The manager's side ----------

  lemma ManagerStepKeepsInv(s: State, e: Event)
    requires Sessions.Inv(s.manager) && Enabled(s, e)
    ensures Sessions.Inv(NextManager(s, e))
  {
    var m := s.manager;
    match e
    case Register(slot, id) => Sessions.RegisterKeepsInv(m, id, slot);
    case Unregister(id, byRemote) => Sessions.UnregisterKeepsInv(m, id, byRemote);
    case Shutdown => Sessions.ShutdownKeepsInv(m);
    case ReaderFails(h) =>
      Sessions.ReaderNeverBlocks(m.arena[h]);
      Sessions.SessionStepKeepsInv(m, h, m.arena[h].ReaderClosed());
    case Takes(h) =>
      Sessions.TakeKeepsSessionInv(m.arena[h]);
      Sessions.SessionStepKeepsInv(m, h, m.arena[h].Took());
    case GivesUp(h) => Sessions.SessionStepKeepsInv(m, h, m.arena[h].(stage := Sessions.Ending));
    case Ends(h, told) =>
      var s' := m.arena[h].(stage := Sessions.Done(told));
      Sessions.SessionStepKeepsInv(m, h, s');
      if told {
        Sessions.UnregisterKeepsInv(Sessions.WithSession(m, h, s'), m.arena[h].id, false);
      }
    case _ =>
  }

  /** The queue of every session a step writes a close reason to has room for it. */
  lemma NobodyBlocksOnClose(s: State, e: Event, h: nat)
    requires Sessions.Inv(s.manager) && Enabled(s, e) && h < |s.manager.arena|
    requires NextManager(s, e).arena[h].managerCloses + NextManager(s, e).arena[h].readerCloses
          > s.manager.arena[h].managerCloses + s.manager.arena[h].readerCloses
    ensures |s.manager.arena[h].queue| < Sessions.CLOSE_CAPACITY
    ensures NextManager(s, e).arena[h].managerCloses <= 1 && NextManager(s, e).arena[h].readerCloses <= 1
  {
    ManagerStepKeepsInv(s, e);
    assert s.manager.arena[h].Inv() && NextManager(s, e).arena[h].Inv();
  }

  predicate Live(m: Sessions.Table, h: nat)
    requires h < |m.arena|
  {
    !m.arena[h].stage.Done?
  }

  /** How a step moves the sessions' servers on; it never changes what a session is. */
  lemma StagesAfter(s: State, e: Event)
    requires Sessions.Inv(s.manager) && Enabled(s, e)
    ensures var m, next := s.manager, NextManager(s, e);
            && |next.arena| == |m.arena| + (if e.Register? then 1 else 0)
            && (e.Register? ==> next.arena[|m.arena|] == Sessions.NewSession(e.id, e.slot))
            && (forall h :: 0 <= h < |m.arena| ==>
                  && next.arena[h].id == m.arena[h].id && next.arena[h].token == m.arena[h].token
                  && next.arena[h].stage ==
                       if e.Takes? && e.h == h then m.arena[h].Took().stage
                       else if e.GivesUp? && e.h == h then Sessions.Ending
                       else if e.Ends? && e.h == h then Sessions.Done(e.told)
                       else m.arena[h].stage)
  {
  }

  // ---------- Slots are given back exactly once ----------

  predicate Partition(holders: set<nat>, a: set<nat>, b: set<nat>, c: set<nat>) {
    holders == a + b + c && a !! b !! c
  }

  ghost predicate SlotsInv(s: State) {
    && Partition(s.world.holders, s.dialing, s.serving.Keys, s.others)
    && (forall slot :: slot in s.serving ==>
          && s.serving[slot] < |s.manager.arena|
          && s.manager.arena[s.serving[slot]].token == slot
          && Live(s.manager, s.serving[slot]))
    && (forall h :: 0 <= h < |s.manager.arena| && Live(s.manager, h) ==>
          s.manager.arena[h].token in s.serving && s.serving[s.manager.arena[h].token] == h)
  }

  ghost predicate Inv(s: State) {
    && Sessions.Inv(s.manager) && SlotsInv(s)
    && (s.isShutDown ==> s.manager.sessions == map[])
  }

  lemma InitialInv(limits: Limiter.Limits, others: set<nat>)
    ensures Inv(Initial(limits, others))
  {
    Sessions.NewTableInv();
  }

  /** Every acquire is for a new holder, and every release is of a slot that is held. */
  lemma StepIsLimiterStep(s: State, e: Event)
    requires Inv(s) && Enabled(s, e)
    ensures LimiterEvent(s, e).Some? ==> Limiter.Enabled(s.world, LimiterEvent(s, e).value)
  {
    if (e.Takes? || e.Ends?) {
      assert Live(s.manager, e.h);
    }
  }

  lemma SlotJoins(holders: set<nat>, a: set<nat>, b: set<nat>, c: set<nat>, slot: nat)
    requires Partition(holders, a, b, c) && slot !in holders
    ensures Partition(holders + {slot}, a + {slot}, b, c) && Partition(holders + {slot}, a, b, c + {slot})
  {
  }

  lemma SlotLeaves(holders: set<nat>, a: set<nat>, b: set<nat>, c: set<nat>, slot: nat)
    requires Partition(holders, a, b, c)
    ensures slot in a ==> Partition(holders - {slot}, a - {slot}, b, c)
    ensures slot in b ==> Partition(holders - {slot}, a, b - {slot}, c)
    ensures slot in c ==> Partition(holders - {slot}, a, b, c - {slot})
  {
  }

  lemma SlotMoves(holders: set<nat>, a: set<nat>, b: set<nat>, c: set<nat>, slot: nat)
    requires Partition(holders, a, b, c) && slot in a
    ensures Partition(holders, a - {slot}, b + {slot}, c)
  {
  }

  ghost predicate SlotsAfter(s: State, e: Event)
    requires Enabled(s, e)
  {
    Partition(NextWorld(s, e).holders, NextDialing(s, e), NextServing(s, e).Keys, NextOthers(s, e))
  }

  lemma CallSlots(s: State, e: Event)
    requires SlotsInv(s) && Enabled(s, e) && (e.Dial? || e.DialFails?)
    ensures SlotsAfter(s, e)
  {
    if e.Dial? {
      SlotJoins(s.world.holders, s.dialing, s.serving.Keys, s.others, e.slot);
    } else {
      SlotLeaves(s.world.holders, s.dialing, s.serving.Keys, s.others, e.slot);
    }
  }

  lemma OtherSlots(s: State, e: Event)
    requires SlotsInv(s) && Enabled(s, e) && e.Elsewhere?
    ensures SlotsAfter(s, e)
  {
    if !e.e.SetLimit? {
      SlotJoins(s.world.holders - {e.e.holder}, s.dialing, s.serving.Keys, s.others - {e.e.holder}, e.e.holder);
      SlotLeaves(s.world.holders, s.dialing, s.serving.Keys, s.others, e.e.holder);
    }
  }

  lemma RegisterSlots(s: State, e: Event)
    requires SlotsInv(s) && Enabled(s, e) && e.Register?
    ensures SlotsAfter(s, e)
  {
    SlotMoves(s.world.holders, s.dialing, s.serving.Keys, s.others, e.slot);
    assert NextServing(s, e).Keys == s.serving.Keys + {e.slot};
  }

  lemma SlotSetsAfter(s: State, e: Event)
    requires SlotsInv(s) && Enabled(s, e)
    ensures SlotsAfter(s, e)
  {
    match e
    case Dial(slot) => CallSlots(s, e);
    case DialFails(slot) => CallSlots(s, e);
    case Register(slot, id) => RegisterSlots(s, e);
    case Elsewhere(le) => OtherSlots(s, e);
    case Takes(h) => ServerLeaves(s, h);
    case Ends(h, told) => ServerLeaves(s, h);
    case _ =>
  }

  lemma ServerLeaves(s: State, h: nat)
    requires SlotsInv(s) && h < |s.manager.arena| && Live(s.manager, h)
    ensures var slot := s.manager.arena[h].token;
            Partition(s.world.holders - {slot}, s.dialing, (s.serving - {slot}).Keys, s.others)
  {
    var slot := s.manager.arena[h].token;
    SlotLeaves(s.world.holders, s.dialing, s.serving.Keys, s.others, slot);
    assert (s.serving - {slot}).Keys == s.serving.Keys - {slot};
  }

  lemma ServersAfter(s: State, e: Event)
    requires Inv(s) && Enabled(s, e)
    ensures var next := Step(s, e);
            && (forall slot :: slot in next.serving ==>
                  && next.serving[slot] < |next.manager.arena|
                  && next.manager.arena[next.serving[slot]].token == slot
                  && Live(next.manager, next.serving[slot]))
            && (forall h :: 0 <= h < |next.manager.arena| && Live(next.manager, h) ==>
                  next.manager.arena[h].token in next.serving && next.serving[next.manager.arena[h].token] == h)
  {
    StagesAfter(s, e);
    var m, next := s.manager, Step(s, e);
    forall slot | slot in next.serving
      ensures next.serving[slot] < |next.manager.arena|
      ensures next.manager.arena[next.serving[slot]].token == slot && Live(next.manager, next.serving[slot])
    {
      if slot in s.serving {
        assert Live(m, s.serving[slot]);
      }
    }
    forall h: nat | h < |next.manager.arena| && Live(next.manager, h)
      ensures next.manager.arena[h].token in next.serving && next.serving[next.manager.arena[h].token] == h
    {
      if h < |m.arena| {
        assert Live(m, h);
        if (e.Takes? || e.Ends?) && e.h != h {
          assert Live(m, e.h);
        }
      }
    }
  }

  lemma StepKeepsInv(s: State, e: Event)
    requires Inv(s) && Enabled(s, e)
    ensures Inv(Step(s, e))
  {
    ManagerStepKeepsInv(s, e);
    SlotSetsAfter(s, e);
    ServersAfter(s, e);
  }

  // ---------- Runs ----------

  ghost predicate IsRun(s: State, events: seq<Event>, last: State)
    requires Inv(s)
    decreases |events|
  {
    if events == [] then last == s
    else Enabled(s, events[0]) && (StepKeepsInv(s, events[0]); IsRun(Step(s, events[0]), events[1..], last))
  }

  /**
   Over every run: a session is in the map under its own ID, was overwritten there, or was closed by the
   manager exactly once; the gauge exceeds the map by the sessions overwritten; and the limiter counts the
   calls and servers that still hold a slot.
   */
  lemma {:induction false} RunKeepsInv(s: State, events: seq<Event>, last: State)
    requires Inv(s) && IsRun(s, events, last)
    requires Limiter.Counts(s.world) && |s.world.holders| + |events| < Limiter.TWO_TO_64
    ensures Inv(last) && last.manager.gauge - |last.manager.sessions| == |last.manager.overwritten|
    ensures Limiter.Counts(last.world) && |last.world.holders| <= |s.world.holders| + |events|
    decreases |events|
  {
    if events != [] {
      var next := Step(s, events[0]);
      StepKeepsInv(s, events[0]);
      StepIsLimiterStep(s, events[0]);
      if LimiterEvent(s, events[0]).Some? {
        Limiter.StepCounts(s.world, LimiterEvent(s, events[0]).value);
      }
      RunKeepsInv(next, events[1..], last);
    }
  }

  function LiveSessions(m: Sessions.Table): set<nat> {
    set h: nat | h < |m.arena| && Live(m, h)
  }

  lemma {:induction false} SameSize(serving: map<nat, nat>, live: set<nat>)
    requires serving.Values == live
    requires forall a, b :: a in serving && b in serving && serving[a] == serving[b] ==> a == b
    ensures |serving| == |live|
    decreases |serving|
  {
    if serving.Keys == {} {
      assert serving == map[];
      assert live == {};
    } else {
      var slot :| slot in serving;
      var rest := serving - {slot};
      assert serving.Keys == rest.Keys + {slot};
      assert rest.Values == live - {serving[slot]};
      SameSize(rest, live - {serving[slot]});
    }
  }

  /** The counter of the limiter is the number of calls still dialing, of live sessions, and of other holders. */
  lemma CounterIsLive(s: State)
    requires Inv(s) && Limiter.Counts(s.world)
    ensures s.world.limits.counter == |s.dialing| + |LiveSessions(s.manager)| + |s.others|
  {
    var live := LiveSessions(s.manager);
    forall h | h in live
      ensures h in s.serving.Values
    {
      assert s.serving[s.manager.arena[h].token] == h;
    }
    assert s.serving.Values == live;
    SameSize(s.serving, live);
    assert |s.dialing + s.serving.Keys + s.others| == |s.dialing| + |s.serving.Keys| + |s.others|;
    assert |s.serving.Keys| == |s.serving|;
  }

  // ---------- Whose session an ending server closes ----------

  /** The server of `h` still has to end, and its ID belongs to another session by now. */
  ghost predicate Displaced(m: Sessions.Table, h: nat, other: nat) {
    h < |m.arena| && Live(m, h) && other != h && m.arena[h].id in m.sessions && m.sessions[m.arena[h].id] == other
  }

  /** A server that ends closes a session other than its own exactly when that one displaced it. */
  lemma EndClosesAnotherIff(s: State, h: nat, other: nat)
    requires Inv(s) && Enabled(s, Ends(h, true)) && other < |s.manager.arena| && other != h
    ensures NextManager(s, Ends(h, true)).arena[other].managerCloses > s.manager.arena[other].managerCloses
       <==> Displaced(s.manager, h, other)
  {
  }

  ghost predicate Separated(s: State) {
    forall h: nat, other: nat :: !Displaced(s.manager, h, other)
  }

  /** A registration under the ID of a session whose server has not ended. */
  ghost predicate ReusesID(s: State, e: Event) {
    e.Register? && exists h: nat :: h < |s.manager.arena| && Live(s.manager, h) && s.manager.arena[h].id == e.id
  }

  lemma SessionsAfter(s: State, e: Event, id: nat)
    requires Inv(s) && Enabled(s, e) && id in NextManager(s, e).sessions
    ensures if e.Register? && e.id == id then NextManager(s, e).sessions[id] == |s.manager.arena|
            else id in s.manager.sessions && NextManager(s, e).sessions[id] == s.manager.sessions[id]
  {
  }

  lemma DisplacedBefore(s: State, e: Event, h: nat, other: nat)
    requires Inv(s) && Enabled(s, e) && !ReusesID(s, e) && Displaced(NextManager(s, e), h, other)
    ensures Displaced(s.manager, h, other)
  {
    StagesAfter(s, e);
    SessionsAfter(s, e, NextManager(s, e).arena[h].id);
    if h < |s.manager.arena| {
      assert Live(s.manager, h);
    }
  }

  /** A step lets an ending server threaten another session exactly when it reuses an ID in the sense above. */
  lemma StepSeparatesIff(s: State, e: Event)
    requires Inv(s) && Separated(s) && Enabled(s, e)
    ensures Separated(Step(s, e)) <==> !ReusesID(s, e)
  {
    StagesAfter(s, e);
    var m, next := s.manager, Step(s, e);
    if ReusesID(s, e) {
      var h: nat :| h < |m.arena| && Live(m, h) && m.arena[h].id == e.id;
      assert Displaced(next.manager, h, |m.arena|);
    } else {
      forall h: nat, other: nat
        ensures !Displaced(next.manager, h, other)
      {
        if Displaced(next.manager, h, other) {
          DisplacedBefore(s, e, h, other);
        }
      }
    }
  }

  ghost predicate NeverReuses(s: State, events: seq<Event>)
    requires Inv(s)
    decreases |events|
  {
    events == []
    || (Enabled(s, events[0]) && !ReusesID(s, events[0])
        && (StepKeepsInv(s, events[0]); NeverReuses(Step(s, events[0]), events[1..])))
  }

  /** On runs that never reuse the ID of a live session, a server that ends closes no session but its own. */
  lemma {:induction false} ServersCloseTheirOwn(s: State, events: seq<Event>, last: State, h: nat)
    requires Inv(s) && Separated(s) && IsRun(s, events, last) && NeverReuses(s, events)
    ensures Inv(last) && Separated(last)
    ensures Enabled(last, Ends(h, true)) ==>
              var ended := NextManager(last, Ends(h, true));
              && |ended.arena| == |last.manager.arena|
              && forall other :: 0 <= other < |ended.arena| && other != h ==>
                   ended.arena[other] == last.manager.arena[other]
    decreases |events|
  {
    if events == [] {
      if Enabled(s, Ends(h, true)) {
        forall other: nat | other < |s.manager.arena| && other != h
          ensures NextManager(s, Ends(h, true)).arena[other] == s.manager.arena[other]
        {
          assert !Displaced(s.manager, h, other);
        }
      }
    } else {
      StepKeepsInv(s, events[0]);
      StepSeparatesIff(s, events[0]);
      ServersCloseTheirOwn(Step(s, events[0]), events[1..], last, h);
    }
  }

  // ---------- No session is kept for ever ----------

  /** A server that ended without a timeout left nothing behind in the map. */
  ghost predicate EndedAreForgotten(s: State) {
    forall h :: 0 <= h < |s.manager.arena| && s.manager.arena[h].stage == Sessions.Done(true) ==>
      !Sessions.Registered(s.manager, h)
  }

  lemma StepForgetsEnded(s: State, e: Event)
    requires Inv(s) && Enabled(s, e) && EndedAreForgotten(s)
    ensures EndedAreForgotten(Step(s, e))
  {
    StagesAfter(s, e);
    ManagerStepKeepsInv(s, e);
    var m, next := s.manager, Step(s, e);
    forall h: nat | h < |next.manager.arena| && next.manager.arena[h].stage == Sessions.Done(true)
      ensures !Sessions.Registered(next.manager, h)
    {
      assert h < |m.arena|;
      if e.Takes? && e.h == h {
        Sessions.TakeKeepsSessionInv(m.arena[h]);
        assert !Sessions.Registered(m, h);
      }
      if next.manager.arena[h].id in next.manager.sessions {
        SessionsAfter(s, e, next.manager.arena[h].id);
      }
    }
  }

  lemma {:induction false} RunForgetsEnded(s: State, events: seq<Event>, last: State)
    requires Inv(s) && IsRun(s, events, last) && EndedAreForgotten(s)
    ensures EndedAreForgotten(last)
    decreases |events|
  {
    if events != [] {
      StepKeepsInv(s, events[0]);
      StepForgetsEnded(s, events[0]);
      RunForgetsEnded(Step(s, events[0]), events[1..], last);
    }
  }

  /** Shutting down closes every session in the map, and marks each close as the remote's. */
  lemma ShutdownClosesAll(s: State, h: nat)
    requires Inv(s) && Enabled(s, Shutdown) && h < |s.manager.arena|
    ensures var next := Step(s, Shutdown);
            && next.manager.sessions == map[]
            && next.manager.gauge == |next.manager.overwritten|
            && (Sessions.Registered(s.manager, h) ==>
                  next.manager.arena[h].queue == s.manager.arena[h].queue + [Sessions.ClosedByManager(true)])
            && (next.manager.arena[h].managerCloses == 1 <==> h !in next.manager.overwritten)
  {
    StepKeepsInv(s, Shutdown);
  }

  // ---------- From the events themselves ----------

  /** From a shutdown on, no session is in the map any more, and none is registered. */
  lemma ShutdownIsFinal(s: State, events: seq<Event>, last: State)
    requires Inv(s) && IsRun(s, [Shutdown] + events, last)
    ensures last.manager.sessions == map[] && |last.manager.arena| == |s.manager.arena|
  {
    assert ([Shutdown] + events)[1..] == events;
    StepKeepsInv(s, Shutdown);
    StaysEmpty(Step(s, Shutdown), events, last);
  }

  lemma {:induction false} StaysEmpty(s: State, events: seq<Event>, last: State)
    requires Inv(s) && s.isShutDown && IsRun(s, events, last)
    ensures last.manager.sessions == map[] && |last.manager.arena| == |s.manager.arena|
    decreases |events|
  {
    if events != [] {
      StepKeepsInv(s, events[0]);
      StagesAfter(s, events[0]);
      StaysEmpty(Step(s, events[0]), events[1..], last);
    }
  }

  /** A session that is served, has nothing to read from its queue and is in the map. */
  ghost predicate Idles(s: State, h: nat) {
    Inv(s) && h < |s.manager.arena| && Sessions.Registered(s.manager, h)
    && s.manager.arena[h].stage == Sessions.Serving && s.manager.arena[h].queue == []
  }

  /** The server of a session with one reason in its queue takes it. */
  lemma TakesReason(s: State, h: nat, reason: Sessions.Reason)
    requires Inv(s) && h < |s.manager.arena| && s.manager.arena[h].stage == Sessions.Serving
    requires s.manager.arena[h].queue == [reason]
    ensures Enabled(s, Takes(h)) && s.manager.arena[h].token in s.world.holders
    ensures var last, slot := Step(s, Takes(h)), s.manager.arena[h].token;
            && last.manager.sessions == s.manager.sessions && |last.manager.arena| == |s.manager.arena|
            && last.manager.arena[h].id == s.manager.arena[h].id && last.manager.arena[h].token == slot
            && last.manager.arena[h].queue == [] && last.isShutDown == s.isShutDown
            && if reason == Sessions.ClosedByManager(true)
               then last.manager.arena[h].stage == Sessions.Done(true) && last.world.holders == s.world.holders - {slot}
               else last.manager.arena[h].stage == Sessions.Ending && last.world.holders == s.world.holders
  {
    assert Live(s.manager, h);
    assert s.manager.arena[h].token in s.serving.Keys;
  }

  /** What closing a session by its ID leaves of it. */
  lemma UnregistersSession(m: Sessions.Table, h: nat, byRemote: bool)
    requires Sessions.Inv(m) && h < |m.arena| && Sessions.Registered(m, h)
    ensures var closed := Sessions.AfterUnregister(m, m.arena[h].id, byRemote);
            && closed.sessions == m.sessions - {m.arena[h].id} && |closed.arena| == |m.arena|
            && closed.arena[h].queue == m.arena[h].queue + [Sessions.ClosedByManager(byRemote)]
            && closed.arena[h].stage == m.arena[h].stage
            && closed.arena[h].id == m.arena[h].id && closed.arena[h].token == m.arena[h].token
  {
  }

  /**
   The remote closes a session: its server ends without another word, and the slot is free. Closed by
   anybody else, the server still holds the slot until it has ended.
   */
  lemma CloseReachesServer(s: State, h: nat, byRemote: bool)
    requires Idles(s, h) && !s.isShutDown
    ensures var id, slot := s.manager.arena[h].id, s.manager.arena[h].token;
            var closed := Step(s, Unregister(id, byRemote));
            && Inv(closed) && Enabled(closed, Takes(h))
            && var last := Step(closed, Takes(h));
            && id !in last.manager.sessions
            && last.world.holders == (if byRemote then s.world.holders - {slot} else s.world.holders)
            && last.manager.arena[h].stage == (if byRemote then Sessions.Done(true) else Sessions.Ending)
  {
    var id := s.manager.arena[h].id;
    StepKeepsInv(s, Unregister(id, byRemote));
    UnregistersSession(s.manager, h, byRemote);
    TakesReason(Step(s, Unregister(id, byRemote)), h, Sessions.ClosedByManager(byRemote));
  }

  lemma FailsReading(s: State, h: nat)
    requires Idles(s, h) && !s.isShutDown && s.manager.arena[h].readerCloses == 0
    ensures Enabled(s, ReaderFails(h))
    ensures var failed := Step(s, ReaderFails(h));
            && failed.world == s.world && failed.manager.sessions == s.manager.sessions
            && !failed.isShutDown && |failed.manager.arena| == |s.manager.arena|
            && failed.manager.arena[h].queue == [Sessions.ReaderError]
            && failed.manager.arena[h].stage == Sessions.Serving
            && failed.manager.arena[h].id == s.manager.arena[h].id
            && failed.manager.arena[h].token == s.manager.arena[h].token
  {
  }

  /** A server that is ending tells the manager, which forgets the session, and its slot is free. */
  lemma EndsForGood(s: State, h: nat)
    requires Inv(s) && !s.isShutDown && h < |s.manager.arena| && Sessions.Registered(s.manager, h)
    requires s.manager.arena[h].stage == Sessions.Ending && s.manager.arena[h].queue == []
    ensures Enabled(s, Ends(h, true))
    ensures var last := Step(s, Ends(h, true));
            && s.manager.arena[h].id !in last.manager.sessions && |last.manager.arena| == |s.manager.arena|
            && last.manager.arena[h].stage == Sessions.Done(true)
            && last.manager.arena[h].queue == [Sessions.ClosedByManager(false)]
            && last.world.holders == s.world.holders - {s.manager.arena[h].token}
  {
  }

  /** The origin fails: the server ends, forgets the session at the manager and frees the slot. */
  lemma ReaderFailureEnds(s: State, h: nat)
    requires Idles(s, h) && !s.isShutDown && s.manager.arena[h].readerCloses == 0
    ensures Enabled(s, ReaderFails(h))
    ensures var failed := Step(s, ReaderFails(h));
            && Inv(failed) && Enabled(failed, Takes(h))
            && var taken := Step(failed, Takes(h));
            && Inv(taken) && Enabled(taken, Ends(h, true)) && taken.world.holders == s.world.holders
            && var last := Step(taken, Ends(h, true));
            && s.manager.arena[h].id !in last.manager.sessions && |last.manager.arena| == |s.manager.arena|
            && last.manager.arena[h].stage == Sessions.Done(true)
            && last.world.holders == s.world.holders - {s.manager.arena[h].token}
  {
    StepKeepsInv(s, ReaderFails(h));
    FailsReading(s, h);
    var failed := Step(s, ReaderFails(h));
    TakesReason(failed, h, Sessions.ReaderError);
    StepKeepsInv(failed, Takes(h));
    EndsForGood(Step(failed, Takes(h)), h);
  }

  // ---------- What reusing an ID does ----------

  /**
   When the ID of a registered session is registered again, the session is overwritten: the manager never
   closes it, and when its server gives up it closes the session that took the ID.
   */
  lemma ReusedIDClosesSuccessor(m: Sessions.Table, h: nat, token: nat)
    requires Sessions.Inv(m) && h < |m.arena| && Sessions.Registered(m, h)
    ensures var taken := Sessions.AfterRegister(m, m.arena[h].id, token);
            && Sessions.Indexed(taken)
            && var ended := AfterEnd(taken, h, true);
            && h in ended.overwritten && ended.arena[h].managerCloses == 0
            && ended.arena[|m.arena|].managerCloses == 1
            && m.arena[h].id !in ended.sessions
  {
    Sessions.RegisterKeepsInv(m, m.arena[h].id, token);
  }

  // ---------- A run that closes the successor ----------

  lemma RunCons(s: State, e: Event, events: seq<Event>, last: State)
    requires Inv(s) && Enabled(s, e) && Inv(Step(s, e)) && IsRun(Step(s, e), events, last)
    ensures IsRun(s, [e] + events, last)
  {
    assert ([e] + events)[1..] == events;
  }

  /** Two events, one after the other. */
  ghost predicate Follow(s: State, first: Event, second: Event, next: State) {
    && Inv(s) && Enabled(s, first) && Inv(Step(s, first))
    && Enabled(Step(s, first), second) && Step(Step(s, first), second) == next && Inv(next)
  }

  lemma RunFollows(s: State, first: Event, second: Event, next: State, events: seq<Event>, last: State)
    requires Follow(s, first, second, next) && IsRun(next, events, last)
    ensures IsRun(s, [first, second] + events, last)
  {
    RunCons(Step(s, first), second, events, last);
    RunCons(s, first, [second] + events, last);
    assert [first] + ([second] + events) == [first, second] + events;
  }

  /** One more session: a call takes a slot and registers. */
  lemma RegisterRun(s: State, slot: nat, id: nat) returns (next: State)
    requires Inv(s) && !s.isShutDown && s.world.limits.unlimited && slot !in s.world.holders
    ensures Follow(s, Dial(slot), Register(slot, id), next) && !next.isShutDown && next.world.limits.unlimited
    ensures next.manager == Sessions.AfterRegister(s.manager, id, slot)
    ensures next.world.holders == s.world.holders + {slot}
  {
    StepKeepsInv(s, Dial(slot));
    var dialed := Step(s, Dial(slot));
    StepKeepsInv(dialed, Register(slot, id));
    next := Step(dialed, Register(slot, id));
  }

  lemma EndAfterGivingUp(m: Sessions.Table, h: nat)
    requires Sessions.Indexed(m) && h < |m.arena|
    ensures var ending := Sessions.WithSession(m, h, m.arena[h].(stage := Sessions.Ending));
            Sessions.Indexed(ending) && AfterEnd(ending, h, true) == AfterEnd(m, h, true)
  {
    var ending := Sessions.WithSession(m, h, m.arena[h].(stage := Sessions.Ending));
    var done := m.arena[h].(stage := Sessions.Done(true));
    assert Sessions.WithSession(ending, h, done) == Sessions.WithSession(m, h, done);
  }

  /** A server that gives up and tells the manager. */
  lemma EndRun(s: State, h: nat) returns (next: State)
    requires Inv(s) && !s.isShutDown && h < |s.manager.arena| && s.manager.arena[h].stage == Sessions.Serving
    ensures Follow(s, GivesUp(h), Ends(h, true), next) && next.manager == AfterEnd(s.manager, h, true)
  {
    StepKeepsInv(s, GivesUp(h));
    var ending := Step(s, GivesUp(h));
    StepKeepsInv(ending, Ends(h, true));
    next := Step(ending, Ends(h, true));
    EndAfterGivingUp(s.manager, h);
  }

  /** Two registrations under one ID, and the end of the first server, on a manager that was new. */
  lemma ReuseTable(id: nat)
    ensures var one := Sessions.AfterRegister(Sessions.NewTable(), id, 0);
            var two := Sessions.AfterRegister(one, id, 1);
            && Sessions.Inv(two) && |two.arena| == 2 && two.arena[0].stage == Sessions.Serving
            && var last := AfterEnd(two, 0, true);
            && |last.arena| == 2 && last.overwritten == {0}
            && last.arena[0].managerCloses == 0 && last.arena[1].managerCloses == 1
  {
    Sessions.NewTableInv();
    Sessions.RegisterKeepsInv(Sessions.NewTable(), id, 0);
    Sessions.RegisterKeepsInv(Sessions.AfterRegister(Sessions.NewTable(), id, 0), id, 1);
  }

  /** From a new connection: two sessions under one ID, of which the first never closes and closes the second. */
  lemma ReuseRun(id: nat, limits: Limiter.Limits) returns (events: seq<Event>, last: State)
    requires limits.unlimited
    ensures Inv(Initial(limits, {})) && IsRun(Initial(limits, {}), events, last) && Inv(last)
    ensures |last.manager.arena| == 2 && last.manager.overwritten == {0}
    ensures last.manager.arena[0].managerCloses == 0 && last.manager.arena[1].managerCloses == 1
  {
    var start := Initial(limits, {});
    InitialInv(limits, {});
    ReuseTable(id);
    var one := RegisterRun(start, 0, id);
    var two := RegisterRun(one, 1, id);
    last := EndRun(two, 0);
    var ending := [GivesUp(0), Ends(0, true)] + [];
    var second := [Dial(1), Register(1, id)] + ending;
    events := [Dial(0), Register(0, id)] + second;
    RunFollows(two, GivesUp(0), Ends(0, true), last, [], last);
    RunFollows(one, Dial(1), Register(1, id), two, ending, last);
    RunFollows(start, Dial(0), Register(0, id), one, second, last);
  }

  // ---------- The object ----------

  class Connection {
    const flowLimiter: Limiter.FlowLimiter
    const sessionManager: Sessions.Manager

    constructor (limit: nat)
      ensures fresh(flowLimiter) && fresh(sessionManager)
      ensures flowLimiter.View() == Limiter.NewLimits(limit) && sessionManager.View() == Sessions.NewTable()
      ensures Sessions.Inv(sessionManager.View())
    {
      flowLimiter := new Limiter.FlowLimiter(limit);
      sessionManager := new Sessions.Manager();
    }

    /**
     Registration: `ipParses`, `dials` and `accepted` say whether the address is one, the dial succeeds and
     the manager takes the session in time. Every exit with an error gives the slot back.
     */
    method RegisterUdpSession(id: nat, token: nat, ipParses: bool, dials: bool, accepted: bool)
      returns (session: Option<nat>)
      requires Sessions.Inv(sessionManager.View())
      modifies flowLimiter, sessionManager
      ensures Sessions.Inv(sessionManager.View())
      ensures session.Some? <==> !old(flowLimiter.View()).Full() && ipParses && dials && accepted
      ensures session.Some? ==>
        && flowLimiter.View() == old(flowLimiter.View()).Acquired()
        && sessionManager.View() == Sessions.AfterRegister(old(sessionManager.View()), id, token)
        && session.value == old(|sessionManager.arena|)
      ensures session.None? ==> sessionManager.View() == old(sessionManager.View())
      ensures session.None?
              && (old(flowLimiter.View()).Full() || old(flowLimiter.activeFlowsCounter) + 1 < Limiter.TWO_TO_64)
              ==> flowLimiter.View() == old(flowLimiter.View())
    {
      var acquired := flowLimiter.Acquire();
      if !acquired {
        return None;
      }
      if !ipParses {
        flowLimiter.Release();
        return None;
      }
      if !dials {
        flowLimiter.Release();
        return None;
      }
      if !accepted {
        flowLimiter.Release();
        return None;
      }
      var h := sessionManager.RegisterSession(id, token);
      return Some(h);
    }

    /**
     The end of the goroutine that serves session `h`: unless the remote closed it, the manager is told, if
     it listens in time; and the slot is given back.
     */
    method FinishServing(h: nat, closedByRemote: bool, inTime: bool)
      requires Sessions.Inv(sessionManager.View()) && h < |sessionManager.arena|
      modifies flowLimiter, sessionManager
      ensures Sessions.Inv(sessionManager.View())
      ensures flowLimiter.View() == old(flowLimiter.View()).Released()
      ensures sessionManager.View() ==
        if closedByRemote then Sessions.WithSession(
          old(sessionManager.View()), h, old(sessionManager.arena[h]).(stage := Sessions.Done(true)))
        else AfterEnd(old(sessionManager.View()), h, inTime)
    {
      var ended := sessionManager.arena[h].(stage := Sessions.Done(closedByRemote || inTime));
      Sessions.SessionStepKeepsInv(sessionManager.View(), h, ended);
      sessionManager.arena := sessionManager.arena[h := ended];
      if !closedByRemote && inTime {
        sessionManager.UnregisterSession(ended.id, false);
      }
      flowLimiter.Release();
    }
  }
}
