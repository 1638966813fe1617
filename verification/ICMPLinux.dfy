/**
 The ICMP proxy for Linux (ingress/icmp_linux.go): every flow has a socket of its own, whose port is the
 echo ID it sends, and a listener that unregisters the flow when reading from the socket ends.

 A listener can outlive its flow: the funnel may have been replaced or cleaned up before the listener gets
 round to unregistering it.
 */
module ICMPLinux {
  import opened Wrappers
  import EchoID
  import Funnels

  type FlowKey = EchoID.FlowKey

  type Tracker = Funnels.Tracker<FlowKey>

  datatype State = State(tracker: Tracker, listeners: set<nat>)

  function Initial(): State {
    State(Funnels.Tracker(map[], []), {})
  }

  /** `port` is that of the new socket, if one can be opened. */
  datatype Event =
    | Request(key: FlowKey, port: Option<nat>, responder: nat, now: int)
    | ListenerEnds(h: nat)
    | Cleanup(now: int, timeout: int)
    | Reply(h: nat, now: int)

  ghost predicate Enabled(s: State, e: Event) {
    match e
    case ListenerEnds(h) => h in s.listeners
    case Reply(h, now) => h in s.listeners
    case _ => true
  }

  /** Every flow that was not closed still has its listener. */
  ghost predicate Inv(s: State) {
    && s.tracker.Inv()
    && (forall h :: h in s.listeners ==> h < |s.tracker.flows|)
    && (forall h :: 0 <= h < |s.tracker.flows| && s.tracker.flows[h].closes == 0 ==> h in s.listeners)
    && (forall h :: 0 <= h < |s.tracker.flows| ==> s.tracker.flows[h].key == s.tracker.flows[h].id)
  }

  function FlowFor(key: FlowKey, port: Option<nat>, responder: nat, now: int): Funnels.Flow<FlowKey> {
    Funnels.NewFlow(key, key, if port.Some? then port.value else 0, responder, now)
  }

  predicate Opens(s: State, e: Event)
    requires e.Request? ==> e.key in s.tracker.funnels ==> s.tracker.funnels[e.key] < |s.tracker.flows|
  {
    e.Request? && e.port.Some? && !Funnels.Reuses(s.tracker, e.key, e.responder)
  }

  ghost function AfterRequest(s: State, key: FlowKey, port: Option<nat>, responder: nat, now: int): State
    requires Inv(s)
  {
    var flow := FlowFor(key, port, responder, now);
    Funnels.RegisterKeepsInv(s.tracker, flow, port.Some?);
    var registered := Funnels.AfterGetOrRegister(s.tracker, flow, port.Some?);
    if key !in registered.funnels then s.(tracker := registered)
    else
      var h := registered.funnels[key];
      State(
        Funnels.Touch(registered, h, now),
        if Opens(s, Request(key, port, responder, now)) then s.listeners + {h} else s.listeners)
  }

  ghost function Step(s: State, e: Event): State
    requires Inv(s) && Enabled(s, e)
  {
    match e
    case Request(key, port, responder, now) => AfterRequest(s, key, port, responder, now)
    case ListenerEnds(h) =>
      State(Funnels.AfterUnregister(s.tracker, s.tracker.flows[h].id, h), s.listeners - {h})
    case Cleanup(now, timeout) => s.(tracker := Funnels.AfterCleanup(s.tracker, now, timeout))
    case Reply(h, now) => s.(tracker := Funnels.Touch(s.tracker, h, now))
  }

  lemma RequestKeepsInv(s: State, key: FlowKey, port: Option<nat>, responder: nat, now: int)
    requires Inv(s)
    ensures Inv(AfterRequest(s, key, port, responder, now))
  {
    var flow := FlowFor(key, port, responder, now);
    Funnels.RegisterKeepsInv(s.tracker, flow, port.Some?);
    var registered := Funnels.AfterGetOrRegister(s.tracker, flow, port.Some?);
    if key in registered.funnels {
      Funnels.TouchKeepsInv(registered, registered.funnels[key], now);
    }
  }

  /** When a listener ends, its own flow is closed, if it was not before. */
  lemma ListenerClosesItsFlow(s: State, h: nat)
    requires Inv(s) && h in s.listeners
    ensures Step(s, ListenerEnds(h)).tracker.flows[h].closes == 1
  {
    if s.tracker.Registered(h) {
      assert s.tracker.funnels[s.tracker.flows[h].id] == h;
    }
  }

  lemma StepKeepsInv(s: State, e: Event)
    requires Inv(s) && Enabled(s, e)
    ensures Inv(Step(s, e))
  {
    match e
    case Request(key, port, responder, now) => RequestKeepsInv(s, key, port, responder, now);
    case ListenerEnds(h) =>
      ListenerClosesItsFlow(s, h);
      if s.tracker.flows[h].id in s.tracker.funnels {
        Funnels.EvictKeepsInv(s.tracker, s.tracker.flows[h].id);
      }
    case Cleanup(now, timeout) => Funnels.CleanupKeepsInv(s.tracker, now, timeout);
    case Reply(h, now) => Funnels.TouchKeepsInv(s.tracker, h, now);
  }

  // ---------- Whose flow a listener closes ----------

  /** A listener that is not the current flow's, for the same key and on the same port. */
  ghost predicate Lingers(s: State, h: nat, other: nat)
    requires Inv(s)
  {
    && h in s.listeners && h != other && other < |s.tracker.flows|
    && s.tracker.Holds(s.tracker.flows[h].id, other)
    && s.tracker.flows[h].assignedEchoID == s.tracker.flows[other].assignedEchoID
  }

  /** A listener closes a flow that is not its own exactly when that one took over its key and its port. */
  lemma ClosesAnotherIff(s: State, h: nat, other: nat)
    requires Inv(s) && h in s.listeners && other < |s.tracker.flows| && other != h
    ensures Step(s, ListenerEnds(h)).tracker.flows[other].closes > s.tracker.flows[other].closes
       <==> Lingers(s, h, other)
  {
    var id := s.tracker.flows[h].id;
    if id in s.tracker.funnels {
      var current := s.tracker.funnels[id];
      assert s.tracker.flows[current].key == s.tracker.flows[h].key;
    }
  }

  /** No listener is left over from a closed flow whose port the current flow of its key has. */
  ghost predicate Separated(s: State)
    requires Inv(s)
  {
    forall h: nat, other: nat :: !Lingers(s, h, other)
  }

  /** A socket opened on the port of an earlier flow of the same key, whose listener has not ended. */
  ghost predicate ReusesPort(s: State, e: Event)
    requires Inv(s)
  {
    Opens(s, e) &&
    exists h :: h in s.listeners && s.tracker.flows[h].id == e.key && s.tracker.flows[h].assignedEchoID == e.port.value
  }

  /** What a request leaves of the flows that existed, and the flow it adds, if it opens a socket. */
  lemma RequestFlows(s: State, e: Event)
    requires Inv(s) && e.Request?
    ensures var next := Step(s, e);
            && |next.tracker.flows| == |s.tracker.flows| + (if Opens(s, e) then 1 else 0)
            && next.listeners == (if Opens(s, e) then s.listeners + {|s.tracker.flows|} else s.listeners)
            && (forall h :: 0 <= h < |s.tracker.flows| ==>
                  && next.tracker.flows[h].id == s.tracker.flows[h].id
                  && next.tracker.flows[h].assignedEchoID == s.tracker.flows[h].assignedEchoID)
            && (Opens(s, e) ==>
                  && next.tracker.flows[|s.tracker.flows|].id == e.key
                  && next.tracker.flows[|s.tracker.flows|].assignedEchoID == e.port.value)
            && (forall id, h :: next.tracker.Holds(id, h) <==>
                  if id != e.key then s.tracker.Holds(id, h)
                  else if Opens(s, e) then h == |s.tracker.flows|
                  else s.tracker.Holds(id, h) && Funnels.Reuses(s.tracker, e.key, e.responder))
  {
    Funnels.RegisterKeepsInv(s.tracker, FlowFor(e.key, e.port, e.responder, e.now), e.port.Some?);
  }

  lemma RequestSeparates(s: State, e: Event)
    requires Inv(s) && Separated(s) && e.Request? && Inv(Step(s, e))
    ensures Separated(Step(s, e)) <==> !ReusesPort(s, e)
  {
    RequestFlows(s, e);
    var next := Step(s, e);
    var n := |s.tracker.flows|;
    if ReusesPort(s, e) {
      var h :| h in s.listeners && s.tracker.flows[h].id == e.key && s.tracker.flows[h].assignedEchoID == e.port.value;
      assert next.tracker.Holds(e.key, n);
      assert Lingers(next, h, n);
    } else {
      forall h: nat, other: nat
        ensures !Lingers(next, h, other)
      {
        if Lingers(next, h, other) {
          assert next.tracker.Holds(next.tracker.flows[h].id, other);
          if h < n && other < n {
            assert Lingers(s, h, other);
          }
        }
      }
    }
  }

  /** A step lets a listener threaten another flow exactly when it reuses a port in the sense above. */
  lemma StepSeparatesIff(s: State, e: Event)
    requires Inv(s) && Enabled(s, e) && Separated(s)
    ensures Inv(Step(s, e))
    ensures Separated(Step(s, e)) <==> !ReusesPort(s, e)
  {
    StepKeepsInv(s, e);
    if e.Request? {
      RequestSeparates(s, e);
    } else {
      var next := Step(s, e);
      forall h: nat, other: nat
        ensures !Lingers(next, h, other)
      {
        if Lingers(next, h, other) {
          assert Lingers(s, h, other);
        }
      }
    }
  }

  // ---------- Runs ----------

  ghost predicate IsRun(s: State, events: seq<Event>, last: State)
    requires Inv(s)
    decreases |events|
  {
    if events == [] then last == s
    else Enabled(s, events[0]) && (StepKeepsInv(s, events[0]); IsRun(Step(s, events[0]), events[1..], last))
  }

  ghost predicate NeverReuses(s: State, events: seq<Event>)
    requires Inv(s)
    decreases |events|
  {
    events == []
    || (Enabled(s, events[0]) && !ReusesPort(s, events[0])
        && (StepKeepsInv(s, events[0]); NeverReuses(Step(s, events[0]), events[1..])))
  }

  /** Over every run no flow is leaked: an open flow has its listener, and a closed one was closed once. */
  lemma {:induction false} RunKeepsInv(s: State, events: seq<Event>, last: State)
    requires Inv(s) && IsRun(s, events, last)
    ensures Inv(last)
    decreases |events|
  {
    if events != [] {
      StepKeepsInv(s, events[0]);
      RunKeepsInv(Step(s, events[0]), events[1..], last);
    }
  }

  /**
   On a run that never gives a new flow the port of a lingering listener of its key, a listener that ends
   closes no flow but its own.
   */
  lemma {:induction false} ListenersCloseTheirOwn(s: State, events: seq<Event>, last: State, h: nat)
    requires Inv(s) && Separated(s) && IsRun(s, events, last) && NeverReuses(s, events)
    ensures Inv(last) && Separated(last)
    ensures h in last.listeners ==>
              var ended := Step(last, ListenerEnds(h));
              forall other :: 0 <= other < |last.tracker.flows| && other != h ==>
                ended.tracker.flows[other] == last.tracker.flows[other]
    decreases |events|
  {
    if events == [] {
      if h in s.listeners {
        forall other | 0 <= other < |s.tracker.flows| && other != h
          ensures Step(s, ListenerEnds(h)).tracker.flows[other] == s.tracker.flows[other]
        {
          ClosesAnotherIff(s, h, other);
        }
      }
    } else {
      StepSeparatesIff(s, events[0]);
      ListenersCloseTheirOwn(Step(s, events[0]), events[1..], last, h);
    }
  }

  /**
   With a port reused: the first flow of a key is replaced because its requests now come over another
   connection, its port goes to the new flow, and the old listener then closes that new flow.
   */
  lemma LingeringListenerClosesReplacement(key: FlowKey, port: nat) returns (events: seq<Event>, last: State)
    ensures Inv(Initial()) && IsRun(Initial(), events, last)
    ensures Inv(last) && 0 in last.listeners && |last.tracker.flows| == 2
    ensures last.tracker.Registered(1) && !last.tracker.Registered(0)
    ensures Step(last, ListenerEnds(0)).tracker.flows[1].closes == 1
  {
    var s0 := Initial();
    var first, second := Request(key, Some(port), 0, 0), Request(key, Some(port), 1, 0);
    var s1 := Step(s0, first);
    StepKeepsInv(s0, first);
    RequestFlows(s0, first);
    assert s1.tracker.Holds(key, 0) && s1.tracker.flows[0].responder == 0;
    last := Step(s1, second);
    StepKeepsInv(s1, second);
    RequestFlows(s1, second);
    assert last.tracker.Holds(key, 1);
    events := [first, second];
    assert IsRun(s1, [second], last);
    assert events[1..] == [second];
    assert Lingers(last, 0, 1);
    ClosesAnotherIff(last, 0, 1);
  }

  // ---------- What counts as activity ----------

  /** A request that goes out keeps its flow for a whole timeout. */
  lemma RequestIsActivity(s: State, key: FlowKey, port: Option<nat>, responder: nat, now: int)
    requires Inv(s)
    ensures var next := Step(s, Request(key, port, responder, now));
            key in next.tracker.funnels ==>
              next.tracker.Inv() && Funnels.CleanupDecides(next.tracker, next.tracker.funnels[key], now)
  {
    var flow := FlowFor(key, port, responder, now);
    Funnels.RegisterKeepsInv(s.tracker, flow, port.Some?);
    var registered := Funnels.AfterGetOrRegister(s.tracker, flow, port.Some?);
    if key in registered.funnels {
      Funnels.TouchIsActivity(registered, registered.funnels[key], now);
    }
  }

  /** And so does a reply that its listener brings back. */
  lemma ReplyIsActivity(s: State, h: nat, now: int)
    requires Inv(s) && Enabled(s, Reply(h, now)) && s.tracker.Registered(h)
    ensures var next := Step(s, Reply(h, now));
            next.tracker.Inv() && h < |next.tracker.flows| && Funnels.CleanupDecides(next.tracker, h, now)
  {
    Funnels.TouchIsActivity(s.tracker, h, now);
  }

  // ---------- The object ----------

  class ICMPProxy {
    const srcFunnelTracker: Funnels.FunnelTracker<FlowKey>
    ghost var listeners: set<nat>

    ghost function View(): State
      reads this, srcFunnelTracker
    {
      State(srcFunnelTracker.View(), listeners)
    }

    constructor ()
      ensures View() == Initial() && Inv(View()) && fresh(srcFunnelTracker)
    {
      srcFunnelTracker := new Funnels.FunnelTracker<FlowKey>();
      listeners := {};
    }

    /** `port` is that of the socket the constructor function opens, if it can. */
    method Request(src: nat, dst: nat, echo: Option<int>, port: Option<nat>, responder: nat, now: int)
      returns (sent: bool, isNew: bool)
      requires Inv(View())
      modifies this, srcFunnelTracker
      ensures Inv(View())
      ensures View() == if echo.None? then old(View())
                        else AfterRequest(old(View()), EchoID.FlowKey(src, dst, echo.value), port, responder, now)
      ensures sent <==> echo.Some? && EchoID.FlowKey(src, dst, echo.value) in srcFunnelTracker.funnels
      ensures isNew <==> listeners != old(listeners)
    {
      if echo.None? {
        return false, false;
      }
      var key := EchoID.FlowKey(src, dst, echo.value);
      ghost var start := View();
      RequestKeepsInv(start, key, port, responder, now);
      var flow := FlowFor(key, port, responder, now);
      var h, created, failed := srcFunnelTracker.GetOrRegister(flow, port.Some?);
      if failed {
        return false, false;
      }
      if created {
        listeners := listeners + {h};
      }
      srcFunnelTracker.UpdateLastActive(h, now);
      return true, created;
    }

    /** The end of a listener. */
    method ListenerDone(h: nat)
      requires Inv(View()) && h in listeners
      modifies this, srcFunnelTracker
      ensures Inv(View()) && View() == Step(old(View()), ListenerEnds(h))
    {
      StepKeepsInv(View(), ListenerEnds(h));
      var deleted := srcFunnelTracker.Unregister(srcFunnelTracker.flows[h].id, h);
      listeners := listeners - {h};
    }
  }
}
