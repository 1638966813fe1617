/**
 The hot-swappable flow limiter (flow/limiter.go) and its holders.

 The counter and the limit are 64-bit unsigned. A holder is a flow that acquired a slot and has not yet
 released it; `World` pairs the limiter with the set of holders.
 */
module Limiter {
  const TWO_TO_64 := 0x1_0000_0000_0000_0000
  const UNLIMITED_ACTIVE_FLOWS := 0

  datatype Limits = Limits(counter: nat, maxActiveFlows: nat, unlimited: bool) {
    predicate Full() {
      !unlimited && counter >= maxActiveFlows
    }

    function Acquired(): Limits {
      if Full() then this else this.(counter := (counter + 1) % TWO_TO_64)
    }

    function Released(): Limits {
      if counter <= 0 then this else this.(counter := counter - 1)
    }

    function WithLimit(limit: nat): Limits {
      this.(maxActiveFlows := limit, unlimited := limit == UNLIMITED_ACTIVE_FLOWS)
    }
  }

  function NewLimits(limit: nat): Limits {
    Limits(0, limit, limit == UNLIMITED_ACTIVE_FLOWS)
  }

  class FlowLimiter {
    var activeFlowsCounter: nat
    var maxActiveFlows: nat
    var unlimited: bool

    function View(): Limits
      reads this
    {
      Limits(activeFlowsCounter, maxActiveFlows, unlimited)
    }

    constructor (limit: nat)
      ensures View() == NewLimits(limit)
    {
      activeFlowsCounter, maxActiveFlows, unlimited := 0, limit, limit == UNLIMITED_ACTIVE_FLOWS;
    }

    method Acquire() returns (ok: bool)
      modifies this
      ensures View() == old(View()).Acquired()
      ensures ok <==> !old(View()).Full()
    {
      if !unlimited && activeFlowsCounter >= maxActiveFlows {
        return false;
      }
      activeFlowsCounter := (activeFlowsCounter + 1) % TWO_TO_64;
      return true;
    }

    method Release()
      modifies this
      ensures View() == old(View()).Released()
    {
      if activeFlowsCounter <= 0 {
        return;
      }
      activeFlowsCounter := activeFlowsCounter - 1;
    }

    method SetLimit(limit: nat)
      modifies this
      ensures View() == old(View()).WithLimit(limit)
    {
      maxActiveFlows := limit;
      unlimited := limit == UNLIMITED_ACTIVE_FLOWS;
    }

    /**
     `ProxyTCP`: the deferred release runs on every exit after the slot was taken. `destParses` and
     `streamOk` are what parsing the destination and proxying the stream yield.
     */
    method ProxyTCP(destParses: bool, streamOk: bool) returns (ok: bool)
      modifies this
      ensures old(View()).Full() || old(activeFlowsCounter) + 1 < TWO_TO_64 ==> View() == old(View())
      ensures ok <==> !old(View()).Full() && destParses && streamOk
    {
      var acquired := Acquire();
      if !acquired {
        return false;
      }
      ok := destParses && streamOk;
      Release();
    }
  }

  // ---------- Runs of holders ----------

  datatype World = World(limits: Limits, holders: set<nat>)

  datatype Event =
    | Acquire(holder: nat)
    | Release(holder: nat)
    | SetLimit(limit: nat)

  /** A holder is new when it acquires, and releases only what it holds. */
  predicate Enabled(w: World, e: Event) {
    match e
    case Acquire(holder) => holder !in w.holders
    case Release(holder) => holder in w.holders
    case SetLimit(limit) => true
  }

  function Step(w: World, e: Event): World {
    match e
    case Acquire(holder) =>
      World(w.limits.Acquired(), if w.limits.Full() then w.holders else w.holders + {holder})
    case Release(holder) => World(w.limits.Released(), w.holders - {holder})
    case SetLimit(limit) => World(w.limits.WithLimit(limit), w.holders)
  }

  predicate IsRun(w: World, events: seq<Event>)
    decreases |events|
  {
    events == [] || (Enabled(w, events[0]) && IsRun(Step(w, events[0]), events[1..]))
  }

  function After(w: World, events: seq<Event>): World
    decreases |events|
  {
    if events == [] then w else After(Step(w, events[0]), events[1..])
  }

  predicate Counts(w: World) {
    w.limits.counter == |w.holders|
  }

  lemma StepCounts(w: World, e: Event)
    requires Counts(w) && Enabled(w, e) && |w.holders| + 1 < TWO_TO_64
    ensures Counts(Step(w, e)) && |Step(w, e).holders| <= |w.holders| + 1
    ensures e.Release? ==> w.limits.counter > 0 && Step(w, e).limits.counter == w.limits.counter - 1
  {
    if e.Release? {
      assert w.holders == (w.holders - {e.holder}) + {e.holder};
    }
  }

  /**
   Over any run that is too short to wrap a 64-bit counter, the counter is the number of live holders,
   and a release never meets the underflow guard.
   */
  lemma {:induction false} RunCounts(w: World, events: seq<Event>)
    requires Counts(w) && IsRun(w, events) && |w.holders| + |events| < TWO_TO_64
    ensures Counts(After(w, events))
    ensures |After(w, events).holders| <= |w.holders| + |events|
    ensures forall k :: 0 <= k < |events| && events[k].Release? ==>
              After(w, events[..k]).limits.counter > 0
    decreases |events|
  {
    if events != [] {
      StepCounts(w, events[0]);
      var next := Step(w, events[0]);
      RunCounts(next, events[1..]);
      forall k | 0 <= k < |events| && events[k].Release?
        ensures After(w, events[..k]).limits.counter > 0
      {
        if k > 0 {
          assert events[1..][k - 1].Release?;
          assert events[..k][1..] == events[1..][..k - 1];
        }
      }
    }
  }

  /**
   After a limit is set, the holders never exceed the larger of that limit and the number already in
   flight, until the limit changes again; a flow is refused exactly at the limit.
   */
  lemma {:induction false} LimitHolds(w: World, limit: nat, events: seq<Event>)
    requires Counts(w) && limit > 0 && w.limits.maxActiveFlows == limit && !w.limits.unlimited
    requires IsRun(w, events) && |w.holders| + |events| < TWO_TO_64
    requires forall e :: e in events ==> !e.SetLimit?
    ensures var last := After(w, events);
            && |last.holders| <= (if |w.holders| > limit then |w.holders| else limit)
            && last.limits.maxActiveFlows == limit && !last.limits.unlimited
            && (last.limits.Full() <==> |last.holders| >= limit)
    decreases |events|
  {
    RunCounts(w, events);
    if events != [] {
      assert events[0] in events;
      StepCounts(w, events[0]);
      LimitHolds(Step(w, events[0]), limit, events[1..]);
    }
  }

  /** An unlimited limiter refuses nobody. */
  lemma {:induction false} UnlimitedNeverRefuses(w: World, events: seq<Event>)
    requires w.limits.unlimited && forall e :: e in events ==> !e.SetLimit?
    ensures !After(w, events).limits.Full()
    decreases |events|
  {
    if events != [] {
      assert events[0] in events;
      UnlimitedNeverRefuses(Step(w, events[0]), events[1..]);
    }
  }

  // ---------- What a limit means, from the moment it is set ----------

  predicate ChangesNoLimit(events: seq<Event>) {
    forall e :: e in events ==> !e.SetLimit?
  }

  lemma AfterFirst(w: World, e: Event, events: seq<Event>)
    ensures After(w, [e] + events) == After(Step(w, e), events)
    ensures IsRun(w, [e] + events) <==> Enabled(w, e) && IsRun(Step(w, e), events)
  {
    assert ([e] + events)[1..] == events;
  }

  /** From the moment the limit is set to zero, whatever it was before, every flow is let in. */
  lemma ZeroAdmitsAll(w: World, events: seq<Event>, holder: nat)
    requires ChangesNoLimit(events)
    ensures var last := After(w, [SetLimit(0)] + events);
            Step(last, Acquire(holder)).holders == last.holders + {holder}
  {
    AfterFirst(w, SetLimit(0), events);
    UnlimitedNeverRefuses(Step(w, SetLimit(0)), events);
  }

  /**
   From the moment the limit is set to another number, whatever it was before, there are never more flows
   than that, unless they were there already, and a new one is let in exactly while there are fewer.
   */
  lemma LimitAdmitsBelow(w: World, limit: nat, events: seq<Event>, holder: nat)
    requires Counts(w) && limit > 0 && ChangesNoLimit(events)
    requires IsRun(w, [SetLimit(limit)] + events) && |w.holders| + |events| < TWO_TO_64
    ensures var last := After(w, [SetLimit(limit)] + events);
            && |last.holders| <= (if |w.holders| > limit then |w.holders| else limit)
            && Step(last, Acquire(holder)).holders ==
                 if |last.holders| < limit then last.holders + {holder} else last.holders
  {
    AfterFirst(w, SetLimit(limit), events);
    LimitHolds(Step(w, SetLimit(limit)), limit, events);
  }

  /** The same for the limit that a limiter is made with. */
  lemma NewLimiterAdmits(limit: nat, events: seq<Event>, holder: nat)
    requires ChangesNoLimit(events) && IsRun(World(NewLimits(limit), {}), events) && |events| < TWO_TO_64
    ensures var last := After(World(NewLimits(limit), {}), events);
            && (limit > 0 ==> |last.holders| <= limit)
            && Step(last, Acquire(holder)).holders ==
                 if limit == 0 || |last.holders| < limit then last.holders + {holder} else last.holders
  {
    var w := World(NewLimits(limit), {});
    if limit == 0 {
      UnlimitedNeverRefuses(w, events);
    } else {
      LimitHolds(w, limit, events);
    }
  }
}
