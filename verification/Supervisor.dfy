/**
 The supervisor's run loop (supervisor/supervisor.go).

 `State` holds the loop's variables together with what the loop cannot see: which tunnel goroutines
 are in flight (started, and their error not yet received over the unbuffered channel) and which
 indices have been given up. An `Event` is one choice of the loop's `select`, with the values it
 receives, or one move of the environment. Where Go iterates over a map, the event carries the key that
 the iteration yields first.
 */
module Supervisor {
  import opened Wrappers
  import Backoff

  const TUNNEL_RETRY_DURATION := 10_000_000_000

  /** `Crashed` stands for the panic of a random draw whose bound has overflowed. */
  datatype Phase = Looping | Draining | Returned | Crashed

  datatype ErrorKind = Graceful | Reconnect | Failure

  // ---------- The signals of connecting tunnels ----------

  /** `tunnelsConnecting`, the entry of it that the loop selects on, and the next unused channel. */
  datatype Signals = Signals(
    connecting: map<nat, nat>,
    nextIndex: nat,
    nextSignal: Option<nat>,
    nextChannel: nat)
  {
    /** The selected signal is set exactly while something connects, and is one of the entries. */
    predicate Agree() {
      && (nextSignal.Some? <==> connecting.Keys != {})
      && (nextSignal.Some? ==> nextIndex in connecting && connecting[nextIndex] == nextSignal.value)
    }

    function NewConnectedTunnelSignal(index: nat): Signals {
      Signals(connecting[index := nextChannel], index, Some(nextChannel), nextChannel + 1)
    }

    /** The map iteration in `waitForNextTunnel` can yield `pick` first. */
    predicate CanPick(index: nat, pick: nat) {
      connecting.Keys - {index} == {} || (pick in connecting && pick != index)
    }

    function WaitForNextTunnel(index: nat, pick: nat): Signals
      requires CanPick(index, pick)
    {
      if connecting.Keys - {index} == {} then
        this.(connecting := connecting - {index}, nextSignal := None)
      else
        this.(connecting := connecting - {index}, nextIndex := pick, nextSignal := Some(connecting[pick]))
    }
  }

  lemma NewSignalAgrees(g: Signals, index: nat)
    ensures var t := g.NewConnectedTunnelSignal(index);
            t.Agree() && t.connecting.Keys == g.connecting.Keys + {index}
  {
  }

  lemma WaitAgrees(g: Signals, index: nat, pick: nat)
    requires g.CanPick(index, pick)
    ensures var t := g.WaitForNextTunnel(index, pick);
            t.Agree() && t.connecting.Keys == g.connecting.Keys - {index}
  {
    var t := g.WaitForNextTunnel(index, pick);
    assert t.connecting.Keys == g.connecting.Keys - {index};
    if g.connecting.Keys - {index} != {} {
      assert pick in t.connecting.Keys;
    }
  }

  // ---------- The state ----------

  datatype State = State(
    haConnections: nat,
    inFlight: multiset<nat>,
    retired: multiset<nat>,
    waiting: seq<nat>,
    active: int,
    timerArmed: bool,
    backoff: Backoff.Handler,
    fallbacks: seq<Backoff.Handler>,
    signals: Signals,
    notified: set<nat>,
    shuttingDown: bool,
    cancelled: bool,
    phase: Phase)

  datatype Event =
    | TunnelError(index: nat, kind: ErrorKind, now: int, pick: nat)
    | TimerFires
    | NextConnected(now: int, wait: int, pick: nat)
    | GracefulShutdown
    | ContextDone
    | DrainReceive(index: nat)
    // The environment: a tunnel registers, the context is cancelled, a goroutine uses its own backoff.
    | Notify(channel: nat)
    | Cancel
    | FallbackMoves(index: nat, handler: Backoff.Handler)

  function StartOne(s: State, index: nat): State {
    s.(signals := s.signals.NewConnectedTunnelSignal(index), inFlight := s.inFlight + multiset{index})
  }

  function SignalAll(g: Signals, indices: seq<nat>): Signals {
    if indices == [] then g
    else SignalAll(g, indices[..|indices| - 1]).NewConnectedTunnelSignal(indices[|indices| - 1])
  }

  /** All of `indices` started, in order. */
  function StartAll(s: State, indices: seq<nat>): State {
    s.(signals := SignalAll(s.signals, indices), inFlight := s.inFlight + multiset(indices))
  }

  // ---------- One event ----------

  /** The tunnel that has connected was the last to do so, and none is waiting. */
  predicate Settles(s: State, pick: nat)
    requires s.signals.CanPick(s.signals.nextIndex, pick)
  {
    s.signals.WaitForNextTunnel(s.signals.nextIndex, pick).nextSignal.None? && s.waiting == []
  }

  /** The wait of a grace period is drawn below the bound it has then. */
  predicate Enabled(s: State, e: Event) {
    match e
    case TunnelError(index, kind, now, pick) =>
      s.phase.Looping? && index in s.inFlight && index < |s.fallbacks| && s.signals.CanPick(index, pick)
    case TimerFires =>
      s.phase.Looping? && s.timerArmed
    case NextConnected(now, wait, pick) =>
      s.phase.Looping? && s.signals.nextSignal.Some? && s.signals.nextSignal.value in s.notified
      && s.signals.CanPick(s.signals.nextIndex, pick)
      && (Settles(s, pick) && s.backoff.GraceBound() > 0 ==> 0 <= wait < s.backoff.GraceBound())
    case GracefulShutdown => s.phase.Looping?
    case ContextDone => s.phase.Looping? && s.cancelled
    case DrainReceive(index) => s.phase.Draining? && s.active > 0 && index in s.inFlight
    case Notify(channel) => channel < s.signals.nextChannel
    case Cancel => true
    case FallbackMoves(index, handler) => index < |s.fallbacks| && handler.retryForever
  }

  function Received(s: State, index: nat): State {
    s.(inFlight := s.inFlight - multiset{index}, active := s.active - 1)
  }

  function Retire(s: State, index: nat): State {
    s.(retired := s.retired + multiset{index})
  }

  function Line(s: State, index: nat, pick: nat): State
    requires s.signals.CanPick(index, pick)
  {
    s.(waiting := s.waiting + [index], signals := s.signals.WaitForNextTunnel(index, pick))
  }

  function Arm(s: State, now: int): State {
    var bound := s.backoff.TimerBound(now);
    if bound.Some? && bound.value <= 0 then s.(backoff := s.backoff.AfterTimer(now), phase := Crashed)
    else s.(timerArmed := bound.Some?, backoff := s.backoff.AfterTimer(now))
  }

  /** The failed tunnel queues behind the backoff timer, which is armed if it is not yet. */
  function Queue(s: State, index: nat, now: int, pick: nat): State
    requires s.signals.CanPick(index, pick)
  {
    var t := Line(s, index, pick);
    if t.timerArmed then t else Arm(t, now)
  }

  function AfterTunnelError(s: State, index: nat, kind: ErrorKind, now: int, pick: nat): State
    requires Enabled(s, TunnelError(index, kind, now, pick))
  {
    var t := Received(s, index);
    if kind != Graceful && !t.shuttingDown then
      if kind == Reconnect then
        StartOne(t, index).(active := t.active + 1)
      else if t.fallbacks[index].GetMaxBackoffDuration(t.cancelled, now).None? then
        Retire(t, index)
      else
        Queue(t, index, now, pick)
    else if t.active == 0 then
      Retire(t, index).(phase := Returned)
    else
      Retire(t, index)
  }

  function AfterTimer(s: State): State {
    StartAll(s.(timerArmed := false), s.waiting).(active := s.active + |s.waiting|, waiting := [])
  }

  function AfterNextConnected(s: State, now: int, wait: int, pick: nat): State
    requires Enabled(s, NextConnected(now, wait, pick))
  {
    var t := s.(signals := s.signals.WaitForNextTunnel(s.signals.nextIndex, pick));
    if !Settles(s, pick) then t
    else if t.backoff.GraceBound() <= 0 then t.(phase := Crashed)
    else t.(backoff := t.backoff.AfterGrace(now, wait))
  }

  function Quiesce(s: State): State {
    s.(phase := if s.active > 0 then Draining else Returned)
  }

  function Step(s: State, e: Event): State
    requires Enabled(s, e)
  {
    match e
    case TunnelError(index, kind, now, pick) => AfterTunnelError(s, index, kind, now, pick)
    case TimerFires => AfterTimer(s)
    case NextConnected(now, wait, pick) => AfterNextConnected(s, now, wait, pick)
    case GracefulShutdown => s.(shuttingDown := true)
    case ContextDone => Quiesce(s)
    case DrainReceive(index) => Quiesce(Retire(Received(s, index), index))
    case Notify(channel) => s.(notified := s.notified + {channel})
    case Cancel => s.(cancelled := true)
    case FallbackMoves(index, handler) => s.(fallbacks := s.fallbacks[index := handler])
  }

  /** A run: every event is enabled in the state the events before it lead to. */
  predicate IsRun(s: State, events: seq<Event>)
    decreases |events|
  {
    events == [] || (Enabled(s, events[0]) && IsRun(Step(s, events[0]), events[1..]))
  }

  function After(s: State, events: seq<Event>): State
    requires IsRun(s, events)
    decreases |events|
  {
    if events == [] then s else After(Step(s, events[0]), events[1..])
  }

  // ---------- Initialisation ----------

  /** Only the first tunnel runs; `initialize` waits for it to connect. */
  function FirstTunnel(haConnections: nat, retries: nat): State {
    State(haConnections, multiset{0}, multiset{}, [], 0, false,
          Backoff.NewBackoff(retries, TUNNEL_RETRY_DURATION, true),
          seq(if haConnections == 0 then 1 else haConnections,
              _ => Backoff.NewBackoff(retries, Backoff.DEFAULT_BASE_TIME, true)),
          Signals(map[], 0, None, 0), {}, false, false, Looping)
  }

  function Indices(n: nat): (r: seq<nat>) {
    seq(n, k => k)
  }

  /** The state when `initialize` has left through the connected signal of the first tunnel. */
  function Initial(haConnections: nat, retries: nat): State {
    StartAll(FirstTunnel(haConnections, retries),
             if haConnections == 0 then [] else Indices(haConnections)[1..]).(active := haConnections)
  }

  // ---------- The invariant ----------

  /** Every index is in flight, waiting or retired, and in one of the three only once. */
  predicate Conserved(s: State) {
    s.inFlight + multiset(s.waiting) + s.retired == multiset(Indices(s.haConnections))
  }

  predicate NoneWaitingConnects(s: State) {
    forall i :: i in s.signals.connecting ==> i in s.inFlight || i in s.retired
  }

  predicate RetriesForever(s: State) {
    && s.backoff.retryForever
    && s.haConnections <= |s.fallbacks|
    && (forall i :: 0 <= i < |s.fallbacks| ==> s.fallbacks[i].retryForever)
  }

  predicate Live(s: State) {
    match s.phase
    case Looping => s.active > 0 || s.waiting != [] || s.cancelled
    case Draining => s.active > 0 && s.cancelled
    case Returned => s.active == 0
    case Crashed => true
  }

  predicate Inv(s: State) {
    && Conserved(s)
    && s.active == |s.inFlight|
    && (!s.phase.Crashed? ==> (s.timerArmed <==> s.waiting != []))
    && s.signals.Agree()
    && NoneWaitingConnects(s)
    && RetriesForever(s)
    && Live(s)
  }

  // ---------- Preservation ----------

  lemma {:induction false} CountOfIndex(n: nat, i: nat)
    ensures multiset(Indices(n))[i] == if i < n then 1 else 0
  {
    if n > 0 {
      CountOfIndex(n - 1, i);
      assert Indices(n) == Indices(n - 1) + [n - 1];
    }
  }

  lemma OnePlace(s: State, i: nat)
    requires Conserved(s)
    ensures s.inFlight[i] + multiset(s.waiting)[i] + s.retired[i] == if i < s.haConnections then 1 else 0
  {
    CountOfIndex(s.haConnections, i);
    assert (s.inFlight + multiset(s.waiting) + s.retired)[i] == multiset(Indices(s.haConnections))[i];
  }

  function SetOf(indices: seq<nat>): set<nat> {
    set i | i in indices
  }

  lemma SnocFacts(front: seq<nat>, last: nat)
    ensures multiset(front + [last]) == multiset(front) + multiset{last}
    ensures SetOf(front + [last]) == SetOf(front) + {last}
  {
  }

  lemma {:induction false} SignalAllAgrees(g: Signals, indices: seq<nat>)
    requires g.Agree()
    ensures var t := SignalAll(g, indices);
            t.Agree() && t.connecting.Keys == g.connecting.Keys + SetOf(indices)
  {
    if indices != [] {
      var n := |indices| - 1;
      SignalAllAgrees(g, indices[..n]);
      assert indices == indices[..n] + [indices[n]];
      SnocFacts(indices[..n], indices[n]);
      NewSignalAgrees(SignalAll(g, indices[..n]), indices[n]);
    }
  }

  lemma InitialShape(haConnections: nat, retries: nat)
    requires haConnections >= 1
    ensures var s := Initial(haConnections, retries);
            && s == FirstTunnel(haConnections, retries).(inFlight := multiset(Indices(haConnections)),
                                                         signals := s.signals, active := haConnections)
            && s.signals.Agree()
            && s.signals.connecting.Keys <= SetOf(Indices(haConnections))
  {
    var all := Indices(haConnections);
    SignalAllAgrees(FirstTunnel(haConnections, retries).signals, all[1..]);
    assert all == [0] + all[1..];
  }

  /** With at least one connection the loop starts in the invariant; with none it does not. */
  lemma InitialInv(haConnections: nat, retries: nat)
    ensures Inv(Initial(haConnections, retries)) <==> haConnections >= 1
    ensures forall i :: 0 <= i < |Initial(haConnections, retries).fallbacks| ==>
              Initial(haConnections, retries).fallbacks[i] == Backoff.Handler(retries, true, 1_000_000_000, 0, 0)
  {
    if haConnections == 0 {
      assert |Initial(0, retries).inFlight| == 1;
    } else {
      InitialShape(haConnections, retries);
    }
  }

  lemma ReconnectKeeps(s: State, index: nat)
    requires Inv(s) && index in s.inFlight && s.phase.Looping?
    ensures Inv(StartOne(Received(s, index), index).(active := s.active))
  {
    NewSignalAgrees(s.signals, index);
    assert s.inFlight - multiset{index} + multiset{index} == s.inFlight;
  }

  lemma MoveOne(a: multiset<nat>, b: multiset<nat>, c: multiset<nat>, x: nat)
    requires x in a
    ensures (a - multiset{x}) + b + (c + multiset{x}) == a + b + c
    ensures (a - multiset{x}) + (b + multiset{x}) + c == a + b + c
    ensures |a - multiset{x}| == |a| - 1
  {
    assert a == (a - multiset{x}) + multiset{x};
  }

  lemma RetireKeeps(s: State, index: nat)
    requires Inv(s) && index in s.inFlight
    ensures var t := Retire(Received(s, index), index);
            Conserved(t) && t.active == |t.inFlight| && NoneWaitingConnects(t)
  {
    MoveOne(s.inFlight, multiset(s.waiting), s.retired, index);
  }

  lemma GracefulKeeps(s: State, index: nat)
    requires Inv(s) && index in s.inFlight && s.phase.Looping?
    ensures var t := Retire(Received(s, index), index);
            Inv(if t.active == 0 then t.(phase := Returned) else t)
  {
    RetireKeeps(s, index);
  }

  /** The invariant but for the timer. */
  predicate Untimed(s: State) {
    && Conserved(s) && s.active == |s.inFlight| && s.signals.Agree() && NoneWaitingConnects(s) && RetriesForever(s)
  }

  lemma LineKeeps(s: State, index: nat, pick: nat)
    requires Inv(s) && index in s.inFlight && s.phase.Looping? && s.signals.CanPick(index, pick)
    ensures var t := Line(Received(s, index), index, pick);
            Untimed(t) && t.waiting != [] && t.timerArmed == s.timerArmed && t.phase.Looping?
  {
    WaitAgrees(s.signals, index, pick);
    SnocFacts(s.waiting, index);
    MoveOne(s.inFlight, multiset(s.waiting), s.retired, index);
  }

  lemma ArmKeeps(s: State, now: int)
    requires Untimed(s) && s.waiting != [] && s.phase.Looping?
    ensures Inv(Arm(s, now))
  {
    Backoff.ForeverRetries(s.backoff, s.cancelled, now);
  }

  lemma QueueKeeps(s: State, index: nat, now: int, pick: nat)
    requires Inv(s) && index in s.inFlight && s.phase.Looping? && s.signals.CanPick(index, pick)
    ensures Inv(Queue(Received(s, index), index, now, pick))
  {
    LineKeeps(s, index, pick);
    var t := Line(Received(s, index), index, pick);
    if !t.timerArmed {
      ArmKeeps(t, now);
    }
  }

  lemma TunnelErrorKeeps(s: State, index: nat, kind: ErrorKind, now: int, pick: nat)
    requires Inv(s) && Enabled(s, TunnelError(index, kind, now, pick))
    ensures Inv(AfterTunnelError(s, index, kind, now, pick))
  {
    if kind == Graceful || s.shuttingDown {
      GracefulKeeps(s, index);
    } else if kind == Reconnect {
      ReconnectKeeps(s, index);
    } else {
      Backoff.ForeverRetries(s.fallbacks[index], s.cancelled, now);
      if s.cancelled {
        RetireKeeps(s, index);
      } else {
        QueueKeeps(s, index, now, pick);
      }
    }
  }

  lemma TimerKeeps(s: State)
    requires Inv(s) && Enabled(s, TimerFires)
    ensures Inv(AfterTimer(s))
  {
    SignalAllAgrees(s.signals, s.waiting);
    assert |multiset(s.waiting)| == |s.waiting|;
  }

  lemma NextConnectedKeeps(s: State, now: int, wait: int, pick: nat)
    requires Inv(s) && Enabled(s, NextConnected(now, wait, pick))
    ensures Inv(AfterNextConnected(s, now, wait, pick))
  {
    WaitAgrees(s.signals, s.signals.nextIndex, pick);
  }

  lemma StepKeeps(s: State, e: Event)
    requires Inv(s) && Enabled(s, e)
    ensures Inv(Step(s, e))
  {
    match e
    case TunnelError(index, kind, now, pick) => TunnelErrorKeeps(s, index, kind, now, pick);
    case TimerFires => TimerKeeps(s);
    case NextConnected(now, wait, pick) => NextConnectedKeeps(s, now, wait, pick);
    case DrainReceive(index) => DrainKeeps(s, index);
    case _ => QuietStepKeeps(s, e);
  }

  lemma StepKeepsConfig(s: State, e: Event)
    requires Enabled(s, e)
    ensures Step(s, e).haConnections == s.haConnections
  {
  }

  lemma DrainKeeps(s: State, index: nat)
    requires Inv(s) && Enabled(s, DrainReceive(index))
    ensures Inv(Step(s, DrainReceive(index)))
  {
    RetireKeeps(s, index);
  }

  lemma QuietStepKeeps(s: State, e: Event)
    requires Inv(s) && Enabled(s, e)
    requires e.GracefulShutdown? || e.ContextDone? || e.Notify? || e.Cancel? || e.FallbackMoves?
    ensures Inv(Step(s, e))
  {
  }

  lemma {:induction false} RunKeeps(s: State, events: seq<Event>)
    requires Inv(s) && IsRun(s, events)
    ensures Inv(After(s, events)) && After(s, events).haConnections == s.haConnections
    decreases |events|
  {
    if events != [] {
      StepKeeps(s, events[0]);
      StepKeepsConfig(s, events[0]);
      RunKeeps(Step(s, events[0]), events[1..]);
    }
  }

  // ---------- What the invariant gives ----------

  /**
   Every state of every run: the counter is the number of goroutines in flight, every index is in
   exactly one place, the timer is armed exactly while something waits, and a loop that has returned
   has left no goroutine behind.
   */
  lemma RunAccountsForEveryTunnel(haConnections: nat, retries: nat, events: seq<Event>, i: nat)
    requires haConnections >= 1 && IsRun(Initial(haConnections, retries), events)
    requires i < haConnections
    ensures var s := After(Initial(haConnections, retries), events);
            && s.active == |s.inFlight|
            && s.inFlight[i] + multiset(s.waiting)[i] + s.retired[i] == 1
            && (!s.phase.Crashed? ==> (s.timerArmed <==> s.waiting != []))
            && s.signals.Agree()
            && (s.phase.Returned? ==> s.inFlight == multiset{})
  {
    InitialInv(haConnections, retries);
    InitialShape(haConnections, retries);
    RunKeeps(Initial(haConnections, retries), events);
    OnePlace(After(Initial(haConnections, retries), events), i);
  }

  /** The loop has come to its end. */
  predicate Over(s: State) {
    s.phase.Returned? || s.phase.Crashed?
  }

  /** The loop is never stuck: a tunnel can still report, the timer can fire, or the context is done. */
  lemma NeverStuck(s: State, now: int)
    requires Inv(s) && !Over(s)
    ensures || (exists i, pick :: Enabled(s, TunnelError(i, Failure, now, pick)))
            || (exists i :: Enabled(s, DrainReceive(i)))
            || Enabled(s, TimerFires)
            || Enabled(s, ContextDone)
  {
    if s.active > 0 {
      var i :| i in s.inFlight;
      OnePlace(s, i);
      if s.phase.Draining? {
        assert Enabled(s, DrainReceive(i));
      } else {
        var rest := s.signals.connecting.Keys - {i};
        var pick: nat := 0;
        if rest != {} {
          pick :| pick in rest;
        }
        assert Enabled(s, TunnelError(i, Failure, now, pick));
      }
    }
  }

  /** Draining takes exactly as many receives as there are tunnels in flight, and then returns. */
  lemma {:induction false} DrainReturns(s: State, events: seq<Event>)
    requires Inv(s) && s.phase.Draining? && IsRun(s, events)
    requires forall k :: 0 <= k < |events| ==> events[k].DrainReceive?
    ensures |events| <= s.active
    ensures After(s, events).phase.Returned? <==> |events| == s.active
    decreases |events|
  {
    if events != [] {
      StepKeeps(s, events[0]);
      var t := Step(s, events[0]);
      if t.phase.Draining? {
        DrainReturns(t, events[1..]);
      }
    }
  }

  /** What the end of a tunnel does to the indices given up, and whether it panics. */
  lemma TunnelErrorEffect(s: State, index: nat, kind: ErrorKind, now: int, pick: nat)
    requires Inv(s) && Enabled(s, TunnelError(index, kind, now, pick))
    ensures var t := AfterTunnelError(s, index, kind, now, pick);
            var gone := kind.Graceful? || s.shuttingDown || (kind.Failure? && s.cancelled);
            && t.retired == (if gone then s.retired + multiset{index} else s.retired)
            && (t.phase.Crashed? <==> !gone && kind.Failure? && !s.timerArmed && s.backoff.TimerBound(now).value <= 0)
  {
    Backoff.ForeverRetries(s.fallbacks[index], s.cancelled, now);
    Backoff.ForeverRetries(s.backoff, s.cancelled, now);
  }

  /** An index is given up only after a graceful end, during a shutdown or once the context is done. */
  lemma RetiresOnlyWhenAllowed(s: State, e: Event, i: nat)
    requires Inv(s) && Enabled(s, e)
    requires Step(s, e).retired[i] > s.retired[i]
    ensures s.shuttingDown || s.cancelled || (e.TunnelError? && e.kind.Graceful?)
    ensures (e.TunnelError? || e.DrainReceive?) && e.index == i
  {
    match e
    case TunnelError(index, kind, now, pick) => TunnelErrorEffect(s, index, kind, now, pick);
    case _ =>
  }

  /**
   The grace period starts exactly when no tunnel is left connecting and none is waiting, for a wait below
   its bound; without a positive bound the draw panics.
   */
  lemma GraceOnlyWhenSettled(s: State, now: int, wait: int, pick: nat)
    requires Inv(s) && Enabled(s, NextConnected(now, wait, pick))
    ensures var t := AfterNextConnected(s, now, wait, pick);
            var settled := t.signals.connecting.Keys == {} && t.waiting == [];
            && s.signals.connecting[s.signals.nextIndex] in s.notified
            && (t.phase.Crashed? <==> settled && s.backoff.GraceBound() <= 0)
            && t.backoff == (if settled && !t.phase.Crashed? then s.backoff.AfterGrace(now, wait) else s.backoff)
            && (settled && !t.phase.Crashed? ==> 0 <= wait < s.backoff.GraceBound())
  {
    WaitAgrees(s.signals, s.signals.nextIndex, pick);
  }

  // ---------- When a draw panics ----------

  /** A step panics exactly when it draws the wait of a timer or of a grace period below a bound that overflowed. */
  lemma CrashesIff(s: State, e: Event)
    requires Inv(s) && Enabled(s, e) && !s.phase.Crashed?
    ensures Step(s, e).phase.Crashed? <==>
      || (&& e.TunnelError? && e.kind.Failure? && !s.shuttingDown && !s.cancelled && !s.timerArmed
          && s.backoff.TimerBound(e.now).value <= 0)
      || (e.NextConnected? && Settles(s, e.pick) && s.backoff.GraceBound() <= 0)
  {
    match e
    case TunnelError(index, kind, now, pick) => TunnelErrorEffect(s, index, kind, now, pick);
    case _ =>
  }

  /** With a budget for which the shifts fit, no run panics. */
  lemma {:induction false} FittingBudgetNeverCrashes(s: State, events: seq<Event>)
    requires Inv(s) && !s.phase.Crashed? && s.backoff.Valid() && s.backoff.Fits() && IsRun(s, events)
    ensures !After(s, events).phase.Crashed?
    decreases |events|
  {
    if events != [] {
      var e := events[0];
      BackoffMoves(s, e);
      BackoffKeepsFitting(s.backoff, e);
      CrashesIff(s, e);
      Backoff.ForeverRetries(s.backoff, false, if e.TunnelError? then e.now else 0);
      Backoff.ShiftsExact(s.backoff, if e.TunnelError? then e.now else 0);
      StepKeeps(s, e);
      FittingBudgetNeverCrashes(Step(s, e), events[1..]);
    }
  }

  /** The loop's backoff is only ever asked for a timer or given a grace period. */
  lemma BackoffMoves(s: State, e: Event)
    requires Enabled(s, e)
    ensures Step(s, e).backoff in {s.backoff, BackoffAfter(s.backoff, e)}
  {
  }

  function BackoffAfter(h: Backoff.Handler, e: Event): Backoff.Handler {
    match e
    case TunnelError(index, kind, now, pick) => h.AfterTimer(now)
    case NextConnected(now, wait, pick) => h.AfterGrace(now, wait)
    case _ => h
  }

  lemma BackoffKeepsFitting(h: Backoff.Handler, e: Event)
    requires h.Valid() && h.Fits()
    ensures BackoffAfter(h, e).Valid() && BackoffAfter(h, e).Fits()
  {
    Backoff.FitsIsBounded(h);
    if e.TunnelError? {
      Backoff.ApplyKeeps(h, Backoff.AskTimer(e.now));
    }
  }

  /** With its base of ten seconds the loop's backoff fits exactly for up to 27 retries. */
  lemma UpTo27RetriesFit(haConnections: nat, retries: nat)
    ensures Initial(haConnections, retries).backoff.Valid()
    ensures Initial(haConnections, retries).backoff.Fits() <==> retries <= 27
  {
    assert Backoff.Scale(TUNNEL_RETRY_DURATION, 8) == TUNNEL_RETRY_DURATION * 0x100;
    assert Backoff.Scale(TUNNEL_RETRY_DURATION, 16) == TUNNEL_RETRY_DURATION * 0x1_0000;
    assert Backoff.Scale(TUNNEL_RETRY_DURATION, 24) == TUNNEL_RETRY_DURATION * 0x100_0000;
    assert Backoff.Scale(TUNNEL_RETRY_DURATION, 29) == TUNNEL_RETRY_DURATION * 0x2000_0000;
    assert Backoff.Scale(TUNNEL_RETRY_DURATION, 30) == TUNNEL_RETRY_DURATION * 0x4000_0000;
    if retries <= 27 {
      Backoff.ScaleMonotone(TUNNEL_RETRY_DURATION, retries + 2, 29);
    } else {
      Backoff.ScaleMonotone(TUNNEL_RETRY_DURATION, 30, retries + 2);
    }
  }

  // ---------- And that it can ----------

  const MAX_SAFE_RETRIES := 27

  /** With 28 retries counted the bound of a timer is still positive, but that of a grace period is not. */
  lemma BoundsAt28(h: Backoff.Handler)
    requires h.baseTime == TUNNEL_RETRY_DURATION
    ensures h.retries <= MAX_SAFE_RETRIES + 1 ==>
              Backoff.ToInt64(h.BaseTime() * Backoff.ShiftLeft(1, h.retries)) > 0
    ensures h.retries == MAX_SAFE_RETRIES + 1 ==> h.GraceBound() < 0
  {
    assert Backoff.Scale(1, 8) == 0x100;
    assert Backoff.Scale(1, 16) == 0x1_0000;
    assert Backoff.Scale(1, 24) == 0x100_0000;
    assert Backoff.Scale(1, 28) == 0x1000_0000;
    if h.retries <= MAX_SAFE_RETRIES + 1 {
      Backoff.ScaleMonotone(1, h.retries, MAX_SAFE_RETRIES + 1);
    }
    Backoff.ScaleIsProduct(TUNNEL_RETRY_DURATION * 2, MAX_SAFE_RETRIES + 2);
    assert Backoff.Scale(1, MAX_SAFE_RETRIES + 2) == 0x2000_0000;
  }

  lemma RunCons(s: State, e: Event, events: seq<Event>)
    requires Enabled(s, e) && IsRun(Step(s, e), events)
    ensures IsRun(s, [e] + events) && After(s, [e] + events) == After(Step(s, e), events)
  {
    assert ([e] + events)[1..] == events;
  }

  /** The loop goes on and has counted `k` retries; the first tunnel may retry. */
  predicate Counted(s: State, retries: nat, k: nat) {
    && s.phase.Looping? && !s.shuttingDown && !s.cancelled && s.fallbacks != [] && s.fallbacks[0].retryForever
    && s.backoff == Backoff.NewBackoff(retries, TUNNEL_RETRY_DURATION, true).(retries := k)
  }

  /** The signals of connecting tunnels were handed out before. */
  predicate Known(g: Signals) {
    forall i :: i in g.connecting ==> g.connecting[i] < g.nextChannel
  }

  /** The first tunnel runs and nothing waits. */
  predicate Running(s: State, retries: nat, k: nat) {
    Counted(s, retries, k) && 0 in s.inFlight && s.waiting == [] && !s.timerArmed && Known(s.signals)
  }

  /** The first tunnel waits, alone, so that no connect settles the loop. */
  predicate Held(s: State, retries: nat, k: nat) {
    Counted(s, retries, k) && s.waiting == [0] && s.timerArmed && s.signals.Agree() && Known(s.signals)
  }

  /** Only the first tunnel is connecting. */
  predicate Alone(g: Signals) {
    g.Agree() && g.connecting.Keys == {0} && g.nextIndex == 0
  }

  lemma BackoffCounts(h: Backoff.Handler, retries: nat)
    requires h == Backoff.NewBackoff(retries, TUNNEL_RETRY_DURATION, true).(retries := h.retries)
    requires h.retries < retries && h.retries <= MAX_SAFE_RETRIES
    ensures h.AfterTimer(0) == h.(retries := h.retries + 1)
    ensures h.TimerBound(0).Some? && h.TimerBound(0).value > 0
  {
    BoundsAt28(h.(retries := h.retries + 1));
  }

  lemma AnyPick(g: Signals, index: nat) returns (pick: nat)
    ensures g.CanPick(index, pick)
  {
    pick := 0;
    if g.connecting.Keys - {index} != {} {
      pick :| pick in g.connecting.Keys - {index};
    }
  }

  /** The first tunnel fails and queues behind the timer. */
  lemma FailHolds(s: State, retries: nat, k: nat, pick: nat)
    requires Running(s, retries, k) && k < retries && k <= MAX_SAFE_RETRIES && s.signals.CanPick(0, pick)
    ensures var e := TunnelError(0, Failure, 0, pick); Enabled(s, e) && Held(Step(s, e), retries, k + 1)
  {
    WaitAgrees(s.signals, 0, pick);
    BackoffCounts(s.backoff, retries);
    Backoff.ForeverRetries(s.fallbacks[0], false, 0);
  }

  /** While it waits, another tunnel connects without a grace period. */
  lemma OtherConnects(s: State, retries: nat, k: nat, pick: nat)
    requires Held(s, retries, k) && s.signals.connecting.Keys != {} && s.signals.CanPick(s.signals.nextIndex, pick)
    ensures Enabled(s, Notify(s.signals.nextSignal.value))
    ensures var t := Step(s, Notify(s.signals.nextSignal.value)); var e := NextConnected(0, 0, pick);
            && Enabled(t, e) && Held(Step(t, e), retries, k)
            && Step(t, e).signals.connecting.Keys == s.signals.connecting.Keys - {s.signals.nextIndex}
  {
    WaitAgrees(s.signals, s.signals.nextIndex, pick);
  }

  /** Once all others have, the timer starts the first tunnel again. */
  lemma TimerRestarts(s: State, retries: nat, k: nat)
    requires Held(s, retries, k) && s.signals.connecting.Keys == {}
    ensures Enabled(s, TimerFires)
    ensures Running(Step(s, TimerFires), retries, k) && Alone(Step(s, TimerFires).signals)
  {
    assert [0][..0] == [];
    assert SignalAll(s.signals, [0]) == s.signals.NewConnectedTunnelSignal(0);
    NewSignalAgrees(s.signals, 0);
  }

  /** It connects with 28 retries counted: the grace period panics. */
  lemma ConnectAndCrash(s: State, retries: nat) returns (events: seq<Event>)
    requires Running(s, retries, MAX_SAFE_RETRIES + 1) && Alone(s.signals)
    ensures IsRun(s, events) && After(s, events).phase.Crashed?
  {
    var notify := Notify(s.signals.nextSignal.value);
    ConnectedCrashes(Step(s, notify));
    RunCons(Step(s, notify), NextConnected(0, 0, 0), []);
    events := [notify] + ([NextConnected(0, 0, 0)] + []);
    RunCons(s, notify, [NextConnected(0, 0, 0)] + []);
  }

  lemma ConnectedCrashes(s: State)
    requires s.phase.Looping? && s.waiting == [] && Alone(s.signals) && s.signals.nextSignal.value in s.notified
    requires s.backoff.baseTime == TUNNEL_RETRY_DURATION && s.backoff.retries == MAX_SAFE_RETRIES + 1
    ensures Enabled(s, NextConnected(0, 0, 0)) && Step(s, NextConnected(0, 0, 0)).phase.Crashed?
  {
    assert s.signals.connecting.Keys - {0} == {};
    BoundsAt28(s.backoff);
  }

  /** The first tunnel fails again and again, until 28 retries are counted. */
  lemma {:induction false} CrashRun(s: State, retries: nat, k: nat) returns (events: seq<Event>)
    requires Running(s, retries, k) && k <= MAX_SAFE_RETRIES + 1 <= retries && (k > 0 ==> Alone(s.signals))
    ensures IsRun(s, events) && After(s, events).phase.Crashed?
    decreases MAX_SAFE_RETRIES + 1 - k, 0, s.signals.connecting.Keys
  {
    if k == MAX_SAFE_RETRIES + 1 {
      events := ConnectAndCrash(s, retries);
    } else {
      var pick := AnyPick(s.signals, 0);
      FailHolds(s, retries, k, pick);
      var rest := HeldRun(Step(s, TunnelError(0, Failure, 0, pick)), retries, k + 1);
      events := [TunnelError(0, Failure, 0, pick)] + rest;
      RunCons(s, TunnelError(0, Failure, 0, pick), rest);
    }
  }

  /** Before the timer fires, every tunnel that is still connecting connects. */
  lemma {:induction false} HeldRun(s: State, retries: nat, k: nat) returns (events: seq<Event>)
    requires Held(s, retries, k) && 0 < k <= MAX_SAFE_RETRIES + 1 <= retries
    ensures IsRun(s, events) && After(s, events).phase.Crashed?
    decreases MAX_SAFE_RETRIES + 1 - k, 1, s.signals.connecting.Keys
  {
    if s.signals.connecting.Keys == {} {
      TimerRestarts(s, retries, k);
      var rest := CrashRun(Step(s, TimerFires), retries, k);
      events := [TimerFires] + rest;
      RunCons(s, TimerFires, rest);
    } else {
      var pick := AnyPick(s.signals, s.signals.nextIndex);
      OtherConnects(s, retries, k, pick);
      var notify := Notify(s.signals.nextSignal.value);
      var connected := Step(Step(s, notify), NextConnected(0, 0, pick));
      var rest := HeldRun(connected, retries, k);
      RunCons(Step(s, notify), NextConnected(0, 0, pick), rest);
      events := [notify] + ([NextConnected(0, 0, pick)] + rest);
      RunCons(s, notify, [NextConnected(0, 0, pick)] + rest);
    }
  }

  lemma {:induction false} SignalAllKnown(g: Signals, indices: seq<nat>)
    requires Known(g)
    ensures Known(SignalAll(g, indices))
  {
    if indices != [] {
      SignalAllKnown(g, indices[..|indices| - 1]);
    }
  }

  lemma InitialRuns(haConnections: nat, retries: nat)
    requires haConnections >= 1
    ensures Running(Initial(haConnections, retries), retries, 0)
  {
    InitialShape(haConnections, retries);
    CountOfIndex(haConnections, 0);
    SignalAllKnown(FirstTunnel(haConnections, retries).signals, Indices(haConnections)[1..]);
  }

  /** With any number of connections the loop panics in some run exactly when its budget is above 27 retries. */
  lemma PanicsIffOver27(haConnections: nat, retries: nat)
    requires haConnections >= 1
    ensures (exists events :: IsRun(Initial(haConnections, retries), events)
                              && After(Initial(haConnections, retries), events).phase.Crashed?)
       <==> retries > MAX_SAFE_RETRIES
  {
    var s := Initial(haConnections, retries);
    if retries > MAX_SAFE_RETRIES {
      InitialRuns(haConnections, retries);
      var events := CrashRun(s, retries, 0);
    } else {
      forall events | IsRun(s, events)
        ensures !After(s, events).phase.Crashed?
      {
        InitialInv(haConnections, retries);
        UpTo27RetriesFit(haConnections, retries);
        FittingBudgetNeverCrashes(s, events);
      }
    }
  }

  // ---------- Graceful shutdown ends ----------

  function Remaining(s: State): int {
    2 * |s.waiting| + s.active
  }

  predicate Progress(e: Event) {
    e.TunnelError? || e.TimerFires?
  }

  function ProgressCount(events: seq<Event>): nat {
    if events == [] then 0
    else (if Progress(events[0]) then 1 else 0) + ProgressCount(events[1..])
  }

  lemma ShutdownStep(s: State, e: Event)
    requires Inv(s) && Enabled(s, e) && s.phase.Looping? && s.shuttingDown && !e.ContextDone?
    ensures var t := Step(s, e);
            && t.shuttingDown
            && Remaining(t) <= Remaining(s) - (if Progress(e) then 1 else 0)
            && !t.phase.Draining?
            && (t.cancelled ==> s.cancelled || e.Cancel?)
  {
    match e
    case _ =>
  }

  /**
   Once a graceful shutdown has been seen, the loop takes at most `2 * waiting + active` more tunnel
   errors and timer expiries: after that many it is over (unless the context was cancelled).
   */
  lemma {:induction false} ShutdownIsBounded(s: State, events: seq<Event>)
    requires Inv(s) && s.phase.Looping? && s.shuttingDown && !s.cancelled && IsRun(s, events)
    requires forall k :: 0 <= k < |events| ==> !events[k].Cancel?
    ensures ProgressCount(events) <= Remaining(s)
    ensures ProgressCount(events) == Remaining(s) ==> Over(After(s, events))
    decreases |events|
  {
    if events != [] {
      ShutdownStep(s, events[0]);
      StepKeeps(s, events[0]);
      var t := Step(s, events[0]);
      if t.phase.Looping? {
        ShutdownIsBounded(t, events[1..]);
      } else {
        OverIsFinal(t, events[1..]);
      }
    }
  }

  lemma {:induction false} OverIsFinal(s: State, events: seq<Event>)
    requires Over(s) && IsRun(s, events)
    ensures After(s, events).phase == s.phase && ProgressCount(events) == 0
    ensures After(s, events).inFlight == s.inFlight && After(s, events).active == s.active
    decreases |events|
  {
    if events != [] {
      OverIsFinal(Step(s, events[0]), events[1..]);
    }
  }

  // ---------- From the events themselves ----------

  lemma {:induction false} RunSplit(s: State, front: seq<Event>, back: seq<Event>)
    requires IsRun(s, front + back)
    ensures IsRun(s, front) && IsRun(After(s, front), back)
    ensures After(s, front + back) == After(After(s, front), back)
    decreases |front|
  {
    if front == [] {
      assert front + back == back;
    } else {
      assert (front + back)[0] == front[0] && (front + back)[1..] == front[1..] + back;
      RunSplit(Step(s, front[0]), front[1..], back);
    }
  }

  /** Shutdown and cancellation are seen exactly when they have happened. */
  lemma {:induction false} SeenIffHappened(s: State, events: seq<Event>)
    requires IsRun(s, events)
    ensures After(s, events).shuttingDown <==> s.shuttingDown || GracefulShutdown in events
    ensures After(s, events).cancelled <==> s.cancelled || Cancel in events
    decreases |events|
  {
    if events != [] {
      SeenIffHappened(Step(s, events[0]), events[1..]);
    }
  }

  /** The state in the middle of a run from the start. */
  lemma Midway(haConnections: nat, retries: nat, before: seq<Event>, e: Event, rest: seq<Event>)
    requires haConnections >= 1 && IsRun(Initial(haConnections, retries), before + [e] + rest)
    ensures IsRun(Initial(haConnections, retries), before)
    ensures var s := After(Initial(haConnections, retries), before);
            && Inv(s) && Enabled(s, e) && Inv(Step(s, e)) && IsRun(Step(s, e), rest)
            && After(Initial(haConnections, retries), before + [e] + rest) == After(Step(s, e), rest)
            && (s.shuttingDown <==> GracefulShutdown in before) && (s.cancelled <==> Cancel in before)
  {
    var start := Initial(haConnections, retries);
    InitialInv(haConnections, retries);
    assert before + [e] + rest == before + ([e] + rest);
    RunSplit(start, before, [e] + rest);
    var s := After(start, before);
    RunKeeps(start, before);
    SeenIffHappened(start, before);
    assert ([e] + rest)[0] == e && ([e] + rest)[1..] == rest;
    StepKeeps(s, e);
    InitialShape(haConnections, retries);
  }

  lemma {:induction false} WaitingShrinks(s: State, events: seq<Event>)
    requires s.shuttingDown && IsRun(s, events)
    ensures After(s, events).waiting == s.waiting || After(s, events).waiting == []
    decreases |events|
  {
    if events != [] {
      WaitingShrinks(Step(s, events[0]), events[1..]);
    }
  }

  /**
   From the moment of a graceful shutdown, in any run without cancellation: no tunnel joins those that wait,
   there are at most twice the waiting plus the active many errors and expiries, and after that many the loop
   is over.
   */
  lemma GracefulShutdownEnds(haConnections: nat, retries: nat, before: seq<Event>, rest: seq<Event>)
    requires haConnections >= 1 && IsRun(Initial(haConnections, retries), before + [GracefulShutdown] + rest)
    requires Cancel !in before && Cancel !in rest
    ensures IsRun(Initial(haConnections, retries), before)
    ensures var s := After(Initial(haConnections, retries), before);
            var last := After(Initial(haConnections, retries), before + [GracefulShutdown] + rest);
            && (last.waiting == s.waiting || last.waiting == [])
            && ProgressCount(rest) <= 2 * |s.waiting| + s.active
            && (ProgressCount(rest) == 2 * |s.waiting| + s.active ==> Over(last))
  {
    Midway(haConnections, retries, before, GracefulShutdown, rest);
    var s := After(Initial(haConnections, retries), before);
    WaitingShrinks(Step(s, GracefulShutdown), rest);
    ShutdownIsBounded(Step(s, GracefulShutdown), rest);
  }

  /** And a tunnel that reports after it, with whatever error, is given up for good; the last one ends the loop. */
  lemma ShutdownGivesUp(haConnections: nat, retries: nat, before: seq<Event>, rest: seq<Event>,
                        index: nat, kind: ErrorKind, now: int, pick: nat)
    requires haConnections >= 1 && IsRun(Initial(haConnections, retries), before + [GracefulShutdown] + rest)
    requires Enabled(After(Initial(haConnections, retries), before + [GracefulShutdown] + rest),
                     TunnelError(index, kind, now, pick))
    ensures var last := After(Initial(haConnections, retries), before + [GracefulShutdown] + rest);
            GivenUp(last, index, Step(last, TunnelError(index, kind, now, pick)))
  {
    Midway(haConnections, retries, before, GracefulShutdown, rest);
    var s := Step(After(Initial(haConnections, retries), before), GracefulShutdown);
    SeenIffHappened(s, rest);
    ShutdownEffect(After(s, rest), index, kind, now, pick);
  }

  lemma ShutdownEffect(s: State, index: nat, kind: ErrorKind, now: int, pick: nat)
    requires Enabled(s, TunnelError(index, kind, now, pick)) && s.shuttingDown
    ensures GivenUp(s, index, Step(s, TunnelError(index, kind, now, pick)))
  {
  }

  /** The goroutine is gone, its index retired and nothing started or queued; the loop returns with the last one. */
  predicate GivenUp(s: State, index: nat, t: State) {
    && t.inFlight == s.inFlight - multiset{index} && t.retired == s.retired + multiset{index}
    && t.waiting == s.waiting && t.signals == s.signals && t.active == s.active - 1
    && t.phase == if s.active == 1 then Returned else s.phase
  }

  /** A tunnel given up, started again at once, or made to wait. */
  predicate Outcome(s: State, index: nat, kind: ErrorKind, t: State) {
    match kind
    case Graceful => GivenUp(s, index, t)
    case Reconnect =>
      && t.inFlight == s.inFlight && t.active == s.active && t.waiting == s.waiting && t.retired == s.retired
      && index in t.signals.connecting && t.signals.nextIndex == index
    case Failure =>
      && t.inFlight == s.inFlight - multiset{index} && t.active == s.active - 1
      && t.waiting == s.waiting + [index] && t.retired == s.retired
      && index !in t.signals.connecting && (t.timerArmed || t.phase.Crashed?)
  }

  /**
   Before shutdown and cancellation: a graceful end gives the tunnel up, a reconnect starts it again at once,
   and any other failure makes it wait for the timer.
   */
  lemma ErrorOutcomes(haConnections: nat, retries: nat, events: seq<Event>,
                      index: nat, kind: ErrorKind, now: int, pick: nat)
    requires haConnections >= 1 && IsRun(Initial(haConnections, retries), events)
    requires GracefulShutdown !in events && Cancel !in events
    requires Enabled(After(Initial(haConnections, retries), events), TunnelError(index, kind, now, pick))
    ensures var s := After(Initial(haConnections, retries), events);
            Outcome(s, index, kind, Step(s, TunnelError(index, kind, now, pick)))
  {
    var s := After(Initial(haConnections, retries), events);
    InitialInv(haConnections, retries);
    InitialShape(haConnections, retries);
    RunKeeps(Initial(haConnections, retries), events);
    SeenIffHappened(Initial(haConnections, retries), events);
    ErrorEffect(s, index, kind, now, pick);
  }

  lemma ErrorEffect(s: State, index: nat, kind: ErrorKind, now: int, pick: nat)
    requires Inv(s) && Enabled(s, TunnelError(index, kind, now, pick)) && !s.shuttingDown && !s.cancelled
    ensures Outcome(s, index, kind, Step(s, TunnelError(index, kind, now, pick)))
  {
    match kind
    case Graceful =>
    case Reconnect => assert s.inFlight - multiset{index} + multiset{index} == s.inFlight;
    case Failure =>
      WaitAgrees(s.signals, index, pick);
      Backoff.ForeverRetries(s.fallbacks[index], false, now);
      Backoff.ForeverRetries(s.backoff, false, now);
  }

  /** When the timer fires, every waiting tunnel is started, each under a signal of its own, and none waits. */
  lemma TimerStartsAll(s: State)
    requires Inv(s) && Enabled(s, TimerFires)
    ensures var t := Step(s, TimerFires);
            && t.inFlight == s.inFlight + multiset(s.waiting) && t.waiting == [] && !t.timerArmed
            && t.active == s.active + |s.waiting| && t.retired == s.retired
            && t.signals.connecting.Keys == s.signals.connecting.Keys + SetOf(s.waiting)
  {
    SignalAllAgrees(s.signals, s.waiting);
  }

  /** Once the context is cancelled, the loop can leave at any time, to drain exactly the active tunnels. */
  lemma CancelEnds(haConnections: nat, retries: nat, before: seq<Event>, rest: seq<Event>)
    requires haConnections >= 1 && IsRun(Initial(haConnections, retries), before + [Cancel] + rest)
    requires After(Initial(haConnections, retries), before + [Cancel] + rest).phase.Looping?
    ensures var last := After(Initial(haConnections, retries), before + [Cancel] + rest);
            && Enabled(last, ContextDone) && last.active == |last.inFlight|
            && Step(last, ContextDone) == last.(phase := if last.inFlight == multiset{} then Returned else Draining)
  {
    Midway(haConnections, retries, before, Cancel, rest);
    var s := Step(After(Initial(haConnections, retries), before), Cancel);
    RunKeeps(s, rest);
    SeenIffHappened(s, rest);
  }

  // ---------- The mutable supervisor ----------

  lemma StartAllSnoc(s: State, indices: seq<nat>, index: nat)
    ensures StartAll(s, indices + [index]) == StartOne(StartAll(s, indices), index)
  {
    assert (indices + [index])[..|indices|] == indices;
    SnocFacts(indices, index);
    assert s.inFlight + multiset(indices) + multiset{index} == s.inFlight + multiset(indices + [index]);
  }

  class Supervisor {
    const haConnections: nat
    var tunnelsProtocolFallback: seq<Backoff.Handler>
    var tunnelsConnecting: map<nat, nat>
    var nextConnectedIndex: nat
    var nextConnectedSignal: Option<nat>
    var nextChannel: nat
    // The variables of `Run`.
    var tunnelsWaiting: seq<nat>
    var tunnelsActive: int
    var backoff: Backoff.Handler
    var backoffTimer: bool
    var shuttingDown: bool
    var phase: Phase
    // What the loop cannot see.
    ghost var inFlight: multiset<nat>
    ghost var retired: multiset<nat>
    ghost var notified: set<nat>
    var cancelled: bool

    ghost function View(): State
      reads this
    {
      State(haConnections, inFlight, retired, tunnelsWaiting, tunnelsActive, backoffTimer, backoff,
                  tunnelsProtocolFallback,
                  Signals(tunnelsConnecting, nextConnectedIndex, nextConnectedSignal, nextChannel),
                  notified, shuttingDown, cancelled, phase)
    }

    /** The first tunnel has been started and has connected. */
    constructor (haConnections: nat, retries: nat)
      ensures View() == FirstTunnel(haConnections, retries)
    {
      this.haConnections := haConnections;
      tunnelsProtocolFallback := seq(if haConnections == 0 then 1 else haConnections,
                                     _ => Backoff.NewBackoff(retries, Backoff.DEFAULT_BASE_TIME, true));
      tunnelsConnecting, nextConnectedIndex, nextConnectedSignal, nextChannel := map[], 0, None, 0;
      tunnelsWaiting, tunnelsActive := [], 0;
      backoff, backoffTimer := Backoff.NewBackoff(retries, TUNNEL_RETRY_DURATION, true), false;
      shuttingDown, cancelled, phase := false, false, Looping;
      inFlight, retired, notified := multiset{0}, multiset{}, {};
    }

    method NewConnectedTunnelSignal(index: nat) returns (channel: nat)
      modifies this
      ensures View() == old(View()).(signals := old(View()).signals.NewConnectedTunnelSignal(index))
      ensures nextConnectedSignal == Some(channel)
    {
      channel := nextChannel;
      nextChannel := nextChannel + 1;
      tunnelsConnecting := tunnelsConnecting[index := channel];
      nextConnectedSignal := Some(channel);
      nextConnectedIndex := index;
    }

    /** Starts the goroutine of `index`. */
    method StartTunnel(index: nat)
      modifies this
      ensures View() == StartOne(old(View()), index)
    {
      var channel := NewConnectedTunnelSignal(index);
      inFlight := inFlight + multiset{index};
    }

    method StartTunnels(indices: seq<nat>)
      modifies this
      ensures View() == StartAll(old(View()), indices)
    {
      assert old(View()).inFlight + multiset([]) == old(View()).inFlight;
      for k := 0 to |indices|
        invariant View() == StartAll(old(View()), indices[..k])
      {
        StartTunnel(indices[k]);
        StartAllSnoc(old(View()), indices[..k], indices[k]);
        assert indices[..k] + [indices[k]] == indices[..k + 1];
      }
      assert indices[..|indices|] == indices;
    }

    method WaitForNextTunnel(index: nat, pick: nat) returns (more: bool)
      requires View().signals.CanPick(index, pick)
      modifies this
      ensures View() == old(View()).(signals := old(View()).signals.WaitForNextTunnel(index, pick))
      ensures more <==> nextConnectedSignal.Some?
    {
      tunnelsConnecting := tunnelsConnecting - {index};
      nextConnectedSignal := None;
      assert tunnelsConnecting.Keys == old(tunnelsConnecting).Keys - {index};
      if tunnelsConnecting.Keys == {} {
        return false;
      }
      nextConnectedIndex := pick;
      nextConnectedSignal := Some(tunnelsConnecting[pick]);
      return true;
    }

    /** The rest of `initialize`: start the other tunnels and enter the loop. */
    method Initialize(ghost retries: nat)
      requires View() == FirstTunnel(haConnections, retries)
      modifies this
      ensures View() == Initial(haConnections, retries)
    {
      if haConnections > 0 {
        StartTunnels(Indices(haConnections)[1..]);
      } else {
        StartTunnels([]);
      }
      tunnelsActive := haConnections;
    }

    /** An error has been received: the goroutine that sent it is gone. */
    method Receive(index: nat)
      modifies this
      ensures View() == Received(old(View()), index)
    {
      inFlight := inFlight - multiset{index};
      tunnelsActive := tunnelsActive - 1;
    }

    ghost method GiveUp(index: nat)
      modifies this`retired
      ensures View() == Retire(old(View()), index)
    {
      retired := retired + multiset{index};
    }

    method Finish(index: nat)
      modifies this
      ensures View() == var t := Retire(old(View()), index);
                        if t.active == 0 then t.(phase := Returned) else t
    {
      GiveUp(index);
      if tunnelsActive == 0 {
        phase := Returned;
      }
    }

    method QueueTunnel(index: nat, now: int, pick: nat)
      requires View().signals.CanPick(index, pick)
      modifies this
      ensures View() == Queue(old(View()), index, now, pick)
    {
      tunnelsWaiting := tunnelsWaiting + [index];
      var more := WaitForNextTunnel(index, pick);
      if !backoffTimer {
        var bound := backoff.TimerBound(now);
        backoff := backoff.AfterTimer(now);
        if bound.Some? && bound.value <= 0 {
          phase := Crashed;
        } else {
          backoffTimer := bound.Some?;
        }
      }
    }

    method OnTunnelError(index: nat, kind: ErrorKind, now: int, pick: nat)
      requires Enabled(View(), TunnelError(index, kind, now, pick))
      modifies this
      ensures View() == AfterTunnelError(old(View()), index, kind, now, pick)
    {
      Receive(index);
      if kind != Graceful && !shuttingDown {
        if kind == Reconnect {
          StartTunnel(index);
          tunnelsActive := tunnelsActive + 1;
        } else if tunnelsProtocolFallback[index].GetMaxBackoffDuration(cancelled, now).None? {
          GiveUp(index);
        } else {
          QueueTunnel(index, now, pick);
        }
      } else {
        Finish(index);
      }
    }

    method ClearTimer()
      modifies this
      ensures View() == old(View()).(timerArmed := false)
    {
      backoffTimer := false;
    }

    method CountStarted()
      modifies this
      ensures View() == old(View()).(active := old(tunnelsActive) + |old(tunnelsWaiting)|, waiting := [])
    {
      tunnelsActive := tunnelsActive + |tunnelsWaiting|;
      tunnelsWaiting := [];
    }

    method OnTimer()
      requires Enabled(View(), TimerFires)
      modifies this
      ensures View() == AfterTimer(old(View()))
    {
      ClearTimer();
      StartTunnels(tunnelsWaiting);
      CountStarted();
    }

    method OnNextConnected(now: int, wait: int, pick: nat)
      requires Enabled(View(), NextConnected(now, wait, pick))
      modifies this
      ensures View() == AfterNextConnected(old(View()), now, wait, pick)
    {
      var more := WaitForNextTunnel(nextConnectedIndex, pick);
      if !more && |tunnelsWaiting| == 0 {
        if backoff.GraceBound() <= 0 {
          phase := Crashed;
        } else {
          backoff := backoff.AfterGrace(now, wait);
        }
      }
    }

    method Settle()
      modifies this
      ensures View() == Quiesce(old(View()))
    {
      phase := if tunnelsActive > 0 then Draining else Returned;
    }

    /** A move of the environment. */
    method Observe(e: Event)
      requires Enabled(View(), e)
      requires e.Notify? || e.Cancel? || e.FallbackMoves?
      modifies this
      ensures View() == Step(old(View()), e)
    {
      match e {
        case Notify(channel) => notified := notified + {channel};
        case Cancel => cancelled := true;
        case FallbackMoves(index, handler) =>
          tunnelsProtocolFallback := tunnelsProtocolFallback[index := handler];
      }
    }

    /** One choice of the `select`. */
    method Handle(e: Event)
      requires Enabled(View(), e)
      modifies this
      ensures View() == Step(old(View()), e)
    {
      match e {
        case TunnelError(index, kind, now, pick) => OnTunnelError(index, kind, now, pick);
        case TimerFires => OnTimer();
        case NextConnected(now, wait, pick) => OnNextConnected(now, wait, pick);
        case GracefulShutdown => shuttingDown := true;
        case ContextDone => Settle();
        case DrainReceive(index) =>
          Receive(index);
          GiveUp(index);
          Settle();
        case _ => Observe(e);
      }
    }

    /** The loop, driven by the choices of its `select` and the moves of its environment. */
    method Run(events: seq<Event>)
      requires Inv(View()) && IsRun(View(), events)
      modifies this
      ensures View() == After(old(View()), events) && Inv(View())
      ensures phase.Returned? ==> tunnelsActive == 0 && inFlight == multiset{}
    {
      for k := 0 to |events|
        invariant IsRun(View(), events[k..]) && Inv(View())
        invariant After(View(), events[k..]) == After(old(View()), events)
      {
        assert events[k..][0] == events[k] && events[k..][1..] == events[k + 1..];
        StepKeeps(View(), events[k]);
        Handle(events[k]);
      }
    }
  }
}
