/**
 What a tunnel does when its connection ends (supervisor/tunnel.go): whether its edge address rotates,
 whether it waits for a retry, and whether it changes protocol.

 `Attempt` holds all that one end of a connection meets from outside: the error, the address pool, the
 context, the clock and the answers of the protocol selector.
 */
module TunnelServer {
  import opened Wrappers
  import opened Protocols
  import Backoff
  import ConnTracker

  const TWO_TO_8 := 256

  /** The kinds of error that are told apart by their type. */
  datatype ErrorKind = NoError | DupConnRegister | IdleTimeout | DialFailure | OtherError

  /** An error, and what a search of the errors it wraps finds. */
  datatype Failure = Failure(kind: ErrorKind, wrapsIdle: bool, wrapsTransport: bool, notPermitted: bool) {
    predicate QuicBroken() {
      wrapsIdle || (wrapsTransport && notPermitted)
    }
  }

  // ---------- Address rotation ----------

  type Retries = map<nat, nat>

  function RetriesOf(m: Retries, i: nat): nat {
    if i in m then m[i] else 0
  }

  predicate Exhausted(m: Retries, maxRetries: nat, i: nat) {
    RetriesOf(m, i) >= maxRetries
  }

  function AfterError(m: Retries, maxRetries: nat, i: nat, kind: ErrorKind): Retries {
    if kind != DialFailure then m
    else if Exhausted(m, maxRetries, i) then m[i := 0]
    else m[i := (RetriesOf(m, i) + 1) % TWO_TO_8]
  }

  predicate NeedsNewAddress(kind: ErrorKind) {
    kind == DupConnRegister || kind == IdleTimeout || kind == DialFailure
  }

  /** The connectivity error, if any: whether the retries are used up. */
  function ConnectivityError(m: Retries, maxRetries: nat, i: nat, kind: ErrorKind): Option<bool> {
    if kind == DialFailure then Some(Exhausted(m, maxRetries, i)) else None
  }

  datatype Ended = Ended(index: nat, kind: ErrorKind)

  function RetriesAfter(ends: seq<Ended>, n: nat, maxRetries: nat): Retries
    requires n <= |ends|
  {
    if n == 0 then map[]
    else AfterError(RetriesAfter(ends, n - 1, maxRetries), maxRetries, ends[n - 1].index, ends[n - 1].kind)
  }

  /** How many of the first `n` ends were dial failures of the index. */
  function Dials(ends: seq<Ended>, n: nat, i: nat): nat
    requires n <= |ends|
  {
    if n == 0 then 0 else Dials(ends, n - 1, i) + if ends[n - 1] == Ended(i, DialFailure) then 1 else 0
  }

  /** And how many of those reported the retries as used up. */
  function Reports(ends: seq<Ended>, n: nat, maxRetries: nat, i: nat): nat
    requires n <= |ends|
  {
    if n == 0 then 0
    else Reports(ends, n - 1, maxRetries, i)
         + if ends[n - 1] == Ended(i, DialFailure) && Exhausted(RetriesAfter(ends, n - 1, maxRetries), maxRetries, i)
           then 1 else 0
  }

  lemma OneMore(m: nat, x: nat)
    ensures m * (x + 1) == m * x + m
  {
  }

  lemma {:induction false} Spread(m: nat, low: nat, high: nat)
    requires low < high
    ensures m * high >= m * low + m
    decreases high
  {
    if high > low + 1 {
      Spread(m, low, high - 1);
    }
    OneMore(m, high - 1);
  }

  lemma SameQuotient(m: nat, q: nat, r: nat, k: nat, s: nat)
    requires r < m && s < m && m * k + s == m * q + r
    ensures k == q && s == r
  {
    if k < q {
      Spread(m, k, q);
    } else if q < k {
      Spread(m, q, k);
    }
  }

  lemma DivideExactly(n: nat, m: nat, q: nat, r: nat)
    requires r < m && n == m * q + r
    ensures n / m == q && n % m == r
  {
    SameQuotient(m, q, r, n / m, n % m);
  }

  /** The counter and the reports account for every dial failure. */
  lemma {:induction false} DialsAddUp(ends: seq<Ended>, n: nat, maxRetries: nat, i: nat)
    requires n <= |ends| && maxRetries < TWO_TO_8
    ensures RetriesOf(RetriesAfter(ends, n, maxRetries), i) <= maxRetries
    ensures Dials(ends, n, i)
         == (maxRetries + 1) * Reports(ends, n, maxRetries, i) + RetriesOf(RetriesAfter(ends, n, maxRetries), i)
  {
    if n > 0 {
      DialsAddUp(ends, n - 1, maxRetries, i);
      OneMore(maxRetries + 1, Reports(ends, n - 1, maxRetries, i));
    }
  }

  /**
   After any ends of connections, in any interleaving of indices and errors, the counter of an index is its
   dial failures modulo the retries plus one, and every full round of them was reported exactly once.
   */
  lemma DialsAreCounted(ends: seq<Ended>, n: nat, maxRetries: nat, i: nat)
    requires n <= |ends| && maxRetries < TWO_TO_8
    ensures RetriesOf(RetriesAfter(ends, n, maxRetries), i) == Dials(ends, n, i) % (maxRetries + 1)
    ensures Reports(ends, n, maxRetries, i) == Dials(ends, n, i) / (maxRetries + 1)
  {
    DialsAddUp(ends, n, maxRetries, i);
    DivideExactly(
      Dials(ends, n, i), maxRetries + 1,
      Reports(ends, n, maxRetries, i), RetriesOf(RetriesAfter(ends, n, maxRetries), i));
  }

  // ---------- Falling back ----------

  datatype Fallback = Fallback(handler: Backoff.Handler, protocol: Protocol, inFallback: bool) {
    /** A connection was established. */
    function Reset(now: int): Fallback {
      this.(handler := handler.AfterReset(now), inFallback := false)
    }

    function FallenBack(p: Protocol, now: int): Fallback {
      Fallback(handler.AfterReset(now), p, true)
    }
  }

  predicate OutOfRetries(f: Fallback, answers: Reads, quicBroken: bool) {
    f.handler.ReachedMaxRetries() || (answers.before.Some? && quicBroken)
  }

  /** The fallback is taken, not merely asked for. */
  predicate Switches(f: Fallback, answers: Reads, quicBroken: bool) {
    OutOfRetries(f, answers, quicBroken) && answers.fallback.Some? && f.protocol != answers.fallback.value
  }

  function SelectNext(f: Fallback, answers: Reads, quicBroken: bool, now: int): Fallback {
    if Switches(f, answers, quicBroken) then f.FallenBack(answers.fallback.value, now)
    else if OutOfRetries(f, answers, quicBroken) || f.inFallback then f
    else f.(protocol := answers.current)
  }

  datatype Exit = ContextDone | GracefulShutdown | TimerFired

  datatype Attempt = Attempt(
    failure: Failure,
    recoverable: bool,
    rotates: bool,
    cancelled: bool,
    reportAt: int,
    timerAt: int,
    exit: Exit,
    firedAt: int,
    answers: Reads)

  /** The protocol is to change, by the error itself or because the addresses to try are used up. */
  function ShouldFallback(m: Retries, maxRetries: nat, i: nat, a: Attempt): bool {
    var connectivity := ConnectivityError(m, maxRetries, i, a.failure.kind);
    if connectivity.Some? then connectivity.value else a.recoverable
  }

  /** The server gets as far as waiting for the backoff timer. */
  predicate Waits(f: Fallback, a: Attempt) {
    (NeedsNewAddress(a.failure.kind) ==> a.rotates)
    && f.handler.GetMaxBackoffDuration(a.cancelled, a.reportAt).Some?
  }

  function WithTimer(f: Fallback, a: Attempt): Fallback {
    f.(handler := f.handler.AfterTimer(a.timerAt))
  }

  /** A timer is made: there is one to make, and the draw of its wait does not panic. */
  predicate TimerRuns(f: Fallback, a: Attempt) {
    var bound := f.handler.TimerBound(a.timerAt);
    bound.Some? && bound.value > 0
  }

  /** The server gets as far as choosing a protocol. */
  predicate Chooses(f: Fallback, m: Retries, maxRetries: nat, infos: ConnTracker.Infos, i: nat, a: Attempt) {
    && Waits(f, a) && TimerRuns(f, a) && a.exit == TimerFired
    && ShouldFallback(m, maxRetries, i, a) && !ConnTracker.HasRecord(infos, a.answers.checked)
  }

  function AfterServe(f: Fallback, m: Retries, maxRetries: nat, infos: ConnTracker.Infos, i: nat, a: Attempt): Fallback
  {
    if !Waits(f, a) then f
    else if !Chooses(f, m, maxRetries, infos, i, a) then WithTimer(f, a)
    else SelectNext(WithTimer(f, a), a.answers, a.failure.QuicBroken(), a.firedAt)
  }

  predicate SwitchesAt(f: Fallback, m: Retries, maxRetries: nat, infos: ConnTracker.Infos, i: nat, a: Attempt) {
    Chooses(f, m, maxRetries, infos, i, a) && Switches(WithTimer(f, a), a.answers, a.failure.QuicBroken())
  }

  // ---------- Runs ----------

  /** All tunnels, with the address retries and the connection events they share. */
  datatype State = State(fallbacks: map<nat, Fallback>, retries: Retries, log: seq<ConnTracker.Event>)

  /** The kind of selector, the address retries, and the retry budget of every tunnel. */
  datatype Config = Config(kind: Kind, maxRetries: nat, retries: nat)

  datatype Event =
    /** Another tunnel is started, on the protocol that the first one has by then. */
    | Starts(i: nat)
    | Connects(i: nat, now: int)
    | Ends(i: nat, a: Attempt)
    | Tracked(e: ConnTracker.Event)

  predicate Enabled(c: Config, s: State, e: Event) {
    match e
    case Starts(i) => i !in s.fallbacks && 0 in s.fallbacks
    case Connects(i, now) => i in s.fallbacks
    case Ends(i, a) => i in s.fallbacks && Possible(c.kind, a.answers)
    case Tracked(_) => true
  }

  function NewFallback(c: Config, p: Protocol): Fallback {
    Fallback(Backoff.NewBackoff(c.retries, Backoff.DEFAULT_BASE_TIME, true), p, false)
  }

  /** The first tunnel, on the protocol the selector calls current. */
  function Initial(c: Config, current: Protocol): State {
    State(map[0 := NewFallback(c, current)], map[], [])
  }

  function Step(c: Config, s: State, e: Event): State
    requires Enabled(c, s, e)
  {
    match e
    case Starts(i) => s.(fallbacks := s.fallbacks[i := NewFallback(c, s.fallbacks[0].protocol)])
    case Connects(i, now) => s.(fallbacks := s.fallbacks[i := s.fallbacks[i].Reset(now)])
    case Ends(i, a) =>
      var f := AfterServe(s.fallbacks[i], s.retries, c.maxRetries, ConnTracker.After(s.log, |s.log|), i, a);
      s.(fallbacks := s.fallbacks[i := f], retries := AfterError(s.retries, c.maxRetries, i, a.failure.kind))
    case Tracked(te) => s.(log := s.log + [te])
  }

  predicate SwitchStep(c: Config, s: State, e: Event, i: nat)
    requires Enabled(c, s, e)
  {
    e.Ends? && e.i == i
    && SwitchesAt(s.fallbacks[i], s.retries, c.maxRetries, ConnTracker.After(s.log, |s.log|), i, e.a)
  }

  predicate IsRun(c: Config, s: State, events: seq<Event>)
    decreases |events|
  {
    events == [] || (Enabled(c, s, events[0]) && IsRun(c, Step(c, s, events[0]), events[1..]))
  }

  function After(c: Config, s: State, events: seq<Event>): State
    requires IsRun(c, s, events)
    decreases |events|
  {
    if events == [] then s else After(c, Step(c, s, events[0]), events[1..])
  }

  /** How often tunnel `i` falls back in a run. */
  function SwitchCount(c: Config, s: State, events: seq<Event>, i: nat): nat
    requires IsRun(c, s, events)
    decreases |events|
  {
    if events == [] then 0
    else (if SwitchStep(c, s, events[0], i) then 1 else 0) + SwitchCount(c, Step(c, s, events[0]), events[1..], i)
  }

  // ---------- Safety ----------

  predicate FallenMeansHTTP2(f: Fallback) {
    f.inFallback ==> f.protocol == HTTP2
  }

  ghost predicate Inv(s: State) {
    forall i :: i in s.fallbacks ==> FallenMeansHTTP2(s.fallbacks[i])
  }

  lemma InitialInv(c: Config, current: Protocol)
    ensures Inv(Initial(c, current))
    ensures InBudget(c, Initial(c, current))
    ensures forall i :: i in Initial(c, current).fallbacks ==> Initial(c, current).fallbacks[i].protocol == current
  {
  }

  /** The end of a connection leaves a fallback alone, and enters one only by a switch. */
  lemma ServeKeepsFallback(c: Config, f: Fallback, m: Retries, infos: ConnTracker.Infos, i: nat, a: Attempt)
    requires FallenMeansHTTP2(f) && Possible(c.kind, a.answers)
    ensures var next := AfterServe(f, m, c.maxRetries, infos, i, a);
            && FallenMeansHTTP2(next)
            && (f.inFallback ==> next.inFallback && next.protocol == f.protocol)
            && (SwitchesAt(f, m, c.maxRetries, infos, i, a) ==> !f.inFallback && next.inFallback)
            && (next.inFallback && !f.inFallback ==> SwitchesAt(f, m, c.maxRetries, infos, i, a))
  {
    FallbackIsHTTP2(c, a.answers);
  }

  lemma FallbackIsHTTP2(c: Config, answers: Reads)
    requires Possible(c.kind, answers)
    ensures answers.fallback.Some? ==> answers.fallback == Some(HTTP2)
  {
    if answers.fallback.Some? && c.kind.Changing? {
      var p :| answers.fallback == FallbackOf(p);
    }
  }

  lemma StepKeepsInv(c: Config, s: State, e: Event)
    requires Inv(s) && Enabled(c, s, e)
    ensures Inv(Step(c, s, e))
  {
    if e.Ends? {
      ServeKeepsFallback(c, s.fallbacks[e.i], s.retries, ConnTracker.After(s.log, |s.log|), e.i, e.a);
    }
  }

  /** A tunnel that is in its fallback speaks HTTP2, whatever happens and whatever its retry budget. */
  lemma {:induction false} RunKeepsInv(c: Config, s: State, events: seq<Event>)
    requires Inv(s) && IsRun(c, s, events)
    ensures Inv(After(c, s, events))
    decreases |events|
  {
    if events != [] {
      StepKeepsInv(c, s, events[0]);
      RunKeepsInv(c, Step(c, s, events[0]), events[1..]);
    }
  }

  // ---------- Retry budgets ----------

  /** Every tunnel retries forever and has used no more than its budget. */
  ghost predicate InBudget(c: Config, s: State) {
    forall i :: i in s.fallbacks ==>
      var h := s.fallbacks[i].handler;
      h.Valid() && h.maxRetries == c.retries && h.retryForever && h.baseTime == Backoff.DEFAULT_BASE_TIME
  }

  lemma ServeKeepsBudget(
    f: Fallback, m: Retries, maxRetries: nat, infos: ConnTracker.Infos, i: nat, a: Attempt)
    requires f.handler.Valid() && f.handler.Bounded()
    ensures var h := AfterServe(f, m, maxRetries, infos, i, a).handler;
            && h.Valid() && h.maxRetries == f.handler.maxRetries && h.retryForever == f.handler.retryForever
            && h.baseTime == f.handler.baseTime
  {
    Backoff.ApplyKeeps(f.handler, Backoff.AskTimer(a.timerAt));
  }

  /** No tunnel ever exceeds its retry budget, which may be any 64-bit number. */
  lemma {:induction false} RunKeepsBudget(c: Config, s: State, events: seq<Event>)
    requires c.retries < Backoff.TWO_TO_64 && InBudget(c, s) && IsRun(c, s, events)
    ensures InBudget(c, After(c, s, events))
    decreases |events|
  {
    if events != [] {
      var e := events[0];
      if e.Ends? {
        ServeKeepsBudget(
          s.fallbacks[e.i], s.retries, c.maxRetries, ConnTracker.After(s.log, |s.log|), e.i, e.a);
      }
      RunKeepsBudget(c, Step(c, s, e), events[1..]);
    }
  }

  /** The retries counted before the timer: none once the grace period has run out. */
  function RetriesBefore(h: Backoff.Handler, now: int): nat {
    if h.Expired(now) then 0 else h.retries
  }

  lemma TimerCountsUp(h: Backoff.Handler, now: int)
    requires h.Valid() && h.Bounded()
    ensures h.AfterTimer(now).retries ==
              if RetriesBefore(h, now) == h.maxRetries then h.maxRetries else RetriesBefore(h, now) + 1
    ensures h.AfterTimer(now).maxRetries == h.maxRetries
  {
  }

  // ---------- When a timer panics ----------

  const MAX_SAFE_RETRIES := 33

  lemma ScaledBase()
    ensures Backoff.Scale(1, MAX_SAFE_RETRIES) == 0x2_0000_0000
    ensures Backoff.Scale(1, MAX_SAFE_RETRIES + 1) == 0x4_0000_0000
  {
    assert Backoff.Scale(1, 8) == 0x100;
    assert Backoff.Scale(1, 16) == 0x1_0000;
    assert Backoff.Scale(1, 24) == 0x100_0000;
    assert Backoff.Scale(1, 32) == 0x1_0000_0000;
  }

  /** With up to 33 retries counted the bound of a timer is positive; with 34 it is not. */
  lemma BoundIsPositive(k: nat)
    ensures var bound := Backoff.ToInt64(Backoff.DEFAULT_BASE_TIME * Backoff.ShiftLeft(1, k));
            (k <= MAX_SAFE_RETRIES ==> bound > 0) && (k == MAX_SAFE_RETRIES + 1 ==> bound < 0)
  {
    ScaledBase();
    if k <= MAX_SAFE_RETRIES {
      Backoff.ScaleMonotone(1, k, MAX_SAFE_RETRIES);
    }
  }

  /** Up to 33 retries no tunnel ever panics. */
  lemma NeverPanics(c: Config, s: State, events: seq<Event>, i: nat, a: Attempt)
    requires c.retries <= MAX_SAFE_RETRIES && InBudget(c, s) && IsRun(c, s, events)
    ensures var last := After(c, s, events); i in last.fallbacks ==> TimerRuns(last.fallbacks[i], a)
  {
    RunKeepsBudget(c, s, events);
    var last := After(c, s, events);
    if i in last.fallbacks {
      var h := last.fallbacks[i].handler;
      Backoff.ForeverRetries(h, false, a.timerAt);
      TimerCountsUp(h, a.timerAt);
      BoundIsPositive(h.AfterTimer(a.timerAt).retries);
    }
  }

  /** A connection that failed, at the zero instant, for a reason that changes nothing but the retries. */
  function Setback(c: Config): Attempt {
    var answer := if c.kind.Static? then c.kind.pinned else QUIC;
    Attempt(Failure(OtherError, false, false, false), false, true, false, 0, 0, TimerFired, 0,
            Reads(answer, None, None, answer))
  }

  lemma SetbackCounts(c: Config, s: State)
    requires 0 in s.fallbacks && s.fallbacks[0].handler.retries < MAX_SAFE_RETRIES < c.retries
    requires s.fallbacks[0].handler == NewFallback(c, HTTP2).handler.(retries := s.fallbacks[0].handler.retries)
    ensures var e := Ends(0, Setback(c));
            && Enabled(c, s, e) && 0 in Step(c, s, e).fallbacks
            && Step(c, s, e).fallbacks[0].handler
               == s.fallbacks[0].handler.(retries := s.fallbacks[0].handler.retries + 1)
  {
    assert FallbackOf(HTTP2) == None;
  }

  /** Setbacks until the first tunnel has counted 33 retries. */
  lemma {:induction false} SetbackRun(c: Config, s: State) returns (events: seq<Event>)
    requires 0 in s.fallbacks && s.fallbacks[0].handler.retries <= MAX_SAFE_RETRIES < c.retries
    requires s.fallbacks[0].handler == NewFallback(c, HTTP2).handler.(retries := s.fallbacks[0].handler.retries)
    ensures IsRun(c, s, events) && 0 in After(c, s, events).fallbacks
    ensures After(c, s, events).fallbacks[0].handler == NewFallback(c, HTTP2).handler.(retries := MAX_SAFE_RETRIES)
    decreases MAX_SAFE_RETRIES - s.fallbacks[0].handler.retries
  {
    if s.fallbacks[0].handler.retries == MAX_SAFE_RETRIES {
      return [];
    }
    var e := Ends(0, Setback(c));
    SetbackCounts(c, s);
    var rest := SetbackRun(c, Step(c, s, e));
    events := [e] + rest;
    assert events[1..] == rest;
  }

  /** The timer of some tunnel panics in some run exactly when the budget is above 33 retries. */
  lemma PanicsIffOver33(c: Config, current: Protocol)
    ensures (exists events, a :: PanicsAfter(c, current, events, a)) <==> c.retries > MAX_SAFE_RETRIES
  {
    var s := Initial(c, current);
    InitialInv(c, current);
    if c.retries > MAX_SAFE_RETRIES {
      var events := SetbackRun(c, s);
      BoundIsPositive(MAX_SAFE_RETRIES + 1);
      assert PanicsAfter(c, current, events, Setback(c));
    }
    if events, a :| PanicsAfter(c, current, events, a) {
      if c.retries <= MAX_SAFE_RETRIES {
        NeverPanicsAfter(c, current, events, a);
      }
    }
  }

  /** After the run, some tunnel whose connection ends this way panics. */
  ghost predicate PanicsAfter(c: Config, current: Protocol, events: seq<Event>, a: Attempt) {
    && IsRun(c, Initial(c, current), events)
    && var last := After(c, Initial(c, current), events);
       exists i :: i in last.fallbacks && Waits(last.fallbacks[i], a) && !TimerRuns(last.fallbacks[i], a)
  }

  lemma NeverPanicsAfter(c: Config, current: Protocol, events: seq<Event>, a: Attempt)
    requires c.retries <= MAX_SAFE_RETRIES
    ensures !PanicsAfter(c, current, events, a)
  {
    if PanicsAfter(c, current, events, a) {
      var last := After(c, Initial(c, current), events);
      var i :| i in last.fallbacks && Waits(last.fallbacks[i], a) && !TimerRuns(last.fallbacks[i], a);
      InitialInv(c, current);
      NeverPanics(c, Initial(c, current), events, i, a);
    }
  }

  predicate ConnectsTunnel(e: Event, i: nat) {
    e.Connects? && e.i == i
  }

  /** What a step that does not connect tunnel `i` does to its fallback. */
  lemma StepOfTunnel(c: Config, s: State, e: Event, i: nat)
    requires Inv(s) && Enabled(c, s, e) && i in s.fallbacks && !ConnectsTunnel(e, i)
    ensures var f, next := s.fallbacks[i], Step(c, s, e).fallbacks[i];
            && (f.inFallback ==> next.inFallback && next.protocol == f.protocol && !SwitchStep(c, s, e, i))
            && (SwitchStep(c, s, e, i) ==> next.inFallback)
            && (next.inFallback && !f.inFallback ==> SwitchStep(c, s, e, i))
  {
    if e.Ends? && e.i == i {
      ServeKeepsFallback(c, s.fallbacks[i], s.retries, ConnTracker.After(s.log, |s.log|), i, e.a);
    }
  }

  /**
   Between two connects a tunnel falls back at most once: exactly when it ends up in its fallback without
   having been there. From then on it keeps its protocol until it connects.
   */
  lemma {:induction false} FallsBackOnceBetweenConnects(c: Config, s: State, events: seq<Event>, i: nat)
    requires Inv(s) && IsRun(c, s, events) && i in s.fallbacks
    requires forall e :: e in events ==> !ConnectsTunnel(e, i)
    ensures i in After(c, s, events).fallbacks
    ensures var f, last := s.fallbacks[i], After(c, s, events).fallbacks[i];
            && SwitchCount(c, s, events, i) == (if last.inFallback && !f.inFallback then 1 else 0)
            && (f.inFallback ==> last.inFallback && last.protocol == f.protocol)
    decreases |events|
  {
    if events != [] {
      assert events[0] in events;
      StepKeepsInv(c, s, events[0]);
      StepOfTunnel(c, s, events[0], i);
      FallsBackOnceBetweenConnects(c, Step(c, s, events[0]), events[1..], i);
    }
  }

  /** A pinned protocol never changes, on any tunnel. */
  lemma {:induction false} PinnedStays(c: Config, s: State, events: seq<Event>, p: Protocol)
    requires c.kind == Static(p) && IsRun(c, s, events)
    requires forall i :: i in s.fallbacks ==> s.fallbacks[i].protocol == p
    ensures forall i :: i in After(c, s, events).fallbacks ==> After(c, s, events).fallbacks[i].protocol == p
    decreases |events|
  {
    if events != [] {
      PinnedStays(c, Step(c, s, events[0]), events[1..], p);
    }
  }

  /**
   A tunnel changes protocol when its connection ends only if no connection that had any event last
   connected with what the selector calls current, counting as HTTP2 those that never did.
   */
  lemma ChangesOnlyUntried(c: Config, s: State, i: nat, a: Attempt, index: nat)
    requires Enabled(c, s, Ends(i, a))
    requires Step(c, s, Ends(i, a)).fallbacks[i].protocol != s.fallbacks[i].protocol
    requires ConnTracker.Mentioned(s.log, |s.log|, index)
    ensures ConnTracker.LastConnected(s.log, |s.log|, index) != a.answers.checked
  {
    ConnTracker.HasRecordIff(s.log, a.answers.checked);
  }

  /** With a fallback possible and the current protocol untried, exactly these ends make a tunnel fall back. */
  lemma FallsBackIff(c: Config, s: State, i: nat, a: Attempt)
    requires Enabled(c, s, Ends(i, a)) && c.kind == Changing
    requires a.answers == Reads(QUIC, Some(HTTP2), Some(HTTP2), QUIC)
    requires s.fallbacks[i].protocol == QUIC && !a.cancelled && s.fallbacks[i].handler.retryForever
    requires forall index :: ConnTracker.Mentioned(s.log, |s.log|, index) ==>
               ConnTracker.LastConnected(s.log, |s.log|, index) == HTTP2
    ensures SwitchStep(c, s, Ends(i, a), i) <==>
      && (a.failure.kind in {DupConnRegister, IdleTimeout, DialFailure} ==> a.rotates)
      && TimerRuns(s.fallbacks[i], a) && a.exit == TimerFired
      && (if a.failure.kind == DialFailure then (if i in s.retries then s.retries[i] else 0) >= c.maxRetries
          else a.recoverable)
      && (|| a.failure.wrapsIdle || (a.failure.wrapsTransport && a.failure.notPermitted)
          || s.fallbacks[i].handler.AfterTimer(a.timerAt).retries == s.fallbacks[i].handler.maxRetries)
  {
    ConnTracker.HasRecordIff(s.log, QUIC);
    Backoff.ForeverRetries(s.fallbacks[i].handler, false, a.reportAt);
  }

  /**
   A tunnel that falls back starts with a whole retry budget; otherwise waiting uses up one retry, if there
   is one left.
   */
  lemma WaitingUsesRetries(f: Fallback, m: Retries, maxRetries: nat, infos: ConnTracker.Infos, i: nat, a: Attempt)
    requires f.handler.Valid() && f.handler.Bounded() && Waits(f, a)
    ensures AfterServe(f, m, maxRetries, infos, i, a).handler.retries ==
              if SwitchesAt(f, m, maxRetries, infos, i, a) then 0
              else if RetriesBefore(f.handler, a.timerAt) == f.handler.maxRetries then f.handler.maxRetries
              else RetriesBefore(f.handler, a.timerAt) + 1
  {
    TimerCountsUp(f.handler, a.timerAt);
  }

  /**
   A tunnel that is to choose, outside its fallback, follows the selector exactly when it already agrees
   with it or still has a retry left after this one, with QUIC not broken; unless it falls back.
   */
  lemma FollowsSelector(f: Fallback, m: Retries, maxRetries: nat, infos: ConnTracker.Infos, i: nat, a: Attempt)
    requires f.handler.Valid() && f.handler.Bounded()
    requires !f.inFallback && Chooses(f, m, maxRetries, infos, i, a) && !SwitchesAt(f, m, maxRetries, infos, i, a)
    ensures AfterServe(f, m, maxRetries, infos, i, a).protocol == a.answers.current <==>
      || f.protocol == a.answers.current
      || (&& RetriesBefore(f.handler, a.timerAt) + 1 < f.handler.maxRetries
          && !(&& a.answers.before.Some?
               && (a.failure.wrapsIdle || (a.failure.wrapsTransport && a.failure.notPermitted))))
  {
    TimerCountsUp(f.handler, a.timerAt);
  }

  /**
   Without the new address that it needs, or once it is cancelled, a tunnel is left as it was; otherwise its
   backoff moves on, or its protocol.
   */
  lemma WaitsIff(f: Fallback, m: Retries, maxRetries: nat, infos: ConnTracker.Infos, i: nat, a: Attempt)
    requires f.handler.retryForever
    ensures var stays := (a.failure.kind in {DupConnRegister, IdleTimeout, DialFailure} && !a.rotates) || a.cancelled;
            && (stays ==> AfterServe(f, m, maxRetries, infos, i, a) == f)
            && (!stays && a.exit != TimerFired ==>
                  AfterServe(f, m, maxRetries, infos, i, a) == f.(handler := f.handler.AfterTimer(a.timerAt)))
  {
    Backoff.ForeverRetries(f.handler, a.cancelled, a.reportAt);
  }

  /**
   From a connect on, until the next one: the tunnel begins outside its fallback, on the protocol it had and
   with all its retries, and falls back at most once, exactly when it ends in its fallback.
   */
  lemma ConnectEndsFallback(c: Config, s: State, i: nat, now: int, events: seq<Event>)
    requires Inv(s) && IsRun(c, s, [Connects(i, now)] + events)
    requires forall e :: e in events ==> !ConnectsTunnel(e, i)
    ensures i in s.fallbacks && i in Step(c, s, Connects(i, now)).fallbacks
    ensures i in After(c, s, [Connects(i, now)] + events).fallbacks
    ensures var f, last := Step(c, s, Connects(i, now)).fallbacks[i],
                           After(c, s, [Connects(i, now)] + events).fallbacks[i];
            && !f.inFallback && f.protocol == s.fallbacks[i].protocol && f.handler.retries == 0
            && SwitchCount(c, s, [Connects(i, now)] + events, i) == (if last.inFallback then 1 else 0)
  {
    var all := [Connects(i, now)] + events;
    assert all[0] == Connects(i, now) && all[1..] == events;
    StepKeepsInv(c, s, Connects(i, now));
    FallsBackOnceBetweenConnects(c, Step(c, s, Connects(i, now)), events, i);
  }

  /** A tunnel that starts on QUIC where QUIC is broken ends up on HTTP2 after the first wait. */
  lemma BrokenQuicFallsBack(c: Config, a: Attempt)
    requires c.kind == Changing && a.failure.kind == OtherError && a.failure.wrapsIdle && a.recoverable
    requires !a.cancelled && a.exit == TimerFired && a.answers == Reads(QUIC, Some(HTTP2), Some(HTTP2), QUIC)
    requires c.retries <= MAX_SAFE_RETRIES
    ensures IsRun(c, Initial(c, QUIC), [Ends(0, a)])
    ensures 0 in After(c, Initial(c, QUIC), [Ends(0, a)]).fallbacks
    ensures var last := After(c, Initial(c, QUIC), [Ends(0, a)]).fallbacks[0];
            last.protocol == HTTP2 && last.inFallback && last.handler.retries == 0
  {
    var s := Initial(c, QUIC);
    InitialInv(c, QUIC);
    assert FallbackOf(QUIC) == Some(HTTP2);
    NeverPanics(c, s, [], 0, a);
    Backoff.ForeverRetries(s.fallbacks[0].handler, false, a.reportAt);
    assert ConnTracker.After(s.log, 0) == map[];
    assert [Ends(0, a)][1..] == [];
  }

  // ---------- The objects ----------

  class IpAddrFallback {
    var retriesByConnIndex: Retries
    const maxRetries: nat

    constructor (maxRetries: nat)
      ensures retriesByConnIndex == map[] && this.maxRetries == maxRetries
    {
      retriesByConnIndex := map[];
      this.maxRetries := maxRetries;
    }

    method ShouldGetNewAddress(connIndex: nat, kind: ErrorKind)
      returns (needsNewAddress: bool, connectivityError: Option<bool>)
      modifies this
      ensures retriesByConnIndex == AfterError(old(retriesByConnIndex), maxRetries, connIndex, kind)
      ensures needsNewAddress <==> kind in {DupConnRegister, IdleTimeout, DialFailure}
      ensures connectivityError == ConnectivityError(old(retriesByConnIndex), maxRetries, connIndex, kind)
      ensures connectivityError.Some? <==> kind == DialFailure
      ensures connectivityError.Some? ==>
        connectivityError.value == ((if connIndex in old(retriesByConnIndex) then old(retriesByConnIndex)[connIndex]
                                     else 0) >= maxRetries)
    {
      match kind {
        case NoError =>
        case DupConnRegister =>
          return true, None;
        case IdleTimeout =>
          return true, None;
        case DialFailure =>
          var retries := RetriesOf(retriesByConnIndex, connIndex);
          if retries >= maxRetries {
            retriesByConnIndex := retriesByConnIndex[connIndex := 0];
            return true, Some(true);
          }
          retriesByConnIndex := retriesByConnIndex[connIndex := (retries + 1) % TWO_TO_8];
          return true, Some(false);
        case OtherError =>
      }
      return false, None;
    }
  }

  class ProtocolFallback {
    const backoff: Backoff.BackoffHandler
    var protocol: Protocol
    var inFallback: bool

    function View(): Fallback
      reads this, backoff
    {
      Fallback(backoff.State(), protocol, inFallback)
    }

    constructor (backoff: Backoff.BackoffHandler, protocol: Protocol)
      ensures this.backoff == backoff && View() == Fallback(backoff.State(), protocol, false)
    {
      this.backoff, this.protocol, inFallback := backoff, protocol, false;
    }

    method Reset(now: int)
      modifies this, backoff
      ensures View() == old(View()).Reset(now)
    {
      backoff.ResetNow(now);
      inFallback := false;
    }

    method FallBack(p: Protocol, now: int)
      modifies this, backoff
      ensures View() == old(View()).FallenBack(p, now)
    {
      backoff.ResetNow(now);
      protocol := p;
      inFallback := true;
    }

    /** `ok` is false when there is no protocol left to try. */
    method SelectNextProtocol(answers: Reads, quicBroken: bool, now: int) returns (ok: bool)
      modifies this, backoff
      ensures View() == SelectNext(old(View()), answers, quicBroken, now)
      ensures ok <==> OutOfRetries(old(View()), answers, quicBroken) ==> Switches(old(View()), answers, quicBroken)
    {
      if backoff.State().ReachedMaxRetries() || (answers.before.Some? && quicBroken) {
        if answers.fallback.None? {
          return false;
        }
        if protocol == answers.fallback.value {
          return false;
        }
        FallBack(answers.fallback.value, now);
      } else if !inFallback {
        if protocol != answers.current {
          protocol := answers.current;
        }
      }
      return true;
    }
  }

  class EdgeTunnelServer {
    const edgeAddrHandler: IpAddrFallback
    const tracker: ConnTracker.Tracker

    constructor (maxEdgeAddrRetries: nat)
      ensures fresh(edgeAddrHandler) && fresh(tracker)
      ensures edgeAddrHandler.maxRetries == maxEdgeAddrRetries
      ensures edgeAddrHandler.retriesByConnIndex == map[] && tracker.connectionInfo == map[]
    {
      edgeAddrHandler := new IpAddrFallback(maxEdgeAddrRetries);
      tracker := new ConnTracker.Tracker();
    }

    /**
     What follows the end of a connection; `draw` is the random number behind the backoff timer. It panics
     exactly when it would wait for a timer whose bound has overflowed.
     */
    method FinishServe(connIndex: nat, pf: ProtocolFallback, a: Attempt, draw: nat) returns (panics: bool)
      modifies edgeAddrHandler, pf, pf.backoff
      ensures pf.View() == AfterServe(
        old(pf.View()), old(edgeAddrHandler.retriesByConnIndex), edgeAddrHandler.maxRetries,
        tracker.connectionInfo, connIndex, a)
      ensures edgeAddrHandler.retriesByConnIndex == AfterError(
        old(edgeAddrHandler.retriesByConnIndex), edgeAddrHandler.maxRetries, connIndex, a.failure.kind)
      ensures panics <==>
        && Waits(old(pf.View()), a)
        && old(pf.View()).handler.TimerBound(a.timerAt).Some? && !TimerRuns(old(pf.View()), a)
    {
      panics := false;
      var shouldFallbackProtocol := a.recoverable;
      var shouldRotateEdgeIP, cErr := edgeAddrHandler.ShouldGetNewAddress(connIndex, a.failure.kind);
      if shouldRotateEdgeIP {
        if !a.rotates {
          return;
        }
        if cErr.Some? {
          shouldFallbackProtocol := cErr.value;
        }
      }
      var duration := pf.backoff.State().GetMaxBackoffDuration(a.cancelled, a.reportAt);
      if duration.None? {
        return;
      }
      var timer := pf.backoff.BackoffTimer(a.timerAt, draw);
      if timer.Panic? {
        return true;
      }
      // A timer that was not made never fires.
      if timer.NoTimer? || a.exit != TimerFired || !shouldFallbackProtocol {
        return;
      }
      var connected := tracker.HasConnectedWith(a.answers.checked);
      if connected {
        return;
      }
      var ok := pf.SelectNextProtocol(a.answers, a.failure.QuicBroken(), a.firedAt);
    }
  }
}
