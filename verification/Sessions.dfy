/**
 The manager of UDP sessions (datagramsession/manager.go) and the sessions it hands out
 (datagramsession/session.go).

 Session objects live in `arena`; the manager's map holds indices into it. Each session has a queue of
 close reasons of capacity two, to which the manager and the session's reader write and from which its
 server takes one.
 */
module Sessions {
  import opened Wrappers

  const CLOSE_CAPACITY := 2

  datatype Reason = ClosedByManager(byRemote: bool) | ReaderError

  /** A server waits for a reason to close; unless the remote closed the session, it then tells the manager. */
  datatype Stage = Serving | Ending | Done(told: bool)

  datatype Session = Session(
    id: nat,
    token: nat,
    stage: Stage,
    queue: seq<Reason>,
    taken: nat,
    managerCloses: nat,
    readerCloses: nat)
  {
    function ManagerClosed(byRemote: bool): Session {
      this.(queue := queue + [ClosedByManager(byRemote)], managerCloses := managerCloses + 1)
    }

    function ReaderClosed(): Session {
      this.(queue := queue + [ReaderError], readerCloses := readerCloses + 1)
    }

    /** The server takes the oldest reason. */
    function Took(): Session
      requires queue != []
    {
      this.(queue := queue[1..], taken := taken + 1,
            stage := if queue[0] == ClosedByManager(true) then Done(true) else Ending)
    }

    /** At most one close from each side, and every one of them queued or taken. */
    predicate Inv() {
      && managerCloses <= 1 && readerCloses <= 1
      && |queue| + taken == managerCloses + readerCloses
      && ((exists i :: 0 <= i < |queue| && queue[i].ClosedByManager?) ==> managerCloses == 1)
    }
  }

  function NewSession(id: nat, token: nat): Session {
    Session(id, token, Serving, [], 0, 0, 0)
  }

  /** `overwritten` are the sessions whose ID was registered again while the map still held them. */
  datatype Table = Table(
    sessions: map<nat, nat>,
    arena: seq<Session>,
    gauge: int,
    overwritten: set<nat>)

  function NewTable(): Table {
    Table(map[], [], 0, {})
  }

  function AfterRegister(m: Table, id: nat, token: nat): Table {
    Table(
      m.sessions[id := |m.arena|],
      m.arena + [NewSession(id, token)],
      m.gauge + 1,
      if id in m.sessions then m.overwritten + {m.sessions[id]} else m.overwritten)
  }

  ghost predicate Indexed(m: Table) {
    forall id :: id in m.sessions ==> m.sessions[id] < |m.arena|
  }

  ghost function AfterUnregister(m: Table, id: nat, byRemote: bool): Table
    requires Indexed(m)
  {
    if id !in m.sessions then m
    else
      var h := m.sessions[id];
      m.(sessions := m.sessions - {id}, arena := m.arena[h := m.arena[h].ManagerClosed(byRemote)], gauge := m.gauge - 1)
  }

  ghost predicate Registered(m: Table, h: nat)
    requires h < |m.arena|
  {
    m.arena[h].id in m.sessions && m.sessions[m.arena[h].id] == h
  }

  /** Every registered session closed as if by the remote, and the map emptied. */
  ghost function AfterShutdown(m: Table): Table {
    m.(
    sessions := map[],
    arena := seq(|m.arena|, h requires 0 <= h < |m.arena| =>
      if Registered(m, h) then m.arena[h].ManagerClosed(true) else m.arena[h]),
    gauge := m.gauge - |m.sessions|)
  }

  // ---------- The invariant ----------

  /** A session is still to be closed by the manager if the map holds it or it was overwritten. */
  ghost predicate Unclosed(m: Table, h: nat)
    requires h < |m.arena|
  {
    Registered(m, h) || h in m.overwritten
  }

  ghost predicate Inv(m: Table) {
    && Indexed(m)
    && (forall id :: id in m.sessions ==> m.arena[m.sessions[id]].id == id)
    && (forall h :: h in m.overwritten ==> h < |m.arena| && !Registered(m, h))
    && (forall h :: 0 <= h < |m.arena| ==>
          m.arena[h].Inv() && m.arena[h].managerCloses == if Unclosed(m, h) then 0 else 1)
    && m.gauge - |m.sessions| == |m.overwritten|
  }

  lemma NewTableInv()
    ensures Inv(NewTable())
  {
  }

  lemma RegisterCounts(m: Table, id: nat, token: nat)
    requires m.gauge - |m.sessions| == |m.overwritten|
    requires id in m.sessions ==> m.sessions[id] !in m.overwritten
    ensures var next := AfterRegister(m, id, token); next.gauge - |next.sessions| == |next.overwritten|
  {
    var next := AfterRegister(m, id, token);
    if id in m.sessions {
      assert next.sessions.Keys == m.sessions.Keys;
    } else {
      assert next.sessions.Keys == m.sessions.Keys + {id};
    }
  }

  lemma RegisterUnclosed(m: Table, id: nat, token: nat, h: nat)
    requires Inv(m) && h < |m.arena|
    ensures var next := AfterRegister(m, id, token);
            && next.arena[h] == m.arena[h]
            && (Unclosed(next, h) <==> Unclosed(m, h))
            && (h in next.overwritten ==> !Registered(next, h))
  {
  }

  lemma RegisterRegisters(m: Table, id: nat, token: nat)
    ensures Registered(AfterRegister(m, id, token), |m.arena|)
  {
  }

  lemma RegisterKeepsInv(m: Table, id: nat, token: nat)
    requires Inv(m)
    ensures Inv(AfterRegister(m, id, token))
  {
    var next := AfterRegister(m, id, token);
    forall h: nat | h < |m.arena|
      ensures next.arena[h] == m.arena[h]
      ensures Unclosed(m, h) <==> Unclosed(next, h)
      ensures h in next.overwritten ==> !Registered(next, h)
    {
      RegisterUnclosed(m, id, token, h);
    }
    if id in m.sessions {
      assert Registered(m, m.sessions[id]);
    }
    RegisterCounts(m, id, token);
    assert Registered(next, |m.arena|);
  }

  /** The manager closes a session only with room in its queue, so it never blocks. */
  lemma UnregisterKeepsInv(m: Table, id: nat, byRemote: bool)
    requires Inv(m)
    ensures Inv(AfterUnregister(m, id, byRemote))
    ensures id in m.sessions ==> |m.arena[m.sessions[id]].queue| < CLOSE_CAPACITY
  {
    if id in m.sessions {
      var target := m.sessions[id];
      assert Registered(m, target);
      var next := AfterUnregister(m, id, byRemote);
      forall h | 0 <= h < |next.arena|
        ensures next.arena[h].Inv() && next.arena[h].managerCloses == if Unclosed(next, h) then 0 else 1
      {
        assert next.arena[h].id == m.arena[h].id;
        if h == target {
          CloseKeepsSessionInv(m.arena[h], byRemote);
        } else {
          assert Unclosed(m, h) <==> Unclosed(next, h);
        }
      }
      assert m.sessions.Keys == next.sessions.Keys + {id};
    }
  }

  lemma CloseKeepsSessionInv(s: Session, byRemote: bool)
    requires s.Inv() && s.managerCloses == 0
    ensures s.ManagerClosed(byRemote).Inv() && |s.queue| < CLOSE_CAPACITY
  {
    var next := s.ManagerClosed(byRemote);
    assert next.queue[|s.queue|].ClosedByManager?;
  }

  lemma ShutdownKeepsInv(m: Table)
    requires Inv(m)
    ensures Inv(AfterShutdown(m))
    ensures forall h :: 0 <= h < |m.arena| && Registered(m, h) ==> |m.arena[h].queue| < CLOSE_CAPACITY
  {
    var next := AfterShutdown(m);
    forall h | 0 <= h < |next.arena|
      ensures next.arena[h].Inv() && next.arena[h].managerCloses == if Unclosed(next, h) then 0 else 1
      ensures Registered(m, h) ==> |m.arena[h].queue| < CLOSE_CAPACITY
    {
      assert next.arena[h].id == m.arena[h].id;
      if Registered(m, h) {
        CloseKeepsSessionInv(m.arena[h], true);
      }
    }
  }

  // ---------- The session's own steps ----------

  ghost function WithSession(m: Table, h: nat, s: Session): Table
    requires h < |m.arena|
  {
    m.(arena := m.arena[h := s])
  }

  lemma SessionStepKeepsInv(m: Table, h: nat, s: Session)
    requires Inv(m) && h < |m.arena|
    requires s.Inv() && s.id == m.arena[h].id && s.managerCloses == m.arena[h].managerCloses
    ensures Inv(WithSession(m, h, s))
  {
    var next := WithSession(m, h, s);
    forall k | 0 <= k < |next.arena|
      ensures next.arena[k].Inv() && next.arena[k].managerCloses == if Unclosed(next, k) then 0 else 1
    {
      assert next.arena[k].id == m.arena[k].id;
      assert Unclosed(m, k) <==> Unclosed(next, k);
    }
  }

  /** The reader closes with room in the queue too: it is the only other one to write to it, and does so once. */
  lemma ReaderNeverBlocks(s: Session)
    requires s.Inv() && s.readerCloses == 0
    ensures s.ReaderClosed().Inv() && |s.queue| < CLOSE_CAPACITY
  {
    var next := s.ReaderClosed();
    forall i | 0 <= i < |next.queue| && next.queue[i].ClosedByManager?
      ensures s.managerCloses == 1
    {
      assert s.queue[i].ClosedByManager?;
    }
  }

  lemma TakeKeepsSessionInv(s: Session)
    requires s.Inv() && s.queue != []
    ensures s.Took().Inv()
    ensures s.queue[0].ClosedByManager? ==> s.managerCloses == 1
  {
    var next := s.Took();
    forall i | 0 <= i < |next.queue| && next.queue[i].ClosedByManager?
      ensures s.managerCloses == 1
    {
      assert s.queue[i + 1].ClosedByManager?;
    }
  }

  // ---------- The manager ----------

  class Manager {
    var sessions: map<nat, nat>
    var arena: seq<Session>
    var gauge: int
    ghost var overwritten: set<nat>

    ghost function View(): Table
      reads this
    {
      Table(sessions, arena, gauge, overwritten)
    }

    constructor ()
      ensures View() == NewTable() && Inv(View())
    {
      sessions, arena, gauge, overwritten := map[], [], 0, {};
      new;
      NewTableInv();
    }

    method RegisterSession(id: nat, token: nat) returns (session: nat)
      requires Inv(View())
      modifies this
      ensures Inv(View()) && View() == AfterRegister(old(View()), id, token)
      ensures session == old(|arena|) && session < |arena| && Registered(View(), session)
    {
      ghost var before := View();
      if id in sessions {
        overwritten := overwritten + {sessions[id]};
      }
      session := |arena|;
      arena := arena + [NewSession(id, token)];
      sessions := sessions[id := session];
      gauge := gauge + 1;
      assert View() == AfterRegister(before, id, token);
      RegisterKeepsInv(before, id, token);
      RegisterRegisters(before, id, token);
    }

    method UnregisterSession(id: nat, byRemote: bool)
      requires Inv(View())
      modifies this
      ensures Inv(View()) && View() == AfterUnregister(old(View()), id, byRemote)
    {
      UnregisterKeepsInv(View(), id, byRemote);
      if id in sessions {
        var session := sessions[id];
        sessions := sessions - {id};
        arena := arena[session := arena[session].ManagerClosed(byRemote)];
        gauge := gauge - 1;
      }
    }

    /** The map is iterated in any order; each session is unregistered under the ID it carries. */
    method ShutdownSessions()
      requires Inv(View())
      modifies this
      ensures Inv(View()) && View() == AfterShutdown(old(View()))
    {
      ghost var start := View();
      var todo := sessions.Keys;
      while todo != {}
        invariant Inv(View()) && ShutDownExcept(start, todo, View())
        decreases todo
      {
        var key :| key in todo;
        ShutDownOne(start, todo, View(), key);
        UnregisterSession(arena[sessions[key]].id, true);
        todo := todo - {key};
      }
      assert arena == AfterShutdown(start).arena;
    }

    /** The session that gets a datagram is one the manager has not closed, under its own ID. */
    method SendToSession(id: nat) returns (session: Option<nat>)
      requires Inv(View())
      ensures session.None? <==> id !in sessions
      ensures session.Some? ==>
        && session.value < |arena| && Registered(View(), session.value)
        && arena[session.value].id == id && arena[session.value].managerCloses == 0
    {
      if id !in sessions {
        return None;
      }
      return Some(sessions[id]);
    }
  }

  /** A shutdown that has still to close the sessions under the IDs in `todo`. */
  ghost predicate ShutDownExcept(start: Table, todo: set<nat>, m: Table) {
    && m.overwritten == start.overwritten && |m.arena| == |start.arena|
    && m.sessions.Keys == todo && todo <= start.sessions.Keys
    && (forall id :: id in todo ==> m.sessions[id] == start.sessions[id])
    && m.gauge == start.gauge - |start.sessions| + |m.sessions|
    && (forall h :: 0 <= h < |m.arena| ==>
          m.arena[h] == if Registered(start, h) && start.arena[h].id !in todo
                        then start.arena[h].ManagerClosed(true) else start.arena[h])
  }

  lemma ShutDownOne(start: Table, todo: set<nat>, m: Table, id: nat)
    requires Inv(m) && ShutDownExcept(start, todo, m) && id in todo
    ensures m.arena[m.sessions[id]].id == id
    ensures ShutDownExcept(start, todo - {id}, AfterUnregister(m, id, true))
  {
    var next := AfterUnregister(m, id, true);
    assert m.sessions.Keys == next.sessions.Keys + {id};
    assert next.sessions.Keys == todo - {id};
  }

  // ---------- The server of a session ----------

  const SECOND := 1_000_000_000
  const DEFAULT_CLOSE_IDLE_AFTER := 210 * SECOND

  /**
   What happens around the loop: its context ends, a close reason or a tick of the idle check is received,
   activity is marked by a read or a write, or the oldest mark is received.
   */
  datatype Signal = ContextDone | Close(reason: Reason) | Tick(now: int) | Mark(at: int) | Receive

  const ACTIVE_CAPACITY := 2

  /** `Panics` stands for a ticker whose period is not positive. */
  datatype Exit = StillWaiting | Cancelled | Closed(reason: Reason) | IdledOut | Panics

  function IdleAfter(closeAfterIdle: int): int {
    if closeAfterIdle == 0 then DEFAULT_CLOSE_IDLE_AFTER else closeAfterIdle
  }

  /** An eighth, rounded toward zero as durations are. */
  function CheckIdleFreq(idle: int): int {
    if idle >= 0 then idle / 8 else -(-idle / 8)
  }

  /** A mark that finds the channel full is dropped. */
  function AfterMark(activeAtChan: seq<int>, at: int): seq<int> {
    if |activeAtChan| < ACTIVE_CAPACITY then activeAtChan + [at] else activeAtChan
  }

  /** The channel of activity times, and the last time received, after the first `n` signals. */
  function Pending(signals: seq<Signal>, n: nat): seq<int>
    requires n <= |signals|
  {
    if n == 0 then []
    else
      var before := Pending(signals, n - 1);
      match signals[n - 1]
      case Mark(at) => AfterMark(before, at)
      case Receive => if before == [] then [] else before[1..]
      case _ => before
  }

  function LastActive(start: int, signals: seq<Signal>, n: nat): int
    requires n <= |signals|
  {
    if n == 0 then start
    else if signals[n - 1].Receive? && Pending(signals, n - 1) != [] then Pending(signals, n - 1)[0]
    else LastActive(start, signals, n - 1)
  }

  predicate ClosesAt(start: int, idle: int, signals: seq<Signal>, k: nat)
    requires k < |signals|
  {
    match signals[k]
    case ContextDone => true
    case Close(_) => true
    case Tick(now) => now > LastActive(start, signals, k) + idle
    case _ => false
  }

  function ExitOf(signal: Signal): Exit {
    match signal
    case ContextDone => Cancelled
    case Close(reason) => Closed(reason)
    case Tick(_) => IdledOut
    case _ => StillWaiting
  }

  /** The tick at `k` is later, by more than the allowed time, than the start and than every mark before it. */
  predicate Overdue(start: int, closeAfterIdle: int, signals: seq<Signal>, k: nat)
    requires k < |signals| && signals[k].Tick?
  {
    var idle := if closeAfterIdle == 0 then 210_000_000_000 else closeAfterIdle;
    && signals[k].now > start + idle
    && forall j :: 0 <= j < k && signals[j].Mark? ==> signals[k].now > signals[j].at + idle
  }

  /** The session cannot outlive the signal at `k`. */
  predicate MustEnd(start: int, closeAfterIdle: int, signals: seq<Signal>, k: nat)
    requires k < |signals|
  {
    signals[k].ContextDone? || signals[k].Close? || (signals[k].Tick? && Overdue(start, closeAfterIdle, signals, k))
  }

  /** The exit that goes with a signal, and for a tick, something that has been idle for too long. */
  predicate EndsBy(exit: Exit, start: int, closeAfterIdle: int, signals: seq<Signal>, n: nat)
    requires n < |signals|
  {
    var idle := if closeAfterIdle == 0 then 210_000_000_000 else closeAfterIdle;
    match signals[n]
    case ContextDone => exit == Cancelled
    case Close(reason) => exit == Closed(reason)
    case Tick(now) =>
      && exit == IdledOut
      && (now > start + idle || exists j :: 0 <= j < n && signals[j].Mark? && now > signals[j].at + idle)
    case _ => false
  }

  predicate MarkedAt(signals: seq<Signal>, n: nat, at: int)
    requires n <= |signals|
  {
    exists j :: 0 <= j < n && signals[j].Mark? && signals[j].at == at
  }

  /** The times in the channel, and the last one received, were marked, or are the start. */
  lemma {:induction false} ActivityWasMarked(start: int, signals: seq<Signal>, n: nat)
    requires n <= |signals|
    ensures forall at :: at in Pending(signals, n) ==> MarkedAt(signals, n, at)
    ensures LastActive(start, signals, n) == start || MarkedAt(signals, n, LastActive(start, signals, n))
  {
    if n > 0 {
      ActivityWasMarked(start, signals, n - 1);
      forall at | MarkedAt(signals, n - 1, at)
        ensures MarkedAt(signals, n, at)
      {
      }
      if signals[n - 1].Mark? {
        assert MarkedAt(signals, n, signals[n - 1].at);
      }
    }
  }

  lemma OverdueCloses(start: int, closeAfterIdle: int, signals: seq<Signal>, k: nat)
    requires k < |signals|
    ensures MustEnd(start, closeAfterIdle, signals, k) ==> ClosesAt(start, IdleAfter(closeAfterIdle), signals, k)
    ensures ClosesAt(start, IdleAfter(closeAfterIdle), signals, k) ==>
              EndsBy(ExitOf(signals[k]), start, closeAfterIdle, signals, k)
  {
    ActivityWasMarked(start, signals, k);
  }

  /** Receiving takes the oldest of the times that wait, and it is then the last activity. */
  lemma ReceiveTakesOldest(start: int, signals: seq<Signal>, k: nat)
    requires k < |signals| && signals[k] == Receive && Pending(signals, k) != []
    ensures Pending(signals, k) == [LastActive(start, signals, k + 1)] + Pending(signals, k + 1)
  {
  }

  /** A time that is marked waits behind the others, unless two wait already. */
  lemma MarkWaits(signals: seq<Signal>, k: nat)
    requires k < |signals| && signals[k].Mark?
    ensures Pending(signals, k + 1) ==
              if |Pending(signals, k)| < 2 then Pending(signals, k) + [signals[k].at] else Pending(signals, k)
  {
  }

  /**
   The loop ends at the first signal that closes the session, and for the reason that signal gives; at the
   latest when it is cancelled, asked to close, or idle beyond doubt at a tick. It is
   not reached when the allowed time is below eight nanoseconds, zero standing for the default.
   */
  method WaitForCloseCondition(start: int, closeAfterIdle: int, signals: seq<Signal>)
    returns (exit: Exit, n: nat)
    ensures exit.Panics? <==> closeAfterIdle < 8 && closeAfterIdle != 0
    ensures n <= |signals|
    ensures !exit.Panics? ==> forall k :: 0 <= k < n ==> !ClosesAt(start, IdleAfter(closeAfterIdle), signals, k)
    ensures !exit.Panics? ==>
      if n < |signals|
      then ClosesAt(start, IdleAfter(closeAfterIdle), signals, n) && exit == ExitOf(signals[n])
      else exit == StillWaiting
    ensures !exit.Panics? ==> n < |signals| ==> EndsBy(exit, start, closeAfterIdle, signals, n)
    ensures !exit.Panics? ==>
      forall k :: 0 <= k < |signals| && MustEnd(start, closeAfterIdle, signals, k) ==> n <= k
  {
    var idle := closeAfterIdle;
    if idle == 0 {
      idle := DEFAULT_CLOSE_IDLE_AFTER;
    }
    n := 0;
    forall k: nat | k < |signals|
      ensures MustEnd(start, closeAfterIdle, signals, k) ==> ClosesAt(start, idle, signals, k)
      ensures ClosesAt(start, idle, signals, k) ==> EndsBy(ExitOf(signals[k]), start, closeAfterIdle, signals, k)
    {
      OverdueCloses(start, closeAfterIdle, signals, k);
    }
    if CheckIdleFreq(idle) <= 0 {
      return Panics, n;
    }
    var activeAt, activeAtChan := start, [];
    while n < |signals|
      invariant n <= |signals| && activeAt == LastActive(start, signals, n) && activeAtChan == Pending(signals, n)
      invariant forall k :: 0 <= k < n ==> !ClosesAt(start, idle, signals, k)
    {
      match signals[n] {
        case ContextDone =>
          return Cancelled, n;
        case Close(reason) =>
          return Closed(reason), n;
        case Tick(now) =>
          if now > activeAt + idle {
            return IdledOut, n;
          }
        case Mark(at) =>
          activeAtChan := AfterMark(activeAtChan, at);
        case Receive =>
          if activeAtChan != [] {
            activeAt, activeAtChan := activeAtChan[0], activeAtChan[1..];
          }
      }
      n := n + 1;
    }
    exit := StillWaiting;
  }

  /** The mark at `j` finds room in the channel. */
  predicate Accepted(signals: seq<Signal>, j: nat)
    requires j < |signals|
  {
    signals[j].Mark? && |Pending(signals, j)| < ACTIVE_CAPACITY
  }

  /** The time of the last mark among the first `n` signals that was not dropped, or the start. */
  function LastAccepted(start: int, signals: seq<Signal>, n: nat): int
    requires n <= |signals|
  {
    if n == 0 then start
    else if Accepted(signals, n - 1) then signals[n - 1].at
    else LastAccepted(start, signals, n - 1)
  }

  /** The channel is a queue: its youngest entry, or the last time received, is the last mark accepted. */
  lemma {:induction false} ChannelIsQueue(start: int, signals: seq<Signal>, n: nat)
    requires n <= |signals|
    ensures var pending := Pending(signals, n);
            LastAccepted(start, signals, n) ==
              if pending == [] then LastActive(start, signals, n) else pending[|pending| - 1]
    ensures |Pending(signals, n)| <= ACTIVE_CAPACITY
  {
    if n > 0 {
      ChannelIsQueue(start, signals, n - 1);
    }
  }

  /** Marks come in the order of their times. */
  predicate InOrder(signals: seq<Signal>) {
    forall i, j :: 0 <= i < j < |signals| && signals[i].Mark? && signals[j].Mark? ==> signals[i].at <= signals[j].at
  }

  lemma {:induction false} LastAcceptedFrom(start: int, signals: seq<Signal>, j: nat, k: nat)
    requires InOrder(signals) && j < k <= |signals| && Accepted(signals, j)
    ensures LastAccepted(start, signals, k) >= signals[j].at
  {
    if k - 1 > j && !Accepted(signals, k - 1) {
      LastAcceptedFrom(start, signals, j, k - 1);
    }
  }

  /**
   Once its channel has been drained, a session does not idle out at a tick within the allowed time of any
   activity that was marked without being dropped.
   */
  lemma ActivityKeepsAlive(start: int, idle: int, signals: seq<Signal>, j: nat, k: nat, now: int)
    requires InOrder(signals) && j < k < |signals| && Accepted(signals, j)
    requires signals[k] == Tick(now) && Pending(signals, k) == []
    requires now <= signals[j].at + idle
    ensures !ClosesAt(start, idle, signals, k)
  {
    ChannelIsQueue(start, signals, k);
    LastAcceptedFrom(start, signals, j, k);
  }

  /** Activity is dropped exactly when two marks are waiting to be received. */
  lemma DroppedIffTwoPending(signals: seq<Signal>, j: nat)
    requires j < |signals| && signals[j].Mark?
    ensures Pending(signals, j + 1) == Pending(signals, j) <==> |Pending(signals, j)| == ACTIVE_CAPACITY
  {
    ChannelIsQueue(0, signals, j);
    assert |Pending(signals, j) + [signals[j].at]| == |Pending(signals, j)| + 1;
  }

  // ---------- The reader of a session ----------

  /** One read: the bytes read, whether it failed, and whether sending them on would fail. */
  datatype Read = Read(n: nat, failed: bool, sendFails: bool)

  /** A failed read ends the reader, unless it still brought bytes whose sending failed. */
  method DstToTransport(read: Read) returns (closeSession: bool, failed: bool, sent: bool)
    ensures closeSession <==> read.failed && !(read.n > 0 && read.sendFails)
    ensures failed <==> read.failed || read.sendFails
    ensures sent <==> (read.n > 0 || !read.failed) && !read.sendFails
  {
    sent := false;
    if read.n > 0 || !read.failed {
      if read.sendFails {
        return false, true, false;
      }
      sent := true;
    }
    return read.failed, read.failed, sent;
  }
}
