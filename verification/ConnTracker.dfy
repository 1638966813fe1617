/** The record of each connection's state and protocol (tunnelstate/conntracker.go). */
module ConnTracker {
  import opened Protocols

  /** An entry that is only ever marked as not connected keeps the zero protocol. */
  datatype ConnectionInfo = ConnectionInfo(isConnected: bool, protocol: Protocol)

  const ZERO_INFO := ConnectionInfo(false, HTTP2)

  datatype Status = Disconnected | Connected | Reconnecting | SetURL | RegisteringTunnel | Unregistering

  datatype Event = Event(index: nat, status: Status, protocol: Protocol)

  type Infos = map<nat, ConnectionInfo>

  function InfoAt(infos: Infos, index: nat): ConnectionInfo {
    if index in infos then infos[index] else ZERO_INFO
  }

  function Apply(infos: Infos, e: Event): Infos {
    match e.status
    case Connected => infos[e.index := ConnectionInfo(true, e.protocol)]
    case SetURL => infos
    case _ => infos[e.index := InfoAt(infos, e.index).(isConnected := false)]
  }

  /** The record after the first `n` events. */
  function After(events: seq<Event>, n: nat): Infos
    requires n <= |events|
  {
    if n == 0 then map[] else Apply(After(events, n - 1), events[n - 1])
  }

  // ---------- What the record says about the events ----------

  predicate Counted(e: Event, index: nat) {
    e.index == index && e.status != SetURL
  }

  /** The protocol of the last `Connected` event of the index, or HTTP2 when there is none. */
  function LastConnected(events: seq<Event>, n: nat, index: nat): Protocol
    requires n <= |events|
  {
    if n == 0 then HTTP2
    else if events[n - 1].index == index && events[n - 1].status == Connected then events[n - 1].protocol
    else LastConnected(events, n - 1, index)
  }

  /** Connected by the last event that counts. */
  predicate ConnectedNow(events: seq<Event>, n: nat, index: nat)
    requires n <= |events|
  {
    n > 0 && if Counted(events[n - 1], index) then events[n - 1].status == Connected
             else ConnectedNow(events, n - 1, index)
  }

  predicate Mentioned(events: seq<Event>, n: nat, index: nat)
    requires n <= |events|
  {
    exists k :: 0 <= k < n && Counted(events[k], index)
  }

  /** The record of every index, after any events at all. */
  lemma {:induction false} RecordIsHistory(events: seq<Event>, n: nat, index: nat)
    requires n <= |events|
    ensures index in After(events, n) <==> Mentioned(events, n, index)
    ensures InfoAt(After(events, n), index).protocol == LastConnected(events, n, index)
    ensures InfoAt(After(events, n), index).isConnected == ConnectedNow(events, n, index)
  {
    if n > 0 {
      RecordIsHistory(events, n - 1, index);
      if Counted(events[n - 1], index) {
        assert Mentioned(events, n, index);
      } else if Mentioned(events, n, index) {
        var k :| 0 <= k < n && Counted(events[k], index);
        assert Mentioned(events, n - 1, index);
      }
    }
  }

  predicate HasRecord(infos: Infos, p: Protocol) {
    exists index :: index in infos && infos[index].protocol == p
  }

  /**
   "Has connected with" a protocol holds exactly when some index that had an event last connected with it;
   an index that never connected counts as connected with HTTP2.
   */
  lemma HasRecordIff(events: seq<Event>, p: Protocol)
    ensures HasRecord(After(events, |events|), p) <==>
      exists index :: Mentioned(events, |events|, index) && LastConnected(events, |events|, index) == p
  {
    var infos := After(events, |events|);
    forall index: nat
      ensures index in infos <==> Mentioned(events, |events|, index)
      ensures InfoAt(infos, index).protocol == LastConnected(events, |events|, index)
    {
      RecordIsHistory(events, |events|, index);
    }
    if HasRecord(infos, p) {
      var index :| index in infos && infos[index].protocol == p;
      assert Mentioned(events, |events|, index);
    }
    if exists index :: Mentioned(events, |events|, index) && LastConnected(events, |events|, index) == p {
      var index :| Mentioned(events, |events|, index) && LastConnected(events, |events|, index) == p;
      assert index in infos;
    }
  }

  /** A connection that failed before it ever connected makes HTTP2 look tried. */
  lemma FailureCountsAsHTTP2(index: nat)
    ensures var events := [Event(index, Disconnected, QUIC)];
            HasRecord(After(events, 1), HTTP2) && !HasRecord(After(events, 1), QUIC)
  {
    var events := [Event(index, Disconnected, QUIC)];
    assert After(events, 0) == map[];
    assert After(events, 1) == map[index := ZERO_INFO];
    assert index in After(events, 1);
  }

  // ---------- The object ----------

  function Active(infos: Infos): set<nat> {
    set index | index in infos && infos[index].isConnected
  }

  /** After any events, the connected indices are those whose last event that counts connected them. */
  lemma ActiveIsHistory(events: seq<Event>)
    ensures forall index :: index in Active(After(events, |events|)) <==> ConnectedNow(events, |events|, index)
  {
    forall index: nat
      ensures index in Active(After(events, |events|)) <==> ConnectedNow(events, |events|, index)
    {
      RecordIsHistory(events, |events|, index);
    }
  }

  class Tracker {
    var connectionInfo: Infos

    constructor ()
      ensures connectionInfo == map[]
    {
      connectionInfo := map[];
    }

    method OnTunnelEvent(c: Event)
      modifies this
      ensures connectionInfo == Apply(old(connectionInfo), c)
    {
      match c.status {
        case Connected =>
          connectionInfo := connectionInfo[c.index := ConnectionInfo(true, c.protocol)];
        case SetURL =>
        case _ =>
          var ci := ZERO_INFO;
          if c.index in connectionInfo {
            ci := connectionInfo[c.index];
          }
          connectionInfo := connectionInfo[c.index := ci.(isConnected := false)];
      }
    }

    method CountActiveConns() returns (active: nat)
      ensures active == |Active(connectionInfo)|
    {
      active := 0;
      var todo := connectionInfo.Keys;
      assert Active(connectionInfo) - todo == {};
      while todo != {}
        invariant todo <= connectionInfo.Keys && active == |Active(connectionInfo) - todo|
        decreases todo
      {
        var index :| index in todo;
        ghost var before := Active(connectionInfo) - todo;
        if connectionInfo[index].isConnected {
          active := active + 1;
          assert Active(connectionInfo) - (todo - {index}) == before + {index};
        } else {
          assert Active(connectionInfo) - (todo - {index}) == before;
        }
        todo := todo - {index};
      }
      assert Active(connectionInfo) - todo == Active(connectionInfo);
    }

    method HasConnectedWith(protocol: Protocol) returns (yes: bool)
      ensures yes == HasRecord(connectionInfo, protocol)
    {
      var todo := connectionInfo.Keys;
      while todo != {}
        invariant todo <= connectionInfo.Keys
        invariant forall index ::
                    index in connectionInfo && index !in todo ==> connectionInfo[index].protocol != protocol
        decreases todo
      {
        var index :| index in todo;
        if connectionInfo[index].protocol == protocol {
          return true;
        }
        todo := todo - {index};
      }
      return false;
    }
  }
}
