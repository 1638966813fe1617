/**
 The services that `cloudflared` runs for the forwarders of its configuration file: the manager
 (overwatch/app_manager.go) and the service that reconciles it with each new configuration
 (cmd/cloudflared/app_service.go).

 Services that were started live in `arena`; the manager's map holds indices into it. A hash stands for the
 text that is hashed: SHA-256 is taken to be free of collisions.
 */
module AppServices {
  const SHUTDOWN_CAPACITY := 1

  datatype Forwarder = Forwarder(
    url: string,
    listener: string,
    tokenClientID: string,
    tokenSecret: string,
    destination: string,
    isFedramp: bool)
  {
    /** Written one after the other; `isFedramp` is not among them. */
    function Hash(): string {
      url + listener + tokenClientID + tokenSecret + destination
    }
  }

  /** A service and how often it was asked to shut down. */
  datatype Service = Service(forwarder: Forwarder, shutdowns: nat) {
    function Name(): string {
      forwarder.listener
    }

    function Hash(): string {
      forwarder.Hash()
    }

    function Asked(): Service {
      this.(shutdowns := shutdowns + 1)
    }
  }

  datatype Managed = Managed(services: map<string, nat>, arena: seq<Service>)

  ghost predicate Indexed(m: Managed) {
    forall name :: name in m.services ==> m.services[name] < |m.arena|
  }

  ghost predicate Registered(m: Managed, h: nat)
    requires h < |m.arena|
  {
    m.arena[h].Name() in m.services && m.services[m.arena[h].Name()] == h
  }

  /** Every service that was started is managed and was never asked to stop, or was asked exactly once. */
  ghost predicate Inv(m: Managed) {
    && Indexed(m)
    && (forall name :: name in m.services ==> m.arena[m.services[name]].Name() == name)
    && (forall h :: 0 <= h < |m.arena| ==> m.arena[h].shutdowns == if Registered(m, h) then 0 else 1)
  }

  // ---------- Add and Remove ----------

  ghost function AfterShutdown(m: Managed, name: string): Managed
    requires Indexed(m)
  {
    if name in m.services then m.(arena := m.arena[m.services[name] := m.arena[m.services[name]].Asked()]) else m
  }

  ghost predicate Same(m: Managed, f: Forwarder)
    requires Indexed(m)
  {
    f.listener in m.services && m.arena[m.services[f.listener]].Hash() == f.Hash()
  }

  /** Nothing for a service that hashes like the current one; otherwise a new service takes over the name. */
  ghost function AfterAdd(m: Managed, f: Forwarder): (next: Managed)
    requires Indexed(m)
    ensures Indexed(next)
  {
    if Same(m, f) then m
    else
      var stopped := AfterShutdown(m, f.listener);
      Managed(stopped.services[f.listener := |m.arena|], stopped.arena + [Service(f, 0)])
  }

  ghost function AfterRemove(m: Managed, name: string): Managed
    requires Indexed(m)
  {
    var stopped := AfterShutdown(m, name);
    stopped.(services := stopped.services - {name})
  }

  lemma AddKeepsInv(m: Managed, f: Forwarder)
    requires Inv(m)
    ensures Inv(AfterAdd(m, f))
    ensures f.listener in m.services ==> m.arena[m.services[f.listener]].shutdowns < SHUTDOWN_CAPACITY
  {
    var next := AfterAdd(m, f);
    if f.listener in m.services {
      assert Registered(m, m.services[f.listener]);
    }
    if !Same(m, f) {
      forall h: nat | h < |m.arena|
        ensures next.arena[h].shutdowns == if Registered(next, h) then 0 else 1
      {
        assert next.arena[h].Name() == m.arena[h].Name();
        assert Registered(next, h) <==> Registered(m, h) && m.arena[h].Name() != f.listener;
      }
    }
  }

  lemma RemoveKeepsInv(m: Managed, name: string)
    requires Inv(m)
    ensures Inv(AfterRemove(m, name))
    ensures name in m.services ==> m.arena[m.services[name]].shutdowns < SHUTDOWN_CAPACITY
  {
    var next := AfterRemove(m, name);
    if name in m.services {
      assert Registered(m, m.services[name]);
    }
    forall h: nat | h < |m.arena|
      ensures next.arena[h].shutdowns == if Registered(next, h) then 0 else 1
    {
      assert next.arena[h].Name() == m.arena[h].Name();
      assert Registered(next, h) <==> Registered(m, h) && m.arena[h].Name() != name;
    }
  }

  // ---------- A configuration update ----------

  /** The first `n` forwarders added. */
  ghost function AddAll(m: Managed, forwarders: seq<Forwarder>, n: nat): (next: Managed)
    requires Indexed(m) && n <= |forwarders|
    ensures Indexed(next)
  {
    if n == 0 then m else AfterAdd(AddAll(m, forwarders, n - 1), forwarders[n - 1])
  }

  function Listeners(forwarders: seq<Forwarder>, n: nat): set<string>
    requires n <= |forwarders|
  {
    set k | 0 <= k < n :: forwarders[k].listener
  }

  /** Every service with another name shut down and forgotten. */
  ghost function KeepOnly(m: Managed, active: set<string>): (next: Managed)
    requires Indexed(m)
    ensures Indexed(next)
  {
    Managed(
      map name | name in m.services && name in active :: m.services[name],
      seq(|m.arena|, h requires 0 <= h < |m.arena| =>
        if Registered(m, h) && m.arena[h].Name() !in active then m.arena[h].Asked() else m.arena[h]))
  }

  ghost function AfterUpdate(m: Managed, forwarders: seq<Forwarder>): (next: Managed)
    requires Indexed(m)
    ensures Indexed(next)
  {
    KeepOnly(AddAll(m, forwarders, |forwarders|), Listeners(forwarders, |forwarders|))
  }

  lemma {:induction false} AddAllKeepsInv(m: Managed, forwarders: seq<Forwarder>, n: nat)
    requires Inv(m) && n <= |forwarders|
    ensures Inv(AddAll(m, forwarders, n))
  {
    if n > 0 {
      AddAllKeepsInv(m, forwarders, n - 1);
      AddKeepsInv(AddAll(m, forwarders, n - 1), forwarders[n - 1]);
    }
  }

  lemma KeepOnlyKeepsInv(m: Managed, active: set<string>)
    requires Inv(m)
    ensures Inv(KeepOnly(m, active))
  {
    var next := KeepOnly(m, active);
    forall h: nat | h < |m.arena|
      ensures next.arena[h].shutdowns == if Registered(next, h) then 0 else 1
    {
      assert next.arena[h].Name() == m.arena[h].Name();
    }
  }

  lemma UpdateKeepsInv(m: Managed, forwarders: seq<Forwarder>)
    requires Inv(m)
    ensures Inv(AfterUpdate(m, forwarders))
  {
    AddAllKeepsInv(m, forwarders, |forwarders|);
    KeepOnlyKeepsInv(AddAll(m, forwarders, |forwarders|), Listeners(forwarders, |forwarders|));
  }

  // ---------- What is managed afterwards ----------

  /** The place of the last of the first `n` forwarders with this listener; its listener must occur. */
  function LastWith(forwarders: seq<Forwarder>, n: nat, listener: string): (k: nat)
    requires n <= |forwarders| && listener in Listeners(forwarders, n)
    ensures k < n && forwarders[k].listener == listener
    ensures forall j :: k < j < n ==> forwarders[j].listener != listener
  {
    if forwarders[n - 1].listener == listener then n - 1 else LastWith(forwarders, n - 1, listener)
  }

  lemma {:induction false} AddedNames(m: Managed, forwarders: seq<Forwarder>, n: nat)
    requires Indexed(m) && n <= |forwarders|
    ensures AddAll(m, forwarders, n).services.Keys == m.services.Keys + Listeners(forwarders, n)
  {
    if n > 0 {
      AddedNames(m, forwarders, n - 1);
      assert Listeners(forwarders, n) == Listeners(forwarders, n - 1) + {forwarders[n - 1].listener};
    } else {
      assert Listeners(forwarders, 0) == {};
    }
  }

  /** Adding a forwarder concerns its own name only. */
  lemma AddConcerns(m: Managed, f: Forwarder, name: string)
    requires Inv(m) && name in m.services && name != f.listener
    ensures name in AfterAdd(m, f).services && AfterAdd(m, f).services[name] == m.services[name]
    ensures AfterAdd(m, f).arena[m.services[name]] == m.arena[m.services[name]]
  {
    if f.listener in m.services {
      assert m.services[f.listener] != m.services[name] by {
        assert m.arena[m.services[f.listener]].Name() == f.listener;
      }
    }
  }

  /** After adding a forwarder, its name is managed by a service that hashes like it: the old one or a new one. */
  lemma AddInstalls(m: Managed, f: Forwarder)
    requires Indexed(m)
    ensures var next := AfterAdd(m, f);
            && f.listener in next.services && next.arena[next.services[f.listener]].Hash() == f.Hash()
            && (if Same(m, f) then next == m else next.services[f.listener] == |m.arena|)
            && |next.arena| >= |m.arena|
  {
  }

  lemma {:induction false} AddedHash(m: Managed, forwarders: seq<Forwarder>, n: nat, listener: string)
    requires Inv(m) && n <= |forwarders| && listener in Listeners(forwarders, n)
    ensures var next := AddAll(m, forwarders, n);
            && listener in next.services
            && next.arena[next.services[listener]].Hash() == forwarders[LastWith(forwarders, n, listener)].Hash()
  {
    var before := AddAll(m, forwarders, n - 1);
    if forwarders[n - 1].listener != listener {
      AddAllKeepsInv(m, forwarders, n - 1);
      AddedHash(m, forwarders, n - 1, listener);
      AddConcerns(before, forwarders[n - 1], listener);
    } else {
      AddInstalls(before, forwarders[n - 1]);
    }
  }

  /** Every forwarder of the listener among the first `n` hashes like the service `h`. */
  ghost predicate AllHashLike(m: Managed, forwarders: seq<Forwarder>, n: nat, h: nat)
    requires h < |m.arena| && n <= |forwarders|
  {
    forall k :: 0 <= k < n && forwarders[k].listener == m.arena[h].Name() ==> forwarders[k].Hash() == m.arena[h].Hash()
  }

  /** What one addition means for a service `h` that was there when the arena had `base` entries. */
  lemma AddAndService(m: Managed, f: Forwarder, name: string, h: nat, base: nat)
    requires Inv(m) && name in m.services && h < base <= |m.arena|
    requires m.services[name] == h || m.services[name] >= base
    ensures var next := AfterAdd(m, f);
            && |next.arena| >= |m.arena| && name in next.services
            && (next.services[name] == h <==>
                  m.services[name] == h && (f.listener == name ==> f.Hash() == m.arena[h].Hash()))
            && (next.services[name] == h || next.services[name] >= base)
            && (next.services[name] == h ==> next.arena[h] == m.arena[h])
  {
    AddInstalls(m, f);
    if f.listener != name {
      AddConcerns(m, f, name);
    }
  }

  /** `next`, reached from `m` by `n` additions, kept service `h` exactly when they all hash like it. */
  ghost predicate KeptIff(m: Managed, forwarders: seq<Forwarder>, n: nat, h: nat, next: Managed)
    requires h < |m.arena| && n <= |forwarders|
  {
    var name := m.arena[h].Name();
    && |next.arena| >= |m.arena| && name in next.services
    && (next.services[name] == h <==> AllHashLike(m, forwarders, n, h))
    && (next.services[name] == h || next.services[name] >= |m.arena|)
    && (next.services[name] == h ==> next.arena[h] == m.arena[h])
  }

  lemma OneMoreAdded(m: Managed, forwarders: seq<Forwarder>, n: nat, h: nat, before: Managed)
    requires h < |m.arena| && n < |forwarders| && Inv(before) && KeptIff(m, forwarders, n, h, before)
    ensures KeptIff(m, forwarders, n + 1, h, AfterAdd(before, forwarders[n]))
  {
    AddAndService(before, forwarders[n], m.arena[h].Name(), h, |m.arena|);
    assert AllHashLike(m, forwarders, n + 1, h) <==>
             AllHashLike(m, forwarders, n, h)
             && (forwarders[n].listener == m.arena[h].Name() ==> forwarders[n].Hash() == m.arena[h].Hash());
  }

  /** A service keeps running through the additions exactly when all forwarders of its listener hash like it. */
  lemma {:induction false} AddedUnchangedIff(m: Managed, forwarders: seq<Forwarder>, n: nat, h: nat)
    requires Inv(m) && n <= |forwarders| && h < |m.arena| && Registered(m, h)
    ensures KeptIff(m, forwarders, n, h, AddAll(m, forwarders, n))
  {
    if n > 0 {
      AddedUnchangedIff(m, forwarders, n - 1, h);
      AddAllKeepsInv(m, forwarders, n - 1);
      OneMoreAdded(m, forwarders, n - 1, h, AddAll(m, forwarders, n - 1));
    }
  }

  lemma KeptNames(m: Managed, forwarders: seq<Forwarder>)
    requires Inv(m)
    ensures AfterUpdate(m, forwarders).services.Keys == Listeners(forwarders, |forwarders|)
  {
    AddedNames(m, forwarders, |forwarders|);
  }

  /**
   After an update the managed names are the listeners of the configuration, and each is managed by a
   service that hashes like the last forwarder with that listener.
   */
  lemma UpdateInstallsConfig(m: Managed, forwarders: seq<Forwarder>)
    requires Inv(m)
    ensures var next := AfterUpdate(m, forwarders); var n := |forwarders|;
            && Inv(next) && next.services.Keys == Listeners(forwarders, n)
            && forall listener :: listener in next.services ==>
                 next.arena[next.services[listener]].Hash() == forwarders[LastWith(forwarders, n, listener)].Hash()
  {
    var n := |forwarders|;
    UpdateKeepsInv(m, forwarders);
    KeptNames(m, forwarders);
    forall listener | listener in Listeners(forwarders, n)
      ensures listener in AfterUpdate(m, forwarders).services
      ensures var next := AfterUpdate(m, forwarders);
              next.arena[next.services[listener]].Hash() == forwarders[LastWith(forwarders, n, listener)].Hash()
    {
      AddedHash(m, forwarders, n, listener);
    }
  }

  /**
   A running service is left untouched exactly when its listener is still configured and every forwarder of
   that listener hashes like it; otherwise it is shut down, once.
   */
  lemma UntouchedIff(m: Managed, forwarders: seq<Forwarder>, h: nat)
    requires Inv(m) && h < |m.arena| && Registered(m, h)
    ensures var next := AfterUpdate(m, forwarders); var n := |forwarders|;
            var stays := m.arena[h].Name() in Listeners(forwarders, n) && AllHashLike(m, forwarders, n, h);
            && |next.arena| >= |m.arena|
            && (Registered(next, h) <==> stays)
            && (stays ==> next.arena[h] == m.arena[h])
            && next.arena[h].shutdowns == if stays then 0 else 1
  {
    var n := |forwarders|;
    var added := AddAll(m, forwarders, n);
    var next := AfterUpdate(m, forwarders);
    UpdateKeepsInv(m, forwarders);
    AddAllKeepsInv(m, forwarders, n);
    AddedUnchangedIff(m, forwarders, n, h);
    SameForwarder(m, forwarders, n, h);
    assert next.arena[h].Name() == added.arena[h].Name() == m.arena[h].Name();
  }

  lemma {:induction false} SameForwarder(m: Managed, forwarders: seq<Forwarder>, n: nat, h: nat)
    requires Indexed(m) && n <= |forwarders| && h < |m.arena|
    ensures h < |AddAll(m, forwarders, n).arena|
    ensures AddAll(m, forwarders, n).arena[h].forwarder == m.arena[h].forwarder
  {
    if n > 0 {
      SameForwarder(m, forwarders, n - 1, h);
    }
  }

  // ---------- Loading a configuration again ----------

  /** Forwarders with one listener all hash alike. */
  predicate Consistent(forwarders: seq<Forwarder>) {
    forall j, k ::
      0 <= j < |forwarders| && 0 <= k < |forwarders| && forwarders[j].listener == forwarders[k].listener ==>
      forwarders[j].Hash() == forwarders[k].Hash()
  }

  /** All that is managed is as configured. */
  ghost predicate Installed(m: Managed, forwarders: seq<Forwarder>) {
    && Inv(m) && m.services.Keys == Listeners(forwarders, |forwarders|)
    && forall k :: 0 <= k < |forwarders| ==> Same(m, forwarders[k])
  }

  lemma {:induction false} InstalledStays(m: Managed, forwarders: seq<Forwarder>, n: nat)
    requires Installed(m, forwarders) && n <= |forwarders|
    ensures AddAll(m, forwarders, n) == m
  {
    if n > 0 {
      InstalledStays(m, forwarders, n - 1);
    }
  }

  lemma UpdateInstalls(m: Managed, forwarders: seq<Forwarder>)
    requires Inv(m)
    ensures Installed(AfterUpdate(m, forwarders), forwarders) <==> Consistent(forwarders)
  {
    var next, n := AfterUpdate(m, forwarders), |forwarders|;
    UpdateInstallsConfig(m, forwarders);
    forall k | 0 <= k < n
      ensures forwarders[k].listener in next.services
    {
      assert forwarders[k].listener in Listeners(forwarders, n);
    }
    if Installed(next, forwarders) {
      forall j, k | 0 <= j < n && 0 <= k < n && forwarders[j].listener == forwarders[k].listener
        ensures forwarders[j].Hash() == forwarders[k].Hash()
      {
        assert Same(next, forwarders[j]) && Same(next, forwarders[k]);
      }
    }
  }

  /**
   Loading the same configuration once more disturbs no service exactly when forwarders that share a
   listener hash alike; otherwise services are restarted every time.
   */
  lemma ReloadIsQuietIff(m: Managed, forwarders: seq<Forwarder>)
    requires Inv(m)
    ensures var once := AfterUpdate(m, forwarders);
            && Inv(once) && (AfterUpdate(once, forwarders) == once <==> Consistent(forwarders))
  {
    var once, n := AfterUpdate(m, forwarders), |forwarders|;
    UpdateInstallsConfig(m, forwarders);
    UpdateInstalls(m, forwarders);
    if Consistent(forwarders) {
      InstalledStays(once, forwarders, n);
      KeepsAll(once, Listeners(forwarders, n));
    } else {
      var j, k :| 0 <= j < n && 0 <= k < n && forwarders[j].listener == forwarders[k].listener
                  && forwarders[j].Hash() != forwarders[k].Hash();
      var listener := forwarders[j].listener;
      assert listener in Listeners(forwarders, n);
      var h := once.services[listener];
      assert once.arena[h].Name() == listener && Registered(once, h);
      UntouchedIff(once, forwarders, h);
    }
  }

  lemma KeepsAll(m: Managed, active: set<string>)
    requires Inv(m) && m.services.Keys == active
    ensures KeepOnly(m, active) == m
  {
    assert KeepOnly(m, active).services == m.services;
    assert KeepOnly(m, active).arena == m.arena;
  }

  lemma OneListener(f: Forwarder)
    ensures Listeners([f], 1) == {f.listener}
  {
    assert [f][0].listener in Listeners([f], 1);
  }

  lemma OneForwarder(m: Managed, g: Forwarder)
    requires Inv(m)
    ensures AddAll(m, [g], 1) == AfterAdd(m, g)
    ensures g.listener in AfterUpdate(m, [g]).services
    ensures AfterUpdate(m, [g]).services[g.listener] == AfterAdd(m, g).services[g.listener]
  {
    assert AddAll(m, [g], 0) == m;
    OneListener(g);
  }

  /**
   A service whose forwarder changes is restarted exactly when the text of its new fields, written one after
   the other, is another one; otherwise it goes on with the old forwarder.
   */
  lemma RestartedIff(m: Managed, h: nat, g: Forwarder)
    requires Inv(m) && h < |m.arena| && Registered(m, h) && g.listener == m.arena[h].Name()
    ensures var next, f := AfterUpdate(m, [g]), m.arena[h].forwarder;
            && g.listener in next.services
            && (next.services[g.listener] == h <==>
                  f.url + f.listener + f.tokenClientID + f.tokenSecret + f.destination
                  == g.url + g.listener + g.tokenClientID + g.tokenSecret + g.destination)
            && next.services[g.listener] < |next.arena|
            && next.arena[next.services[g.listener]].forwarder == if next.services[g.listener] == h then f else g
  {
    OneForwarder(m, g);
    AddInstalls(m, g);
    UpdateKeepsInv(m, [g]);
    SameForwarder(m, [g], 1, h);
  }

  /** From a new manager: loading `f` and then `g` leaves `f` running exactly when their texts are equal. */
  lemma ChangeIsMissedIff(f: Forwarder, g: Forwarder)
    requires g.listener == f.listener
    ensures var empty := Managed(map[], []);
            var next := AfterUpdate(AfterUpdate(empty, [f]), [g]);
            && Inv(next) && next.services.Keys == {f.listener}
            && next.arena[next.services[f.listener]].forwarder == if f.Hash() == g.Hash() then f else g
  {
    var empty := Managed(map[], []);
    UpdateKeepsInv(empty, [f]);
    OneForwarder(empty, f);
    var m := AfterUpdate(empty, [f]);
    OneListener(f);
    KeptNames(empty, [f]);
    assert m.services[f.listener] == 0 && m.arena[0].forwarder == f && Registered(m, 0);
    RestartedIff(m, 0, g);
    UpdateKeepsInv(m, [g]);
    KeptNames(m, [g]);
    OneListener(g);
  }

  /** A change of `isFedramp` alone is never seen. */
  lemma FedrampChangeIsMissed(m: Managed, h: nat, g: Forwarder)
    requires Inv(m) && h < |m.arena| && Registered(m, h)
    requires g == m.arena[h].forwarder.(isFedramp := !m.arena[h].forwarder.isFedramp)
    ensures var next := AfterUpdate(m, [g]);
            && g != m.arena[h].forwarder && g.listener in next.services && next.services[g.listener] == h
            && next.arena[h].forwarder == m.arena[h].forwarder
  {
    RestartedIff(m, h, g);
  }

  /** Nor is one that moves the beginning of the secret to the end of the client ID. */
  lemma BoundaryShiftIsMissed(m: Managed, h: nat, moved: string, rest: string)
    requires Inv(m) && h < |m.arena| && Registered(m, h)
    requires moved != "" && m.arena[h].forwarder.tokenSecret == moved + rest
    ensures var f := m.arena[h].forwarder;
            var g := f.(tokenClientID := f.tokenClientID + moved, tokenSecret := rest);
            var next := AfterUpdate(m, [g]);
            && g != f && g.listener in next.services && next.services[g.listener] == h
            && next.arena[h].forwarder == f
  {
    var f := m.arena[h].forwarder;
    var g := f.(tokenClientID := f.tokenClientID + moved, tokenSecret := rest);
    assert |g.tokenSecret| < |f.tokenSecret|;
    SameText(f.url + f.listener, f.tokenClientID, moved, rest, f.destination);
    RestartedIff(m, h, g);
  }

  lemma SameText(front: string, a: string, b: string, c: string, back: string)
    ensures front + a + (b + c) + back == front + (a + b) + c + back
  {
  }

  // ---------- Runs ----------

  /** Every managed service asked to stop; the manager keeps them, but nothing follows. */
  ghost function AfterStop(m: Managed): Managed
    requires Indexed(m)
  {
    m.(arena := seq(|m.arena|, h requires 0 <= h < |m.arena| =>
      if Registered(m, h) then m.arena[h].Asked() else m.arena[h]))
  }

  ghost function AfterUpdates(m: Managed, configs: seq<seq<Forwarder>>): (last: Managed)
    requires Indexed(m)
    ensures Indexed(last)
    decreases |configs|
  {
    if configs == [] then m else AfterUpdates(AfterUpdate(m, configs[0]), configs[1..])
  }

  lemma {:induction false} UpdatesKeepInv(m: Managed, configs: seq<seq<Forwarder>>)
    requires Inv(m)
    ensures Inv(AfterUpdates(m, configs))
    decreases |configs|
  {
    if configs != [] {
      UpdateKeepsInv(m, configs[0]);
      UpdatesKeepInv(AfterUpdate(m, configs[0]), configs[1..]);
    }
  }

  /**
   Over any number of updates and the shutdown that ends them: every service that was ever started is asked
   to stop exactly once, so no request ever waits for room in its channel.
   */
  lemma EveryServiceStopsOnce(configs: seq<seq<Forwarder>>, h: nat)
    ensures var last := AfterUpdates(Managed(map[], []), configs);
            h < |last.arena| ==>
              && last.arena[h].shutdowns <= SHUTDOWN_CAPACITY
              && AfterStop(last).arena[h].shutdowns == SHUTDOWN_CAPACITY
  {
    UpdatesKeepInv(Managed(map[], []), configs);
  }

  /** After any updates, the services are those of the last configuration. */
  lemma {:induction false} LastConfigWins(m: Managed, configs: seq<seq<Forwarder>>)
    requires Inv(m) && configs != []
    ensures var last := AfterUpdates(m, configs); var forwarders := configs[|configs| - 1]; var n := |forwarders|;
            && last.services.Keys == Listeners(forwarders, n)
            && forall listener :: listener in last.services ==>
                 last.arena[last.services[listener]].Hash() == forwarders[LastWith(forwarders, n, listener)].Hash()
    decreases |configs|
  {
    UpdateKeepsInv(m, configs[0]);
    if |configs| == 1 {
      UpdateInstallsConfig(m, configs[0]);
      assert configs[1..] == [];
    } else {
      LastConfigWins(AfterUpdate(m, configs[0]), configs[1..]);
    }
  }

  // ---------- The objects ----------

  class AppManager {
    var services: map<string, nat>
    var arena: seq<Service>

    ghost function View(): Managed
      reads this
    {
      Managed(services, arena)
    }

    constructor ()
      ensures View() == Managed(map[], []) && Inv(View())
    {
      services, arena := map[], [];
    }

    /** The send to the service's channel, which has room for one. */
    method Shutdown(h: nat)
      requires h < |arena| && arena[h].shutdowns < SHUTDOWN_CAPACITY
      modifies this`arena
      ensures arena == old(arena)[h := old(arena)[h].Asked()]
    {
      arena := arena[h := arena[h].Asked()];
    }

    method Add(service: Service)
      requires Inv(View()) && service.shutdowns == 0
      modifies this
      ensures Inv(View()) && View() == AfterAdd(old(View()), service.forwarder)
    {
      AddKeepsInv(View(), service.forwarder);
      var name := service.Name();
      if name in services {
        if arena[services[name]].Hash() == service.Hash() {
          return;
        }
        Shutdown(services[name]);
      }
      services := services[name := |arena|];
      arena := arena + [service];
    }

    method Remove(name: string)
      requires Inv(View())
      modifies this
      ensures Inv(View()) && View() == AfterRemove(old(View()), name)
    {
      RemoveKeepsInv(View(), name);
      if name in services {
        Shutdown(services[name]);
      }
      services := services - {name};
    }

    /** The managed services, in any order. */
    method Services() returns (values: seq<nat>)
      requires Inv(View())
      ensures forall i :: 0 <= i < |values| ==> values[i] < |arena| && Registered(View(), values[i])
      ensures forall i, j :: 0 <= i < j < |values| ==> arena[values[i]].Name() != arena[values[j]].Name()
      ensures forall name :: name in services ==> services[name] in values
    {
      values := [];
      var todo := services.Keys;
      while todo != {}
        invariant todo <= services.Keys
        invariant forall i :: 0 <= i < |values| ==>
          values[i] < |arena| && Registered(View(), values[i]) && arena[values[i]].Name() !in todo
        invariant forall i, j :: 0 <= i < j < |values| ==> arena[values[i]].Name() != arena[values[j]].Name()
        invariant forall name :: name in services ==> name in todo || services[name] in values
        decreases todo
      {
        var name :| name in todo;
        values := values + [services[name]];
        todo := todo - {name};
      }
    }
  }

  class AppService {
    const serviceManager: AppManager

    constructor ()
      ensures fresh(serviceManager) && serviceManager.View() == Managed(map[], []) && Inv(serviceManager.View())
    {
      serviceManager := new AppManager();
    }

    method HandleConfigUpdate(forwarders: seq<Forwarder>)
      requires Inv(serviceManager.View())
      modifies serviceManager
      ensures Inv(serviceManager.View())
      ensures serviceManager.View() == AfterUpdate(old(serviceManager.View()), forwarders)
    {
      ghost var start := serviceManager.View();
      var activeServices := {};
      for i := 0 to |forwarders|
        invariant Inv(serviceManager.View())
        invariant serviceManager.View() == AddAll(start, forwarders, i)
        invariant activeServices == Listeners(forwarders, i)
      {
        var service := Service(forwarders[i], 0);
        serviceManager.Add(service);
        activeServices := activeServices + {service.Name()};
      }
      RemoveInactive(activeServices);
    }

    method RemoveInactive(active: set<string>)
      requires Inv(serviceManager.View())
      modifies serviceManager
      ensures Inv(serviceManager.View())
      ensures serviceManager.View() == KeepOnly(old(serviceManager.View()), active)
    {
      ghost var start := serviceManager.View();
      var values := serviceManager.Services();
      for i := 0 to |values|
        invariant Inv(serviceManager.View())
        invariant Removed(start, active, values, i, serviceManager.View())
      {
        RemoveOne(start, active, values, i, serviceManager.View());
        var name := serviceManager.arena[values[i]].Name();
        if name !in active {
          serviceManager.Remove(name);
        }
      }
      RemovedAll(start, active, values, serviceManager.View());
    }

    /** The loop: updates until the shutdown, which asks every managed service to stop. */
    method ActionLoop(configs: seq<seq<Forwarder>>)
      requires Inv(serviceManager.View())
      modifies serviceManager
      ensures serviceManager.View() == AfterStop(AfterUpdates(old(serviceManager.View()), configs))
    {
      ghost var start := serviceManager.View();
      assert configs[0..] == configs;
      for i := 0 to |configs|
        invariant Inv(serviceManager.View())
        invariant AfterUpdates(serviceManager.View(), configs[i..]) == AfterUpdates(start, configs)
      {
        HandleConfigUpdate(configs[i]);
        assert configs[i..][1..] == configs[i + 1..];
      }
      StopAll();
    }

    method StopAll()
      requires Inv(serviceManager.View())
      modifies serviceManager
      ensures serviceManager.View() == AfterStop(old(serviceManager.View()))
    {
      ghost var start := serviceManager.View();
      var values := serviceManager.Services();
      for i := 0 to |values|
        invariant serviceManager.services == start.services
        invariant Stopped(start, values, i, serviceManager.arena)
      {
        StopOne(start, values, i, serviceManager.arena);
        serviceManager.Shutdown(values[i]);
      }
      StoppedAll(start, values, serviceManager.arena);
    }
  }

  /** `values` lists the managed services of `m` once each. */
  ghost predicate Lists(m: Managed, values: seq<nat>) {
    && (forall i :: 0 <= i < |values| ==> values[i] < |m.arena| && Registered(m, values[i]))
    && (forall i, j :: 0 <= i < j < |values| ==> m.arena[values[i]].Name() != m.arena[values[j]].Name())
    && (forall name :: name in m.services ==> m.services[name] in values)
  }

  /** Of the map and of the arena: the first `n` of the values have been looked at, and removed if inactive. */
  ghost predicate NamesLeft(start: Managed, active: set<string>, values: seq<nat>, n: nat, services: map<string, nat>)
    requires n <= |values|
  {
    && (forall name :: name in services <==>
          name in start.services && (name in active || start.services[name] !in values[..n]))
    && (forall name :: name in services ==> services[name] == start.services[name])
  }

  ghost predicate ServicesAsked(start: Managed, active: set<string>, values: seq<nat>, n: nat, arena: seq<Service>)
    requires n <= |values| && |arena| == |start.arena|
  {
    forall h :: 0 <= h < |arena| ==>
      arena[h] == if h in values[..n] && start.arena[h].Name() !in active then start.arena[h].Asked()
                  else start.arena[h]
  }

  ghost predicate Removed(start: Managed, active: set<string>, values: seq<nat>, n: nat, m: Managed) {
    && Inv(start) && Lists(start, values) && n <= |values| && |m.arena| == |start.arena|
    && NamesLeft(start, active, values, n, m.services)
    && ServicesAsked(start, active, values, n, m.arena)
  }

  lemma NextIsNew(start: Managed, values: seq<nat>, n: nat)
    requires Lists(start, values) && n < |values|
    ensures values[..n + 1] == values[..n] + [values[n]]
    ensures values[n] < |start.arena| && values[n] !in values[..n] && Registered(start, values[n])
  {
  }

  lemma RemoveName(start: Managed, active: set<string>, values: seq<nat>, n: nat, services: map<string, nat>)
    requires Inv(start) && Lists(start, values) && n < |values| && NamesLeft(start, active, values, n, services)
    requires values[n] < |start.arena|
    ensures var name := start.arena[values[n]].Name();
            && name in services && services[name] == values[n]
            && NamesLeft(start, active, values, n + 1, if name in active then services else services - {name})
  {
    NextIsNew(start, values, n);
  }

  lemma AskOne(start: Managed, active: set<string>, values: seq<nat>, n: nat, arena: seq<Service>)
    requires Lists(start, values) && n < |values| && |arena| == |start.arena|
    requires ServicesAsked(start, active, values, n, arena)
    ensures values[n] < |arena| && arena[values[n]] == start.arena[values[n]]
    ensures ServicesAsked(start, active, values, n + 1,
                          if start.arena[values[n]].Name() in active then arena
                          else arena[values[n] := arena[values[n]].Asked()])
  {
    NextIsNew(start, values, n);
  }

  lemma RemoveOne(start: Managed, active: set<string>, values: seq<nat>, n: nat, m: Managed)
    requires Inv(m) && Removed(start, active, values, n, m) && n < |values|
    ensures values[n] < |m.arena|
    ensures var name := m.arena[values[n]].Name();
            Removed(start, active, values, n + 1, if name in active then m else AfterRemove(m, name))
  {
    AskOne(start, active, values, n, m.arena);
    RemoveName(start, active, values, n, m.services);
  }

  lemma RemovedAll(start: Managed, active: set<string>, values: seq<nat>, m: Managed)
    requires Removed(start, active, values, |values|, m)
    ensures m == KeepOnly(start, active)
  {
    assert values[..|values|] == values;
    forall h: nat | h < |start.arena|
      ensures h in values <==> Registered(start, h)
    {
    }
    assert m.services == KeepOnly(start, active).services;
    assert m.arena == KeepOnly(start, active).arena;
  }

  ghost predicate Stopped(start: Managed, values: seq<nat>, n: nat, arena: seq<Service>) {
    && Inv(start) && Lists(start, values) && n <= |values| && |arena| == |start.arena|
    && forall h :: 0 <= h < |arena| ==> arena[h] == if h in values[..n] then start.arena[h].Asked() else start.arena[h]
  }

  lemma StopOne(start: Managed, values: seq<nat>, n: nat, arena: seq<Service>)
    requires Stopped(start, values, n, arena) && n < |values|
    ensures values[n] < |arena| && arena[values[n]].shutdowns < SHUTDOWN_CAPACITY
    ensures Stopped(start, values, n + 1, arena[values[n] := arena[values[n]].Asked()])
  {
    assert values[..n + 1] == values[..n] + [values[n]];
    assert values[n] !in values[..n];
    assert Registered(start, values[n]);
  }

  lemma StoppedAll(start: Managed, values: seq<nat>, arena: seq<Service>)
    requires Stopped(start, values, |values|, arena)
    ensures arena == AfterStop(start).arena
  {
    assert values[..|values|] == values;
    forall h: nat | h < |start.arena|
      ensures h in values <==> Registered(start, h)
    {
    }
  }
}
