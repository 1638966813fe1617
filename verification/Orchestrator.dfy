/**
 Hot reconfiguration (orchestration/orchestrator.go).

 A proxy generation is named by the number of its shutdown channel. `UpdateConfig` and the goroutine
 that closes the last proxy exclude each other by the lock, but shutdown can begin at any moment, and
 the stored proxy, the flow limit and the dialer are read without the lock. So an update is a sequence
 of micro-steps: `Phase` says how far the lock holder has got, and any event can come in between.
 */
module Orchestrator {
  import opened Wrappers
  import Strconv

  const TWO_TO_64 := 0x1_0000_0000_0000_0000

  type Rule = nat

  /** `dialer` stands for the dialer settings in the warp routing configuration. */
  datatype WarpRouting = WarpRouting(maxActiveFlows: nat, dialer: nat)

  datatype RemoteConfig = RemoteConfig(rules: seq<Rule>, warp: WarpRouting)

  datatype Proxy = Proxy(generation: nat, rules: seq<Rule>)

  /** An update past its checks; the first one, made by the constructor, carries no version. */
  datatype Job = Job(version: Option<int>, rules: seq<Rule>, warp: WarpRouting, generation: nat)

  datatype Phase =
    | Idle
    | Started(job: Job)
    | LimitSet(job: Job)
    | DialerSet(job: Job)
    | ProxyStored(job: Job)
    | ConfigSet(job: Job)
    | OldClosed(job: Job)
    | Installed(job: Job)

  datatype State = State(
    // The static part.
    localFlag: string,
    internalRules: seq<Rule>,
    defaultRules: seq<Rule>,
    // The orchestrator's fields.
    currentVersion: int,
    proxy: Option<Proxy>,
    config: RemoteConfig,
    limit: nat,
    dialer: nat,
    proxyShutdownC: Option<nat>,
    // The lock holder, the shutdown channel and the waiting goroutine.
    phase: Phase,
    shutdown: bool,
    waiterDone: bool,
    // History: channels made, generations stored, generations whose start failed, closes, versions.
    generations: nat,
    installed: set<nat>,
    dropped: set<nat>,
    closes: multiset<nat>,
    applied: seq<int>)

  datatype Event =
    /** A call of `UpdateConfig`; the payload is `None` when it does not deserialize. */
    | Update(version: int, payload: Option<RemoteConfig>, startsOk: bool)
    /** The next micro-step of the update that holds the lock. */
    | Commit
    | ShutdownBegins
    | WaiterRuns

  datatype Response = Response(lastAppliedVersion: int, failed: bool)

  // ---------- The checks of an update ----------

  /** There is no local flow limit, or it is a decimal number of 64 bits. */
  predicate FlagIsFine(flag: string) {
    flag == "" || (Strconv.IsDecimal(flag) && Strconv.Value(flag, 10) < TWO_TO_64)
  }

  /** A local flow limit takes the place of the remote one; the dialer settings stay. */
  function OverrideMaxActiveFlows(flag: string, warp: WarpRouting): (r: Option<WarpRouting>)
    ensures r.Some? <==> FlagIsFine(flag)
    ensures r.Some? ==> r.value.dialer == warp.dialer
    ensures r.Some? ==> r.value.maxActiveFlows == if flag == "" then warp.maxActiveFlows else Strconv.Value(flag, 10)
  {
    Strconv.DecimalDigits(flag);
    if flag == "" then Some(warp)
    else match Strconv.ParseUint(flag, 10, TWO_TO_64)
      case None => None
      case Some(n) => Some(warp.(maxActiveFlows := n))
  }

  /** The rules the new proxy serves: the internal ones, then the given ones or the default. */
  function EffectiveRules(s: State, rules: seq<Rule>): seq<Rule> {
    s.internalRules + (if rules == [] then s.defaultRules else rules)
  }

  /** The checks pass: nothing is shut down, the override parses and the origins start. */
  predicate Admits(s: State, config: RemoteConfig, startsOk: bool) {
    !s.shutdown && FlagIsFine(s.localFlag) && startsOk
  }

  /** `updateIngress` up to and including `StartOrigins`. */
  function Begin(s: State, version: Option<int>, config: RemoteConfig, startsOk: bool): State {
    if s.shutdown || OverrideMaxActiveFlows(s.localFlag, config.warp).None? then s
    else if !startsOk then
      s.(generations := s.generations + 1, dropped := s.dropped + {s.generations})
    else
      s.(generations := s.generations + 1,
         phase := Started(Job(version, EffectiveRules(s, config.rules),
                              OverrideMaxActiveFlows(s.localFlag, config.warp).value, s.generations)))
  }

  predicate Accepted(s: State, version: int, payload: Option<RemoteConfig>, startsOk: bool) {
    s.currentVersion < version && payload.Some? && Admits(s, payload.value, startsOk)
  }

  function BeginUpdate(s: State, version: int, payload: Option<RemoteConfig>, startsOk: bool): State {
    if s.currentVersion >= version || payload.None? then s
    else Begin(s, Some(version), payload.value, startsOk)
  }

  // ---------- Micro-steps ----------

  function Close(s: State, generation: Option<nat>): State {
    match generation
    case None => s
    case Some(g) => s.(closes := s.closes + multiset{g})
  }

  function CommitStep(s: State): State
    requires !s.phase.Idle?
  {
    var job := s.phase.job;
    match s.phase
    case Started(_) => s.(limit := job.warp.maxActiveFlows, phase := LimitSet(job))
    case LimitSet(_) => s.(dialer := job.warp.dialer, phase := DialerSet(job))
    case DialerSet(_) =>
      s.(proxy := Some(Proxy(job.generation, job.rules)), installed := s.installed + {job.generation},
         phase := ProxyStored(job))
    case ProxyStored(_) => s.(config := RemoteConfig(job.rules, job.warp), phase := ConfigSet(job))
    case ConfigSet(_) => Close(s, s.proxyShutdownC).(phase := OldClosed(job))
    case OldClosed(_) => s.(proxyShutdownC := Some(job.generation), phase := Installed(job))
    case Installed(_) =>
      if job.version.None? then s.(phase := Idle)
      else s.(currentVersion := job.version.value, applied := s.applied + [job.version.value], phase := Idle)
  }

  predicate Enabled(s: State, e: Event) {
    match e
    case Update(_, _, _) => s.phase.Idle?
    case Commit => !s.phase.Idle?
    case ShutdownBegins => true
    case WaiterRuns => s.shutdown && s.phase.Idle? && !s.waiterDone
  }

  function Step(s: State, e: Event): State
    requires Enabled(s, e)
  {
    match e
    case Update(version, payload, startsOk) => BeginUpdate(s, version, payload, startsOk)
    case Commit => CommitStep(s)
    case ShutdownBegins => s.(shutdown := true)
    case WaiterRuns => Close(s, s.proxyShutdownC).(proxyShutdownC := None, waiterDone := true)
  }

  predicate IsRun(s: State, events: seq<Event>)
    decreases |events|
  {
    events == [] || (Enabled(s, events[0]) && IsRun(Step(s, events[0]), events[1..]))
  }

  function After(s: State, events: seq<Event>): State
    requires IsRun(s, events)
    decreases |events|
  {
    if events == [] then s else After(Step(s, events[0]), events[1..])
  }

  // ---------- The constructor ----------

  function Unconfigured(flag: string, internal: seq<Rule>, defaults: seq<Rule>, config: RemoteConfig,
                        shutdown: bool): State
  {
    State(flag, internal, defaults, -1, None, config, config.warp.maxActiveFlows, config.warp.dialer, None,
          Idle, shutdown, false, 0, {}, {}, multiset{}, [])
  }

  /** The state in which `NewOrchestrator` has passed the checks of its first `updateIngress`. */
  function Initial(flag: string, internal: seq<Rule>, defaults: seq<Rule>, config: RemoteConfig): State {
    Begin(Unconfigured(flag, internal, defaults, config, false), None, config, true)
  }

  // ---------- The invariant ----------

  predicate Open(s: State, g: nat) {
    g in s.installed && g !in s.closes
  }

  /** Every stored generation other than `live` has been closed, and each close is the only one. */
  ghost predicate OthersClosed(s: State, live: set<nat>) {
    forall g :: g in s.installed || g in s.closes || g in live ==>
      && g in s.installed
      && s.closes[g] == (if g in live then 0 else 1)
  }

  function Held(c: Option<nat>): set<nat> {
    if c.None? then {} else {c.value}
  }

  function Generation(s: State): Option<nat> {
    if s.proxy.None? then None else Some(s.proxy.value.generation)
  }

  ghost predicate Lifecycle(s: State) {
    match s.phase
    case Idle =>
      if s.waiterDone then s.shutdown && s.proxyShutdownC.None? && OthersClosed(s, {})
      else s.proxyShutdownC == Generation(s) && OthersClosed(s, Held(s.proxyShutdownC))
    case Started(_) => BeforeStore(s)
    case LimitSet(_) => BeforeStore(s)
    case DialerSet(_) => BeforeStore(s)
    case ProxyStored(job) => AfterStore(s)
    case ConfigSet(job) => AfterStore(s)
    case OldClosed(job) =>
      !s.waiterDone && Generation(s) == Some(job.generation) && OthersClosed(s, {job.generation})
    case Installed(job) =>
      !s.waiterDone && Generation(s) == Some(job.generation) && OthersClosed(s, {job.generation})
      && s.proxyShutdownC == Some(job.generation)
  }

  ghost predicate BeforeStore(s: State)
    requires !s.phase.Idle?
  {
    && !s.waiterDone && s.proxyShutdownC == Generation(s)
    && s.phase.job.generation !in s.installed && s.phase.job.generation !in s.closes
    && OthersClosed(s, Held(s.proxyShutdownC))
  }

  ghost predicate AfterStore(s: State)
    requires !s.phase.Idle?
  {
    && !s.waiterDone && Generation(s) == Some(s.phase.job.generation)
    && Some(s.phase.job.generation) != s.proxyShutdownC
    && OthersClosed(s, Held(s.proxyShutdownC) + {s.phase.job.generation})
  }

  ghost predicate Numbered(s: State) {
    && (forall g :: g in s.installed || g in s.closes || g in s.dropped ==> g < s.generations)
    && s.installed !! s.dropped
    && (!s.phase.Idle? ==> s.phase.job.generation < s.generations && s.phase.job.generation !in s.dropped)
  }

  ghost predicate Versions(s: State) {
    && (forall i, j :: 0 <= i < j < |s.applied| ==> s.applied[i] < s.applied[j])
    && (forall i :: 0 <= i < |s.applied| ==> -1 < s.applied[i] <= s.currentVersion)
    && s.currentVersion == (if s.applied == [] then -1 else s.applied[|s.applied| - 1])
    && (!s.phase.Idle? && s.phase.job.version.Some? ==> s.currentVersion < s.phase.job.version.value)
  }

  /** Whenever the lock is free, proxy, configuration, limit and dialer come from the same update. */
  predicate Coherent(s: State) {
    match s.phase
    case Idle => s.proxy.Some? ==> Matches(s, s.config)
    case Started(job) => true
    case LimitSet(job) => s.limit == job.warp.maxActiveFlows
    case DialerSet(job) => s.limit == job.warp.maxActiveFlows && s.dialer == job.warp.dialer
    case ProxyStored(job) => Matches(s, RemoteConfig(job.rules, job.warp))
    case ConfigSet(job) =>
      Matches(s, RemoteConfig(job.rules, job.warp)) && s.config == RemoteConfig(job.rules, job.warp)
    case OldClosed(job) => Matches(s, s.config) && s.config == RemoteConfig(job.rules, job.warp)
    case Installed(job) => Matches(s, s.config) && s.config == RemoteConfig(job.rules, job.warp)
  }

  predicate Matches(s: State, config: RemoteConfig) {
    && s.limit == config.warp.maxActiveFlows && s.dialer == config.warp.dialer
    && s.proxy.Some? && s.proxy.value.rules == config.rules
  }

  ghost predicate Inv(s: State) {
    Lifecycle(s) && Numbered(s) && Versions(s) && Coherent(s)
  }

  // ---------- Preservation ----------

  lemma InitialInv(flag: string, internal: seq<Rule>, defaults: seq<Rule>, config: RemoteConfig)
    ensures Inv(Initial(flag, internal, defaults, config))
  {
  }

  lemma CommitKeepsNumbered(s: State)
    requires Lifecycle(s) && Numbered(s) && !s.phase.Idle?
    ensures Numbered(CommitStep(s))
  {
  }

  /** Before the new proxy is stored, and when it is. */
  lemma StoreKeepsLifecycle(s: State)
    requires Lifecycle(s) && Numbered(s) && (s.phase.Started? || s.phase.LimitSet? || s.phase.DialerSet?)
    ensures Lifecycle(CommitStep(s))
  {
  }

  /** From the stored proxy to the close of the old generation. */
  lemma CloseKeepsLifecycle(s: State)
    requires Lifecycle(s) && (s.phase.ProxyStored? || s.phase.ConfigSet?)
    ensures Lifecycle(CommitStep(s))
  {
  }

  lemma InstallKeepsLifecycle(s: State)
    requires Lifecycle(s) && (s.phase.OldClosed? || s.phase.Installed?)
    ensures Lifecycle(CommitStep(s))
  {
  }

  lemma CommitKeepsLifecycle(s: State)
    requires Lifecycle(s) && Numbered(s) && !s.phase.Idle?
    ensures Lifecycle(CommitStep(s))
  {
    match s.phase
    case ProxyStored(_) => CloseKeepsLifecycle(s);
    case ConfigSet(_) => CloseKeepsLifecycle(s);
    case OldClosed(_) => InstallKeepsLifecycle(s);
    case Installed(_) => InstallKeepsLifecycle(s);
    case _ => StoreKeepsLifecycle(s);
  }

  lemma CommitKeepsVersions(s: State)
    requires Versions(s) && !s.phase.Idle?
    ensures Versions(CommitStep(s))
  {
    if s.phase.Installed? {
      InstallKeepsVersions(s);
    } else {
      StoreKeepsVersions(s);
    }
  }

  lemma InstallKeepsVersions(s: State)
    requires Versions(s) && s.phase.Installed?
    ensures Versions(CommitStep(s))
  {
  }

  lemma StoreKeepsVersions(s: State)
    requires Versions(s) && !s.phase.Idle? && !s.phase.Installed?
    ensures Versions(CommitStep(s))
  {
    var t := CommitStep(s);
    assert t.applied == s.applied && t.currentVersion == s.currentVersion;
  }

  lemma CommitKeepsCoherent(s: State)
    requires Coherent(s) && !s.phase.Idle?
    ensures Coherent(CommitStep(s))
  {
  }

  lemma StepKeeps(s: State, e: Event)
    requires Inv(s) && Enabled(s, e)
    ensures Inv(Step(s, e))
  {
    match e
    case Update(version, payload, startsOk) => UpdateKeeps(s, version, payload, startsOk);
    case Commit =>
      CommitKeepsLifecycle(s);
      CommitKeepsNumbered(s);
      CommitKeepsVersions(s);
      CommitKeepsCoherent(s);
    case ShutdownBegins =>
    case WaiterRuns => WaiterKeeps(s);
  }

  lemma UpdateKeeps(s: State, version: int, payload: Option<RemoteConfig>, startsOk: bool)
    requires Inv(s) && s.phase.Idle?
    ensures Inv(BeginUpdate(s, version, payload, startsOk))
  {
  }

  lemma WaiterKeeps(s: State)
    requires Inv(s) && Enabled(s, WaiterRuns)
    ensures Inv(Step(s, WaiterRuns))
  {
  }

  lemma {:induction false} RunKeeps(s: State, events: seq<Event>)
    requires Inv(s) && IsRun(s, events)
    ensures Inv(After(s, events))
    decreases |events|
  {
    if events != [] {
      StepKeeps(s, events[0]);
      RunKeeps(Step(s, events[0]), events[1..]);
    }
  }

  // ---------- What the invariant gives ----------

  /**
   At every intermediate point of every run: no generation is closed twice, until the waiter has run the
   stored proxy's generation is open, once it has run every installed generation was closed exactly
   once, and a generation whose start failed is never closed.
   */
  lemma GenerationsCloseOnce(flag: string, internal: seq<Rule>, defaults: seq<Rule>, config: RemoteConfig,
                             events: seq<Event>, g: nat)
    requires IsRun(Initial(flag, internal, defaults, config), events)
    ensures var s := After(Initial(flag, internal, defaults, config), events);
            && s.closes[g] <= 1
            && (g in s.closes ==> g in s.installed)
            && (!s.waiterDone && s.proxy.Some? ==> Open(s, s.proxy.value.generation))
            && (s.waiterDone && g in s.installed ==> s.closes[g] == 1)
            && (g in s.dropped ==> g !in s.closes)
  {
    InitialInv(flag, internal, defaults, config);
    RunKeeps(Initial(flag, internal, defaults, config), events);
    var s := After(Initial(flag, internal, defaults, config), events);
    assert s.closes[g] <= 1 && (g in s.closes ==> g in s.installed);
  }

  /** Once the waiter has run, nothing is ever installed or closed again. */
  lemma {:induction false} NothingAfterTheWaiter(s: State, events: seq<Event>)
    requires Inv(s) && s.waiterDone && IsRun(s, events)
    ensures var t := After(s, events);
            && t.waiterDone && t.installed == s.installed && t.closes == s.closes
            && t.proxy == s.proxy && t.currentVersion == s.currentVersion
    decreases |events|
  {
    if events != [] {
      StepKeeps(s, events[0]);
      NothingAfterTheWaiter(Step(s, events[0]), events[1..]);
    }
  }

  /** The versions that were applied strictly increase, and the current one is the last of them. */
  lemma AppliedVersionsIncrease(flag: string, internal: seq<Rule>, defaults: seq<Rule>, config: RemoteConfig,
                                events: seq<Event>)
    requires FlagIsFine(flag)
    requires IsRun(Initial(flag, internal, defaults, config), events)
    ensures var s := After(Initial(flag, internal, defaults, config), events);
            && (forall i, j :: 0 <= i < j < |s.applied| ==> s.applied[i] < s.applied[j])
            && s.currentVersion == (if s.applied == [] then -1 else s.applied[|s.applied| - 1])
            && (s.phase.Idle? ==> Matches(s, s.config))
  {
    InitialInv(flag, internal, defaults, config);
    RunKeeps(Initial(flag, internal, defaults, config), events);
    ProxyPresent(Initial(flag, internal, defaults, config), events);
  }

  lemma {:induction false} ProxyPresent(s: State, events: seq<Event>)
    requires IsRun(s, events)
    requires s.proxy.Some? || !s.phase.Idle?
    requires s.phase.ProxyStored? || s.phase.ConfigSet? || s.phase.OldClosed? || s.phase.Installed? ==> s.proxy.Some?
    ensures After(s, events).phase.Idle? ==> After(s, events).proxy.Some?
    decreases |events|
  {
    if events != [] {
      ProxyPresent(Step(s, events[0]), events[1..]);
    }
  }

  /**
   An update is refused exactly when its version is not newer, it cannot be read, shutdown has begun, the
   local flow limit is no number of 64 bits, or the origins do not start; and then nothing changes that
   anybody else can see.
   */
  lemma RefusedUpdateChangesNothing(s: State, version: int, payload: Option<RemoteConfig>, startsOk: bool)
    requires s.phase.Idle?
    ensures var t := Step(s, Update(version, payload, startsOk));
            var decimal := s.localFlag == ""
                           || (Strconv.IsDecimal(s.localFlag) && Strconv.Value(s.localFlag, 10) < TWO_TO_64);
            if s.currentVersion < version && payload.Some? && !s.shutdown && decimal && startsOk
            then t.phase.Started? && t.phase.job.version == Some(version)
            else t == s.(generations := t.generations, dropped := t.dropped)
  {
  }

  /** The configuration that an update applies: the local flow limit, if any, and the default for no rules. */
  ghost predicate Applies(flag: string, internal: seq<Rule>, defaults: seq<Rule>, given: RemoteConfig, t: State) {
    var rules := internal + (if given.rules == [] then defaults else given.rules);
    && t.limit == (if flag == "" then given.warp.maxActiveFlows else Strconv.Value(flag, 10))
    && t.dialer == given.warp.dialer
    && t.proxy.Some? && t.proxy.value.rules == rules
    && t.config == RemoteConfig(rules, WarpRouting(t.limit, t.dialer))
  }

  /**
   An accepted update whose lock holder runs to the end: the whole configuration is replaced, the old
   generation is closed after the new one is stored, and shutdown beginning in between changes nothing
   of that.
   */
  lemma AcceptedUpdateApplies(s: State, version: int, payload: Option<RemoteConfig>, events: seq<Event>)
    requires Inv(s) && s.phase.Idle? && s.currentVersion < version && payload.Some? && !s.shutdown
    requires FlagIsFine(s.localFlag)
    requires IsRun(Step(s, Update(version, payload, true)), events)
    requires forall k :: 0 <= k < |events| ==> events[k].Commit? || events[k].ShutdownBegins?
    requires After(Step(s, Update(version, payload, true)), events).phase.Idle?
    ensures var t := After(Step(s, Update(version, payload, true)), events);
            && t.currentVersion == version
            && Applies(s.localFlag, s.internalRules, s.defaultRules, payload.value, t)
            && t.proxyShutdownC == Some(s.generations) && Generation(t) == t.proxyShutdownC
            && t.installed == s.installed + {s.generations}
            && t.closes == s.closes + multiset(Held(s.proxyShutdownC))
  {
    var started := Step(s, Update(version, payload, true));
    StepKeeps(s, Update(version, payload, true));
    JobApplies(started, events);
  }

  /** The same for the update of the constructor, which leaves the version as it is. */
  lemma ConstructorApplies(flag: string, internal: seq<Rule>, defaults: seq<Rule>, config: RemoteConfig,
                           events: seq<Event>)
    requires FlagIsFine(flag) && IsRun(Initial(flag, internal, defaults, config), events)
    requires forall k :: 0 <= k < |events| ==> events[k].Commit? || events[k].ShutdownBegins?
    requires After(Initial(flag, internal, defaults, config), events).phase.Idle?
    ensures var t := After(Initial(flag, internal, defaults, config), events);
            && t.currentVersion == -1 && Applies(flag, internal, defaults, config, t)
            && t.proxyShutdownC == Some(0) && t.installed == {0} && t.closes == multiset{}
  {
    JobApplies(Initial(flag, internal, defaults, config), events);
  }

  /** What the job of an update has done when the lock is released. */
  lemma JobApplies(s: State, events: seq<Event>)
    requires s.phase.Started? && IsRun(s, events) && After(s, events).phase.Idle?
    requires forall k :: 0 <= k < |events| ==> events[k].Commit? || events[k].ShutdownBegins?
    ensures var job, t := s.phase.job, After(s, events);
            && t.limit == job.warp.maxActiveFlows && t.dialer == job.warp.dialer
            && t.proxy == Some(Proxy(job.generation, job.rules)) && t.config == RemoteConfig(job.rules, job.warp)
            && t.proxyShutdownC == Some(job.generation) && t.installed == s.installed + {job.generation}
            && t.closes == s.closes + multiset(Held(s.proxyShutdownC))
            && t.currentVersion == if job.version.Some? then job.version.value else s.currentVersion
  {
    JobRuns(s, events);
    JobStores(s);
    var job := s.phase.job;
    JobReplaces(s.(limit := job.warp.maxActiveFlows, dialer := job.warp.dialer,
                   proxy := Some(Proxy(job.generation, job.rules)),
                   installed := s.installed + {job.generation},
                   phase := ProxyStored(job)));
  }

  /** Once shutdown has begun, no update gets through any more, and the waiter can run or has run. */
  lemma ShutdownEndsUpdates(s: State, events: seq<Event>, version: int, payload: Option<RemoteConfig>,
                            startsOk: bool)
    requires Inv(s) && IsRun(s, [ShutdownBegins] + events)
    requires After(s, [ShutdownBegins] + events).phase.Idle?
    ensures var last := After(s, [ShutdownBegins] + events);
            && (Enabled(last, WaiterRuns) || last.waiterDone)
            && Step(last, Update(version, payload, startsOk)).phase.Idle?
            && Step(last, Update(version, payload, startsOk)).proxy == last.proxy
  {
    assert ([ShutdownBegins] + events)[1..] == events;
    ShutdownStays(Step(s, ShutdownBegins), events);
  }

  lemma {:induction false} ShutdownStays(s: State, events: seq<Event>)
    requires s.shutdown && IsRun(s, events)
    ensures After(s, events).shutdown
    decreases |events|
  {
    if events != [] {
      ShutdownStays(Step(s, events[0]), events[1..]);
    }
  }

  /** What the remaining micro-steps of a job will have done by the time the lock is released. */
  function Finished(s: State): State
    decreases PhaseRank(s.phase)
  {
    if s.phase.Idle? then s else Finished(CommitStep(s))
  }

  function PhaseRank(p: Phase): nat {
    match p
    case Idle => 0
    case Installed(_) => 1
    case OldClosed(_) => 2
    case ConfigSet(_) => 3
    case ProxyStored(_) => 4
    case DialerSet(_) => 5
    case LimitSet(_) => 6
    case Started(_) => 7
  }

  lemma JobStores(s: State)
    requires s.phase.Started?
    ensures var job := s.phase.job;
            Finished(s) == Finished(s.(
              limit := job.warp.maxActiveFlows, dialer := job.warp.dialer,
              proxy := Some(Proxy(job.generation, job.rules)),
              installed := s.installed + {job.generation},
              phase := ProxyStored(job)))
  {
    var s1 := CommitStep(s);
    var s2 := CommitStep(s1);
    assert Finished(s) == Finished(s1) == Finished(s2);
  }

  lemma JobCloses(s: State)
    requires s.phase.ProxyStored?
    ensures var job := s.phase.job;
            Finished(s) == Finished(s.(
              config := RemoteConfig(job.rules, job.warp),
              closes := s.closes + multiset(Held(s.proxyShutdownC)),
              phase := OldClosed(job)))
  {
    var s1 := CommitStep(s);
    var s2 := CommitStep(s1);
    assert s2.closes == s.closes + multiset(Held(s.proxyShutdownC));
    assert Finished(s) == Finished(s1) == Finished(s2);
  }

  function Versioned(s: State, version: Option<int>): State {
    if version.None? then s
    else s.(currentVersion := version.value, applied := s.applied + [version.value])
  }

  lemma JobEnds(s: State)
    requires s.phase.OldClosed?
    ensures var job := s.phase.job;
            Finished(s) == Versioned(s, job.version).(proxyShutdownC := Some(job.generation), phase := Idle)
  {
    var s1 := CommitStep(s);
    var s2 := CommitStep(s1);
    assert Finished(s) == Finished(s1) == Finished(s2) == s2;
  }

  lemma JobReplaces(s: State)
    requires s.phase.ProxyStored?
    ensures var job := s.phase.job;
            Finished(s) == Versioned(s, job.version).(
              config := RemoteConfig(job.rules, job.warp),
              closes := s.closes + multiset(Held(s.proxyShutdownC)),
              proxyShutdownC := Some(job.generation),
              phase := Idle)
  {
    JobCloses(s);
    JobEnds(s.(
      config := RemoteConfig(s.phase.job.rules, s.phase.job.warp),
      closes := s.closes + multiset(Held(s.proxyShutdownC)),
      phase := OldClosed(s.phase.job)));
  }

  lemma {:induction false} JobRuns(s: State, events: seq<Event>)
    requires IsRun(s, events)
    requires forall k :: 0 <= k < |events| ==> events[k].Commit? || events[k].ShutdownBegins?
    requires After(s, events).phase.Idle?
    ensures After(s, events).(shutdown := s.shutdown) == Finished(s)
    decreases |events|
  {
    if events != [] {
      JobRuns(Step(s, events[0]), events[1..]);
      if events[0].ShutdownBegins? {
        FinishIgnoresShutdown(s);
      }
    }
  }

  lemma {:induction false} FinishIgnoresShutdown(s: State)
    ensures Finished(s.(shutdown := true)) == Finished(s).(shutdown := true)
    ensures Finished(s).shutdown == s.shutdown
    decreases PhaseRank(s.phase)
  {
    if !s.phase.Idle? {
      CommitIgnoresShutdown(s);
      FinishIgnoresShutdown(CommitStep(s));
    }
  }

  lemma CommitIgnoresShutdown(s: State)
    requires !s.phase.Idle?
    ensures CommitStep(s.(shutdown := true)) == CommitStep(s).(shutdown := true)
    ensures CommitStep(s).shutdown == s.shutdown
  {
    match s.phase
    case ConfigSet(_) =>
      var t := s.(shutdown := true);
      assert Close(t, t.proxyShutdownC) == Close(s, s.proxyShutdownC).(shutdown := true);
    case _ =>
  }

  // ---------- The mutable orchestrator ----------

  lemma {:induction false} Extend(s: State, trace: seq<Event>, e: Event)
    requires IsRun(s, trace) && Enabled(After(s, trace), e)
    ensures IsRun(s, trace + [e]) && After(s, trace + [e]) == Step(After(s, trace), e)
    decreases |trace|
  {
    if trace == [] {
      assert trace + [e] == [e];
    } else {
      assert (trace + [e])[0] == trace[0] && (trace + [e])[1..] == trace[1..] + [e];
      Extend(Step(s, trace[0]), trace[1..], e);
    }
  }

  class Orchestrator {
    const localFlag: string
    const internalRules: seq<Rule>
    const defaultRules: seq<Rule>
    var currentVersion: int
    var proxy: Option<Proxy>
    var config: RemoteConfig
    var limit: nat
    var dialer: nat
    var proxyShutdownC: Option<nat>
    var shutdown: bool
    var generations: nat
    ghost var phase: Phase
    ghost var waiterDone: bool
    ghost var installed: set<nat>
    ghost var dropped: set<nat>
    ghost var closes: multiset<nat>
    ghost var applied: seq<int>
    // The run taken so far, in which every micro-step and every interruption is an event.
    ghost var trace: seq<Event>

    ghost function View(): State
      reads this
    {
      State(localFlag, internalRules, defaultRules, currentVersion, proxy, config, limit, dialer, proxyShutdownC,
            phase, shutdown, waiterDone, generations, installed, dropped, closes, applied)
    }

    /** The object is where its trace leads from the start. */
    ghost predicate Follows(start: State)
      reads this
    {
      Inv(start) && IsRun(start, trace) && After(start, trace) == View()
    }

    constructor (flag: string, internal: seq<Rule>, defaults: seq<Rule>, config: RemoteConfig, shutdown: bool)
      ensures View() == Unconfigured(flag, internal, defaults, config, shutdown)
    {
      localFlag, internalRules, defaultRules, currentVersion := flag, internal, defaults, -1;
      this.config, this.shutdown := config, shutdown;
      limit, dialer, proxy, proxyShutdownC := config.warp.maxActiveFlows, config.warp.dialer, None, None;
      phase, waiterDone, generations, installed, dropped, closes, applied := Idle, false, 0, {}, {}, multiset{}, [];
      trace := [];
    }

    /** The context may be cancelled at this point. */
    method Interrupt(now: bool, ghost start: State)
      requires Follows(start)
      modifies this`shutdown, this`trace
      ensures Follows(start)
      ensures View() == old(View()).(shutdown := old(shutdown) || now)
    {
      if now {
        Extend(start, trace, ShutdownBegins);
        shutdown := true;
        trace := trace + [ShutdownBegins];
      }
    }

    ghost method Committed(start: State, before: State)
      requires Inv(start) && IsRun(start, trace) && After(start, trace) == before
      requires !before.phase.Idle? && View() == CommitStep(before)
      modifies this`trace
      ensures Follows(start) && View() == old(View())
    {
      Extend(start, trace, Commit);
      trace := trace + [Commit];
    }

    method SetLimit(warp: WarpRouting, ghost start: State)
      requires Follows(start) && phase.Started? && phase.job.warp == warp
      modifies this
      ensures Follows(start) && phase == LimitSet(old(phase).job)
    {
      ghost var before := View();
      limit := warp.maxActiveFlows;
      phase := LimitSet(phase.job);
      Committed(start, before);
    }

    method UpdateDefaultDialer(warp: WarpRouting, ghost start: State)
      requires Follows(start) && phase.LimitSet? && phase.job.warp == warp
      modifies this
      ensures Follows(start) && phase == DialerSet(old(phase).job)
    {
      ghost var before := View();
      dialer := warp.dialer;
      phase := DialerSet(phase.job);
      Committed(start, before);
    }

    method StoreProxy(newProxy: Proxy, ghost start: State)
      requires Follows(start)
      requires phase.DialerSet? && newProxy == Proxy(phase.job.generation, phase.job.rules)
      modifies this
      ensures Follows(start) && phase == ProxyStored(old(phase).job)
    {
      ghost var before := View();
      proxy := Some(newProxy);
      installed := installed + {newProxy.generation};
      phase := ProxyStored(phase.job);
      Committed(start, before);
    }

    method SetConfig(rules: seq<Rule>, warp: WarpRouting, ghost start: State)
      requires Follows(start) && phase.ProxyStored? && phase.job.rules == rules && phase.job.warp == warp
      modifies this
      ensures Follows(start) && phase == ConfigSet(old(phase).job)
    {
      ghost var before := View();
      config := RemoteConfig(rules, warp);
      phase := ConfigSet(phase.job);
      Committed(start, before);
    }

    /** Closing a channel twice panics; the assertion says that it is still open. */
    method ClosePrevious(ghost start: State)
      requires Follows(start) && phase.ConfigSet?
      modifies this
      ensures Follows(start) && phase == OldClosed(old(phase).job)
    {
      ghost var before := View();
      if proxyShutdownC.Some? {
        RunKeeps(start, trace);
        assert proxyShutdownC.value !in closes;
        closes := closes + multiset{proxyShutdownC.value};
      }
      phase := OldClosed(phase.job);
      Committed(start, before);
    }

    method Install(generation: nat, ghost start: State)
      requires Follows(start) && phase.OldClosed? && phase.job.generation == generation
      modifies this
      ensures Follows(start) && phase == Installed(old(phase).job)
    {
      ghost var before := View();
      proxyShutdownC := Some(generation);
      phase := Installed(phase.job);
      Committed(start, before);
    }

    /** The shutdown check, the override and the start of the origins: everything that can refuse. */
    method Prepare(ghost version: Option<int>, newConfig: RemoteConfig, startsOk: bool)
      returns (job: Option<(seq<Rule>, WarpRouting, nat)>)
      requires phase.Idle?
      modifies this
      ensures View() == Begin(old(View()), version, newConfig, startsOk) && trace == old(trace)
      ensures job.Some? <==> Admits(old(View()), newConfig, startsOk)
      ensures job.Some? ==> phase == Started(Job(version, job.value.0, job.value.1, job.value.2))
      ensures job.Some? ==>
        && job.value.0 == internalRules + (if newConfig.rules == [] then defaultRules else newConfig.rules)
        && job.value.1.dialer == newConfig.warp.dialer
        && job.value.1.maxActiveFlows ==
             if localFlag == "" then newConfig.warp.maxActiveFlows else Strconv.Value(localFlag, 10)
    {
      if shutdown {
        return None;
      }
      var warp := OverrideMaxActiveFlows(localFlag, newConfig.warp);
      if warp.None? {
        return None;
      }
      var rules := internalRules + (if |newConfig.rules| == 0 then defaultRules else newConfig.rules);
      var proxyShutdown := generations;
      generations := generations + 1;
      if !startsOk {
        dropped := dropped + {proxyShutdown};
        return None;
      }
      phase := Started(Job(version, rules, warp.value, proxyShutdown));
      return Some((rules, warp.value, proxyShutdown));
    }

    /** The part of `updateIngress` after the checks. */
    method Replace(rules: seq<Rule>, warp: WarpRouting, generation: nat, interrupts: seq<bool>, ghost start: State)
      requires |interrupts| == 6 && Follows(start)
      requires phase.Started? && phase == Started(Job(phase.job.version, rules, warp, generation))
      modifies this
      ensures Follows(start) && phase == Installed(old(phase).job)
    {
      Interrupt(interrupts[0], start);
      SetLimit(warp, start);
      Interrupt(interrupts[1], start);
      UpdateDefaultDialer(warp, start);
      Interrupt(interrupts[2], start);
      StoreProxy(Proxy(generation, rules), start);
      Interrupt(interrupts[3], start);
      SetConfig(rules, warp, start);
      Interrupt(interrupts[4], start);
      ClosePrevious(start);
      Interrupt(interrupts[5], start);
      Install(generation, start);
    }

    /** The constructor's own update; it reports failure when the checks refuse. */
    method Configure(startsOk: bool, interrupts: seq<bool>) returns (ok: bool)
      requires |interrupts| == 6
      requires View() == Unconfigured(localFlag, internalRules, defaultRules, config, shutdown) && trace == []
      modifies this
      ensures ok <==> Admits(old(View()), old(config), startsOk)
      ensures ok ==> Follows(Initial(localFlag, internalRules, defaultRules, old(config))) && phase.Idle?
      ensures ok ==> Applies(localFlag, internalRules, defaultRules, old(config), View())
    {
      ghost var start := Initial(localFlag, internalRules, defaultRules, config);
      InitialInv(localFlag, internalRules, defaultRules, config);
      var job := Prepare(None, config, startsOk);
      if job.None? {
        return false;
      }
      var (rules, warp, generation) := job.value;
      Replace(rules, warp, generation, interrupts, start);
      RunKeeps(start, trace);
      ghost var before := View();
      phase := Idle;
      Committed(start, before);
      return true;
    }

    method ApplyVersion(version: int, ghost start: State)
      requires Follows(start) && phase.Installed? && phase.job.version == Some(version)
      modifies this
      ensures Follows(start) && phase.Idle? && Inv(View()) && currentVersion == version
      ensures limit == old(limit) && dialer == old(dialer) && proxy == old(proxy) && config == old(config)
    {
      ghost var before := View();
      currentVersion := version;
      applied := applied + [version];
      phase := Idle;
      Committed(start, before);
      RunKeeps(start, trace);
    }

    /** An update whose checks have passed, to its end. */
    method CarryOut(version: int, rules: seq<Rule>, warp: WarpRouting, generation: nat, interrupts: seq<bool>,
                    ghost start: State)
      requires |interrupts| == 6 && Follows(start)
      requires phase == Started(Job(Some(version), rules, warp, generation))
      modifies this
      ensures Follows(start) && phase.Idle? && Inv(View()) && currentVersion == version
      ensures limit == warp.maxActiveFlows && dialer == warp.dialer
      ensures proxy.Some? && proxy.value.rules == rules && config == RemoteConfig(rules, warp)
    {
      Replace(rules, warp, generation, interrupts, start);
      RunKeeps(start, trace);
      ApplyVersion(version, start);
    }

    /**
     An update under the lock; `interrupts` says before which micro-steps shutdown begins. The call is a
     run of micro-steps that ends with the lock released, and the response says what is applied.
     */
    method UpdateConfig(version: int, payload: Option<RemoteConfig>, startsOk: bool, interrupts: seq<bool>,
                        ghost start: State)
      returns (response: Response)
      requires |interrupts| == 6 && Follows(start) && phase.Idle?
      modifies this
      ensures Follows(start) && phase.Idle? && Inv(View())
      ensures response.lastAppliedVersion == currentVersion
      ensures Accepted(old(View()), version, payload, startsOk) ==>
                && currentVersion == version && !response.failed
                && Applies(localFlag, internalRules, defaultRules, payload.value, View())
      ensures !Accepted(old(View()), version, payload, startsOk) ==>
                && View() == old(View()).(generations := generations, dropped := dropped)
                && (response.failed <==> old(currentVersion) < version)
    {
      RunKeeps(start, trace);
      ghost var update := Update(version, payload, startsOk);
      Extend(start, trace, update);
      if currentVersion >= version {
        trace := trace + [update];
        return Response(currentVersion, false);
      }
      if payload.None? {
        trace := trace + [update];
        return Response(currentVersion, true);
      }
      var job := Prepare(Some(version), payload.value, startsOk);
      trace := trace + [update];
      if job.None? {
        RunKeeps(start, trace);
        return Response(currentVersion, true);
      }
      var (rules, warp, generation) := job.value;
      CarryOut(version, rules, warp, generation, interrupts, start);
      return Response(currentVersion, false);
    }

    /** The goroutine that closes the last proxy, once it has the lock. */
    method WaitToCloseLastProxy(ghost start: State)
      requires Follows(start) && Enabled(View(), WaiterRuns)
      modifies this
      ensures Follows(start) && View() == Step(old(View()), WaiterRuns)
    {
      RunKeeps(start, trace);
      Extend(start, trace, WaiterRuns);
      if proxyShutdownC.Some? {
        assert proxyShutdownC.value !in closes;
        closes := closes + multiset{proxyShutdownC.value};
        proxyShutdownC := None;
      }
      waiterDone := true;
      trace := trace + [WaiterRuns];
    }
  }
}
