/** The remote-write runtime as an interleaving of any number of `Apply` and `Stop`
calls, settings changes and workers.  Every acquisition of a lock, every wait and
every goroutine's end is a step of its own. */
module RemoteWriteRuntime {
  import opened Wrappers

  type Thread = int

  datatype Config = Config(enabled: bool, contents: int)

  /** `done` is whether the worker's done channel is closed. */
  datatype Worker = Worker(config: Config, cancelled: bool, finished: bool, done: bool)

  /** Where a call stands; `version` is which settings it read. */
  datatype Pc =
    | Idle
    | Locked
    | Resolved(version: nat, config: Config)
    | Replacing(version: nat, config: Config)
    | Cleared(version: nat, config: Config)
    | Stopping
    | StopReturned

  /** The fields guarded by `mu`; `current` is the worker that `cancel` and `done` belong to. */
  datatype Core = Core(activeConfig: Option<Config>, current: Option<nat>, stopped: bool)

  /** `settings` lists every version the settings store ever held; `activeVersion` records which
      of them `activeConfig` was read from. */
  datatype State = State(
    settings: seq<Config>,
    applyOwner: Option<Thread>,
    muOwner: Option<Thread>,
    pcs: map<Thread, Pc>,
    core: Core,
    activeVersion: nat,
    workers: seq<Worker>,
    rootCancelled: bool)

  datatype Event =
    | Settings(config: Config)
    | ApplyLock(thread: Thread)
    | ApplyResolve(thread: Thread, ok: bool)
    | ApplyAbort(thread: Thread)
    | ApplyEnter(thread: Thread)
    | ApplyCleared(thread: Thread)
    | ApplyCommit(thread: Thread)
    | StopEnter(thread: Thread)
    | StopDone(thread: Thread)
    | WorkerEnds(worker: nat)
    | DoneCloses(worker: nat)
    | RootCancels

  const INITIAL := State([], None, None, map[], Core(None, None, false), 0, [], false)

  // ----- Steps -----

  function At(s: State, t: Thread): Pc {
    if t in s.pcs then s.pcs[t] else Idle
  }

  function Goto(s: State, t: Thread, pc: Pc): State {
    s.(pcs := s.pcs[t := pc])
  }

  function Cancel(workers: seq<Worker>, current: Option<nat>): seq<Worker> {
    if current.Some? && current.value < |workers|
    then workers[current.value := workers[current.value].(cancelled := true)]
    else workers
  }

  /** The wait on the done channel is over; there is none to wait for without a worker. */
  predicate WaitOver(s: State) {
    s.core.current.Some? ==> s.core.current.value < |s.workers| && s.workers[s.core.current.value].done
  }

  function Leave(s: State, t: Thread): State {
    Goto(s.(applyOwner := None), t, Idle)
  }

  function Enter(s: State, t: Thread): State
    requires At(s, t).Resolved?
  {
    var pc := At(s, t);
    if s.core.stopped || s.rootCancelled then
      Leave(s, t)
    else if s.core.activeConfig == Some(pc.config) then
      Leave(s.(activeVersion := pc.version), t)
    else
      Goto(s.(muOwner := Some(t), workers := Cancel(s.workers, s.core.current)), t, Replacing(pc.version, pc.config))
  }

  function Commit(s: State, t: Thread): State
    requires At(s, t).Cleared?
  {
    var pc := At(s, t);
    var s' := Leave(s.(muOwner := None, activeVersion := pc.version), t);
    if pc.config.enabled then
      s'.(core := s.core.(activeConfig := Some(pc.config), current := Some(|s.workers|)),
          workers := s.workers + [Worker(pc.config, false, false, false)])
    else
      s'.(core := s.core.(activeConfig := Some(pc.config)))
  }

  predicate CanStep(s: State, e: Event) {
    match e
    case Settings(_) => true
    case ApplyLock(t) => At(s, t).Idle? && s.applyOwner.None?
    case ApplyResolve(t, ok) => At(s, t).Locked? && (ok ==> s.settings != [])
    case ApplyAbort(t) => At(s, t).Resolved?
    case ApplyEnter(t) => At(s, t).Resolved? && s.muOwner.None?
    case ApplyCleared(t) => At(s, t).Replacing? && WaitOver(s)
    case ApplyCommit(t) => At(s, t).Cleared?
    case StopEnter(t) => At(s, t).Idle? && s.muOwner.None?
    case StopDone(t) => At(s, t).Stopping? && WaitOver(s)
    case WorkerEnds(w) => w < |s.workers| && !s.workers[w].finished
    case DoneCloses(w) => w < |s.workers| && s.workers[w].finished && !s.workers[w].done
    case RootCancels => true
  }

  function Next(s: State, e: Event): State {
    if !CanStep(s, e) then s else
    match e
    case Settings(config) => s.(settings := s.settings + [config])
    case ApplyLock(t) => Goto(s.(applyOwner := Some(t)), t, Locked)
    case ApplyResolve(t, ok) =>
      if ok then Goto(s, t, Resolved(|s.settings| - 1, s.settings[|s.settings| - 1])) else Leave(s, t)
    case ApplyAbort(t) => Leave(s, t)
    case ApplyEnter(t) => Enter(s, t)
    case ApplyCleared(t) =>
      Goto(s.(core := s.core.(current := None)), t, Cleared(At(s, t).version, At(s, t).config))
    case ApplyCommit(t) => Commit(s, t)
    case StopEnter(t) =>
      var s' := s.(muOwner := Some(t), core := s.core.(stopped := true), workers := Cancel(s.workers, s.core.current));
      Goto(s', t, Stopping)
    case StopDone(t) =>
      Goto(s.(muOwner := None, core := s.core.(current := None)), t, StopReturned)
    case WorkerEnds(w) => s.(workers := s.workers[w := s.workers[w].(finished := true)])
    case DoneCloses(w) => s.(workers := s.workers[w := s.workers[w].(done := true)])
    case RootCancels =>
      s.(rootCancelled := true,
         workers := seq(|s.workers|, i requires 0 <= i < |s.workers| => s.workers[i].(cancelled := true)))
  }

  function Run(s: State, events: seq<Event>): State
    decreases |events|
  {
    if events == [] then s else Run(Next(s, events[0]), events[1..])
  }

  // ----- The invariant -----

  predicate HasApply(pc: Pc) {
    pc.Locked? || pc.Resolved? || pc.Replacing? || pc.Cleared?
  }

  predicate HasMu(pc: Pc) {
    pc.Replacing? || pc.Cleared? || pc.Stopping?
  }

  /** Who holds which lock, and what a call may rely on where it stands. */
  predicate ThreadInv(s: State, t: Thread) {
    var pc := At(s, t);
    && (HasApply(pc) <==> s.applyOwner == Some(t))
    && (HasMu(pc) <==> s.muOwner == Some(t))
    && (pc.Cleared? ==> s.core.current.None?)
    && (pc.Replacing? || pc.Cleared? ==> !s.core.stopped)
    && (pc.Stopping? || pc.StopReturned? ==> s.core.stopped)
    && (pc.Replacing? || pc.Stopping? ==> AwaitsCancelled(s))
    && Read(s, pc)
  }

  /** The worker waited for, if any, has been cancelled. */
  predicate AwaitsCancelled(s: State) {
    s.core.current.Some? && s.core.current.value < |s.workers| ==> s.workers[s.core.current.value].cancelled
  }

  /** What a call read is what the store held, and no older than what is active. */
  predicate Read(s: State, pc: Pc) {
    pc.Resolved? || pc.Replacing? || pc.Cleared? ==>
      && pc.version < |s.settings| && s.settings[pc.version] == pc.config
      && s.activeVersion <= pc.version
  }

  predicate WorkerInv(s: State) {
    && (forall w :: 0 <= w < |s.workers| && s.workers[w].done ==> s.workers[w].finished)
    && (forall w :: 0 <= w < |s.workers| && !s.workers[w].finished ==> s.core.current == Some(w))
    && (s.core.current.Some? ==>
          && s.core.current.value < |s.workers|
          && s.core.activeConfig == Some(s.workers[s.core.current.value].config))
  }

  predicate CoreInv(s: State) {
    && (s.core.stopped && s.muOwner.None? ==> s.core.current.None?)
    && (s.core.activeConfig.Some? ==>
          s.activeVersion < |s.settings| && s.settings[s.activeVersion] == s.core.activeConfig.value)
    && (s.core.activeConfig.None? ==> s.activeVersion == 0)
  }

  ghost predicate Inv(s: State) {
    WorkerInv(s) && CoreInv(s) && forall t :: ThreadInv(s, t)
  }

  predicate ByThread(e: Event) {
    !e.Settings? && !e.WorkerEnds? && !e.DoneCloses? && !e.RootCancels?
  }

  lemma StepKeepsOwnThread(s: State, e: Event)
    requires Inv(s) && ByThread(e)
    ensures ThreadInv(Next(s, e), e.thread)
  {
    assert ThreadInv(s, e.thread);
  }

  lemma StepKeepsOtherThread(s: State, e: Event, t: Thread)
    requires Inv(s) && ByThread(e) && t != e.thread
    ensures ThreadInv(Next(s, e), t)
  {
    assert ThreadInv(s, t) && ThreadInv(s, e.thread);
    assert At(Next(s, e), t) == At(s, t);
  }

  lemma StepKeepsThread(s: State, e: Event, t: Thread)
    requires Inv(s)
    ensures ThreadInv(Next(s, e), t)
  {
    if !ByThread(e) {
      assert ThreadInv(s, t);
      assert At(Next(s, e), t) == At(s, t);
    } else if t == e.thread {
      StepKeepsOwnThread(s, e);
    } else {
      StepKeepsOtherThread(s, e, t);
    }
  }

  lemma StepKeepsWorkers(s: State, e: Event)
    requires Inv(s)
    ensures WorkerInv(Next(s, e))
  {
    if ByThread(e) {
      assert ThreadInv(s, e.thread);
    }
  }

  lemma StepKeepsCore(s: State, e: Event)
    requires Inv(s)
    ensures CoreInv(Next(s, e))
  {
    if ByThread(e) {
      assert ThreadInv(s, e.thread);
    }
  }

  lemma StepKeepsInv(s: State, e: Event)
    requires Inv(s)
    ensures Inv(Next(s, e))
  {
    StepKeepsWorkers(s, e);
    StepKeepsCore(s, e);
    forall t ensures ThreadInv(Next(s, e), t) {
      StepKeepsThread(s, e, t);
    }
  }

  lemma {:induction false} RunKeepsInv(s: State, events: seq<Event>)
    requires Inv(s)
    ensures Inv(Run(s, events))
    decreases |events|
  {
    if events != [] {
      StepKeepsInv(s, events[0]);
      RunKeepsInv(Next(s, events[0]), events[1..]);
    }
  }

  // ----- What holds in every run -----

  lemma InitialInv()
    ensures Inv(INITIAL)
  {
  }

  /** Deliveries never overlap: of all workers ever started at most one has not finished, and it runs
      the configuration on record, which is a version the settings store held. */
  lemma OneWorkerRunsActiveConfig(events: seq<Event>, v: nat, w: nat)
    requires var s := Run(INITIAL, events);
             v < |s.workers| && w < |s.workers| && !s.workers[v].finished && !s.workers[w].finished
    ensures var s := Run(INITIAL, events);
            && v == w
            && s.core.activeConfig == Some(s.workers[v].config)
            && s.activeVersion < |s.settings| && s.settings[s.activeVersion] == s.workers[v].config
  {
    InitialInv();
    RunKeepsInv(INITIAL, events);
  }

  lemma StepKeepsNewest(s: State, e: Event)
    requires Inv(s)
    ensures s.activeVersion <= Next(s, e).activeVersion
    ensures s.settings <= Next(s, e).settings
  {
    if ByThread(e) {
      assert ThreadInv(s, e.thread);
    }
  }

  /** A slower call that read older settings never overwrites what a newer read put in place. */
  lemma {:induction false} NewerSettingsStay(s: State, events: seq<Event>)
    requires Inv(s)
    ensures s.activeVersion <= Run(s, events).activeVersion
    ensures s.settings <= Run(s, events).settings
    decreases |events|
  {
    if events != [] {
      StepKeepsInv(s, events[0]);
      StepKeepsNewest(s, events[0]);
      NewerSettingsStay(Next(s, events[0]), events[1..]);
    }
  }

  lemma StepAfterStop(s: State, e: Event, t: Thread)
    requires Inv(s) && At(s, t).StopReturned?
    ensures At(Next(s, e), t).StopReturned? && |Next(s, e).workers| == |s.workers|
  {
    assert ThreadInv(s, t);
    if ByThread(e) {
      assert ThreadInv(s, e.thread);
    }
  }

  /** After a call put its configuration in place, that configuration is on record; enabled, it has an
      unfinished worker that was not cancelled, the only one; disabled, it has none. */
  lemma CommitTakesEffect(s: State, t: Thread)
    requires Inv(s) && At(s, t).Cleared?
    ensures var s', config := Next(s, ApplyCommit(t)), At(s, t).config;
            && s'.core.activeConfig == Some(config) && s'.activeVersion == At(s, t).version && At(s', t).Idle?
            && (config.enabled ==>
                  && |s'.workers| == |s.workers| + 1
                  && s'.workers[|s.workers|] == Worker(config, false, false, false)
                  && forall w :: 0 <= w < |s.workers| ==> s'.workers[w].finished)
            && (!config.enabled ==> s'.workers == s.workers && Quiet(s'))
  {
    assert ThreadInv(s, t);
  }

  /** A call whose configuration is on record already, or that comes after a stop, leaves the workers alone. */
  lemma EnterLeavesWorkers(s: State, t: Thread)
    requires Inv(s) && At(s, t).Resolved? && s.muOwner.None?
    ensures var s', config := Next(s, ApplyEnter(t)), At(s, t).config;
            var idle := s.core.stopped || s.rootCancelled || s.core.activeConfig == Some(config);
            && (At(s', t).Idle? <==> idle)
            && (idle ==> s'.workers == s.workers && s'.core == s.core)
            && (!idle ==> At(s', t).Replacing? && AwaitsCancelled(s') && |s'.workers| == |s.workers|)
  {
    assert ThreadInv(s, t);
  }

  /** Every worker that was ever started has finished. */
  predicate Quiet(s: State) {
    forall w :: 0 <= w < |s.workers| ==> s.workers[w].finished
  }

  lemma StopLeavesQuiet(s: State, e: Event)
    requires Inv(s) && e.StopDone? && CanStep(s, e)
    ensures Quiet(Next(s, e)) && At(Next(s, e), e.thread).StopReturned?
  {
    assert ThreadInv(s, e.thread);
  }

  lemma StepKeepsQuiet(s: State, e: Event, t: Thread)
    requires Inv(s) && Quiet(s) && At(s, t).StopReturned?
    ensures Quiet(Next(s, e))
  {
    assert ThreadInv(s, t);
    if ByThread(e) {
      assert ThreadInv(s, e.thread);
    }
  }

  /** Once a `Stop` has returned, no worker runs and none is started, whatever else is under way. */
  lemma {:induction false} NothingRunsAfterStop(s: State, stop: Event, events: seq<Event>)
    requires Inv(s) && stop.StopDone? && CanStep(s, stop)
    ensures Quiet(Run(Next(s, stop), events))
    ensures |Run(Next(s, stop), events).workers| == |s.workers|
  {
    StopLeavesQuiet(s, stop);
    StepKeepsInv(s, stop);
    StaysQuiet(Next(s, stop), events, stop.thread);
  }

  lemma {:induction false} StaysQuiet(s: State, events: seq<Event>, t: Thread)
    requires Inv(s) && Quiet(s) && At(s, t).StopReturned?
    ensures Quiet(Run(s, events)) && |Run(s, events).workers| == |s.workers|
    decreases |events|
  {
    if events != [] {
      StepKeepsQuiet(s, events[0], t);
      StepAfterStop(s, events[0], t);
      StepKeepsInv(s, events[0]);
      StaysQuiet(Next(s, events[0]), events[1..], t);
    }
  }

  // ----- The critical sections as they run -----

  datatype Held = Held(core: Core, workers: seq<Worker>)

  /** The worker in charge cancelled and waited for. */
  function Halt(h: Held): Held {
    if h.core.current.Some? && h.core.current.value < |h.workers|
    then Held(h.core.(current := None),
              h.workers[h.core.current.value := Worker(h.workers[h.core.current.value].config, true, true, true)])
    else Held(h.core.(current := None), h.workers)
  }

  function Replace(h: Held, config: Config): Held {
    var halted := Halt(h);
    if config.enabled then
      Held(halted.core.(activeConfig := Some(config), current := Some(|halted.workers|)),
           halted.workers + [Worker(config, false, false, false)])
    else
      Held(halted.core.(activeConfig := Some(config)), halted.workers)
  }

  class Runtime {
    var activeConfig: Option<Config>
    var current: Option<nat>
    var stopped: bool
    var workers: seq<Worker>

    ghost function View(): Held
      reads this
    {
      Held(Core(activeConfig, current, stopped), workers)
    }

    ghost predicate Valid()
      reads this
    {
      && (current.Some? ==> current.value < |workers| && activeConfig == Some(workers[current.value].config))
      && (forall w :: 0 <= w < |workers| && !workers[w].finished ==> current == Some(w))
    }

    constructor ()
      ensures Valid() && View() == Held(INITIAL.core, [])
    {
      activeConfig, current, stopped, workers := None, None, false, [];
    }

    /** `stopActiveLocked`: cancel, then wait until the worker is done. */
    method StopActiveLocked()
      requires Valid()
      modifies this`current, this`workers
      ensures Valid() && View() == Halt(old(View()))
      ensures forall w :: 0 <= w < |workers| ==> workers[w].finished
    {
      if current.Some? {
        var w := current.value;
        workers := workers[w := workers[w].(cancelled := true)];
        workers := workers[w := workers[w].(finished := true, done := true)];
      }
      current := None;
    }

    /** `Apply` once the settings are resolved. */
    method ApplyLocked(config: Config, rootCancelled: bool) returns (ok: bool)
      requires Valid()
      modifies this
      ensures Valid()
      ensures ok <==> !old(stopped) && !rootCancelled
      ensures View() == if !ok || old(activeConfig) == Some(config) then old(View()) else Replace(old(View()), config)
      ensures ok ==> activeConfig == Some(config)
      ensures ok && old(activeConfig) != Some(config) && config.enabled ==>
                && current.Some? && current.value < |workers|
                && workers[current.value] == Worker(config, false, false, false)
      ensures ok && old(activeConfig) != Some(config) && !config.enabled ==>
                current.None? && forall w :: 0 <= w < |workers| ==> workers[w].finished
    {
      if stopped || rootCancelled {
        return false;
      }
      if activeConfig == Some(config) {
        return true;
      }
      StopActiveLocked();
      activeConfig := Some(config);
      if config.enabled {
        current := Some(|workers|);
        workers := workers + [Worker(config, false, false, false)];
      }
      return true;
    }

    /** `Stop` */
    method StopRuntime()
      requires Valid()
      modifies this
      ensures Valid() && stopped && activeConfig == old(activeConfig)
      ensures View() == Halt(Held(old(View()).core.(stopped := true), old(workers)))
      ensures forall w :: 0 <= w < |workers| ==> workers[w].finished
    {
      stopped := true;
      StopActiveLocked();
    }
  }

  /** The worker in charge ends and its done channel closes, as far as that has not happened. */
  function WorkerLeaves(s: State): State {
    if s.core.current.None? then s
    else Next(Next(s, WorkerEnds(s.core.current.value)), DoneCloses(s.core.current.value))
  }

  /** The critical section of `Apply` is what the steps of one call add up to when the worker it
      waits for ends meanwhile. */
  lemma ApplyIsItsSteps(s: State, t: Thread)
    requires Inv(s) && At(s, t).Resolved? && s.muOwner.None? && !s.core.stopped && !s.rootCancelled
    requires s.core.activeConfig != Some(At(s, t).config)
    ensures var s1 := WorkerLeaves(Next(s, ApplyEnter(t)));
            var s2 := Next(Next(s1, ApplyCleared(t)), ApplyCommit(t));
            Held(s2.core, s2.workers) == Replace(Held(s.core, s.workers), At(s, t).config)
  {
    assert ThreadInv(s, t);
    var s1 := WorkerLeaves(Next(s, ApplyEnter(t)));
    assert Held(s1.core.(current := None), s1.workers) == Halt(Held(s.core, s.workers));
    var s2 := Next(s1, ApplyCleared(t));
    assert s2.workers == s1.workers;
  }
}
