/** The runtime's two locks and its wait for the worker cannot block each other:
from every reachable state the calls under way can all return. */
module RemoteWriteProgress {
  import opened Wrappers
  import opened RemoteWriteRuntime

  /** Steps that need no luck: a worker ends only once it was cancelled, and settings that are there
      are read. */
  predicate Allowed(s: State, e: Event) {
    && CanStep(s, e)
    && !e.ApplyAbort? && !e.Settings? && !e.RootCancels?
    && (e.WorkerEnds? ==> s.workers[e.worker].cancelled)
    && (e.ApplyResolve? ==> e.ok == (s.settings != []))
  }

  predicate AllAllowed(s: State, events: seq<Event>)
    decreases |events|
  {
    events != [] ==> Allowed(s, events[0]) && AllAllowed(Next(s, events[0]), events[1..])
  }

  /** No call is under way. */
  ghost predicate Settled(s: State) {
    forall t :: At(s, t).Idle? || At(s, t).StopReturned?
  }

  // ----- Sequences of steps -----

  lemma One(s: State, e: Event)
    requires Inv(s) && Allowed(s, e)
    ensures AllAllowed(s, [e]) && Run(s, [e]) == Next(s, e) && Inv(Next(s, e))
  {
    assert [e][1..] == [];
    StepKeepsInv(s, e);
  }

  lemma {:induction false} Then(s: State, first: seq<Event>, second: seq<Event>)
    ensures Run(s, first + second) == Run(Run(s, first), second)
    ensures AllAllowed(s, first) && AllAllowed(Run(s, first), second) ==> AllAllowed(s, first + second)
    decreases |first|
  {
    if first == [] {
      assert first + second == second;
    } else {
      assert (first + second)[1..] == first[1..] + second;
      Then(Next(s, first[0]), first[1..], second);
    }
  }

  // ----- Waiting -----

  /** Everything but the workers is the same. */
  predicate SameCalls(s: State, s': State) {
    && s'.pcs == s.pcs && s'.core == s.core && s'.settings == s.settings
    && s'.applyOwner == s.applyOwner && s'.muOwner == s.muOwner
  }

  lemma Ending(s: State, t: Thread) returns (events: seq<Event>)
    requires Inv(s) && (At(s, t).Replacing? || At(s, t).Stopping?)
    ensures AllAllowed(s, events) && Inv(Run(s, events)) && SameCalls(s, Run(s, events))
    ensures var s' := Run(s, events);
            s'.core.current.Some? ==>
              s'.core.current.value < |s'.workers| && s'.workers[s'.core.current.value].finished
  {
    assert ThreadInv(s, t);
    if s.core.current.Some? && !s.workers[s.core.current.value].finished {
      events := [WorkerEnds(s.core.current.value)];
      One(s, events[0]);
    } else {
      events := [];
    }
  }

  lemma Closing(s: State) returns (events: seq<Event>)
    requires Inv(s)
    requires s.core.current.Some? ==>
               s.core.current.value < |s.workers| && s.workers[s.core.current.value].finished
    ensures AllAllowed(s, events) && Inv(Run(s, events)) && SameCalls(s, Run(s, events))
    ensures WaitOver(Run(s, events))
  {
    if s.core.current.Some? && !s.workers[s.core.current.value].done {
      events := [DoneCloses(s.core.current.value)];
      One(s, events[0]);
    } else {
      events := [];
    }
  }

  /** The wait of a call that holds `mu` comes to an end. */
  lemma Waiting(s: State, t: Thread) returns (events: seq<Event>)
    requires Inv(s) && (At(s, t).Replacing? || At(s, t).Stopping?)
    ensures AllAllowed(s, events) && Inv(Run(s, events)) && SameCalls(s, Run(s, events))
    ensures WaitOver(Run(s, events))
  {
    var ending := Ending(s, t);
    var closing := Closing(Run(s, ending));
    Then(s, ending, closing);
    events := ending + closing;
  }

  // ----- Finishing one call -----

  predicate Unlocked(s: State) {
    s.applyOwner.None? && s.muOwner.None?
  }

  lemma UnlockedIsSettled(s: State)
    requires Inv(s) && Unlocked(s)
    ensures Settled(s)
  {
    forall t ensures At(s, t).Idle? || At(s, t).StopReturned? {
      assert ThreadInv(s, t);
    }
  }

  lemma FinishCleared(s: State, t: Thread) returns (events: seq<Event>)
    requires Inv(s) && At(s, t).Cleared?
    ensures AllAllowed(s, events) && Inv(Run(s, events)) && Unlocked(Run(s, events))
  {
    events := [ApplyCommit(t)];
    One(s, events[0]);
  }

  lemma FinishReplacing(s: State, t: Thread) returns (events: seq<Event>)
    requires Inv(s) && At(s, t).Replacing?
    ensures AllAllowed(s, events) && Inv(Run(s, events)) && Unlocked(Run(s, events))
  {
    var waiting := Waiting(s, t);
    var s1 := Run(s, waiting);
    One(s1, ApplyCleared(t));
    var last := FinishCleared(Next(s1, ApplyCleared(t)), t);
    Then(s1, [ApplyCleared(t)], last);
    Then(s, waiting, [ApplyCleared(t)] + last);
    events := waiting + ([ApplyCleared(t)] + last);
  }

  lemma FinishResolved(s: State, t: Thread) returns (events: seq<Event>)
    requires Inv(s) && At(s, t).Resolved? && s.muOwner.None?
    ensures AllAllowed(s, events) && Inv(Run(s, events)) && Unlocked(Run(s, events))
  {
    One(s, ApplyEnter(t));
    var s1 := Next(s, ApplyEnter(t));
    events := [ApplyEnter(t)];
    if !Unlocked(s1) {
      var rest := FinishReplacing(s1, t);
      Then(s, [ApplyEnter(t)], rest);
      events := [ApplyEnter(t)] + rest;
    }
  }

  lemma FinishLocked(s: State, t: Thread) returns (events: seq<Event>)
    requires Inv(s) && At(s, t).Locked? && s.muOwner.None?
    ensures AllAllowed(s, events) && Inv(Run(s, events)) && Unlocked(Run(s, events))
  {
    var e := ApplyResolve(t, s.settings != []);
    One(s, e);
    events := [e];
    if s.settings != [] {
      var rest := FinishResolved(Next(s, e), t);
      Then(s, [e], rest);
      events := [e] + rest;
    }
  }

  /** Without a call that holds `mu`, the one that holds `applyMu` can finish. */
  lemma FinishApply(s: State) returns (events: seq<Event>)
    requires Inv(s) && s.muOwner.None?
    ensures AllAllowed(s, events) && Inv(Run(s, events)) && Unlocked(Run(s, events))
  {
    if s.applyOwner.None? {
      events := [];
    } else {
      var t := s.applyOwner.value;
      assert ThreadInv(s, t);
      if At(s, t).Locked? {
        events := FinishLocked(s, t);
      } else {
        events := FinishResolved(s, t);
      }
    }
  }

  lemma FinishStopping(s: State, t: Thread) returns (events: seq<Event>)
    requires Inv(s) && At(s, t).Stopping?
    ensures AllAllowed(s, events) && Inv(Run(s, events)) && Run(s, events).muOwner.None?
  {
    var waiting := Waiting(s, t);
    One(Run(s, waiting), StopDone(t));
    Then(s, waiting, [StopDone(t)]);
    events := waiting + [StopDone(t)];
  }

  /** Whoever holds `mu` can finish. */
  lemma FinishMu(s: State) returns (events: seq<Event>)
    requires Inv(s)
    ensures AllAllowed(s, events) && Inv(Run(s, events)) && Run(s, events).muOwner.None?
  {
    if s.muOwner.None? {
      events := [];
    } else {
      var t := s.muOwner.value;
      assert ThreadInv(s, t);
      if At(s, t).Replacing? {
        events := FinishReplacing(s, t);
      } else if At(s, t).Cleared? {
        events := FinishCleared(s, t);
      } else {
        events := FinishStopping(s, t);
      }
    }
  }

  /** After any run, steps that need no luck let every call under way return. */
  lemma CallsCanReturn(past: seq<Event>) returns (events: seq<Event>)
    ensures AllAllowed(Run(INITIAL, past), events)
    ensures Settled(Run(INITIAL, past + events))
  {
    var s := Run(INITIAL, past);
    InitialInv();
    RunKeepsInv(INITIAL, past);
    var mu := FinishMu(s);
    var rest := FinishApply(Run(s, mu));
    Then(s, mu, rest);
    events := mu + rest;
    Then(INITIAL, past, events);
    UnlockedIsSettled(Run(s, events));
  }
}
