/** What the Hub knows about the keys its devices hold, over whole runs: whether
every key that should be removed is on record, and whether a device holds
anything but the key in use. */
module HubKeyTracking {
  import opened Wrappers
  import opened HubKeyModel
  import opened HubKeyInvariants

  // ----- Keys to be removed are on record -----

  /** An agent device that is off and will hold `k` without a removal on record. */
  predicate Untracked(d: Device, k: Key) {
    d.agentSource && !d.enabled && !d.removalPending && Holds(d, k)
  }

  predicate Tracked(s: State) {
    s.stored.Some? ==> forall a :: a in s.devices ==> !Untracked(s.devices[a], s.stored.value)
  }

  /** The identity event finds a profile and loads it. */
  predicate Loads(s: State, e: Event) {
    && e.EnsureIdentity? && s.active.None? && e.listOk && e.decryptOk
    && e.found.Some? && e.found.value in Profiles(s)
  }

  /** It loads another profile than the last one used, whose key some device holds untracked. */
  predicate LoadsUntracked(s: State, e: Event) {
    && Loads(s, e) && e.found != s.stored
    && exists a :: a in s.devices && Untracked(s.devices[a], e.found.value)
  }

  lemma DeviceEventTracks(s: State, d: Device, e: Event)
    requires Inv(s) && DeviceInv(s, d) && OneDevice(e) && s.stored.Some? && !Untracked(d, s.stored.value)
    ensures !Untracked(NextDevice(s, d, e), s.stored.value)
  {
    if s.active.Some? && !e.Connect? && !e.Disconnect? && !e.Deliver? {
      DrainSendInstall(d, s.active.value, e.sent);
      DrainSendRemoval(d, s.active.value, e.sent);
      if e.ApplySetting? {
        var agentDevice := d.connected || d.agentSource;
        var pending := !e.enable && agentDevice && (d.enabled || d.removalPending);
        DrainSendInstall(StoreSetting(d, e.enable, pending), s.active.value, e.sent);
        DrainSendRemoval(StoreSetting(d, e.enable, pending), s.active.value, e.sent);
      }
    }
  }

  /** Nothing holds a key that is only now generated. */
  lemma NewKeyTracked(s: State, k: Key)
    requires Inv(s) && k >= s.minted
    ensures forall a :: a in s.devices ==> !Untracked(s.devices[a], k)
  {
    forall a | a in s.devices
      ensures !Untracked(s.devices[a], k)
    {
      assert DeviceInv(s, s.devices[a]);
    }
  }

  lemma RotationTracks(s: State, env: RotateEnv)
    requires Inv(s) && Tracked(s)
    ensures Tracked(RotateCore(s, env))
  {
    var s' := RotateCore(s, env);
    if Staging(s, env) {
      forall a | a in s'.devices
        ensures !Untracked(s'.devices[a], s'.stored.value)
      {
        RotationDevice(s, env, a);
        NewKeyTracked(s, s.minted);
      }
    }
  }

  lemma ChurnTracks(s: State, arrivals: set<Asset>, departures: set<Asset>)
    requires Tracked(s)
    ensures Tracked(s.(devices := Churn(s.devices, arrivals, departures)))
  {
    var devices := Churn(s.devices, arrivals, departures);
    if s.stored.Some? {
      forall a | a in devices
        ensures !Untracked(devices[a], s.stored.value)
      {
        assert !Untracked(s.devices[a], s.stored.value);
        assert Drained(devices[a]) == Drained(s.devices[a]);
      }
    }
  }

  lemma EnsureTracks(s: State, e: Event)
    requires Inv(s) && Tracked(s) && e.EnsureIdentity?
    ensures Tracked(Next(s, e)) <==> !LoadsUntracked(s, e)
  {
    NewKeyTracked(s, s.minted);
  }

  /** Every event keeps all keys that should be removed on record, exactly unless the Hub loads another
      identity profile than before and an agent device that is off holds that profile's key. */
  lemma StepTracks(s: State, e: Event)
    requires Inv(s) && Tracked(s)
    ensures Tracked(Next(s, e)) <==> !LoadsUntracked(s, e)
  {
    match e
    case EnsureIdentity(_, _, _, _) =>
      EnsureTracks(s, e);
    case HubRestart =>
      ChurnTracks(s.(active := None), {}, s.devices.Keys);
    case Rotate(env, arrivals, departures) =>
      RotationTracks(s, env);
      ChurnTracks(RotateCore(s, env), arrivals, departures);
    case Enroll(_, _) =>
    case _ =>
      if e.asset in s.devices && s.stored.Some? {
        assert DeviceInv(s, s.devices[e.asset]);
        DeviceEventTracks(s, s.devices[e.asset], e);
      }
  }

  lemma {:induction false} RunNext(s: State, events: seq<Event>, n: nat)
    requires n < |events|
    ensures Run(s, events[..n + 1]) == Next(Run(s, events[..n]), events[n])
    decreases n
  {
    assert events[..n + 1][1..] == events[1..][..n];
    if n > 0 {
      assert events[..n][1..] == events[1..][..n - 1];
      RunNext(Next(s, events[0]), events[1..], n - 1);
    }
  }

  /** Every state of the run, from `s` to the last, is tracked. */
  predicate TrackedThroughout(s: State, events: seq<Event>) {
    forall n :: 0 <= n <= |events| ==> Tracked(Run(s, events[..n]))
  }

  predicate NeverLoadsUntracked(s: State, events: seq<Event>) {
    forall n :: 0 <= n < |events| ==> !LoadsUntracked(Run(s, events[..n]), events[n])
  }

  lemma {:induction false} TrackedUpTo(s: State, events: seq<Event>, n: nat)
    requires Inv(s) && Tracked(s) && NeverLoadsUntracked(s, events) && n <= |events|
    ensures Tracked(Run(s, events[..n]))
    decreases n
  {
    if n > 0 {
      TrackedUpTo(s, events, n - 1);
      RunKeepsInv(s, events[..n - 1]);
      RunNext(s, events, n - 1);
      StepTracks(Run(s, events[..n - 1]), events[n - 1]);
    }
  }

  /** Every state of a run has all keys that should be removed on record exactly if none of its events
      loads another profile's key that an agent device holds while off. */
  lemma RunTracksExactly(s: State, events: seq<Event>)
    requires Inv(s) && Tracked(s)
    ensures TrackedThroughout(s, events) <==> NeverLoadsUntracked(s, events)
  {
    if NeverLoadsUntracked(s, events) {
      forall n | 0 <= n <= |events|
        ensures Tracked(Run(s, events[..n]))
      {
        TrackedUpTo(s, events, n);
      }
    }
    if TrackedThroughout(s, events) {
      forall n | 0 <= n < |events|
        ensures !LoadsUntracked(Run(s, events[..n]), events[n])
      {
        assert Tracked(Run(s, events[..n])) && Tracked(Run(s, events[..n + 1]));
        RunKeepsInv(s, events[..n]);
        RunNext(s, events, n);
        StepTracks(Run(s, events[..n]), events[n]);
      }
    }
  }

  // ----- One identity profile -----

  /** Whenever an identity is looked for and there is one, it is found, or creating another fails. */
  predicate Finds(s: State, e: Event) {
    e.EnsureIdentity? && s.active.None? && e.listOk && s.stored.Some? ==> e.found == s.stored || !e.createOk
  }

  /** There stays one profile exactly as long as it is found. */
  lemma OneProfile(s: State, e: Event)
    requires s.shadowed == {}
    ensures Next(s, e).shadowed == {} <==> Finds(s, e)
  {
  }

  lemma {:induction false} FindsKeepsOneProfile(s: State, events: seq<Event>, n: nat)
    requires s.shadowed == {} && n <= |events|
    requires forall m :: 0 <= m < n ==> Finds(Run(s, events[..m]), events[m])
    ensures Run(s, events[..n]).shadowed == {}
    decreases n
  {
    if n > 0 {
      FindsKeepsOneProfile(s, events, n - 1);
      RunNext(s, events, n - 1);
      OneProfile(Run(s, events[..n - 1]), events[n - 1]);
    }
  }

  /** So in a run in which the Hub always finds its identity, every key that should be removed is on
      record in every state. */
  lemma FindingTracks(s: State, events: seq<Event>)
    requires Inv(s) && Tracked(s) && s.shadowed == {}
    requires forall m :: 0 <= m < |events| ==> Finds(Run(s, events[..m]), events[m])
    ensures TrackedThroughout(s, events)
  {
    forall n | 0 <= n < |events|
      ensures !LoadsUntracked(Run(s, events[..n]), events[n])
    {
      FindsKeepsOneProfile(s, events, n);
    }
    RunTracksExactly(s, events);
  }

  lemma InitialTracked(sources: map<Asset, bool>)
    ensures Tracked(Initial(sources)) && Initial(sources).shadowed == {}
  {
  }

  // ----- A device holds nothing but the key in use -----

  /** Every line the device will hold is one of the stored key. */
  predicate Clean(s: State, a: Asset) {
    a in s.devices && forall line :: line in Drained(s.devices[a]) ==> s.stored == Some(line.key)
  }

  /** The identity event creates a key or loads another profile. */
  predicate ChangesStored(s: State, e: Event) {
    e.EnsureIdentity? && Next(s, e).stored != s.stored
  }

  /** What leaves a line of another key on the device: a rotation that commits without both removals
      reaching a device that holds something, one that fails without taking the new key back, or a
      change of profile. */
  predicate Dirties(s: State, e: Event, a: Asset)
    requires a in s.devices
  {
    var d := s.devices[a];
    if e.Rotate? && Commits(s, e.env) then KeepsOld(s, e.env, a)
    else if e.Rotate? then Staging(s, e.env) && Staged(s, e.env, a) && RemovalsOut(e.env, a) < 2
    else ChangesStored(s, e) && Drained(d) != {}
  }

  lemma RotationCleans(s: State, env: RotateEnv, a: Asset)
    requires Inv(s) && Clean(s, a)
    ensures Clean(RotateCore(s, env), a) <==> !Dirties(s, Rotate(env, {}, {}), a)
  {
    assert DeviceInv(s, s.devices[a]);
    if Commits(s, env) {
      CommitCleans(s, env, a);
    } else if Staging(s, env) {
      RotationDevice(s, env, a);
      var d' := RotateCore(s, env).devices[a];
      if Staged(s, env, a) && RemovalsOut(env, a) < 2 {
        assert Marked(s.minted) in Drained(d');
      }
    }
  }

  lemma CommitCleans(s: State, env: RotateEnv, a: Asset)
    requires Inv(s) && Clean(s, a) && Commits(s, env)
    ensures Clean(RotateCore(s, env), a) <==> !KeepsOld(s, env, a)
  {
    RotationLeaves(s, env, a);
    RotationDevice(s, env, a);
    var d' := RotateCore(s, env).devices[a];
    var k := s.active.value;
    assert forall line :: line in Drained(d') ==> line.key == s.minted || line == Plain(k) || line == Marked(k);
  }

  lemma DeviceEventCleans(s: State, d: Device, e: Event)
    requires Inv(s) && OneDevice(e)
    requires forall line :: line in Drained(d) ==> s.stored == Some(line.key)
    ensures forall line :: line in Drained(NextDevice(s, d, e)) ==> s.stored == Some(line.key)
  {
    if s.active.Some? && !e.Connect? && !e.Disconnect? && !e.Deliver? {
      DrainSendInstall(d, s.active.value, e.sent);
      DrainSendRemoval(d, s.active.value, e.sent);
      if e.ApplySetting? {
        var agentDevice := d.connected || d.agentSource;
        var pending := !e.enable && agentDevice && (d.enabled || d.removalPending);
        DrainSendInstall(StoreSetting(d, e.enable, pending), s.active.value, e.sent);
        DrainSendRemoval(StoreSetting(d, e.enable, pending), s.active.value, e.sent);
      }
    }
  }

  lemma EnsureCleans(s: State, e: Event, a: Asset)
    requires Inv(s) && Clean(s, a) && e.EnsureIdentity?
    ensures Clean(Next(s, e), a) <==> !Dirties(s, e, a)
  {
    if ChangesStored(s, e) && Drained(s.devices[a]) != {} {
      var line :| line in Drained(s.devices[a]);
    }
  }

  /** Each event leaves the device with lines of the stored key only, exactly unless it dirties it. */
  lemma StepCleans(s: State, e: Event, a: Asset)
    requires Inv(s) && Clean(s, a)
    ensures Clean(Next(s, e), a) <==> !Dirties(s, e, a)
  {
    if e.Rotate? {
      RotationCleans(s, e.env, a);
      var s' := RotateCore(s, e.env);
      assert Drained(Churn(s'.devices, e.arrivals, e.departures)[a]) == Drained(s'.devices[a]);
    } else if e.EnsureIdentity? {
      EnsureCleans(s, e, a);
    } else if OneDevice(e) && e.asset == a {
      DeviceEventCleans(s, s.devices[a], e);
    }
  }

  predicate CleanThroughout(s: State, events: seq<Event>, a: Asset) {
    forall n :: 0 <= n <= |events| ==> Clean(Run(s, events[..n]), a)
  }

  predicate DirtiedAt(s: State, events: seq<Event>, a: Asset, n: nat)
    requires n < |events|
  {
    a in Run(s, events[..n]).devices && Dirties(Run(s, events[..n]), events[n], a)
  }

  lemma {:induction false} CleanUpTo(s: State, events: seq<Event>, a: Asset, n: nat)
    requires Inv(s) && Clean(s, a) && n <= |events|
    requires forall m :: 0 <= m < |events| ==> !DirtiedAt(s, events, a, m)
    ensures Clean(Run(s, events[..n]), a)
    decreases n
  {
    if n > 0 {
      CleanUpTo(s, events, a, n - 1);
      RunKeepsInv(s, events[..n - 1]);
      RunNext(s, events, n - 1);
      StepCleans(Run(s, events[..n - 1]), events[n - 1], a);
      assert !DirtiedAt(s, events, a, n - 1);
    }
  }

  /** Over a whole run a device holds nothing but lines of the key in use exactly if no event dirties it. */
  lemma RunCleansExactly(s: State, events: seq<Event>, a: Asset)
    requires Inv(s) && Clean(s, a)
    ensures CleanThroughout(s, events, a) <==> forall n :: 0 <= n < |events| ==> !DirtiedAt(s, events, a, n)
  {
    if CleanThroughout(s, events, a) {
      forall n | 0 <= n < |events|
        ensures !DirtiedAt(s, events, a, n)
      {
        assert Clean(Run(s, events[..n]), a) && Clean(Run(s, events[..n + 1]), a);
        RunKeepsInv(s, events[..n]);
        RunNext(s, events, n);
        StepCleans(Run(s, events[..n]), events[n], a);
      }
    }
    if forall n :: 0 <= n < |events| ==> !DirtiedAt(s, events, a, n) {
      forall n | 0 <= n <= |events|
        ensures Clean(Run(s, events[..n]), a)
      {
        CleanUpTo(s, events, a, n);
      }
    }
  }
}
