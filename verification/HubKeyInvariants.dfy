/** What every event of the Hub SSH key protocol keeps, and what therefore holds
in every state of every run. */
module HubKeyInvariants {
  import opened Arithmetic
  import opened Wrappers
  import opened HubKeyModel

  // ----- Draining -----

  lemma {:induction false} DrainAppend(keys: set<Line>, first: seq<Message>, second: seq<Message>)
    ensures Drain(keys, first + second) == Drain(Drain(keys, first), second)
    decreases |first|
  {
    if first == [] {
      assert first + second == second;
    } else {
      assert (first + second)[1..] == first[1..] + second;
      DrainAppend(Receive(keys, first[0]), first[1..], second);
    }
  }

  lemma DrainSendInstall(d: Device, k: Key, sent: nat)
    ensures Drained(SendInstall(d, k, sent)) == if sent >= 1 then Drained(d) + {Marked(k)} else Drained(d)
  {
    var payloads := [Install(Marked(k))];
    DrainAppend(d.keys, d.queue, payloads[..Min(sent, 1)]);
    if sent == 0 {
      assert payloads[..0] == [];
    } else {
      assert payloads[..1] == payloads && payloads[1..] == [];
    }
  }

  lemma DrainSendRemoval(d: Device, k: Key, sent: nat)
    ensures Drained(SendRemoval(d, k, sent)) ==
            if sent == 0 then Drained(d)
            else if sent == 1 then Drained(d) - {Plain(k)}
            else Drained(d) - {Plain(k), Marked(k)}
  {
    var payloads := Removals(k)[..Min(sent, 2)];
    DrainAppend(d.keys, d.queue, payloads);
    if sent == 0 {
      assert payloads == [];
    } else if sent == 1 {
      assert payloads == [Remove(Plain(k))] && payloads[1..] == [];
    } else {
      assert payloads == [Remove(Plain(k)), Remove(Marked(k))];
      assert payloads[1..] == [Remove(Marked(k))] && payloads[1..][1..] == [];
      assert Drain(Drained(d), payloads) == Drain(Drained(d) - {Plain(k)}, payloads[1..])
          == Drained(d) - {Plain(k)} - {Marked(k)};
    }
  }

  // ----- The invariant -----

  predicate DeviceInv(s: State, d: Device) {
    && !(d.enabled && d.removalPending)
    && (forall line :: line in Drained(d) ==> line.key < s.minted)
  }

  predicate Inv(s: State) {
    && (s.active.Some? ==> s.active == s.stored)
    && (s.stored.Some? ==> s.stored.value < s.minted && s.stored.value !in s.shadowed)
    && (forall k :: k in s.shadowed ==> k < s.minted)
    && (forall a :: a in s.devices ==> DeviceInv(s, s.devices[a]))
  }

  lemma DeviceEventKeepsInv(s: State, d: Device, e: Event)
    requires Inv(s) && DeviceInv(s, d) && OneDevice(e)
    ensures DeviceInv(s, NextDevice(s, d, e))
  {
    if s.active.Some? && !e.Connect? && !e.Disconnect? && !e.Deliver? {
      DrainSendInstall(d, s.active.value, e.sent);
      DrainSendRemoval(d, s.active.value, e.sent);
      if e.ApplySetting? {
        var agentDevice := d.connected || d.agentSource;
        var pending := !e.enable && agentDevice && (d.enabled || d.removalPending);
        DrainSendInstall(StoreSetting(d, e.enable, pending), s.active.value, e.sent);
        DrainSendRemoval(StoreSetting(d, e.enable, pending), s.active.value, e.sent);
      }
    }
  }

  /** What a rotation does to one device. */
  lemma RotationDevice(s: State, env: RotateEnv, a: Asset)
    requires Staging(s, env) && a in s.devices
    ensures a in RotateCore(s, env).devices
    ensures var d, d' := s.devices[a], RotateCore(s, env).devices[a];
            var n := RemovalsOut(env, a);
            var k := if Commits(s, env) then s.active.value else s.minted;
            && d'.(queue := d.queue) == d
            && (!Staged(s, env, a) ==> d' == d)
            && (Staged(s, env, a) ==> Drained(d') == Drained(d) + {Marked(s.minted)} - Removed(k, n))
  {
    var d := s.devices[a];
    var d1 := SendInstall(d, s.minted, 1);
    var n := RemovalsOut(env, a);
    DrainSendInstall(d, s.minted, 1);
    DrainSendRemoval(d1, s.active.value, n);
    DrainSendRemoval(d1, s.minted, n);
  }

  /** The rotation sends its new key to `a`. */
  predicate Staged(s: State, env: RotateEnv, a: Asset) {
    a in Targets(s.devices, env.unread) && a !in env.unreached
  }

  /** The lines the first `n` removal messages for `k` take away. */
  function Removed(k: Key, n: nat): set<Line> {
    if n == 0 then {} else if n == 1 then {Plain(k)} else {Plain(k), Marked(k)}
  }

  lemma RotationKeepsInv(s: State, env: RotateEnv)
    requires Inv(s)
    ensures Inv(RotateCore(s, env))
  {
    var s' := RotateCore(s, env);
    forall a | a in s'.devices
      ensures DeviceInv(s', s'.devices[a])
    {
      assert DeviceInv(s, s.devices[a]);
      if Staging(s, env) {
        RotationDevice(s, env, a);
      }
    }
  }

  lemma ChurnKeepsInv(s: State, arrivals: set<Asset>, departures: set<Asset>)
    requires Inv(s)
    ensures Inv(s.(devices := Churn(s.devices, arrivals, departures)))
  {
    var devices := Churn(s.devices, arrivals, departures);
    forall a | a in devices
      ensures DeviceInv(s.(devices := devices), devices[a])
    {
      assert DeviceInv(s, s.devices[a]);
      assert Drained(devices[a]) == Drained(s.devices[a]);
    }
  }

  lemma EnsureKeepsInv(s: State, listOk: bool, found: Option<Key>, decryptOk: bool, createOk: bool)
    requires Inv(s)
    ensures Inv(Ensure(s, listOk, found, decryptOk, createOk))
  {
    var s' := Ensure(s, listOk, found, decryptOk, createOk);
    forall a | a in s'.devices
      ensures DeviceInv(s', s'.devices[a])
    {
      assert DeviceInv(s, s.devices[a]);
    }
  }

  lemma StepKeepsInv(s: State, e: Event)
    requires Inv(s)
    ensures Inv(Next(s, e))
  {
    match e
    case Enroll(_, _) =>
      var s' := Next(s, e);
      forall a | a in s'.devices
        ensures DeviceInv(s', s'.devices[a])
      {
        if a in s.devices { assert DeviceInv(s, s.devices[a]); }
      }
    case HubRestart =>
      ChurnKeepsInv(s.(active := None), {}, s.devices.Keys);
    case EnsureIdentity(listOk, found, decryptOk, createOk) =>
      EnsureKeepsInv(s, listOk, found, decryptOk, createOk);
    case Rotate(env, arrivals, departures) =>
      RotationKeepsInv(s, env);
      ChurnKeepsInv(RotateCore(s, env), arrivals, departures);
    case _ =>
      var s' := Next(s, e);
      if e.asset in s.devices {
        DeviceEventKeepsInv(s, s.devices[e.asset], e);
      }
      forall a | a in s'.devices
        ensures DeviceInv(s', s'.devices[a])
      {
        if a in s.devices { assert DeviceInv(s, s.devices[a]); }
      }
  }

  lemma InitialInv(sources: map<Asset, bool>)
    ensures Inv(Initial(sources))
  {
  }

  /** In every state of every run the identity in memory is the stored one and in no other profile, and
      no device is both on and pending. */
  lemma {:induction false} RunKeepsInv(s: State, events: seq<Event>)
    requires Inv(s)
    ensures Inv(Run(s, events))
    decreases |events|
  {
    if events != [] {
      StepKeepsInv(s, events[0]);
      RunKeepsInv(Next(s, events[0]), events[1..]);
    }
  }

  // ----- No lockout -----

  /** Connected, turned on, and going to hold the active key. */
  predicate Held(s: State, a: Asset) {
    && a in s.devices
    && s.devices[a].connected && s.devices[a].enabled
    && s.active.Some?
    && Marked(s.active.value) in Drained(s.devices[a])
  }

  /** The device keeps its connection and is not turned off. */
  predicate StaysUp(a: Asset, e: Event) {
    match e
    case Connect(b) => a != b
    case Disconnect(b) => a != b
    case HubRestart => false
    case ApplySetting(b, enable, _, _, _, _) => a != b || enable
    case Rotate(_, arrivals, departures) => a !in arrivals && a !in departures
    case _ => true
  }

  /** The two branches that act on a setting that could not be read. */
  predicate UnreadSettingCosts(s: State, a: Asset, e: Event) {
    || (e.Rotate? && Commits(s, e.env) && a in e.env.unread)
    || (e.RemoveIfOff? && e.asset == a && !e.readOk && e.sent >= 2)
  }

  lemma InstallGrants(s: State, e: Event)
    requires e.Sync? || (e.ApplySetting? && e.enable && e.setOk)
    requires e.readOk && e.sent >= 1 && e.asset in s.devices && s.active.Some?
    requires s.devices[e.asset].connected && (e.Sync? ==> s.devices[e.asset].enabled)
    ensures Held(Next(s, e), e.asset)
  {
    var d := s.devices[e.asset];
    DrainSendInstall(d, s.active.value, e.sent);
    DrainSendInstall(StoreSetting(d, true, false), s.active.value, e.sent);
  }

  lemma RotationHeld(s: State, env: RotateEnv, a: Asset)
    requires Inv(s) && Held(s, a)
    ensures Held(RotateCore(s, env), a) <==> !(Commits(s, env) && a in env.unread)
  {
    assert DeviceInv(s, s.devices[a]);
    if Staging(s, env) {
      RotationDevice(s, env, a);
    }
  }

  lemma DeviceEventHeld(s: State, e: Event)
    requires Inv(s) && OneDevice(e) && Held(s, e.asset) && StaysUp(e.asset, e)
    ensures Held(Next(s, e), e.asset) <==> !UnreadSettingCosts(s, e.asset, e)
  {
    if e.Sync? || e.RemoveIfOff? || e.ApplySetting? {
      var d := s.devices[e.asset];
      DrainSendInstall(d, s.active.value, e.sent);
      DrainSendRemoval(d, s.active.value, e.sent);
      DrainSendInstall(StoreSetting(d, true, false), s.active.value, e.sent);
    }
  }

  /** A device that holds the active key and stays up keeps holding it, whatever fails and however
      the key changes, exactly unless its setting was needed and could not be read. */
  lemma StepHeld(s: State, e: Event, a: Asset)
    requires Inv(s) && Held(s, a) && StaysUp(a, e)
    ensures Held(Next(s, e), a) <==> !UnreadSettingCosts(s, a, e)
  {
    if e.Rotate? {
      RotationHeld(s, e.env, a);
      var s' := RotateCore(s, e.env);
      if a in s'.devices {
        assert Churn(s'.devices, e.arrivals, e.departures)[a] == s'.devices[a];
      }
    } else if OneDevice(e) && e.asset == a {
      DeviceEventHeld(s, e);
    }
  }

  /** Whether the setting of `a` is read whenever `e` asks for it. */
  predicate ReadsOf(a: Asset, e: Event) {
    && (e.Rotate? ==> a !in e.env.unread)
    && (e.RemoveIfOff? && e.asset == a ==> e.readOk)
  }

  lemma {:induction false} NoLockout(s: State, events: seq<Event>, a: Asset)
    requires Inv(s) && Held(s, a)
    requires forall e :: e in events ==> StaysUp(a, e) && ReadsOf(a, e)
    ensures Held(Run(s, events), a)
    decreases |events|
  {
    if events != [] {
      var e := events[0];
      assert e in events;
      StepKeepsInv(s, e);
      StepHeld(s, e, a);
      NoLockout(Next(s, e), events[1..], a);
    }
  }

  // ----- Which keys are installed, and where -----

  /** A key that was generated and is in no identity profile any more. */
  predicate Superseded(s: State, k: Key) {
    k < s.minted && s.active != Some(k) && k !in Profiles(s)
  }

  /** What `e` added to the queue of `a`. */
  function Added(s: State, e: Event, a: Asset): seq<Message> {
    if e.Deliver? || a !in s.devices || a !in Next(s, e).devices then
      []
    else
      var before, after := s.devices[a].queue, Next(s, e).devices[a].queue;
      if |before| <= |after| then after[|before|..] else []
  }

  lemma RotationQueue(s: State, env: RotateEnv, a: Asset)
    requires Staging(s, env) && a in s.devices
    ensures var d, d' := s.devices[a], RotateCore(s, env).devices[a];
            var k := if Commits(s, env) then s.active.value else s.minted;
            d'.queue == d.queue + if a in Targets(s.devices, env.unread) && a !in env.unreached
                                  then [Install(Marked(s.minted))] + Removals(k)[..Min(RemovalsOut(env, a), 2)]
                                  else []
  {
    var payloads := [Install(Marked(s.minted))];
    assert payloads[..1] == payloads;
  }

  lemma RotationInstalls(s: State, env: RotateEnv, a: Asset, m: Message)
    requires Staging(s, env) && a in s.devices && m.Install?
    requires m in RotateCore(s, env).devices[a].queue[|s.devices[a].queue|..]
    ensures s.devices[a].enabled && m.line == Marked(s.minted)
  {
    RotationQueue(s, env, a);
    var k := if Commits(s, env) then s.active.value else s.minted;
    var removals := Removals(k)[..Min(RemovalsOut(env, a), 2)];
    assert forall r :: r in removals ==> r.Remove?;
    if a in Targets(s.devices, env.unread) && a !in env.unreached {
      var added := [Install(Marked(s.minted))] + removals;
      assert RotateCore(s, env).devices[a].queue[|s.devices[a].queue|..] == added;
    }
  }

  lemma DeviceEventQueue(s: State, d: Device, e: Event)
    requires e.Sync? || e.RemoveIfOff? || e.ApplySetting?
    ensures var d' := NextDevice(s, d, e);
            || d'.queue == d.queue
            || (s.active.Some? && d'.enabled &&
                d'.queue == d.queue + [Install(Marked(s.active.value))][..Min(e.sent, 1)])
            || (s.active.Some? && d'.queue == d.queue + Removals(s.active.value)[..Min(e.sent, 2)])
  {
  }

  lemma DeviceEventInstalls(s: State, d: Device, e: Event, m: Message)
    requires e.Sync? || e.RemoveIfOff? || e.ApplySetting?
    requires |d.queue| <= |NextDevice(s, d, e).queue| && m.Install? && m in NextDevice(s, d, e).queue[|d.queue|..]
    ensures NextDevice(s, d, e).enabled && s.active.Some? && m.line == Marked(s.active.value)
  {
    DeviceEventQueue(s, d, e);
    if s.active.Some? {
      var removals := Removals(s.active.value)[..Min(e.sent, 2)];
      assert forall r :: r in removals ==> r.Remove?;
      var installs := [Install(Marked(s.active.value))][..Min(e.sent, 1)];
      assert forall r :: r in installs ==> r == Install(Marked(s.active.value));
      assert (d.queue + removals)[|d.queue|..] == removals;
      assert (d.queue + installs)[|d.queue|..] == installs;
    }
  }

  /** Every install goes to a device that is on, and carries the key that is active after the event
      or, in a rotation that fails, the new key. */
  lemma StepInstalls(s: State, e: Event, a: Asset, m: Message)
    requires m in Added(s, e, a) && m.Install?
    ensures Next(s, e).devices[a].enabled
    ensures || Next(s, e).active == Some(m.line.key)
            || (e.Rotate? && !Commits(s, e.env) && m.line.key == s.minted)
    ensures m.line.Marked?
  {
    if e.Rotate? {
      var core := RotateCore(s, e.env);
      assert Next(s, e).devices[a].queue == core.devices[a].queue;
      assert Next(s, e).devices[a].enabled == core.devices[a].enabled;
      if Staging(s, e.env) {
        RotationInstalls(s, e.env, a, m);
      }
    } else if (e.Sync? || e.RemoveIfOff? || e.ApplySetting?) && e.asset == a {
      DeviceEventInstalls(s, s.devices[a], e, m);
    }
  }

  lemma StepSuperseded(s: State, e: Event, k: Key)
    requires Inv(s) && Superseded(s, k)
    ensures Superseded(Next(s, e), k)
  {
  }

  /** Once superseded, a key is never sent to any device again in any run. */
  lemma {:induction false} NeverReinstalled(s: State, events: seq<Event>, e: Event, a: Asset, k: Key, m: Message)
    requires Inv(s) && Superseded(s, k)
    requires m in Added(Run(s, events), e, a) && m.Install?
    ensures m.line.key != k
    decreases |events|
  {
    if events == [] {
      StepInstalls(s, e, a, m);
      StepSuperseded(s, e, k);
    } else {
      StepKeepsInv(s, events[0]);
      StepSuperseded(s, events[0], k);
      NeverReinstalled(Next(s, events[0]), events[1..], e, a, k, m);
    }
  }

  /** An agent that registers while a rotation commits and is synced later gets the key that is
      active by then, never the one the rotation replaced. */
  lemma ArrivalGetsCurrentKey(s: State, rotate: Event, events: seq<Event>, sync: Event, m: Message)
    requires Inv(s) && rotate.Rotate? && Commits(s, rotate.env)
    requires sync.Sync? && sync.asset in rotate.arrivals
    requires var s' := Run(Next(s, rotate), events); m in Added(s', sync, sync.asset) && m.Install?
    ensures Run(Next(s, rotate), events).active == Some(m.line.key)
    ensures m.line.key != s.active.value
  {
    var s1 := Next(s, rotate);
    StepKeepsInv(s, rotate);
    RunKeepsInv(s1, events);
    StepInstalls(Run(s1, events), sync, sync.asset, m);
    assert Superseded(s1, s.active.value);
    NeverReinstalled(s1, events, sync, sync.asset, s.active.value, m);
  }

  /** The device held the replaced key and was not staged or no removal got out; or only the first
      removal got out, and it had the marked line. */
  predicate KeepsOld(s: State, env: RotateEnv, a: Asset)
    requires s.active.Some? && a in s.devices
  {
    var staged, out := Staged(s, env, a), RemovalsOut(env, a);
    || (Holds(s.devices[a], s.active.value) && (!staged || out == 0))
    || (staged && out == 1 && Marked(s.active.value) in Drained(s.devices[a]))
  }

  /** What a committed rotation leaves of the key it replaces. */
  lemma RotationLeaves(s: State, env: RotateEnv, a: Asset)
    requires Inv(s) && Commits(s, env) && a in s.devices
    ensures Holds(RotateCore(s, env).devices[a], s.active.value) <==> KeepsOld(s, env, a)
  {
    RotationDevice(s, env, a);
  }

  // ----- Where a removal is not tracked, or names too little -----

  /** Turning a device off keeps track of a key it may hold exactly when the Hub counts it as an
      agent device: connected now, or of agent source. */
  lemma TurnOffTracks(s: State, e: Event)
    requires Inv(s) && e.ApplySetting? && !e.enable && e.readOk && e.setOk && e.asset in s.devices
    requires s.devices[e.asset].enabled || s.devices[e.asset].removalPending
    requires s.stored.Some? && Holds(s.devices[e.asset], s.stored.value)
    ensures var d' := Next(s, e).devices[e.asset];
            (Holds(d', s.stored.value) ==> d'.removalPending) <==>
            (s.devices[e.asset].agentSource || s.devices[e.asset].connected)
  {
    if s.active.Some? {
      var d := s.devices[e.asset];
      DrainSendRemoval(StoreSetting(d, false, d.connected || d.agentSource), s.active.value, e.sent);
    }
  }

  /** A removal that waited for an agent names the key active when it is sent.  What the device
      holds of a superseded key stays, and the pending mark goes all the same. */
  lemma PendingRemovalNamesActiveKeyOnly(s: State, e: Event, k: Key)
    requires Inv(s) && e.Sync? && e.readOk && e.sent >= 2 && e.writeOk && s.active.Some?
    requires e.asset in s.devices && !s.devices[e.asset].enabled && s.devices[e.asset].removalPending
    ensures var d' := Next(s, e).devices[e.asset];
            && !d'.removalPending
            && (Holds(d', k) <==> k != s.active.value && Holds(s.devices[e.asset], k))
  {
    DrainSendRemoval(s.devices[e.asset], s.active.value, e.sent);
  }
}
