/** The Hub SSH key protocol as a state machine.

The Hub holds one identity (in memory, plus the private key in its credential
store), one setting per device, and one message channel per agent.  Every
critical section guarded by `hubIdentityOperationMu` is one event; the outcome
of each store access and each send is part of the event.

Assumptions: a send that reported success is delivered in order, a store write
that reported an error changed nothing, and a generated key is new.  Keys are
numbered in the order they are generated, so the last one is built in. */
module HubKeyModel {
  import opened Arithmetic
  import opened Wrappers

  type Key = nat
  type Asset = string

  /** A line of authorized_keys: `Plain` is what older Hubs wrote, `Marked` ends in the Hub comment. */
  datatype Line = Plain(key: Key) | Marked(key: Key)

  datatype Message = Install(line: Line) | Remove(line: Line)

  /** One device: its setting in the Hub's store, its authorized_keys, and the messages on the way to it. */
  datatype Device = Device(
    agentSource: bool,
    enabled: bool,
    removalPending: bool,
    keys: set<Line>,
    queue: seq<Message>,
    connected: bool)

  /** `stored` is the key of the identity profile last loaded or created, `shadowed` are the keys of the
      other identity profiles in the credential store. */
  datatype State = State(
    active: Option<Key>,
    stored: Option<Key>,
    shadowed: set<Key>,
    minted: nat,
    devices: map<Asset, Device>)

  /** Everything a rotation depends on besides the state.  `unread` are the devices whose setting
      cannot be read, `unreached` those the new key cannot be sent to, `removalsOut` how many of
      the two removal messages get out (0 when absent). */
  datatype RotateEnv = RotateEnv(
    identityLoads: bool,
    requestOk: bool,
    generateOk: bool,
    encryptOk: bool,
    unread: set<Asset>,
    unreached: set<Asset>,
    persistOk: bool,
    removalsOut: map<Asset, nat>)

  datatype Event =
    | Enroll(asset: Asset, source: bool)
    | Connect(asset: Asset)
    | Disconnect(asset: Asset)
    | Deliver(asset: Asset)
    | HubRestart
    | EnsureIdentity(listOk: bool, found: Option<Key>, decryptOk: bool, createOk: bool)
    | Sync(asset: Asset, readOk: bool, sent: nat, writeOk: bool)
    | RemoveIfOff(asset: Asset, readOk: bool, sent: nat, writeOk: bool)
    | ApplySetting(asset: Asset, enable: bool, readOk: bool, setOk: bool, sent: nat, clearOk: bool)
    | Rotate(env: RotateEnv, arrivals: set<Asset>, departures: set<Asset>)

  // ----- The agent's side -----

  function Receive(keys: set<Line>, m: Message): set<Line> {
    match m
    case Install(line) => keys + {line}
    case Remove(line) => keys - {line}
  }

  /** authorized_keys once the agent has handled every message in `queue`. */
  function Drain(keys: set<Line>, queue: seq<Message>): set<Line>
    decreases |queue|
  {
    if queue == [] then keys else Drain(Receive(keys, queue[0]), queue[1..])
  }

  function Drained(d: Device): set<Line> {
    Drain(d.keys, d.queue)
  }

  predicate Holds(d: Device, k: Key) {
    Plain(k) in Drained(d) || Marked(k) in Drained(d)
  }

  // ----- Messages the Hub sends -----

  function Removals(k: Key): seq<Message> {
    [Remove(Plain(k)), Remove(Marked(k))]
  }

  /** The device after the first `sent` of `payloads` went out and the rest did not. */
  function Send(d: Device, payloads: seq<Message>, sent: nat): Device {
    d.(queue := d.queue + payloads[..Min(sent, |payloads|)])
  }

  function SendInstall(d: Device, k: Key, sent: nat): Device {
    Send(d, [Install(Marked(k))], sent)
  }

  function SendRemoval(d: Device, k: Key, sent: nat): Device {
    Send(d, Removals(k), sent)
  }

  // ----- The setting store -----

  function StoreSetting(d: Device, enabled: bool, pending: bool): Device {
    d.(enabled := enabled, removalPending := pending && !enabled)
  }

  function ClearPending(d: Device): Device {
    if d.enabled then d else d.(removalPending := false)
  }

  // ----- Critical sections on one device -----

  function SyncDevice(d: Device, k: Key, sent: nat, writeOk: bool): Device {
    if d.enabled then
      SendInstall(d, k, sent)
    else if d.removalPending then
      RemoveAndClear(d, k, sent, writeOk)
    else
      d
  }

  /** `sendHubSSHKeyRemoval`: both lines, then the pending mark if both went out. */
  function RemoveAndClear(d: Device, k: Key, sent: nat, writeOk: bool): Device {
    var d' := SendRemoval(d, k, sent);
    if sent >= 2 && writeOk then ClearPending(d') else d'
  }

  function RemoveIfOffDevice(d: Device, k: Key, readOk: bool, sent: nat, writeOk: bool): Device {
    if readOk && d.enabled then
      d
    else
      var d' := SendRemoval(d, k, sent);
      if sent < 2 then
        if readOk && writeOk then StoreSetting(d', false, true) else d'
      else if readOk && d.removalPending && writeOk then
        ClearPending(d')
      else
        d'
  }

  function ApplyDevice(d: Device, active: Option<Key>, enable: bool, setOk: bool, sent: nat, clearOk: bool): Device {
    if !setOk then
      d
    else
      var agentDevice := d.connected || d.agentSource;
      var pending := !enable && agentDevice && (d.enabled || d.removalPending);
      var d' := StoreSetting(d, enable, pending);
      if !d.connected || active.None? then
        d'
      else if enable then
        SendInstall(d', active.value, sent)
      else if pending then
        RemoveAndClear(d', active.value, sent, clearOk)
      else
        d'
  }

  // ----- Rotation -----

  /** The devices a rotation stages: connected, and read as turned on. */
  function Targets(devices: map<Asset, Device>, unread: set<Asset>): set<Asset> {
    set a | a in devices && devices[a].connected && devices[a].enabled && a !in unread
  }

  /** A new key pair was generated and protected, so staging starts. */
  predicate Staging(s: State, env: RotateEnv) {
    && s.active.Some?
    && env.identityLoads && s.stored == s.active
    && env.requestOk && env.generateOk && env.encryptOk
  }

  predicate Commits(s: State, env: RotateEnv) {
    && Staging(s, env)
    && Targets(s.devices, env.unread) !! env.unreached
    && env.persistOk
  }

  function RemovalsOut(env: RotateEnv, a: Asset): nat {
    if a in env.removalsOut then env.removalsOut[a] else 0
  }

  /** Removal of `k` from every asset in `assets`, each as far as its sends get. */
  function RemoveFrom(devices: map<Asset, Device>, assets: set<Asset>, k: Key, env: RotateEnv): map<Asset, Device> {
    map a | a in devices ::
      if a in assets then SendRemoval(devices[a], k, RemovalsOut(env, a)) else devices[a]
  }

  function StageOn(devices: map<Asset, Device>, assets: set<Asset>, k: Key): map<Asset, Device> {
    map a | a in devices ::
      if a in assets then SendInstall(devices[a], k, 1) else devices[a]
  }

  function RotateCore(s: State, env: RotateEnv): State {
    if !Staging(s, env) then
      s.(minted := if s.active.Some? && env.identityLoads && s.stored == s.active && env.requestOk && env.generateOk
                   then s.minted + 1 else s.minted)
    else
      var newKey := s.minted;
      var staged := Targets(s.devices, env.unread) - env.unreached;
      var devices := StageOn(s.devices, staged, newKey);
      if Commits(s, env) then
        State(Some(newKey), Some(newKey), s.shadowed, newKey + 1, RemoveFrom(devices, staged, s.active.value, env))
      else
        s.(minted := newKey + 1, devices := RemoveFrom(devices, staged, newKey, env))
  }

  /** Agents that register or drop while the rotation holds the lock. */
  function Churn(devices: map<Asset, Device>, arrivals: set<Asset>, departures: set<Asset>): map<Asset, Device> {
    map a | a in devices ::
      if a in arrivals then devices[a].(connected := true)
      else if a in departures then devices[a].(connected := false)
      else devices[a]
  }

  // ----- Identity -----

  /** The keys of all identity profiles in the credential store. */
  function Profiles(s: State): set<Key> {
    if s.stored.Some? then s.shadowed + {s.stored.value} else s.shadowed
  }

  /** `found` is the first identity profile among the 100 credential profiles listed, if any.  A profile
      that is not found stays in the store next to the one that is created. */
  function Ensure(s: State, listOk: bool, found: Option<Key>, decryptOk: bool, createOk: bool): State {
    if s.active.Some? || !listOk then
      s
    else if found.Some? && found.value in Profiles(s) then
      if decryptOk then s.(active := found, stored := found, shadowed := Profiles(s) - {found.value}) else s
    else if createOk then
      s.(active := Some(s.minted), stored := Some(s.minted), shadowed := Profiles(s), minted := s.minted + 1)
    else
      s.(minted := s.minted + 1)
  }

  // ----- The machine -----

  function NewDevice(agentSource: bool): Device {
    Device(agentSource, false, false, {}, [], false)
  }

  /** A new Hub that knows some devices, each of agent source or not. */
  function Initial(sources: map<Asset, bool>): State {
    State(None, None, {}, 0, map a | a in sources :: NewDevice(sources[a]))
  }

  function Update(s: State, a: Asset, d: Device): State {
    s.(devices := s.devices[a := d])
  }

  /** The state after one event.  An event that names an unknown device changes nothing. */
  function Next(s: State, e: Event): State {
    match e
    case Enroll(a, source) =>
      if a in s.devices then s else Update(s, a, NewDevice(source))
    case HubRestart =>
      s.(active := None, devices := Churn(s.devices, {}, s.devices.Keys))
    case EnsureIdentity(listOk, found, decryptOk, createOk) =>
      Ensure(s, listOk, found, decryptOk, createOk)
    case Rotate(env, arrivals, departures) =>
      var s' := RotateCore(s, env);
      s'.(devices := Churn(s'.devices, arrivals, departures))
    case _ =>
      if e.asset in s.devices then Update(s, e.asset, NextDevice(s, s.devices[e.asset], e)) else s
  }

  predicate OneDevice(e: Event) {
    e.Connect? || e.Disconnect? || e.Deliver? || e.Sync? || e.RemoveIfOff? || e.ApplySetting?
  }

  function NextDevice(s: State, d: Device, e: Event): Device
    requires OneDevice(e)
  {
    match e
    case Connect(_) => d.(connected := true)
    case Disconnect(_) => d.(connected := false)
    case Deliver(_) =>
      if d.queue == [] then d else d.(keys := Receive(d.keys, d.queue[0]), queue := d.queue[1..])
    case Sync(_, readOk, sent, writeOk) =>
      if s.active.None? || !readOk then d else SyncDevice(d, s.active.value, sent, writeOk)
    case RemoveIfOff(_, readOk, sent, writeOk) =>
      if s.active.None? then d else RemoveIfOffDevice(d, s.active.value, readOk, sent, writeOk)
    case ApplySetting(_, enable, readOk, setOk, sent, clearOk) =>
      if !readOk then d else ApplyDevice(d, s.active, enable, setOk, sent, clearOk)
  }

  function Run(s: State, events: seq<Event>): State
    decreases |events|
  {
    if events == [] then s else Run(Next(s, events[0]), events[1..])
  }
}
