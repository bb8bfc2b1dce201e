/** Runs of the Hub SSH key protocol, from a new Hub with one device, on which a
device loses the active key or the Hub loses track of one. */
module HubKeyLosses {
  import opened Wrappers
  import opened HubKeyModel
  import opened HubKeyInvariants
  import opened HubKeyTracking

  const A: Asset := "a"

  function NewHub(agentSource: bool): State {
    Initial(map[A := agentSource])
  }

  const CREATE_KEY := EnsureIdentity(true, None, true, true)
  const TURN_ON := ApplySetting(A, true, true, true, 1, true)
  const TURN_OFF := ApplySetting(A, false, true, true, 2, true)

  /** Everything works, except that the settings of `unread` cannot be read. */
  function Rotation(unread: set<Asset>): Event {
    Rotate(RotateEnv(true, true, true, true, unread, {}, true, map[A := 2]), {}, {})
  }

  // ----- Running -----

  lemma {:induction false} RunAppend(s: State, first: seq<Event>, second: seq<Event>)
    ensures Run(s, first + second) == Run(Run(s, first), second)
    decreases |first|
  {
    if first == [] {
      assert first + second == second;
    } else {
      assert (first + second)[1..] == first[1..] + second;
      RunAppend(Next(s, first[0]), first[1..], second);
    }
  }

  lemma RunThree(s: State, e: Event, f: Event, g: Event)
    ensures Run(s, [e, f, g]) == Next(Next(Next(s, e), f), g)
  {
    assert [e, f, g][1..] == [f, g] && [f, g][1..] == [g] && [g][1..] == [];
    assert Run(Next(s, e), [f, g]) == Run(Next(Next(s, e), f), [g]);
  }

  lemma RunOne(s: State, e: Event)
    ensures Run(s, [e]) == Next(s, e)
  {
    assert [e][1..] == [];
  }

  /** A key was created and the device, connected, was turned on. */
  function Setup(): seq<Event> {
    [CREATE_KEY, Connect(A), TURN_ON]
  }

  function OneDevice(active: Key, d: Device): State {
    State(Some(active), Some(active), {}, active + 1, map[A := d])
  }

  lemma AfterSetup(agentSource: bool)
    ensures Run(NewHub(agentSource), Setup()) ==
            OneDevice(0, Device(agentSource, true, false, {}, [Install(Marked(0))], true))
  {
    RunThree(NewHub(agentSource), CREATE_KEY, Connect(A), TURN_ON);
    var s := Next(NewHub(agentSource), CREATE_KEY);
    assert s == OneDevice(0, NewDevice(agentSource));
    var s1 := Next(s, Connect(A));
    assert s1 == OneDevice(0, NewDevice(agentSource).(connected := true));
    assert [Install(Marked(0))][..1] == [Install(Marked(0))];
    assert [] + [Install(Marked(0))] == [Install(Marked(0))];
  }

  lemma SetupHeld(agentSource: bool)
    ensures Inv(Run(NewHub(agentSource), Setup())) && Held(Run(NewHub(agentSource), Setup()), A)
  {
    InitialInv(map[A := agentSource]);
    RunKeepsInv(NewHub(agentSource), Setup());
    AfterSetup(agentSource);
    assert Drain({}, [Install(Marked(0))]) == {Marked(0)};
  }

  // ----- A device loses the active key -----

  /** A rotation that cannot read the device's setting: the device stays connected and on, and the key
      that is then active was never sent to it. */
  lemma RotationLocksOut()
    ensures var s := Run(NewHub(true), Setup());
            var s' := Run(NewHub(true), Setup() + [Rotation({A})]);
            && Held(s, A) && !Held(s', A)
            && A in s'.devices && s'.active == Some(1) && s'.devices[A].connected && s'.devices[A].enabled
  {
    var s := Run(NewHub(true), Setup());
    SetupHeld(true);
    AfterSetup(true);
    RunAppend(NewHub(true), Setup(), [Rotation({A})]);
    RunOne(s, Rotation({A}));
    StepHeld(s, Rotation({A}), A);
  }

  /** An "installed" reply whose setting cannot be read: the key is removed from a device that is on. */
  lemma ReplyLocksOut()
    ensures var reply := RemoveIfOff(A, false, 2, true);
            var s := Run(NewHub(true), Setup());
            var s' := Run(NewHub(true), Setup() + [reply]);
            && Held(s, A) && !Held(s', A)
            && A in s'.devices && s'.active == Some(0) && s'.devices[A].connected && s'.devices[A].enabled
  {
    var s := Run(NewHub(true), Setup());
    var reply := RemoveIfOff(A, false, 2, true);
    SetupHeld(true);
    AfterSetup(true);
    RunAppend(NewHub(true), Setup(), [reply]);
    RunOne(s, reply);
    StepHeld(s, reply, A);
  }

  // ----- The Hub loses track of a key -----

  /** The device gets the key, leaves, and is turned off. */
  function Away(): seq<Event> {
    [Deliver(A), Disconnect(A), TURN_OFF]
  }

  lemma AfterDeliver(agentSource: bool)
    ensures Next(OneDevice(0, Device(agentSource, true, false, {}, [Install(Marked(0))], true)), Deliver(A)) ==
            OneDevice(0, Device(agentSource, true, false, {Marked(0)}, [], true))
  {
    var d := Device(agentSource, true, false, {}, [Install(Marked(0))], true);
    assert [Install(Marked(0))][1..] == [] && {} + {Marked(0)} == {Marked(0)};
    assert NextDevice(OneDevice(0, d), d, Deliver(A)) == Device(agentSource, true, false, {Marked(0)}, [], true);
  }

  lemma AfterAway(agentSource: bool)
    ensures Run(NewHub(agentSource), Setup() + Away()) ==
            OneDevice(0, Device(agentSource, false, agentSource, {Marked(0)}, [], false))
  {
    AfterSetup(agentSource);
    RunAppend(NewHub(agentSource), Setup(), Away());
    var d := Device(agentSource, true, false, {}, [Install(Marked(0))], true);
    var d1 := Device(agentSource, true, false, {Marked(0)}, [], true);
    RunThree(OneDevice(0, d), Deliver(A), Disconnect(A), TURN_OFF);
    AfterDeliver(agentSource);
    assert Next(OneDevice(0, d1), Disconnect(A)) == OneDevice(0, d1.(connected := false));
  }

  /** Turned off while away, a device that is not of agent source keeps the active key unrecorded. */
  lemma TurnedOffUntracked()
    ensures var s := Run(NewHub(false), Setup() + Away());
            && A in s.devices && s.active == Some(0) && Holds(s.devices[A], 0)
            && !s.devices[A].enabled && !s.devices[A].removalPending
  {
    AfterAway(false);
  }

  /** The key is rotated, and the device is back. */
  function Back(): seq<Event> {
    [Rotation({}), Connect(A), Sync(A, true, 2, true)]
  }

  lemma RotatedWhileAway(d: Device)
    requires !d.connected
    ensures Next(OneDevice(0, d), Rotation({})) == OneDevice(1, d)
  {
    var s := OneDevice(0, d);
    assert Targets(s.devices, {}) == {};
    assert RotateCore(s, Rotation({}).env) == OneDevice(1, d);
  }

  /** An agent away during a rotation, turned off meanwhile, gets a removal of the new key when it is
      back.  It keeps the old one, and the Hub no longer has a removal on record. */
  lemma SupersededKeyStays()
    ensures var s := Run(NewHub(true), Setup() + Away() + Back());
            && A in s.devices && s.active == Some(1) && Holds(s.devices[A], 0)
            && !s.devices[A].enabled && !s.devices[A].removalPending
  {
    var d := Device(true, false, true, {Marked(0)}, [], false);
    AfterAway(true);
    RunAppend(NewHub(true), Setup() + Away(), Back());
    RunThree(OneDevice(0, d), Rotation({}), Connect(A), Sync(A, true, 2, true));
    RotatedWhileAway(d);
    var d1 := d.(connected := true);
    assert Next(OneDevice(1, d), Connect(A)) == OneDevice(1, d1);
    DrainSendRemoval(d1, 1, 2);
  }

  // ----- An identity profile that is not found and found again -----

  const FIND_FIRST := EnsureIdentity(true, Some(0), true, true)

  /** The Hub restarts and does not find its identity among the profiles listed, so it creates another. */
  function SecondKey(): seq<Event> {
    [Deliver(A), HubRestart, CREATE_KEY]
  }

  /** The device is turned off, and the Hub restarts. */
  function OffAndRestart(): seq<Event> {
    [Connect(A), TURN_OFF, HubRestart]
  }

  function TwoProfiles(active: Option<Key>, d: Device): State {
    State(active, Some(1), {0}, 2, map[A := d])
  }

  lemma AfterSecondKey()
    ensures Run(NewHub(true), Setup() + SecondKey()) ==
            TwoProfiles(Some(1), Device(true, true, false, {Marked(0)}, [], false))
  {
    AfterSetup(true);
    RunAppend(NewHub(true), Setup(), SecondKey());
    var d := Device(true, true, false, {}, [Install(Marked(0))], true);
    var d1 := Device(true, true, false, {Marked(0)}, [], true);
    RunThree(OneDevice(0, d), Deliver(A), HubRestart, CREATE_KEY);
    AfterDeliver(true);
    var s := Next(OneDevice(0, d1), HubRestart);
    assert s == State(None, Some(0), {}, 1, map[A := d1.(connected := false)]);
  }

  lemma AfterOffAndRestart()
    ensures var s := Run(NewHub(true), Setup() + SecondKey() + OffAndRestart());
            && A in s.devices && s == TwoProfiles(None, s.devices[A])
            && s.devices[A].agentSource && !s.devices[A].enabled && !s.devices[A].removalPending
            && Holds(s.devices[A], 0)
  {
    var d := Device(true, true, false, {Marked(0)}, [], false);
    AfterSecondKey();
    RunAppend(NewHub(true), Setup() + SecondKey(), OffAndRestart());
    RunThree(TwoProfiles(Some(1), d), Connect(A), TURN_OFF, HubRestart);
    var d1 := d.(connected := true);
    assert Next(TwoProfiles(Some(1), d), Connect(A)) == TwoProfiles(Some(1), d1);
    var d2 := d1.(enabled := false, removalPending := true);
    DrainSendRemoval(d2, 1, 2);
    var d3 := ClearPending(SendRemoval(d2, 1, 2));
    assert Next(TwoProfiles(Some(1), d1), TURN_OFF) == TwoProfiles(Some(1), d3);
    assert Next(TwoProfiles(Some(1), d3), HubRestart) == TwoProfiles(None, d3.(connected := false));
  }

  /** Found again, the first profile makes a key active that an agent device holds while off, without a
      removal on record. */
  lemma FirstProfileReturns()
    ensures var events := Setup() + SecondKey() + OffAndRestart() + [FIND_FIRST];
            var s := Run(NewHub(true), events);
            && s.active == s.stored == Some(0)
            && A in s.devices && Untracked(s.devices[A], 0) && !Tracked(s)
            && Run(NewHub(true), events[..6]).active == Some(1)
  {
    var before := Setup() + SecondKey() + OffAndRestart();
    AfterSecondKey();
    AfterOffAndRestart();
    RunAppend(NewHub(true), before, [FIND_FIRST]);
    RunOne(Run(NewHub(true), before), FIND_FIRST);
    assert (before + [FIND_FIRST])[..6] == Setup() + SecondKey();
  }
}
