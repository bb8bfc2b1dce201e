/** The Hub's key operations as they run: loops over assets, messages sent one by
one, the setting store and the identity updated in place.  Each one is proved to
make the same change as its event in `HubKeyModel`. */
module HubKeyService {
  import opened Wrappers
  import opened Collections
  import opened HubKeyModel

  datatype RotateOutcome =
    | NotAttempted
    | KeyNotCreated
    | StagingFailed(total: nat, staged: nat, failures: nat)
    | PersistFailed(total: nat, staged: nat, failures: nat)
    | Rotated(total: nat, staged: nat, failures: nat)

  datatype SettingChange = SettingChange(
    previousEnabled: bool,
    previousPending: bool,
    enabled: bool,
    removalPending: bool,
    installSent: bool,
    removalSent: bool)

  /** Those of `assets` that do not get both removal messages. */
  function Missed(assets: set<Asset>, env: RotateEnv): set<Asset> {
    set a | a in assets && RemovalsOut(env, a) < 2
  }

  /** What a rotation reports once staging starts: devices in reach of the new key, devices that got
      it, and what failed. */
  function Report(targets: set<Asset>, env: RotateEnv): RotateOutcome {
    var staged := targets - env.unreached;
    if !(targets !! env.unreached) then
      StagingFailed(|targets|, |staged|, |targets * env.unreached| + |Missed(staged, env)|)
    else if !env.persistOk then
      PersistFailed(|targets|, |targets|, 1 + |Missed(targets, env)|)
    else
      Rotated(|targets|, |targets|, |Missed(targets, env)|)
  }

  lemma StageOneMore(devices: map<Asset, Device>, assets: set<Asset>, a: Asset, k: Key)
    requires a in devices && a !in assets
    ensures StageOn(devices, assets + {a}, k) == StageOn(devices, assets, k)[a := SendInstall(devices[a], k, 1)]
    ensures StageOn(devices, assets, k)[a] == devices[a]
  {
  }

  lemma RemoveOneMore(devices: map<Asset, Device>, assets: set<Asset>, a: Asset, k: Key, env: RotateEnv)
    requires a in devices && a !in assets
    ensures RemoveFrom(devices, assets + {a}, k, env) ==
            RemoveFrom(devices, assets, k, env)[a := SendRemoval(devices[a], k, RemovalsOut(env, a))]
    ensures RemoveFrom(devices, assets, k, env)[a] == devices[a]
  {
  }

  lemma MissedOneMore(assets: set<Asset>, a: Asset, env: RotateEnv)
    requires a !in assets
    ensures |Missed(assets + {a}, env)| == |Missed(assets, env)| + if RemovalsOut(env, a) < 2 then 1 else 0
  {
    assert Missed(assets + {a}, env) == Missed(assets, env) + if RemovalsOut(env, a) < 2 then {a} else {};
  }

  /** What is connected and not staged was out of reach, so as many are staged as connected exactly
      when every connected asset was in reach. */
  lemma NoFailureMeansAll(connected: seq<Asset>, staged: seq<Asset>, unreached: set<Asset>)
    requires Distinct(connected) && Distinct(staged) && Elements(staged) == Elements(connected) - unreached
    ensures |connected| == |Elements(connected)| && |staged| == |Elements(staged)|
    ensures |connected| == |staged| + |Elements(connected) * unreached|
    ensures |staged| == |connected| <==> Elements(connected) !! unreached
    ensures |staged| == |connected| ==> Elements(staged) == Elements(connected)
  {
    DistinctCount(connected);
    DistinctCount(staged);
    assert Elements(connected) == Elements(staged) + Elements(connected) * unreached;
  }

  /** The report in terms of the lists that staging returns. */
  lemma ReportOfLists(connected: seq<Asset>, staged: seq<Asset>, env: RotateEnv)
    requires Distinct(connected) && Distinct(staged) && Elements(staged) == Elements(connected) - env.unreached
    ensures |staged| <= |connected|
    ensures var total, got, missed := |connected|, |staged|, |Missed(Elements(staged), env)|;
            Report(Elements(connected), env) ==
              if got < total then StagingFailed(total, got, total - got + missed)
              else if !env.persistOk then PersistFailed(total, got, 1 + missed)
              else Rotated(total, got, missed)
  {
    NoFailureMeansAll(connected, staged, env.unreached);
  }

  class HubServer {
    var active: Option<Key>
    var stored: Option<Key>
    var shadowed: set<Key>
    var minted: nat
    var devices: map<Asset, Device>

    ghost function Snapshot(): State
      reads this
    {
      State(active, stored, shadowed, minted, devices)
    }

    constructor (sources: map<Asset, bool>)
      ensures Snapshot() == Initial(sources)
    {
      active, stored, shadowed, minted := None, None, {}, 0;
      devices := map a | a in sources :: NewDevice(sources[a]);
    }

    /** Sends the payloads of one message in turn and stops at the first that fails. */
    method SendKeyMessage(a: Asset, payloads: seq<Message>, sent: nat) returns (ok: bool)
      requires a in devices
      modifies this`devices
      ensures devices == old(devices)[a := Send(old(devices)[a], payloads, sent)]
      ensures ok <==> sent >= |payloads|
    {
      ghost var d := devices[a];
      for i := 0 to |payloads|
        invariant i <= sent
        invariant a in devices && devices == old(devices)[a := devices[a]]
        invariant devices[a] == Send(d, payloads, i)
      {
        if i == sent {
          return false;
        }
        assert payloads[..i + 1] == payloads[..i] + [payloads[i]];
        devices := devices[a := devices[a].(queue := devices[a].queue + [payloads[i]])];
        assert devices[a].queue == d.queue + payloads[..i + 1];
      }
      return true;
    }

    method ConnectedAssets() returns (ids: seq<Asset>)
      ensures Distinct(ids)
      ensures Elements(ids) == set a | a in devices && devices[a].connected
    {
      ids := [];
      var rest := set a | a in devices && devices[a].connected;
      ghost var all := rest;
      while rest != {}
        invariant Distinct(ids) && Elements(ids) !! rest
        invariant Elements(ids) + rest == all
        decreases rest
      {
        var a :| a in rest;
        ids := ids + [a];
        rest := rest - {a};
      }
    }

    method ConnectedEnabledAssets(unread: set<Asset>) returns (ids: seq<Asset>)
      ensures Distinct(ids)
      ensures Elements(ids) == Targets(devices, unread)
    {
      var connected := ConnectedAssets();
      ids := [];
      for i := 0 to |connected|
        invariant Distinct(ids)
        invariant Elements(ids) == Elements(connected[..i]) * Targets(devices, unread)
      {
        ElementsOfPrefix(connected, i);
        var a := connected[i];
        assert a in Elements(connected);
        if devices[a].enabled && a !in unread {
          assert a !in ids by { assert a !in Elements(ids); }
          assert Elements(ids + [a]) == Elements(ids) + {a};
          ids := ids + [a];
        }
      }
      assert connected[..|connected|] == connected;
    }

    /** `stageHubSSHKey`: the new key to every connected device that is on. */
    method StageKey(k: Key, unread: set<Asset>, unreached: set<Asset>)
      returns (connectedAssets: seq<Asset>, stagedAssets: seq<Asset>, failures: nat)
      modifies this`devices
      ensures Distinct(connectedAssets) && Elements(connectedAssets) == Targets(old(devices), unread)
      ensures Distinct(stagedAssets) && Elements(stagedAssets) == Targets(old(devices), unread) - unreached
      ensures |stagedAssets| + failures == |connectedAssets|
      ensures failures == 0 ==> stagedAssets == connectedAssets
      ensures devices == StageOn(old(devices), Elements(stagedAssets), k)
    {
      connectedAssets := ConnectedEnabledAssets(unread);
      stagedAssets, failures := [], 0;
      for i := 0 to |connectedAssets|
        invariant Distinct(stagedAssets)
        invariant Elements(stagedAssets) == Elements(connectedAssets[..i]) - unreached
        invariant |stagedAssets| + failures == i
        invariant failures == 0 ==> stagedAssets == connectedAssets[..i]
        invariant devices == StageOn(old(devices), Elements(stagedAssets), k)
      {
        var a := connectedAssets[i];
        ElementsOfPrefix(connectedAssets, i);
        assert a in Elements(connectedAssets);
        if a in unreached {
          failures := failures + 1;
        } else {
          StageOneMore(old(devices), Elements(stagedAssets), a, k);
          var ok := SendKeyMessage(a, [Install(Marked(k))], 1);
          assert a !in stagedAssets by { assert a !in Elements(stagedAssets); }
          assert Elements(stagedAssets + [a]) == Elements(stagedAssets) + {a};
          stagedAssets := stagedAssets + [a];
        }
      }
      assert connectedAssets[..|connectedAssets|] == connectedAssets;
    }

    /** `removeHubSSHKeyFromAssets`, counting the assets the removal did not fully reach. */
    method RemoveKeyFromAssets(assets: seq<Asset>, k: Key, env: RotateEnv) returns (failures: nat)
      requires Distinct(assets) && Elements(assets) <= devices.Keys
      modifies this`devices
      ensures devices == RemoveFrom(old(devices), Elements(assets), k, env)
      ensures failures == |Missed(Elements(assets), env)|
    {
      failures := 0;
      assert devices == RemoveFrom(devices, Elements(assets[..0]), k, env);
      for i := 0 to |assets|
        invariant devices == RemoveFrom(old(devices), Elements(assets[..i]), k, env)
        invariant failures == |Missed(Elements(assets[..i]), env)|
      {
        var a := assets[i];
        ElementsOfPrefix(assets, i);
        MissedOneMore(Elements(assets[..i]), a, env);
        assert a in Elements(assets);
        RemoveOneMore(old(devices), Elements(assets[..i]), a, k, env);
        var ok := SendKeyMessage(a, Removals(k), RemovalsOut(env, a));
        if !ok {
          failures := failures + 1;
        }
      }
      assert assets[..|assets|] == assets;
    }

    /** The part of a rotation that reaches the agents: stage, persist, swap, remove what is superseded. */
    method StageAndSwap(newKey: Key, env: RotateEnv) returns (outcome: RotateOutcome)
      requires active.Some?
      modifies this`active, this`stored, this`devices
      ensures var targets := Targets(old(devices), env.unread);
              var staged := targets - env.unreached;
              var all := outcome.Rotated?;
              && outcome == Report(targets, env)
              && active == (if all then Some(newKey) else old(active))
              && stored == (if all then Some(newKey) else old(stored))
              && devices == RemoveFrom(StageOn(old(devices), staged, newKey), staged,
                                       if all then old(active).value else newKey, env)
    {
      var connectedAssets, stagedAssets, failures := StageKey(newKey, env.unread, env.unreached);
      ReportOfLists(connectedAssets, stagedAssets, env);
      if failures > 0 {
        var rollback := RemoveKeyFromAssets(stagedAssets, newKey, env);
        return StagingFailed(|connectedAssets|, |stagedAssets|, failures + rollback);
      }
      if !env.persistOk {
        var rollback := RemoveKeyFromAssets(stagedAssets, newKey, env);
        return PersistFailed(|connectedAssets|, |stagedAssets|, 1 + rollback);
      }
      stored := Some(newKey);
      var oldKey := active.value;
      active := Some(newKey);
      var removalFailures := RemoveKeyFromAssets(stagedAssets, oldKey, env);
      return Rotated(|connectedAssets|, |stagedAssets|, removalFailures);
    }

    /** `handleSSHHubKeyRotate` from the lock on.  The identity and the stored key move together,
        and only when the new key went to every connected device that is on. */
    method RotateKey(env: RotateEnv) returns (outcome: RotateOutcome)
      modifies this
      ensures Snapshot() == RotateCore(old(Snapshot()), env)
      ensures outcome.Rotated? <==> Commits(old(Snapshot()), env)
      ensures !outcome.Rotated? ==> active == old(active) && stored == old(stored)
      ensures outcome.Rotated? ==> active == stored == Some(old(minted))
      ensures Staging(old(Snapshot()), env) ==> outcome == Report(Targets(old(devices), env.unread), env)
      ensures !Staging(old(Snapshot()), env) ==>
                devices == old(devices) && (outcome.NotAttempted? || outcome.KeyNotCreated?)
      ensures outcome.NotAttempted? ==> minted == old(minted)
    {
      if active.None? || !env.identityLoads || stored != active || !env.requestOk {
        return NotAttempted;
      }
      if !env.generateOk {
        return KeyNotCreated;
      }
      var newKey := minted;
      minted := minted + 1;
      if !env.encryptOk {
        return KeyNotCreated;
      }
      outcome := StageAndSwap(newKey, env);
    }

    method SendKeyRemoval(a: Asset, k: Key, sent: nat, clearOk: bool) returns (done: bool)
      requires a in devices
      modifies this`devices
      ensures devices == old(devices)[a := RemoveAndClear(old(devices)[a], k, sent, clearOk)]
      ensures done <==> sent >= 2 && clearOk
    {
      var ok := SendKeyMessage(a, Removals(k), sent);
      if !ok || !clearOk {
        return false;
      }
      devices := devices[a := ClearPending(devices[a])];
      return true;
    }

    /** `syncHubSSHKeyOnConnect` */
    method SyncOnConnect(a: Asset, readOk: bool, sent: nat, writeOk: bool)
      modifies this`devices
      ensures Snapshot() == Next(old(Snapshot()), Sync(a, readOk, sent, writeOk))
    {
      if active.None? || !readOk || a !in devices {
        return;
      }
      if devices[a].enabled {
        var _ := SendKeyMessage(a, [Install(Marked(active.value))], sent);
      } else if devices[a].removalPending {
        var _ := SendKeyRemoval(a, active.value, sent, writeOk);
      }
    }

    /** `removeHubSSHKeyIfOff` */
    method RemoveKeyIfOff(a: Asset, readOk: bool, sent: nat, writeOk: bool)
      modifies this`devices
      ensures Snapshot() == Next(old(Snapshot()), RemoveIfOff(a, readOk, sent, writeOk))
    {
      if active.None? || a !in devices || (readOk && devices[a].enabled) {
        return;
      }
      var pending := devices[a].removalPending;
      var ok := SendKeyMessage(a, Removals(active.value), sent);
      if !ok {
        if readOk && writeOk {
          devices := devices[a := StoreSetting(devices[a], false, true)];
        }
        return;
      }
      if readOk && pending && writeOk {
        devices := devices[a := ClearPending(devices[a])];
      }
    }

    /** Tells a connected agent about the setting just stored. */
    method Notify(a: Asset, k: Key, enable: bool, pending: bool, sent: nat, clearOk: bool)
      returns (installSent: bool, removalSent: bool)
      requires a in devices
      modifies this`devices
      ensures devices == old(devices)[a := if enable then SendInstall(old(devices)[a], k, sent)
                                           else if pending then RemoveAndClear(old(devices)[a], k, sent, clearOk)
                                           else old(devices)[a]]
      ensures installSent <==> enable && sent >= 1
      ensures removalSent <==> !enable && pending && sent >= 2 && clearOk
    {
      installSent, removalSent := false, false;
      if enable {
        installSent := SendKeyMessage(a, [Install(Marked(k))], sent);
      } else if pending {
        removalSent := SendKeyRemoval(a, k, sent, clearOk);
      }
    }

    /** `applyHubSSHKeySetting`; no change is reported when the setting cannot be read or stored. */
    method ApplyKeySetting(a: Asset, enable: bool, readOk: bool, setOk: bool, sent: nat, clearOk: bool)
      returns (change: Option<SettingChange>)
      requires a in devices
      modifies this`devices
      ensures devices == old(devices)[a := if readOk
                                           then ApplyDevice(old(devices)[a], active, enable, setOk, sent, clearOk)
                                           else old(devices)[a]]
      ensures change.Some? <==> readOk && setOk
      ensures change.Some? ==>
                && change.value.enabled == devices[a].enabled == enable
                && change.value.removalPending == devices[a].removalPending
                && change.value.previousEnabled == old(devices)[a].enabled
                && change.value.previousPending == old(devices)[a].removalPending
                && (change.value.installSent <==> enable && active.Some? && old(devices)[a].connected && sent >= 1)
                && (change.value.removalSent <==>
                      && !enable && active.Some? && old(devices)[a].connected && sent >= 2 && clearOk
                      && (old(devices)[a].enabled || old(devices)[a].removalPending))
    {
      if !readOk {
        return None;
      }
      var previous := devices[a];
      var agentDevice := previous.connected || previous.agentSource;
      var pending := !enable && agentDevice && (previous.enabled || previous.removalPending);
      if !setOk {
        return None;
      }
      devices := devices[a := StoreSetting(previous, enable, pending)];
      var report := SettingChange(previous.enabled, previous.removalPending, enable, pending, false, false);
      if !previous.connected || active.None? {
        return Some(report);
      }
      var installSent, removalSent := Notify(a, active.value, enable, pending, sent, clearOk);
      return Some(report.(installSent := installSent, removalSent := removalSent,
                          removalPending := pending && !removalSent));
    }

    /** `ensureCurrentHubSSHIdentity` */
    method EnsureCurrentIdentity(listOk: bool, found: Option<Key>, decryptOk: bool, createOk: bool)
      returns (identity: Option<Key>)
      modifies this
      ensures Snapshot() == Ensure(old(Snapshot()), listOk, found, decryptOk, createOk)
      ensures identity == active
      ensures old(active).None? && active.Some? ==> active == stored
    {
      if active.Some? || !listOk {
        return active;
      }
      var profiles := if stored.Some? then shadowed + {stored.value} else shadowed;
      if found.Some? && found.value in profiles {
        if decryptOk {
          active, stored, shadowed := found, found, profiles - {found.value};
        }
        return active;
      }
      var newKey := minted;
      minted := minted + 1;
      if createOk {
        stored, shadowed := Some(newKey), profiles;
        active := Some(newKey);
      }
      return active;
    }
  }
}
