/** What each Hub SSH key event does to a device, told by the lines the device
will hold and by its setting, without the message queue. */
module HubKeyEffects {
  import opened Wrappers
  import opened HubKeyModel
  import opened HubKeyInvariants

  // ----- Delivery -----

  lemma DeliverOne(s: State, a: Asset)
    requires a in s.devices && s.devices[a].queue != []
    ensures a in Next(s, Deliver(a)).devices
    ensures var d, d' := s.devices[a], Next(s, Deliver(a)).devices[a];
            Drained(d') == Drained(d) && d'.queue == d.queue[1..] && d'.(keys := d.keys, queue := d.queue) == d
  {
  }

  function Deliveries(a: Asset, n: nat): seq<Event> {
    seq(n, _ => Deliver(a))
  }

  /** Delivering everything that is queued makes authorized_keys what the device "will hold". */
  lemma {:induction false} DeliveredIsDrained(s: State, a: Asset)
    requires a in s.devices
    ensures var s' := Run(s, Deliveries(a, |s.devices[a].queue|));
            a in s'.devices && s'.devices[a] == s.devices[a].(keys := Drained(s.devices[a]), queue := [])
    decreases |s.devices[a].queue|
  {
    var n := |s.devices[a].queue|;
    if n > 0 {
      DeliverOne(s, a);
      assert Deliveries(a, n)[1..] == Deliveries(a, n - 1);
      DeliveredIsDrained(Next(s, Deliver(a)), a);
    }
  }

  // ----- One device -----

  /** The store never holds a setting that is on with a removal on record. */
  lemma StoreKeepsApart(d: Device, enabled: bool, pending: bool)
    ensures var d' := StoreSetting(d, enabled, pending);
            d'.enabled == enabled && (d'.removalPending <==> pending && !enabled) && Drained(d') == Drained(d)
  {
  }

  /** An event on one device changes nothing else. */
  lemma OnlyItsDevice(s: State, e: Event)
    requires OneDevice(e) && e.asset in s.devices
    ensures Next(s, e) == s.(devices := s.devices[e.asset := Next(s, e).devices[e.asset]])
  {
  }

  /** A reply from a device that is off, or whose setting cannot be read, is answered with the removal of
      the active key.  For a device read as off the removal is then on record exactly if it did not go out. */
  lemma ReplyEffect(s: State, e: Event)
    requires e.RemoveIfOff? && e.asset in s.devices
    ensures var d, d' := s.devices[e.asset], Next(s, e).devices[e.asset];
            var asked := s.active.Some? && !(e.readOk && d.enabled);
            && d'.enabled == d.enabled && d'.connected == d.connected && d'.agentSource == d.agentSource
            && Drained(d') == (if asked then Drained(d) - Removed(s.active.value, e.sent) else Drained(d))
            && (asked && e.readOk && e.writeOk ==> (d'.removalPending <==> e.sent < 2))
            && (!(asked && e.readOk && e.writeOk) ==> d'.removalPending == d.removalPending)
  {
    if s.active.Some? {
      DrainSendRemoval(s.devices[e.asset], s.active.value, e.sent);
    }
  }

  /** A sync installs the active key on a device that is on, and removes it from one that is off and has
      a removal on record; the record goes if the removal went out and the store was written. */
  lemma SyncEffect(s: State, e: Event)
    requires e.Sync? && e.asset in s.devices
    ensures var d, d' := s.devices[e.asset], Next(s, e).devices[e.asset];
            var told := s.active.Some? && e.readOk;
            var removes := told && !d.enabled && d.removalPending;
            && d'.enabled == d.enabled && d'.connected == d.connected && d'.agentSource == d.agentSource
            && Drained(d') == (if told && d.enabled && e.sent >= 1 then Drained(d) + {Marked(s.active.value)}
                               else if removes then Drained(d) - Removed(s.active.value, e.sent)
                               else Drained(d))
            && (d'.removalPending <==> d.removalPending && !(removes && e.sent >= 2 && e.writeOk))
  {
    if s.active.Some? {
      DrainSendInstall(s.devices[e.asset], s.active.value, e.sent);
      DrainSendRemoval(s.devices[e.asset], s.active.value, e.sent);
    }
  }

  /** A setting that is stored is stored first.  A connected agent is then told: the active key is
      installed, or removed if the device may have it.  After turning off, a removal is on record exactly
      if the device may have the key, counts as an agent device, and was not told in full. */
  lemma ApplyEffect(s: State, e: Event)
    requires e.ApplySetting? && e.asset in s.devices
    ensures var d, d' := s.devices[e.asset], Next(s, e).devices[e.asset];
            var told := s.active.Some? && d.connected;
            var mayHave := d.enabled || d.removalPending;
            && (!(e.readOk && e.setOk) ==> d' == d)
            && (e.readOk && e.setOk ==>
                  && d'.enabled == e.enable && d'.connected == d.connected && d'.agentSource == d.agentSource
                  && Drained(d') == (if e.enable && told && e.sent >= 1 then Drained(d) + {Marked(s.active.value)}
                                     else if !e.enable && told && mayHave
                                     then Drained(d) - Removed(s.active.value, e.sent)
                                     else Drained(d))
                  && (d'.removalPending <==>
                        && !e.enable && mayHave && (d.connected || d.agentSource)
                        && !(told && e.sent >= 2 && e.clearOk)))
  {
    var d := s.devices[e.asset];
    var pending := !e.enable && (d.connected || d.agentSource) && (d.enabled || d.removalPending);
    if s.active.Some? {
      DrainSendInstall(StoreSetting(d, e.enable, pending), s.active.value, e.sent);
      DrainSendRemoval(StoreSetting(d, e.enable, pending), s.active.value, e.sent);
    }
    assert Drained(StoreSetting(d, e.enable, pending)) == Drained(d);
  }

  /** A new device is off, has no removal on record, holds nothing and is not connected. */
  lemma EnrollEffect(s: State, e: Event)
    requires e.Enroll? && e.asset !in s.devices
    ensures var s' := Next(s, e);
            && e.asset in s'.devices && s' == s.(devices := s.devices[e.asset := s'.devices[e.asset]])
            && var d := s'.devices[e.asset];
               && !d.enabled && !d.removalPending && !d.connected && Drained(d) == {}
               && d.agentSource == e.source
  {
  }

  /** A restart forgets the identity in memory and closes all connections, and nothing else. */
  lemma RestartEffect(s: State, a: Asset)
    requires a in s.devices
    ensures var s' := Next(s, HubRestart);
            && s'.active.None? && s'.stored == s.stored && s'.shadowed == s.shadowed && s'.minted == s.minted
            && s'.devices.Keys == s.devices.Keys && s'.devices[a] == s.devices[a].(connected := false)
  {
  }

  // ----- Identity -----

  /** An identity in memory stays.  Otherwise the profile found is loaded, or one is created where none
      is found; a listing or decryption that fails changes nothing, and no profile is ever dropped. */
  lemma IdentityEffect(s: State, e: Event)
    requires e.EnsureIdentity?
    ensures var s' := Next(s, e);
            var finds := e.found.Some? && e.found.value in Profiles(s);
            && s'.devices == s.devices && Profiles(s) <= Profiles(s')
            && (s'.active.Some? <==> s.active.Some? || (e.listOk && if finds then e.decryptOk else e.createOk))
            && (s.active.Some? || !e.listOk || (finds && !e.decryptOk) ==> s' == s)
            && (s.active.None? && s'.active.Some? ==>
                  && s'.active == s'.stored == Some(if finds then e.found.value else s.minted)
                  && Profiles(s') == if finds then Profiles(s) else Profiles(s) + {s.minted})
  {
  }

  // ----- Rotation -----

  /** The active and the stored key move, together and to the new key, exactly if everything before
      staging works, every connected device read as on is in reach, and the new key is persisted.
      Before staging no device is touched. */
  lemma RotationOutcome(s: State, env: RotateEnv)
    ensures var s' := RotateCore(s, env);
            var ready := && s.active.Some? && s.stored == s.active
                         && env.identityLoads && env.requestOk && env.generateOk && env.encryptOk;
            var inReach := forall a ::
                a in s.devices && s.devices[a].connected && s.devices[a].enabled && a !in env.unread ==>
                  a !in env.unreached;
            && (ready && inReach && env.persistOk ==> s'.active == s'.stored == Some(s.minted))
            && (!(ready && inReach && env.persistOk) ==> s'.active == s.active && s'.stored == s.stored)
            && (!ready ==> s'.devices == s.devices)
            && (ready ==> s'.minted == s.minted + 1)
            && s'.shadowed == s.shadowed && s'.devices.Keys == s.devices.Keys
  {
    assert Targets(s.devices, env.unread) !! env.unreached <==>
           forall a :: a in Targets(s.devices, env.unread) ==> a !in env.unreached;
  }

  /** On a device the new key is sent to, the rotation adds it and takes back the replaced key if it
      commits, the new key if it fails, each as far as the removals get.  No other device is touched. */
  lemma RotationEffect(s: State, env: RotateEnv, a: Asset)
    requires Staging(s, env) && a in s.devices
    ensures var d, d' := s.devices[a], RotateCore(s, env).devices[a];
            var got := d.connected && d.enabled && a !in env.unread && a !in env.unreached;
            var gone := if RotateCore(s, env).active != s.active then s.active.value else s.minted;
            && (!got ==> d' == d)
            && (got && s.active.value != s.minted ==>
                  Drained(d') == Drained(d) + {Marked(s.minted)} - Removed(gone, RemovalsOut(env, a)))
            && d'.(queue := d.queue) == d
  {
    RotationDevice(s, env, a);
  }
}
