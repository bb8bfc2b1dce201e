# LabTether Hub: state machines and algorithms, modelled and proved

This project models the parts of the LabTether Hub (`cmd/labtether`) that are
protocols, guards or algorithms in their own right, and proves what they promise
over every input and every interleaving.

| file | models |
|---|---|
| `HubKeyModel`, `HubKeyInvariants`, `HubKeyEffects`, `HubKeyTracking`, `HubKeyLosses`, `HubKeyService` | distribution and rotation of the Hub SSH key |
| `EncryptionKeyModel`, `EncryptionKeyStarts` | the encryption-key guards, over whole histories of starts |
| `InboundBudget`, `BucketLevels`, `InboundPauses` | the token bucket with debt on an agent socket |
| `RateLimiter`, `RateLimiterWindows`, `RateLimiterEvictions` | the bounded fixed-window rate limiter |
| `TopologyEdges`, `TopologyNewest` | edge listing through a capped batch query |
| `StreamTickets` | one-time stream and event tickets |
| `RemoteWriteRuntime`, `RemoteWriteProgress` | replacing and stopping the remote-write worker |
| `FleetSweep`, `NetworkRates`, `NetworkReports` | the fleet cursor and interface rates |
| `ForwardedHeader`, `ForwardedAgreement`, `ForwardedExactly` | the strict and the permissive reader of the Forwarded header (section 4 of RFC 7239) |
| `Text`, `Collections`, `Arithmetic`, `Wrappers` | shared vocabulary |

Operations that change state in place are classes whose methods are proved equal
to a function of the old state; what the code promises is then proved about that
function, step by step and over all sequences of steps.  Concurrency is a state
machine whose events are the critical sections (or, for the remote-write runtime,
each lock acquisition and each wait).  Everything the code cannot decide itself
(whether a send, a read or a write succeeds, the time, random values) is part of
the event.

## Assumptions

- Hub SSH key: a send that reported success is delivered in order; a store write
  that reported an error changed nothing; a generated key is new and its public
  key line carries no comment, so the plain and the marked line differ.
- Encryption: a ciphertext opens with exactly the key bytes and associated data it
  was sealed with.  Base64 decoding is a parameter, so results hold for any decoder.
- Rate limiter: the clock is read before the lock; `PruningIsInvisible` and
  `PerCounterWindow` are about runs whose readings do not decrease in lock order.
  `IntervalBound` needs no such order.
- Tickets: random tickets do not repeat.  Clock readings may come in any order.
- Edge listing: one batch call returns as many of the touching edges as the limit
  allows, each once, and edge ids are unique.  `TopologyNewest` adds that it returns
  the newest, as the query in internal/persistence/postgres_edges_store.go does.

## Where a promise holds only under a condition

Each has the exact condition and an input or a run on which it fails; the runs start from
an initial state.

- An agent device that is off and holds the stored key has a removal on record, exactly
  as long as the Hub never loads another identity profile whose key such a device holds
  (`RunTracksExactly`).  There can be another one: a profile that is not among the 100
  credential profiles listed is not found, a second one is created, and the first one
  stays and can be listed first later.  `FirstProfileReturns` is such a run; a run in
  which the Hub always finds its identity has none (`FindingTracks`).
- A device that holds the active key can lose it although it stays connected and
  turned on: when its setting could not be read during a rotation that committed,
  or on an "installed" reply.  `StepHeld` shows these are the only two ways;
  `RotationLocksOut` and `ReplyLocksOut` are runs on which they happen.
- A removal that waited for an agent names the key active when it is sent; lines of
  a key superseded meanwhile stay although the pending mark is cleared
  (`PendingRemovalNamesActiveKeyOnly`, with the run `SupersededKeyStays`).
- Turning a device off keeps track of the key only for devices that are connected
  or of agent source (`TurnOffTracks`, with the run `TurnedOffUntracked`).
- A start refused because the key cannot read the database has already stored that
  key.  The remedy it prints is then refused as a key change unless the replace flag
  is given too (`PrintedRemedy`, with the history `RemedyRefused`).  The printed text
  says otherwise; the model follows the code.
- Evicting a key from the rate limiter forgets its counter: the key's next request is
  answered as without eviction exactly if that counter was over or had room left
  (`EvictionForgets`, with the run `EvictionShows`).
- Edges of an asset that has more of them than a batch holds can be missing.  The
  listing is complete, whatever the query picks, exactly if every edge to be listed
  has an end among the ids with no more edges than a batch holds (`CompleteExactly`,
  with the store `UnreachableIsMissed`).  With a query that picks the newest, an edge
  is sure to be listed exactly if, for one of its ends among the ids, fewer other edges
  are at least as new than a batch holds (`ListedExactly`, with the store
  `OldCanBeMissed`).
- A sweep of expired tickets can refuse a ticket whose holder read the clock in time,
  because the clock is read before the lock.  This happens exactly if a sweep since
  the issue read the clock past the ticket's expiry (`SweepShowsExactly`, with the run
  `LateSweepShows`); a sweep never admits anyone (`SweepsOnlyRefuse`).
- A ticket issued to a principal with a scope list that is present but empty gives its
  holder every scope (`TicketRights`).  No API key can have such a list: creating and
  updating a key refuse it (`ValidateScopes` in internal/apikeys/scope.go).
- The permissive header reader folds U+017F to `s`, so a key spelled with it passes
  for `host` there and not in the strict reader (`ReadersAgree`, `LongSDiffers`).

## Model

| member | source | states |
|---|---|---|
| `HubKeyInvariants.InitialInv` | cmd/labtether/hub_identity.go:164-244 | a new Hub with any devices satisfies the invariant the next rows speak of |
| `HubKeyInvariants.RunKeepsInv` | cmd/labtether/hub_ssh_key_device.go:64-172 | in every state of every interleaving: the identity in memory is the stored one and in no other profile, no device is on and pending at once, and no device holds a key that was not generated |
| `HubKeyInvariants.StepKeepsInv` | cmd/labtether/hub_ssh_key_device.go:64-172 | each event, with any outcome of its sends, store accesses and profile listing, keeps that invariant |
| `HubKeyInvariants.RotationKeepsInv` | cmd/labtether/hub_key_rotation.go:230-299 | a rotation keeps it on every exit |
| `HubKeyInvariants.DrainSendRemoval` | cmd/labtether/hub_key_rotation.go:110-135 | what an agent ends up with when both, one or none of the two removal lines went out |
| `HubKeyEffects.DeliveredIsDrained` | cmd/labtether/hub_key_rotation.go:110-135 | once everything queued is delivered, authorized_keys is exactly what the other results say a device will hold |
| `HubKeyEffects.ReplyEffect` | cmd/labtether/hub_ssh_key_device.go:90-115 | an "installed" reply from a device read as off is answered with both removals, and the removal is on record afterwards exactly if it did not go out in full; a device that is on is left alone, an unread one only told |
| `HubKeyEffects.SyncEffect` | cmd/labtether/hub_ssh_key_device.go:64-83 | a sync installs the active key on a device that is on, removes it from one that is off with a removal on record, and clears the record exactly if both removals and the write worked |
| `HubKeyEffects.ApplyEffect` | cmd/labtether/hub_ssh_key_device.go:136-172 | exactly what a stored setting does: the setting, the lines the device will hold, and whether a removal is on record; nothing at all if it cannot be read or stored |
| `HubKeyEffects.IdentityEffect` | cmd/labtether/hub_identity.go:106-118 | an identity in memory stays; else the profile found is loaded or one created; a listing or decryption that fails changes nothing and no profile is dropped |
| `HubKeyEffects.RotationOutcome` | cmd/labtether/hub_key_rotation.go:230-297 | the active and stored key move, together and to the new key, exactly if every step before staging works, every connected device read as on is in reach, and the key is persisted |
| `HubKeyEffects.RotationEffect` | cmd/labtether/hub_key_rotation.go:281-298 | what a rotation adds to and takes from each device, committed or failed; devices the key was not sent to are untouched |
| `HubKeyInvariants.InstallGrants` | cmd/labtether/hub_ssh_key_device.go:75-79 | a sync or a turn-on whose install was sent makes the device hold the active key |
| `HubKeyInvariants.RotationHeld` | cmd/labtether/hub_key_rotation.go:281-298 | a device holding the active key holds the one active afterwards, on success, staging failure or persist failure, exactly unless the rotation committed without reading its setting |
| `HubKeyInvariants.StepHeld` | cmd/labtether/hub_ssh_key_device.go:90-115 | over all events: a device that stays up keeps holding the active key exactly unless an unread setting was acted on |
| `HubKeyInvariants.NoLockout` | cmd/labtether/hub_key_rotation.go:216-220 | no lockout: over any run in which the device stays up and its setting can be read, it holds whatever key is active at the end |
| `HubKeyInvariants.StepInstalls` | cmd/labtether/hub_ssh_key_device.go:61-83 | every install goes to a device that is on, as the marked line, and carries the key active after the event or, in a rotation that fails, the new key |
| `HubKeyInvariants.NeverReinstalled` | cmd/labtether/hub_key_rotation.go:140-167 | a key that is in no identity profile any more is never sent to any device again |
| `HubKeyInvariants.ArrivalGetsCurrentKey` | cmd/labtether/hub_ssh_key_device.go:68-79 | an agent that registers during a rotation and is synced later gets the key active by then, not the replaced one |
| `HubKeyInvariants.RotationLeaves` | cmd/labtether/hub_key_rotation.go:297-298 | after a committed rotation a device still holds the replaced key exactly if it held it and was not staged or no removal got out, or only the first removal got out and it had the marked line |
| `HubKeyInvariants.TurnOffTracks` | cmd/labtether/hub_ssh_key_device.go:146-171 | turning off a device that is on or has a removal pending and holds the stored key keeps track of that key exactly if the device is connected or of agent source |
| `HubKeyInvariants.PendingRemovalNamesActiveKeyOnly` | cmd/labtether/hub_ssh_key_device.go:80-81 | after a waiting removal the device holds exactly what it held of other keys, and is no longer pending |
| `HubKeyTracking.InitialTracked` | cmd/labtether/hub_identity.go:164-244 | a new Hub has every key to be removed on record and one identity profile at most |
| `HubKeyTracking.StepTracks` | cmd/labtether/hub_ssh_key_device.go:64-172 | each event keeps a removal on record for every agent device that is off and will hold the stored key, exactly unless it loads another profile whose key such a device holds untracked |
| `HubKeyTracking.RunTracksExactly` | cmd/labtether/hub_ssh_key_device.go:64-172 | that holds in every state of a run exactly if no event of it loads such a profile |
| `HubKeyTracking.OneProfile` | cmd/labtether/hub_identity.go:173-202 | one identity profile stays the only one exactly as long as it is found when looked for, or creating another fails |
| `HubKeyTracking.FindingTracks` | cmd/labtether/hub_identity.go:173-233 | in a run in which the Hub always finds its identity, every agent device that is off and will hold the stored key has a removal on record in every state |
| `HubKeyTracking.StepCleans` | cmd/labtether/hub_key_rotation.go:281-298 | a device with lines of the stored key only keeps it so, exactly unless a rotation commits without removing the old key there, fails without taking the new key back, or the profile changes while it holds something |
| `HubKeyTracking.RunCleansExactly` | cmd/labtether/hub_key_rotation.go:281-298 | over a whole run the device holds nothing but the key in use exactly if no event does one of these |
| `HubKeyLosses.FirstProfileReturns` | cmd/labtether/hub_identity.go:173-233 | a run from a new Hub in which the identity is not found once and found again later: an agent device that is off then holds the active key and no removal is pending |
| `HubKeyLosses.RotationLocksOut` | cmd/labtether/hub_key_rotation.go:148-152 | a run from a new Hub in which a rotation that cannot read a setting leaves a connected device that is on without the active key |
| `HubKeyLosses.ReplyLocksOut` | cmd/labtether/hub_ssh_key_device.go:96-101 | a run in which an "installed" reply with an unread setting takes the active key from a device that is on |
| `HubKeyLosses.TurnedOffUntracked` | cmd/labtether/hub_ssh_key_device.go:146-149 | a run after which a device that is off holds the active key and no removal is pending |
| `HubKeyLosses.SupersededKeyStays` | cmd/labtether/hub_ssh_key_device.go:80-81 | a run after which an agent device that is off holds a superseded key and no removal is pending |
| `HubKeyService.HubServer.SendKeyMessage` | cmd/labtether/hub_key_rotation.go:110-135 | payloads go out in order and stop at the first failure; success means all went out |
| `HubKeyService.HubServer.StageKey` | cmd/labtether/hub_key_rotation.go:140-167 | stages exactly the connected devices that are on and in reach; staged plus failures is the total, and no failure means the lists are equal |
| `HubKeyService.HubServer.RemoveKeyFromAssets` | cmd/labtether/hub_key_rotation.go:169-186 | removal on each listed asset as far as its sends get, counting those not fully reached |
| `HubKeyService.HubServer.StageAndSwap` | cmd/labtether/hub_key_rotation.go:281-299 | identity and stored key move together and only if every target was staged and the key persisted; otherwise the new key is taken back; the outcome is the exact report |
| `HubKeyService.HubServer.RotateKey` | cmd/labtether/hub_key_rotation.go:230-317 | every failing exit leaves identity and stored key unchanged, success moves both to the new key; the change is that of the rotation event and the reported total, staged and failure counts are exact |
| `HubKeyService.NoFailureMeansAll` | cmd/labtether/hub_key_rotation.go:281-287 | what is connected and not staged was out of reach, so no failure means every connected device that is on was staged, and the other way round |
| `HubKeyService.HubServer.SendKeyRemoval` | cmd/labtether/hub_ssh_key_device.go:120-130 | both lines sent and the mark cleared, or reported as not done |
| `HubKeyService.HubServer.SyncOnConnect` | cmd/labtether/hub_ssh_key_device.go:64-83 | makes the change of the sync event |
| `HubKeyService.HubServer.RemoveKeyIfOff` | cmd/labtether/hub_ssh_key_device.go:90-115 | makes the change of the "installed" reply event |
| `HubKeyService.HubServer.ApplyKeySetting` | cmd/labtether/hub_ssh_key_device.go:136-172 | stores the choice first, then tells a connected agent; reports the setting before and after and exactly which message went out |
| `HubKeyService.HubServer.EnsureCurrentIdentity` | cmd/labtether/hub_identity.go:106-118 | loads the profile found or creates one next to those not found, which stay; what becomes active is what is stored |
| `EncryptionKeyStarts.AllStartsUseOneKey` | cmd/labtether/startup_encryption_key_check.go:40-90 | however files and environment change between starts, a successful start and any later successful one on the same database use the same key bytes and record unless a start after the first replaces; secrets.json then holds the key |
| `EncryptionKeyStarts.RecordNeverRewritten` | cmd/labtether/startup_encryption_key_check.go:55-77 | the check record, once there, stays as it is through any starts without the replace flag |
| `EncryptionKeyStarts.SuccessMatchesRecord` | cmd/labtether/startup_encryption_key_check.go:55-73 | with a record and without the replace flag, success means the record opens with this start's key, and the database is unchanged |
| `EncryptionKeyStarts.SuccessStoresKey` | cmd/labtether/startup_install_secrets.go:94-122 | after a successful start secrets.json holds the key it used, saved or already there |
| `EncryptionKeyStarts.RefusalsChangeNothing` | cmd/labtether/startup_encryption_key_data_guard.go:34-75 | a start refused for a missing or a changed key changes neither files nor database |
| `EncryptionKeyStarts.MissingExactly` | cmd/labtether/startup_encryption_key_data_guard.go:34-75 | a start is refused for a missing key exactly if neither place has one other than the example, the database holds secrets that need it, and replacing was not asked for |
| `EncryptionKeyStarts.MismatchExactly` | cmd/labtether/startup_encryption_key_guard.go:24-58 | a start is refused for a changed key exactly if both places have one with different bytes and replacing was not asked for; another encoding of the same bytes is no change |
| `EncryptionKeyStarts.StartsExactly` | cmd/labtether/startup_encryption_key_check.go:46-90 | past both guards and where nothing fails, exactly when a start succeeds, is refused as wrong for the data, or fails on an unusable key |
| `EncryptionKeyStarts.SecretsLeft` | cmd/labtether/startup_install_secrets.go:36-122 | what secrets.json holds after any start: unchanged, or all secrets as resolved (given, else stored unless an example, else new); after success always the latter |
| `EncryptionKeyStarts.RecordLeft` | cmd/labtether/startup_encryption_key_check.go:55-90 | only a successful start changes the database, and only by writing a record of its key where there was none of it |
| `EncryptionKeyStarts.SuccessNeedsAll` | cmd/labtether/startup_bootstrap.go:84-116 | no start succeeds past an access or check that fails |
| `EncryptionKeyStarts.StartWithDatabaseKey` | cmd/labtether/startup_encryption_key_guard.go:24-44 | where nothing else fails, a start given the database's own key succeeds exactly if replacing is allowed or no other usable key is stored, and leaves the record unchanged |
| `EncryptionKeyStarts.WrongKeyIsStored` | cmd/labtether/startup_install_secrets.go:113-122 | a start refused as wrong for the data leaves the refused key in secrets.json |
| `EncryptionKeyStarts.PrintedRemedy` | cmd/labtether/startup_encryption_key_check.go:63-73 | the restart that refusal recommends succeeds exactly with the replace flag or when the stored key is the well-known example |
| `EncryptionKeyStarts.RemedyRefused` | cmd/labtether/startup_encryption_key_check.go:63-73 | for any decoder and any two valid keys with different bytes, the other one not the example key: start on an empty database, restore it next to the other key, refused as wrong, then the recommended restart refused as a key change |
| `EncryptionKeyStarts.Installation.ResolveSecrets` | cmd/labtether/startup_install_secrets.go:27-130 | tokens and key resolved in order, saved exactly when something differs |
| `EncryptionKeyStarts.Installation.CheckKeyMatchesData` | cmd/labtether/startup_encryption_key_check.go:46-90 | the database check with its refusal and its write |
| `EncryptionKeyStarts.Installation.StartHub` | cmd/labtether/startup_bootstrap.go:84-116 | the guards in their fixed order |
| `InboundBudget.Budget.Reserve` | cmd/labtether/agent_ws_inbound_budget.go:56-77 | a frame is accepted exactly if the budget can ever pay for it; accepted frames charge both buckets |
| `InboundBudget.CapNeverBinds` | cmd/labtether/agent_ws_inbound_budget.go:64-76 | in any run that honours its pauses every frame finds the debt repaid, debt is at most one frame, tokens stay within the burst and the cap never shortens a pause |
| `InboundBudget.StretchBound` | cmd/labtether/agent_ws_handler.go:275-283 | in any stretch of a run, bytes and messages from the arrival of its first frame to the handling of its last are at most burst plus rate times that time |
| `InboundBudget.RateBound` | cmd/labtether/agent_ws_handler.go:275-283 | bytes and messages up to a handled frame are at most burst plus rate times the time since the start |
| `InboundBudget.WaitIsLeast` | cmd/labtether/agent_ws_inbound_budget.go:79-84 | the pause is exactly the time after which both buckets are out of debt |
| `InboundBudget.PauseExactly` | cmd/labtether/agent_ws_inbound_budget.go:75-84 | the pause is what repays the debt, but at most ten seconds |
| `InboundBudget.FitsExactly` | cmd/labtether/agent_ws_inbound_budget.go:57-67 | a frame is accepted exactly if the bursts hold it and even empty buckets would need no longer pause than the cap |
| `InboundBudget.BurstReturns` | cmd/labtether/agent_ws_inbound_budget.go:68-74 | a socket idle long enough has its whole burst again |
| `InboundPauses.NoPauseExactly` | cmd/labtether/agent_ws_inbound_budget.go:56-84 | a frame is handled without a pause exactly if every stretch of frames that ends with it stays within the burst plus what the rate allows from its first arrival: the converse of the rate bound |
| `RateLimiter.Limiter.EnforceKey` | cmd/labtether/http_helpers.go:95-141 | prune, make room and count; the map stays within its bound and what is evicted ends no later than anything else |
| `RateLimiter.Limiter.FindEarliest` | cmd/labtether/http_helpers.go:112-119 | finds an entry with the smallest reset time |
| `RateLimiter.Limiter.Enforce` | cmd/labtether/http_helpers.go:67-93 | no limit or no window lets everything pass and changes nothing; otherwise the request is decided and counted as specified |
| `RateLimiter.StepBounded` | cmd/labtether/http_helpers.go:103-121 | the map never exceeds its maximum |
| `RateLimiter.PruningIsInvisible` | cmd/labtether/http_helpers.go:103-140 | with times in order and the key not evicted, the limiter answers every request for it as one that never removes its counter |
| `RateLimiter.EvictionForgets` | cmd/labtether/http_helpers.go:111-121 | whatever other keys ask meanwhile, the next request for an evicted key is answered as by the limiter that never removes counters exactly if the evicted counter was over or had room left |
| `RateLimiterWindows.PerCounterWindow` | cmd/labtether/http_helpers.go:123-137 | while a key's counter lasts and the key is not evicted, exactly the first requests pass, as many as the limit less what was counted |
| `RateLimiterWindows.PassesAgain` | cmd/labtether/http_helpers.go:123-140 | the first request after the window passes, however many were refused in it |
| `RateLimiterWindows.WindowExactly` | cmd/labtether/http_helpers.go:123-140 | in a new limiter, of a key's requests within one window length of its first, exactly the first ones pass, as many as the limit |
| `RateLimiterWindows.PassesAfterFirstWindow` | cmd/labtether/http_helpers.go:123-140 | and the first one after that passes |
| `RateLimiterWindows.PruningRemovesExpired` | cmd/labtether/http_helpers.go:103-110 | when pruning is due, no entry but the one asked for is left past its time |
| `RateLimiterEvictions.IntervalBound` | cmd/labtether/http_helpers.go:95-141 | for a key with one limit and window, at most (2 + n) times the limit passes in any stretch of a run no longer than one window in which the key is evicted n times |
| `RateLimiterEvictions.EvictionShows` | cmd/labtether/http_helpers.go:111-121 | at any time, a run of 4097 keys from an empty map, evicting the earliest, after which the first key passes again within its window where its own counter would refuse it |
| `TopologyEdges.ListEdges` | cmd/labtether/apiv2_topology_placement.go:236-277 | each edge once, newest first, and exactly what asking for each non-blank id alone yields, however the ids are chunked and halved; so exactly the edges touching those ids if each of them has an end there that fits in a batch (in particular if every asset fits), and a subset of them in any case; it fails only if a batch call fails |
| `TopologyEdges.ListChunk` | cmd/labtether/apiv2_topology_placement.go:279-317 | the same for one chunk, by halving |
| `TopologyEdges.AppendNew` | cmd/labtether/apiv2_topology_placement.go:300-316 | merges two lists without repeating an id |
| `TopologyEdges.TrimIds` | cmd/labtether/apiv2_topology_placement.go:240-252 | the trimmed non-blank ids, each once |
| `TopologyEdges.NonBlankExactly` | cmd/labtether/apiv2_topology_placement.go:240-252 | an id is asked for exactly if it is what is left of a given one without the spaces around it, and not empty |
| `TopologyEdges.SortNewestFirst` | cmd/labtether/apiv2_topology_placement.go:273-275 | the same edges, newest first |
| `TopologyEdges.CompleteExactly` | cmd/labtether/apiv2_topology_placement.go:279-317 | for given stored edges, the listing is complete whatever the query picks exactly if every edge to be listed has an end among the ids with no more edges than a batch holds |
| `TopologyEdges.UnreachableIsMissed` | cmd/labtether/apiv2_topology_placement.go:282-288 | where an edge has no such end, a store with the same edges answers every call and the listing lacks that edge |
| `TopologyNewest.RecentIsFound` | cmd/labtether/apiv2_topology_placement.go:279-317 | with a query that returns the newest, an edge is listed if, for one of its ends among the ids, fewer other edges are at least as new than a batch holds |
| `TopologyNewest.ListedExactly` | cmd/labtether/apiv2_topology_placement.go:279-317 | an edge is sure to be listed, however equally old edges are picked, exactly under that condition |
| `TopologyNewest.OldCanBeMissed` | cmd/labtether/apiv2_topology_placement.go:282-288 | where it fails, a store with the same edges whose query returns the newest answers every call and the listing lacks the edge |
| `TopologyEdges.OneAssetComplete` | cmd/labtether/apiv2_topology_placement.go:282-288 | for one asset the answer is complete exactly if its edges fit in a batch |
| `StreamTickets.TicketStore.IssueTicket` | cmd/labtether/request_auth_middleware.go:385-426 | sweeps, with a clock reading per entry, and stores the ticket for the trimmed session with the issuer's principal and lifetime |
| `StreamTickets.TicketStore.ConsumeStreamTicket` | cmd/labtether/request_auth_middleware.go:343-382 | admits the holder of a live ticket for this session and spends it |
| `StreamTickets.TicketStore.ConsumeEventTicket` | cmd/labtether/browser_events.go:29-53 | spends an event ticket and admits its holder if it is live, active and not bound to assets |
| `StreamTickets.AdmittedAsIssued` | cmd/labtether/request_auth_middleware.go:356-382 | whoever is admitted holds a ticket issued earlier for that session, within its lifetime, and is admitted as the principal that issue stored |
| `StreamTickets.AtMostOnce` | cmd/labtether/browser_events.go:32-39 | no ticket admits twice over any interleaving of both consumers, issues and revocations |
| `StreamTickets.AdmittedExactly` | cmd/labtether/browser_events.go:29-53 | an issued ticket is admitted exactly if presented for its own stream session, or for events by a credential that is active and not bound to assets, within 60 seconds, and neither spent, revoked nor swept past its expiry since |
| `StreamTickets.WrongSessionSpendsNothing` | cmd/labtether/request_auth_middleware.go:364-366 | an attempt on a live ticket for another session admits no one and keeps the ticket |
| `StreamTickets.TicketRights` | cmd/labtether/request_auth_middleware.go:415-424 | a ticket gives its holder the asset and event access of its issuer, and every scope check answers as for the issuer exactly if the issuer's scope list was not present but empty |
| `StreamTickets.TicketIdentity` | cmd/labtether/request_auth_middleware.go:390-424 | a ticket carries one of the four roles, the issuer's own if it is one, and more than a viewer's only if the issuer's role is that; the trimmed actor, and the issuer's API key and login session |
| `StreamTickets.AdmittedRights` | cmd/labtether/request_auth_middleware.go:368-382 | in every run, whoever is admitted has actor, role, API key and session of the principal of an earlier issue of the ticket, and passes the same asset checks and, unless its scope list was present but empty, scope checks |
| `StreamTickets.SweepShowsExactly` | cmd/labtether/request_auth_middleware.go:343-366 | with readings in any order: where a store that never sweeps admits, the store decides the same exactly if no sweep since the issue read the clock past the expiry |
| `StreamTickets.SweepsOnlyRefuse` | cmd/labtether/request_auth_middleware.go:348-354 | in any run, whoever is admitted would be admitted the same without sweeps |
| `StreamTickets.SweepsAreInvisible` | cmd/labtether/request_auth_middleware.go:348-354 | with clock readings in order, sweeping changes no decision of any run |
| `StreamTickets.LateSweepShows` | cmd/labtether/request_auth_middleware.go:343-354 | a run from an empty store in which a sweep that read the clock later refuses a ticket presented in time |
| `RemoteWriteRuntime.StepKeepsInv` | cmd/labtether/startup_prometheus_remote_write.go:45-116 | every step of every call keeps the locks, the worker and the versions consistent |
| `RemoteWriteRuntime.OneWorkerRunsActiveConfig` | cmd/labtether/startup_prometheus_remote_write.go:16-33 | in every reachable state at most one worker is unfinished and it has the recorded configuration |
| `RemoteWriteRuntime.NewerSettingsStay` | cmd/labtether/startup_prometheus_remote_write.go:49-78 | an older settings read never overwrites a newer one |
| `RemoteWriteRuntime.NothingRunsAfterStop` | cmd/labtether/startup_prometheus_remote_write.go:97-116 | after `Stop` returns no worker is unfinished and none is started, whatever else is under way |
| `RemoteWriteProgress.CallsCanReturn` | cmd/labtether/startup_prometheus_remote_write.go:45-116 | after any run there are steps, needing only that cancelled workers end, by which every call under way returns: the two locks and the wait cannot deadlock |
| `RemoteWriteRuntime.ApplyIsItsSteps` | cmd/labtether/startup_prometheus_remote_write.go:69-94 | the steps of one `Apply` add up to its critical section |
| `RemoteWriteRuntime.CommitTakesEffect` | cmd/labtether/startup_prometheus_remote_write.go:77-94 | once in place, an enabled configuration has an unfinished, uncancelled worker, the only one; a disabled one has none |
| `RemoteWriteRuntime.EnterLeavesWorkers` | cmd/labtether/startup_prometheus_remote_write.go:69-77 | a call whose configuration is on record, or that comes after a stop, leaves the workers alone; any other cancels the one it waits for |
| `RemoteWriteRuntime.Runtime.StopActiveLocked` | cmd/labtether/startup_prometheus_remote_write.go:107-116 | cancels, waits, and leaves no unfinished worker |
| `RemoteWriteRuntime.Runtime.ApplyLocked` | cmd/labtether/startup_prometheus_remote_write.go:69-94 | refused when stopping, no change for the same configuration, otherwise the worker is replaced: a new one if enabled, none if not |
| `RemoteWriteRuntime.Runtime.StopRuntime` | cmd/labtether/startup_prometheus_remote_write.go:97-105 | stops for good and leaves no unfinished worker |
| `FleetSweep.Sweeper.ConnectedAssetBatch` | cmd/labtether/metrics_agent_telemetry.go:96-114 | small fleets whole; otherwise one batch from the cursor, which moves on for this kind only |
| `FleetSweep.SweepIsDistinct` | cmd/labtether/metrics_agent_telemetry.go:109-113 | a sweep of a fleet larger than the batch has 64 different assets |
| `FleetSweep.EveryAssetIsReached` | cmd/labtether/metrics_agent_telemetry.go:102-113 | from any cursor of a stable fleet, fleet size over batch size sweeps, rounded up, reach every asset |
| `FleetSweep.FewerSweepsMissOne` | cmd/labtether/metrics_agent_telemetry.go:102-113 | fewer sweeps do not |
| `NetworkRates.Telemetry.Collect` | cmd/labtether/metrics_agent_telemetry.go:271-308 | counters and entries of one poll, for the valid labels, the first of each, up to the limit |
| `NetworkRates.CounterMoves` | cmd/labtether/metrics_agent_telemetry.go:272-292 | each interface moves on its own: recorded when reported, dropped when too old |
| `NetworkReports.ReportedExactly` | cmd/labtether/metrics_agent_telemetry.go:278-291 | what a poll reports for a label is the agent's first interface of that name, spaces aside, if fewer than 128 other labels come before it |
| `NetworkReports.LabelIsName` | cmd/labtether/metrics_service_adapters.go:124-127 | a label is the trimmed name, if not empty, at most 128 bytes and without NUL |
| `NetworkRates.EntriesAreEmissions` | cmd/labtether/metrics_agent_telemetry.go:293-306 | a poll's entries are exactly the rates of comparable reports |
| `NetworkRates.EntryOf` | cmd/labtether/metrics_agent_telemetry.go:282-306 | a poll returns an entry for an interface exactly if its report is comparable, with the rates of that report against the one before |
| `NetworkRates.RateAccounts` | cmd/labtether/metrics_agent_telemetry.go:296-301 | no rate is negative and rate times elapsed time is the counter difference |
| `NetworkRates.TrafficIsConserved` | cmd/labtether/metrics_agent_telemetry.go:291-306 | over any stretch in which every report of an interface gets an entry, the rates of the returned entries times elapsed time add up to last counter minus first |
| `NetworkRates.NothingEmitted` | cmd/labtether/metrics_agent_telemetry.go:272-295 | a poll returns no entry for an interface exactly if it does not report it, has seen none, saw the last one too long ago or not earlier, or a counter went back |
| `ForwardedHeader.StrictForwardedOrigin` | cmd/labtether/hub_connection_resolver.go:123-156 | the strict reader's loop extracts the fields of its specification |
| `ForwardedExactly.StrictExactly` | cmd/labtether/hub_connection_resolver.go:123-156 | proto and host are extracted exactly if every part has a `=` and each of the two fields comes once, with a well-formed value |
| `ForwardedExactly.StrictValueExactly` | cmd/labtether/hub_connection_resolver.go:158-177 | exactly which values are well-formed, plain or quoted |
| `ForwardedExactly.AnyCase` | cmd/labtether/hub_connection_resolver.go:132-144 | exactly which keys the strict reader takes for a field |
| `ForwardedExactly.PermissiveExactly` | cmd/labtether/request_origin_policy.go:159-183 | the permissive reader returns the value of the first matching part over all entries, or nothing |
| `ForwardedExactly.PermissiveValueExactly` | cmd/labtether/request_origin_policy.go:166-166 | its value is what is left without spaces and then without quotes around it |
| `ForwardedAgreement.ValuesAgree` | cmd/labtether/hub_connection_resolver.go:158-177 | a value the strict reader takes is read the same by the permissive one |
| `ForwardedAgreement.ReadersAgree` | cmd/labtether/request_origin_policy.go:159-183 | on comma-free headers both find the same proto, and the same host exactly if no earlier part passes for it with another value |
| `ForwardedAgreement.ReadersAgreeOnAscii` | cmd/labtether/request_origin_policy.go:159-183 | on comma-free ASCII headers both find the same proto and host |
| `ForwardedAgreement.PrintRoundTrip` | cmd/labtether/hub_connection_resolver.go:123-177 | `proto=s;host=h`, each value plain or quoted, is read back as s and h by both |
| `ForwardedAgreement.LongSDiffers` | cmd/labtether/request_origin_policy.go:163-166 | a part keyed `host` with U+017F is skipped by one reader and taken by the other |

## Left out

- HTTP, WebSocket and JSON handling, logging, audit events and request checks around the modelled operations.
- Key generation, SSH key parsing and AES: keys are fresh numbers and encryption is ideal.
- Other senders of key messages (an admin's push, an unchecked install, removal when an asset is deleted) and asset deletion.
- A Hub that crashes inside a critical section: a restart happens between critical sections.
- The order in which a rotation visits assets: the source sorts them, the model visits them in any order.
- `hubSSHKeyMayBeInstalled`, the rotation request's normalization and the public-key handlers: plain branches without state.
- The encryption-key checks after the database check (OIDC secret migration, TOTP key derivation) and the contents of the runtime token file.
- `Budget`: reading the limits from the environment; float rounding and the truncation of a pause to nanoseconds are not modelled, because tokens and times are reals.
- `IssueTicket`: the random ticket is given; that tickets do not repeat is an assumption of the runs.
- `ConsumeStreamTicket`: takes the session and the ticket of the request as given; path and method matching are not modelled.
- `dropStreamTickets`: an event that removes any set of tickets; which principals match is not modelled.
- `Collect`: takes the agent's interfaces as cut to the raw limit and sorted, and their names as valid UTF-8; key strings joined with a zero byte are pairs.
- `ConnectedAssetBatch`: takes the sorted ids; the sort itself and the collecting goroutines are not modelled.
- `SortNewestFirst`: the library sort is an insertion sort here; which of two equally old edges comes first is not promised by either.
- `sanitizeForwardedRequestOrigin`, host and URL parsing, DNS lookup: the parser results are stated on the raw values passed to them.
- Auto-placement, zones and dismissal of topology assets.
- The remote-write worker's deliveries and cursor store, and the errors of building a worker, which appear only as an aborted `Apply`.
- The demo rate limiter: the same algorithm without the bound.
