# Gateway access control, verified

This project models the gateway edge agent of the access-control system, the cloud code that feeds it, and three of
the cloud's background workers, and proves what they keep over whole runs. The main questions are these.

- **Does the edge decide as the cloud would?** `UserLocks`, `GatewayScope`, `CredentialSync` and `AccessRules` model the
  cloud's access relation and the rule list it ships; `EdgeRules` and `Agent` model the agent that receives lists by
  pull, full push or incremental push and decides by first match. For cards, the edge never opens a door the cloud's
  relation does not, and the two agree exactly when the first user with a card's UID opens all that later ones open.
  For phones they need not agree: `Readers` composes cloud, agent and readers and says exactly when they do.
- **Can an answer be replayed?** `NonceCache` and `RequestNonce` are two caches with lazy deletion; each is proved to
  answer as its plain history would, and acceptance at most once follows with its exact conditions.
- **Is any event lost, doubled or reordered?** `EventQueue` is the agent's bounded store-and-forward queue as steps
  that interleave; `Batch` and `Checkpoints` are the server's side: accounting, deduplication, retry subsets and
  watermarks.
- **Do the formats say what they mean?** `OsdpCrc` and `OsdpPacket` (polynomial remainder, error detection, packets
  that parse back; packet format of IEC 60839-11-5), `Wiegand`, `Codecs` (command APDUs of section 5.1 of
  ISO/IEC 7816-4) and `Vault` (version-tagged secrets under key rotation).
- **Is time respected?** `RateLimiter`, `Relay`, `Backoff` and `Alerts`.
- **Is every claim settled, and does a reconcile settle the directory?** `HrisQueue`, `HrisReconcile`,
  `EmployeeSync` (the employee service's matching of inputs to records), `EmployeeMatching` (that its four indexes
  refine matching by the records alone) and `EmployeeRuns` (runs of reconciles).

`Text`, `SortedStrings` and `Wrappers` are shared helpers.

Objects that the sources update in place are classes whose methods are tied to a function of the old state; the
claims about runs are lemmas about that function. Clocks are parameters in nanoseconds that never run back, and
cryptography, parsers and stores are parameters with stated laws.

## Where the code does not do what one would expect

Each of these is stated and proved, with the condition under which the expected property holds.

- Two adjacent changed bytes of an OSDP packet can go unnoticed, in one case only: because the checksum goes low byte
  first, the last byte before it and its first byte can change together, by 0x89 and 0xA1 (`OsdpPacket.DamageDetected`).
  Every packet that fits can be damaged so (`OsdpPacket.DamageUnnoticed`).
- The comment at `api/cmd/gateway-agent/agent.go:627` describes an exponential backoff of the event push; it is zeroed
  before every attempt, so the wait never grows (`EventQueue.BackoffNeverGrows`).
- The lock-state callback appends without a size check, so it alone grows the queue without bound
  (`EventQueue.LockStateUnbounded`).
- A request whose timestamp is ahead of the server clock can be accepted twice (`RequestNonce.SecondAcceptance`).
- Replacing the relay's timer recalls neither a callback that has already fired nor a Close that has yet to write, so an
  unlock can be cut short (`Relay.UnlockLastsUnlessOvertaken`; both are reached in `Relay.OvertakenReachably`).
- A phone's signed answer is verified without looking at the locks of its rule. Whoever holds an unexpired key of the
  gateway is let in by every BLE or NFC reader on it, so a reader stays within the cloud's relation exactly when every
  key holder may open its door (`Readers.SignedGrantsWithin`, `Readers.KeyHoldersAreLetIn`, `Readers.WrongDoorExample`);
  what still holds is that the user may open some door of the gateway (`Readers.GrantHasAccess`).
- The Wiegand reader presents cards under kinds that no shipped rule has, so none of them ever opens a door
  (`Readers.NoWiegandCardOpens`).
- The loop over door groups never looks at the user's group: a member of any group of no building, or of a building in
  which the gateway has a door, opens every bound door that is in any door group (`GatewayScope.GroupedDoorOpens`,
  `GatewayScope.GroupedDoorExample`).
- The first-match scan hides later users of the same UID (`AccessRules.EdgeIsCloud`, `AccessRules.SharedCardExample`).
- A batch's hint counts duplicates as acknowledged, the total a checkpoint is held against does not. Following the hint
  is refused exactly when there is no room for the duplicates: for a queue with a total, when the previous checkpoint
  and the duplicates together exceed the total before the batch (`Checkpoints.HintFits`, also for queues without one;
  `Checkpoints.HintOvershootsExample`).
- A queue whose checkpoint was accepted before it had a total can be stranded by its first total, and then accepts no
  checkpoint until as many events have been created as the checkpoint was ahead (`Checkpoints.FirstTotalStrands`,
  `Checkpoints.StrandedTakesNoReport`, `Checkpoints.StrandedUntilCaughtUp`, `Checkpoints.FallbackStrandsExample`).
- An employee with an external id whose pulled record has only the address is synced as present and deactivated in one
  pass (`HrisReconcile.DeactivatedYetPulled`). The record ends inactive; the next reconcile with the same pull takes
  that back and leaves it without the external id (`EmployeeRuns.DeactivatedThenBack`).
- Deactivating does not always take: an employee whose keys no other record shares, and whose address is blank or in an
  inactive domain, is deactivated again on every pull that lacks it (`EmployeeSync.SecondReconcileAddsNone`,
  `EmployeeRuns.DeactivatedOnEveryPull`, `EmployeeRuns.InactiveDomainExample`). Of two employees with one address the
  earlier one's deactivation is rejected as a conflict (`EmployeeRuns.SharedAddressConflicts`). A sync does not create
  such pairs (`EmployeeSync.SyncKeepsUnique`), but the just-in-time sign-in, which is not part of this model, can.

A packet whose length does not fit 16 bits would be built and refused by every receiver (`OsdpPacket.PacketParsesBack`),
but no caller passes that much data.

## Model

| member | source | states |
|---|---|---|
| `UserLocks.LocksOfUser` | api/internal/http/router_handlers_gateway.go:1653-1701 | the nested loops over groups, door groups, doors and roles compute exactly the bound doors that the access relation gives a user |
| `UserLocks.BuildUserLockAccess` | api/internal/http/router_handlers_gateway.go:1640-1708 | every user id maps to its lock set as a strictly sorted list, users who may open nothing are absent, and of several users with one id the last counts |
| `UserLocks.AccessIsRelation` | api/internal/http/router_handlers_gateway.go:1666-1705 | the map is never more than the access relation and lists only bound doors; with distinct user ids it is the relation |
| `UserLocks.UngroupedDoorOpens` | api/internal/http/router_handlers_gateway.go:1653-1701 | a bound door that is in no door group opens to a user if and only if they are in a group of its building or place, or hold a role over the organisation or over its building |
| `GatewayScope.CollectBuildings` | api/internal/http/router_handlers_gateway.go:1766-1780 | the loop collects the buildings of the bound doors |
| `GatewayScope.ConfigUserGroups` | api/internal/http/router_handlers_gateway.go:1922-1945 | the loop keeps the groups of no building or of such a building |
| `GatewayScope.ConfigUsers` | api/internal/http/router_handlers_gateway.go:1889-1920 | the loop keeps the active users of no building or of such a building, with the group ids that are kept |
| `GatewayScope.ScopedUsersAre` | api/internal/http/router_handlers_gateway.go:1889-1920 | a user is shipped if and only if an active account of no building or of a kept building has that id, address and role, with exactly the group ids that are kept |
| `GatewayScope.BelongsInScope` | api/internal/http/router_handlers_gateway.go:2004-2031 | a kept user belongs to a kept group if and only if the trimmed id of that tenant group is among the user's |
| `GatewayScope.OwnBuildingIsKept` | api/internal/http/router_handlers_gateway.go:1922-1945 | a group that covers a bound door by its own building is never dropped |
| `GatewayScope.GroupedDoorOpens` | api/internal/http/router_handlers_gateway.go:1653-1705 | a bound door that no group's building and no role gives a user opens to them if and only if it is in any door group and they are in any group that the gateway's scope keeps |
| `GatewayScope.GroupedDoorExample` | api/internal/http/router_handlers_gateway.go:1653-1705 | a gateway with a door in each of two buildings: a guest of one opens the other's door, because it is in a door group |
| `SortedStrings.SortedSetKeys` | api/internal/http/router_handlers_gateway.go:2033-2048 | whatever the iteration order, the non-blank keys, each once, strictly sorted |
| `SortedStrings.LessMeans` | api/internal/http/router_handlers_gateway.go:2033-2048 | the order of the sorting: a proper prefix comes first, else the smaller character at the first difference decides |
| `SortedStrings.SortedListIsUnique` | api/internal/http/router_handlers_gateway.go:2033-2048 | strictly sorted lists with the same elements are equal, so the result does not depend on map iteration order |
| `AccessRules.BuildGatewayAccessRules` | api/internal/http/router_handlers_gateway.go:1520-1621 | the three loops ship inventory cards, passes whose UID is not covered, and the mobile keys the credential service hands over for the computed lock lists, all stamped to end 72 hours after the list was built; nothing without bound doors |
| `AccessRules.InventorySpeaks` | api/internal/http/router_handlers_gateway.go:1540-1573 | scanning the shipped inventory rules finds the first user with access who was given a card with the UID |
| `AccessRules.CoveredIsShadowed` | api/internal/http/router_handlers_gateway.go:1584-1594 | a pass whose UID an earlier rule has would never have been reached, so leaving it out changes no decision |
| `AccessRules.PassesSpeak` | api/internal/http/router_handlers_gateway.go:1575-1604 | scanning inventory and pass rules finds the holder among inventory and all passes, covered ones included |
| `AccessRules.EdgeNeverExceedsCloud` | api/internal/http/router_handlers_gateway.go:1520-1708 | for all users, cards, clocks and lifetimes, an allow of the edge on a card's UID is for a user to whom a card with it was given by an active pass, and for a bound door that the cloud's relation opens to that user |
| `AccessRules.OtherKindsNeverExceedCloud` | api/internal/http/router_handlers_gateway.go:1553-1617 | an allow on a card number, or on a key presented as data, is for a bound door that the cloud's relation gives to a user who was issued that number or key |
| `AccessRules.NumbersAgree` | api/internal/http/router_handlers_gateway.go:1563-1572 | with folded card numbers that belong to one user each, the edge opens a door to a number exactly when it was given to a user to whom the cloud's relation opens the door |
| `AccessRules.NoOtherKind` | api/cmd/gateway-agent/agent.go:691-728 | a credential of any kind but the three that are shipped is never allowed |
| `AccessRules.EdgeIsCloud` | api/cmd/gateway-agent/agent.go:691-728 | while fresh, the edge agrees with the cloud on every door if and only if the first user with the UID opens all that later ones open |
| `AccessRules.SharedCardExample` | api/internal/http/router_handlers_gateway.go:1575-1604 | two active passes with one UID: the edge keeps the second user's door shut although the cloud's relation opens it |
| `AccessRules.DistinctCardsAgree` | api/cmd/gateway-agent/agent.go:691-728 | with folded UIDs that belong to one user each, the edge allows exactly what the cloud's relation gives |
| `AccessRules.PushedRulesAgree` | api/cmd/gateway-agent/agent.go:402-406 | end to end: after any run of updates that ends with a push of the shipped list, and until the cache is older than its lifetime or the clock passes the stamp, the agent's decisions on cards are the cloud's |
| `AccessRules.NothingOpensAfterThreeDays` | api/internal/http/router_handlers_gateway.go:1529-1537 | whatever the cache lifetime, once the clock is more than 72 hours past the building of the list it opens nothing for any credential |
| `AccessRules.CardRulesListBoundDoors` | api/internal/http/router_handlers_gateway.go:1553-1604 | every card rule lists its locks strictly sorted, all bound to the gateway and open to its user |
| `AccessRules.KeyRulesListOpenDoors` | api/internal/http/router_handlers_gateway.go:1606-1617 | every key rule belongs to an active credential and lists at least one lock, all bound and open to its user, and with distinct user ids all of these |
| `AccessRules.KeyIsShipped` | api/internal/http/router_handlers_gateway.go:1606-1617 | a key is shipped if and only if its credential is active and its user may open at least one of the gateway's doors |
| `AccessRules.DecisionAddressed` | api/internal/http/router_handlers_gateway.go:1553-1617 | a shipped card rule, and so a decision by it, carries the address of the first user with its id, a key rule the address its credential was issued with |
| `CredentialSync.BuildGatewayCredentialSync` | api/internal/modules/credential/service.go:433-464 | the nested loops hand over the active credentials whose user may open one of the gateway's locks |
| `CredentialSync.ListActiveCredentials` | api/internal/modules/credential/service.go:191-203 | the loop keeps the active, unexpired credentials in order |
| `CredentialSync.SyncHandsOver` | api/internal/modules/credential/service.go:433-464 | an entry is handed over if and only if it has the key of an active credential and exactly the locks of the gateway that its user may open, at least one |
| `EdgeRules.FirstMatchIsFirst` | api/cmd/gateway-agent/agent.go:706-726 | the deciding rule matches and no rule before it does; without one no rule matches |
| `EdgeRules.MergeOverrides` | api/cmd/gateway-agent/ws_client.go:280-303 | an incremental push is an override of a keyed list: positions stay, the first rule of a key takes the last value pushed for it, missing keys follow in order of first appearance |
| `EdgeRules.MergeKeepsDistinct` | api/cmd/gateway-agent/ws_client.go:280-303 | a list without duplicate keys stays one |
| `EdgeRules.HoldsTheLatest` | api/cmd/gateway-agent/ws_client.go:280-329 | after any run of updates a scan for a key reaches exactly the value in force: the one pushed last since the last full replacement, else that replacement's |
| `EdgeRules.HoldsNothingElse` | api/cmd/gateway-agent/ws_client.go:280-329 | when full lists have no duplicate keys the agent never holds a key twice, and holds the values in force and nothing else |
| `EdgeRules.TimeOfLatest` | api/cmd/gateway-agent/agent.go:402-406 | the recorded time is that of the latest update, and without an update there are no rules |
| `EdgeRules.AllowIsBacked` | api/cmd/gateway-agent/agent.go:691-728 | over any run, an allow comes within the lifetime of the latest update and from a rule that is the value in force for its key, matches, names the lock, and whose end, if it parses, the clock has not passed |
| `EdgeRules.AllowExactly` | api/cmd/gateway-agent/agent.go:691-728 | when one rule in force matches the credential, allow holds exactly when the cache is not past its lifetime, the clock not past the rule's end, and the rule names the lock |
| `EdgeRules.DecisionNames` | api/cmd/gateway-agent/agent.go:691-728 | allowed or denied, the decision names user and address of the first matching rule; with no match or an outlived cache it denies and names nobody |
| `Agent.Agent.ReplaceRules` | api/cmd/gateway-agent/ws_client.go:325-329 | a pull or config push adds one full update to the run the state stands for |
| `Agent.Agent.HandleCredentialPush` | api/cmd/gateway-agent/ws_client.go:273-311 | the in-place merge loops add one full or incremental update to the run the state stands for |
| `Agent.Agent.VerifyCredential` | api/cmd/gateway-agent/agent.go:691-728 | the early-return scan gives the decision of the run so far |
| `Agent.Agent.VerifyAuthResponseV2` | api/cmd/gateway-agent/agent.go:789-873 | granted exactly when long enough, fresh, for this gateway, signed by an unexpired key the agent holds and with a nonce not remembered; only a grant is recorded; and which check each refusal stands for |
| `Agent.Agent.CheckSignature` | api/cmd/gateway-agent/agent.go:817-864 | unknown user exactly without an unexpired key of the user's in the list, granted exactly when one of them verifies |
| `Agent.SignedByKeyInForce` | api/cmd/gateway-agent/agent.go:825-864 | when full lists have no duplicate keys, a signature counts exactly when a key in force verifies it, so a revoked or replaced key verifies nothing |
| `Agent.ChallengeBoundToGateway` | api/cmd/gateway-agent/agent.go:809-815 | an issued challenge passes the gateway check of the gateway it was issued for and of no other |
| `Readers.BleReader.HandleSession` | api/cmd/gateway-agent/ble_reader.go:106-175 | one session calls the relay exactly when the answer is accepted, for the reader's door, and the nonce history grows accordingly |
| `Readers.HceReader.HandleOnce` | api/cmd/gateway-agent/nfc_hce_reader.go:64-125 | the same for a card presentation, but for the same user within the cooldown |
| `Readers.GrantHasAccess` | api/cmd/gateway-agent/agent.go:789-873 | over any run that ends in a shipped list, an accepted answer verifies under a key of an active credential of the user, comes within the lifetimes, and the user may open some bound door |
| `Readers.KeyHoldersAreLetIn` | api/cmd/gateway-agent/agent.go:789-873 | a fresh challenge lets a user in if and only if they hold an active credential and may open some door of the gateway; the reader's door plays no part |
| `Readers.SignedGrantsWithin` | api/cmd/gateway-agent/agent.go:789-873 | a reader's grants stay within the cloud's relation if and only if every key holder of the gateway may open its door |
| `Readers.WrongDoorExample` | api/cmd/gateway-agent/ble_reader.go:149-155 | a user with a role at the lab only is let in by a reader at the store |
| `Readers.NoWiegandCardOpens` | api/cmd/gateway-agent/wiegand_reader.go:110-122 | after any run that ends in a shipped list, no card the Wiegand reader reports opens any door |
| `NonceCache.Cache.Contains` | api/cmd/gateway-agent/nonce_cache.go:33-42 | present exactly when among the last insertions up to capacity and not past its lifetime |
| `NonceCache.Cache.Add` | api/cmd/gateway-agent/nonce_cache.go:44-68 | the history grows by the insertion unless the key is still held |
| `NonceCache.Cache.DropOldest` | api/cmd/gateway-agent/nonce_cache.go:57-62 | one turn of an eviction loop takes the oldest entry from map and slice and keeps both in step with the history |
| `NonceCache.HeldIsRemembered` | api/cmd/gateway-agent/nonce_cache.go:33-42 | after eviction, being in the map and being remembered by the history are the same |
| `NonceCache.SortedByExpiry` | api/cmd/gateway-agent/nonce_cache.go:70-80 | the slice is sorted by expiry, so expired entries are all at its front |
| `NonceCache.HistoryGrows` | api/cmd/gateway-agent/agent.go:804-869 | over any run of verifications the history grows by exactly the grants |
| `NonceCache.GrantedAtMostOnce` | api/cmd/gateway-agent/agent.go:804-869 | a nonce is granted twice only after its lifetime, or after at least capacity many grants since |
| `EventQueue.Queue.QueueEvent` | api/cmd/gateway-agent/agent.go:527-551 | the fields follow the step that drops the oldest excess and appends |
| `EventQueue.Queue.LockStateChanged` | api/cmd/gateway-agent/agent.go:156-165 | the fields follow the step that appends unchecked |
| `EventQueue.Queue.TakeBatch` | api/cmd/gateway-agent/agent.go:553-592 | the fields follow the tick: count the backoff down, or take the oldest events up to a batch |
| `EventQueue.Queue.PushSucceeded` | api/cmd/gateway-agent/agent.go:646-671 | the fields follow the step that delivers the batch and reports the drops |
| `EventQueue.Queue.PushFailed` | api/cmd/gateway-agent/agent.go:611-643 | the fields follow the step that puts the batch back in front |
| `EventQueue.EnqueueKeepsNewest` | api/cmd/gateway-agent/agent.go:527-551 | after a checked append the queue is the newest events up to the maximum with the new one last, and only the oldest excess is dropped: nothing while there is room |
| `EventQueue.TickTakesOldest` | api/cmd/gateway-agent/agent.go:570-580 | a tick that sends takes the oldest events, all of them up to 200, and leaves the rest in order |
| `EventQueue.StepKeepsInv` | api/cmd/gateway-agent/agent.go:527-671 | every step of producers, ticks and sends keeps conservation, order and bounds |
| `EventQueue.EachEventOnce` | api/cmd/gateway-agent/agent.go:527-671 | over every interleaving each enqueued event is in exactly one of sent, in flight, queued and dropped, once |
| `EventQueue.DeliveryKeepsOrder` | api/cmd/gateway-agent/agent.go:527-671 | sent, in flight and queued, in this order, are in enqueue order |
| `EventQueue.QueueBound` | api/cmd/gateway-agent/agent.go:527-551 | with queueEvent as the only producer the queue never exceeds its maximum by more than a batch |
| `EventQueue.QueueBoundReached` | api/cmd/gateway-agent/agent.go:611-643 | some run reaches that bound |
| `EventQueue.LockStateUnbounded` | api/cmd/gateway-agent/agent.go:156-165 | the lock-state callback alone makes the queue as long as one likes |
| `EventQueue.BackoffNeverGrows` | api/cmd/gateway-agent/agent.go:560-643 | every failure finds the backoff zero, so the wait after it is always the first one |
| `EventQueue.LadderIsRetrySchedule` | api/cmd/gateway-agent/agent.go:627-634 | failures without a tick between them would climb the server's own retry schedule from ten seconds to five minutes; by the row above no run does |
| `EventQueue.RetriedOnSecondTick` | api/cmd/gateway-agent/agent.go:553-592 | after any failure, whatever producers do, the first tick waits and the second sends |
| `EventQueue.AttemptedWithinTwoTicks` | api/cmd/gateway-agent/agent.go:553-592 | an idle loop with something queued attempts within two ticks |
| `EventQueue.OfflineSinceFirstFailure` | api/cmd/gateway-agent/agent.go:611-656 | over any run the recorded time of going offline is that of the first failed send since the last successful one |
| `OsdpCrc.OsdpCrc16` | api/cmd/gateway-agent/osdp_relay.go:132-147 | the byte and bit loops compute the specified register |
| `OsdpCrc.CrcIsBitSerial` | api/cmd/gateway-agent/osdp_relay.go:132-147 | adding whole bytes at the top is feeding the message bit by bit |
| `OsdpCrc.CrcIsTheRemainder` | api/cmd/gateway-agent/osdp_relay.go:132-147 | the checksum is the remainder, and the only one, of the preset message on division by the generator over GF(2) |
| `OsdpCrc.CrcAffine` | api/cmd/gateway-agent/osdp_relay.go:132-147 | for equal lengths the checksum is affine over exclusive-or |
| `OsdpCrc.CrcInjectiveInRegister` | api/cmd/gateway-agent/osdp_relay.go:132-147 | any data maps different registers to different registers |
| `OsdpCrc.BurstDetected` | api/cmd/gateway-agent/osdp_relay.go:132-147 | every error burst of at most 16 bits in a message of any length changes the remainder |
| `OsdpCrc.TwoByteErrorDetected` | api/cmd/gateway-agent/osdp_relay.go:132-147 | changing one byte or two adjacent bytes always changes the checksum |
| `OsdpCrc.OddErrorDetected` | api/cmd/gateway-agent/osdp_relay.go:132-147 | flipping an odd number of bits always changes the checksum |
| `OsdpPacket.OsdpRelay.BuildPacket` | api/cmd/gateway-agent/osdp_relay.go:104-124 | appending field by field gives the packet of sender, sequence number, command and data |
| `OsdpPacket.OsdpRelay.SendCommand` | api/cmd/gateway-agent/osdp_relay.go:81-102 | the sequence number moves on modulo four exactly after a successful write |
| `OsdpPacket.PacketParsesBack` | api/cmd/gateway-agent/osdp_relay.go:104-130 | a built packet parses back to its fields if and only if its length fits 16 bits, and is refused otherwise |
| `OsdpPacket.DamageDetected` | api/cmd/gateway-agent/osdp_relay.go:104-147 | a receiver refuses every packet with one or two adjacent bytes changed, with exactly one exception |
| `OsdpPacket.DamageUnnoticed` | api/cmd/gateway-agent/osdp_relay.go:104-147 | every packet that fits can be damaged by the one pair of changes, is accepted then, and reads as another command or with other data |
| `OsdpPacket.OnlyEntryInLowByte` | api/cmd/gateway-agent/osdp_relay.go:134-147 | one non-zero checksum table entry lies in the low byte, that of 0x89 |
| `RateLimiter.NewLimiters` | api/internal/http/router.go:232-248 | the four sets of constants keep buckets at least as long as windows, so each limiter starts valid and empty |
| `RateLimiter.Limiter.Allow` | api/internal/http/router_middleware.go:238-277 | as long as nothing was purged, lazy compaction included, the decision and the wait are those of the limiter that never forgets |
| `RateLimiter.Limiter.Compact` | api/internal/http/router_middleware.go:279-300 | only buckets past their lifetime go while the map fits |
| `RateLimiter.CompactionHolds` | api/internal/http/router_middleware.go:279-300 | after compaction a missing bucket is one whose lifetime is over |
| `RateLimiter.ForgottenIsOver` | api/internal/http/router_middleware.go:238-277 | a bucket past its lifetime decides as no bucket would |
| `RateLimiter.AtMostMaxPerWindow` | api/internal/http/router_middleware.go:238-277 | within a bucket's window the admissions are its count and at most the maximum |
| `RateLimiter.AtMostTwiceMax` | api/internal/http/router_middleware.go:238-277 | in any closed interval of a window's length a key is admitted at most twice the maximum |
| `RateLimiter.RefusedExactlyAtMaximum` | api/internal/http/router_middleware.go:238-277 | over any run an attempt is refused, and told to wait, if and only if its key's window is open and exactly the maximum has been admitted in it |
| `RateLimiter.FirstOnesAreAdmitted` | api/internal/http/router_middleware.go:238-277 | after an idle window the first attempts up to the maximum are admitted and the later ones of that window are not |
| `RateLimiter.DeniedUntilWindowEnds` | api/internal/http/router_middleware.go:238-277 | a denied key is admitted again exactly from the end of its window, after the returned wait or the second it is rounded up to |
| `RequestNonce.NonceMap.Validate` | api/internal/http/router_middleware.go:1245-1317 | outcome and map are those of the specification, error paths included |
| `RequestNonce.MapIsHistory` | api/internal/http/router_middleware.go:1289-1317 | deletions and all, a key is held and unexpired exactly when accepted within the window |
| `RequestNonce.RefusedExactlyWhenRecent` | api/internal/http/router_middleware.go:1289-1317 | a request that reaches the nonce check is a duplicate exactly when accepted within the window |
| `RequestNonce.OutcomeMeans` | api/internal/http/router_middleware.go:1245-1317 | each outcome if and only if headers, timestamp and the five-minute window are as it says; in particular a request without headers passes unchecked exactly when nonces are not required |
| `RequestNonce.AcceptancesFarApart` | api/internal/http/router_middleware.go:1245-1317 | two acceptances of one key are more than the window apart |
| `RequestNonce.KeysTellApart` | api/internal/http/router_middleware.go:1289-1317 | for gateway ids as they are generated, or any without a colon, a key stands for one gateway and one nonce |
| `RequestNonce.GeneratedHasNoColon` | api/internal/modules/gateway/service.go:2119-2125 | generated gateway ids have no colon |
| `RequestNonce.AcceptedAtMostOnce` | api/internal/http/router_middleware.go:1245-1317 | a request not ahead of the clock at first acceptance is accepted once in any run |
| `RequestNonce.SecondAcceptance` | api/internal/http/router_middleware.go:1245-1317 | a second acceptance is possible if and only if the timestamp was ahead of the clock |
| `Relay.GpioRelay.BeginUnlock` | api/cmd/gateway-agent/relay.go:79-84 | the write that opens the door, before the timer is replaced |
| `Relay.GpioRelay.FinishUnlock` | api/cmd/gateway-agent/relay.go:86-101 | the old timer is stopped and a new one armed |
| `Relay.GpioRelay.Callback` | api/cmd/gateway-agent/relay.go:92-99 | a fired timer writes the lock |
| `Relay.GpioRelay.BeginClose` | api/cmd/gateway-agent/relay.go:103-109 | Close stops the timer before it writes |
| `Relay.GpioRelay.FinishClose` | api/cmd/gateway-agent/relay.go:103-114 | Close writes the lock after stopping the timer |
| `Relay.AtMostOneArmed` | api/cmd/gateway-agent/relay.go:79-114 | in every interleaving at most one timer is armed, the one in the field |
| `Relay.CallsAccountedFor` | api/cmd/gateway-agent/relay.go:79-114 | over any interleaving every Unlock that wrote has its timer or is about to arm one, and the Close calls under way are those begun less at most the writes |
| `Relay.NeverStuck` | api/cmd/gateway-agent/relay.go:79-114 | in every interleaving with successful locking writes, an open door has a relock armed, fired, or about to be armed |
| `Relay.FailureStrands` | api/cmd/gateway-agent/relay.go:92-114 | a step strands an open door if and only if it is the failed write of the only pending relock or Close |
| `Relay.StrandedReachably` | api/cmd/gateway-agent/relay.go:79-101 | one unlock whose callback fails to write leaves the door open with no timer armed or fired and no call under way |
| `Relay.StuckStays` | api/cmd/gateway-agent/relay.go:79-114 | a stuck door stays as it is in every run without the write of another Unlock or a call of Close |
| `Relay.LockedStaysLocked` | api/cmd/gateway-agent/relay.go:79-114 | a locked door stays locked until an Unlock writes |
| `Relay.CloseLeavesLocked` | api/cmd/gateway-agent/relay.go:103-114 | a Close that wrote leaves the door locked while no Unlock writes |
| `Relay.UnlockLastsUnlessOvertaken` | api/cmd/gateway-agent/relay.go:79-101 | an armed unlock lasts in every run in which no timer fires and no Close is called (Unlock calls, callbacks of fired timers and writes of Close calls under way may come) if and only if no timer had fired with its write to come and no Close was about to write |
| `Relay.OvertakenReachably` | api/cmd/gateway-agent/relay.go:79-114 | both ways of being overtaken are reached from the start |
| `Backoff.Normalize` | api/internal/retrybackoff/backoff.go:5-16 | no base means no delays, and the ceiling is never below the base |
| `Backoff.Exponential` | api/internal/retrybackoff/backoff.go:18-38 | in 64-bit arithmetic, without overflow, base times two to the attempt less one, capped |
| `Backoff.DelayMonotone` | api/internal/retrybackoff/backoff.go:18-38 | delays never shrink with the attempt, stay between base and ceiling, and reach the ceiling |
| `Backoff.DelayDoubles` | api/internal/retrybackoff/backoff.go:18-38 | the first wait is the base, each next one is twice the one before up to the ceiling, and there is none without an attempt or a base |
| `Wiegand.CheckEvenParity` | api/cmd/gateway-agent/wiegand_reader.go:43-52 | the counting loop decides whether the number of set bits is even |
| `Wiegand.BitsToUint` | api/cmd/gateway-agent/wiegand_reader.go:61-67 | the 32-bit accumulator holds the value of the bits modulo 2^32, and their value for up to 32 bits |
| `Wiegand.DecodesWhatWasEncoded` | api/cmd/gateway-agent/wiegand_reader.go:73-126 | every card that fits a format is read back from the frame built for it |
| `Wiegand.EncodesWhatWasDecoded` | api/cmd/gateway-agent/wiegand_reader.go:73-126 | every accepted frame is the frame built for the card it decodes to; with the row above a bijection |
| `Wiegand.OddErrorsRejected` | api/cmd/gateway-agent/wiegand_reader.go:73-126 | a frame at odd distance from an accepted one is rejected |
| `Wiegand.ReadLoop.OnBit` | api/cmd/gateway-agent/wiegand_reader.go:233-240 | the collected bits are those heard since the last frame end |
| `Wiegand.ReadLoop.OnTimer` | api/cmd/gateway-agent/wiegand_reader.go:241-263 | the callbacks are those of the run: one per frame end whose bits decode |
| `Wiegand.BitArrives` | api/cmd/gateway-agent/wiegand_reader.go:233-240 | a bit is heard exactly outside the debounce window of the last callback |
| `Wiegand.TimerFires` | api/cmd/gateway-agent/wiegand_reader.go:241-263 | a frame end reports exactly the bits heard since the one before, if they decode |
| `Wiegand.NothingHeard` | api/cmd/gateway-agent/wiegand_reader.go:245-248 | no bits are ever collected when a frame ends inside the debounce window |
| `Wiegand.ReportsSpaced` | api/cmd/gateway-agent/wiegand_reader.go:219-263 | over any run callbacks are at least two seconds apart |
| `Wiegand.ReportsDecode` | api/cmd/gateway-agent/wiegand_reader.go:250-258 | each callback carries the card its frame decodes to |
| `Codecs.EncodeChallenge` | api/cmd/gateway-agent/ble_protocol.go:220-227 | filling the buffer with copies and fixed-width numbers gives the 52-byte layout |
| `Codecs.ChallengeRoundTrip` | api/cmd/gateway-agent/ble_protocol.go:220-246 | decoding gives back every encoded challenge, negative times included |
| `Codecs.ChallengeBytesRoundTrip` | api/cmd/gateway-agent/ble_protocol.go:230-246 | exactly the 52-byte strings decode, and each is the encoding of its result |
| `Codecs.AuthResponseRoundTrip` | api/cmd/gateway-agent/ble_protocol.go:111-141 | an encoded response reads back if and only if the user id has 1 to 255 bytes and the signature is not empty |
| `Codecs.AuthBytesRoundTrip` | api/cmd/gateway-agent/ble_protocol.go:111-133 | every accepted byte string is the encoding of what was read |
| `Codecs.ParsersAgree` | api/cmd/gateway-agent/nfc_protocol.go:53-71 | when the NFC parser accepts, in terms of the BLE parser, and that they agree where both accept |
| `Codecs.AuthenticateCarriesChallenge` | api/cmd/gateway-agent/nfc_protocol.go:22-37 | a card reads from the command exactly the challenge issued |
| `Codecs.OnlyChallengesAreSent` | api/cmd/gateway-agent/nfc_protocol.go:22-37 | an AUTHENTICATE command is built for encoded challenges and for nothing else |
| `Codecs.ResponseReads` | api/cmd/gateway-agent/nfc_protocol.go:42-49 | data and status word are read if and only if the response is one appended to the other |
| `Codecs.SignedMessageInjective` | api/cmd/gateway-agent/ble_protocol.go:257-268 | for the two transports the signed bytes determine nonce, user and transport |
| `Vault.NewVaultWithRotation` | api/internal/crypto/vault.go:65-98 | the loop numbers the previous masters by position, skips blank ones, and puts the current one last; without a current master there is no vault |
| `Vault.AtoiReads` | api/internal/crypto/vault.go:170-180 | a written version number reads back as itself |
| `Vault.AtoiSigns` | api/internal/crypto/vault.go:170-180 | digits read as their value with or without a plus sign and as its negative with a minus sign, up to what fits 64 bits |
| `Vault.TaggedSplits` | api/internal/crypto/vault.go:143-180 | the colon-separated text splits into the fields it was written from |
| `Vault.DecryptsWhatItHasKeysFor` | api/internal/crypto/vault.go:121-195 | whatever its tag, a value decrypts if and only if the vault knows the key that sealed it, to the sealed plaintext, in any order of trying keys |
| `Vault.UnversionedDecrypts` | api/internal/crypto/vault.go:188-191 | text with nonce and ciphertext only decrypts under the same condition and is due for re-encryption |
| `Vault.EncryptThenDecrypt` | api/internal/crypto/vault.go:143-195 | a vault reads back everything it encrypts |
| `Vault.NeedsReEncryptByVersion` | api/internal/crypto/vault.go:197-217 | an encrypted value needs re-encryption if and only if its version is not the vault's |
| `Vault.ReEncryptPreserves` | api/internal/crypto/vault.go:220-232 | re-encrypting keeps the plaintext, brings the value up to date, and fails only on what does not decrypt |
| `Vault.PlainTextMigrates` | api/internal/crypto/vault.go:158-232 | text that was never encrypted reads as itself, is due unless blank, and after re-encryption reads the same and is no longer due |
| `Vault.TaggedJunkIsRefused` | api/internal/crypto/vault.go:158-232 | tagged text without fields never decrypts, stays due and cannot be re-encrypted |
| `Vault.RotationChain` | api/internal/crypto/vault.go:65-98 | when each rotation passes all earlier masters, a version names one key for ever, earlier values decrypt, and exactly they are due for re-encryption |
| `Batch.ProcessEvents` | api/internal/http/router_handlers_gateway.go:536-684 | the loop's counters, results, retry list and store are those of the events' outcomes |
| `Batch.ForcedAtFirstReadable` | api/internal/http/router_handlers_gateway.go:1372-1395 | with the switch on, an id fails on purpose exactly at its first readable upload |
| `Batch.OutcomeMeans` | api/internal/http/router_handlers_gateway.go:536-646 | not retryable exactly when the time does not parse, a duplicate exactly when stored before under key or id, created exactly when new and the environment delivers |
| `Batch.BooksBalance` | api/internal/http/router_handlers_gateway.go:809-875 | received is created plus deduplicated plus failed, every index has one result in order, and the retry subset selects by strictly increasing positions exactly the retryable failures |
| `Batch.StoreGrowsByCreated` | api/internal/modules/event/service.go:238-304 | the store grows by the created events and those a failing disk left unreported |
| `Batch.WorkingDiskReports` | api/internal/modules/event/service.go:298-304 | with a working disk there are none of the latter |
| `Batch.IngestStores` | api/internal/modules/event/service.go:238-304 | the row stored carries the event's own id, or the random one if it has none, and the first non-blank of idempotency key, request id and event id as its key; a duplicate is reported with the newest stored row of that key, else of that id |
| `Batch.KeysStayDistinct` | api/internal/modules/event/service.go:270-276 | whatever is uploaded, no idempotency key is stored twice |
| `Batch.AcceptedIsKnown` | api/internal/modules/event/service.go:268-304 | an accepted event with any identity is stored from then on |
| `Batch.SeenIsAccepted` | api/internal/http/router_handlers_gateway.go:1372-1395 | an id that was forced to fail once is accepted when it comes again |
| `Batch.ReplayEmptiesRetrySubset` | api/internal/http/router_handlers_gateway.go:528-875 | if only forced failures occurred, replaying the retry subset at any later time fails nowhere |
| `Batch.ReplayStoresEverything` | api/internal/http/router_handlers_gateway.go:528-875 | after that replay every readable event with an identity is stored |
| `Checkpoints.Server.PostBatch` | api/internal/http/router_handlers_gateway.go:504-875 | state and response of an upload: both lists share the forced ids, totals grow by what was created, the reported total is the recorded one, else the stored events for the default queue, else zero; sizes out of range are refused |
| `Checkpoints.Server.PostCheckpoint` | api/internal/http/router_handlers_gateway.go:906-975 | verdict and watermark of a report, in the order of the checks |
| `Checkpoints.Server.Upsert` | api/internal/modules/gateway/service.go:1358-1437 | refuses missing ids, negative counts and regressions, else records |
| `Checkpoints.HintIsTruthful` | api/internal/http/router_handlers_gateway.go:1260-1278 | the hint acknowledges what was accepted, asks for a replay exactly when something can be retried, and for a checkpoint exactly when nothing failed |
| `Checkpoints.VerdictMeans` | api/internal/http/router_handlers_gateway.go:906-975 | each verdict if and only if count, time, id and watermark are as it says, for the queue of the trimmed name, a blank one being the default queue; only a recorded report changes anything |
| `Checkpoints.ResponseNames` | api/internal/http/router_handlers_gateway.go:1260-1278 | status code and next action for each of the three cases: something to retry, failures that cannot be, no failures |
| `Checkpoints.TotalIsCreated` | api/internal/modules/gateway/service.go:1578-1632 | over any run a queue's total grows by exactly the events created in it |
| `Checkpoints.UploadStores` | api/internal/http/router_handlers_gateway.go:528-684 | access events go to the one store and device events to the other: neither loses anything, every accepted event with an identity is in its own, and with a working disk each grows by its created events |
| `Checkpoints.ForcedOncePerUpload` | api/internal/http/router_handlers_gateway.go:1372-1395 | with a working store a readable device event fails if and only if its id is one to be forced that came neither before the upload, nor in a readable access event of it, nor in an earlier readable device event |
| `Checkpoints.WatermarksRise` | api/internal/modules/gateway/service.go:1412-1431 | checkpoints and totals never fall |
| `Checkpoints.StepKeepsWithin` | api/internal/http/router_handlers_gateway.go:930-963 | a step keeps a queue's checkpoint within its total unless and only unless it is a well-formed report, high enough and for the default queue within the stored events, of a queue that has no total yet |
| `Checkpoints.CheckpointsWithinTotals` | api/internal/http/router_handlers_gateway.go:906-963 | so over any run in which no queue is reported before its first total every checkpoint is within the total |
| `Checkpoints.HintFits` | api/internal/http/router_handlers_gateway.go:869-870 | whatever checkpoint and total were, following the hint is recorded if and only if the previous checkpoint and the duplicates fit under the total before the batch, or, for a queue that gets none, under the stored events in the default queue and always elsewhere; else it exceeds the total |
| `Checkpoints.HintOvershootsExample` | api/internal/http/router_handlers_gateway.go:869-870 | a stored event uploaded again at a watermark equal to the total: following the hint is refused |
| `Checkpoints.StrandedTakesNoReport` | api/internal/http/router_handlers_gateway.go:930-975 | a queue takes no report at all if and only if it is stranded |
| `Checkpoints.StrandedUntilCaughtUp` | api/internal/http/router_handlers_gateway.go:930-975 | over any run a queue with a total is stranded exactly while the events created since do not make up for what its checkpoint was ahead |
| `Checkpoints.FirstTotalStrands` | api/internal/http/router_handlers_gateway.go:938-963 | the first total strands a checkpoint accepted before it if and only if that is past the events the upload creates |
| `Checkpoints.FallbackStrandsExample` | api/internal/http/router_handlers_gateway.go:938-963 | two stored events acknowledged, one more created: watermark two, total one, stranded |
| `HrisQueue.Worker.ListQueued` | api/internal/http/router_workers_hris.go:104-191 | the claim and fallback loops with their early exits give the specified listing and acknowledgements |
| `HrisQueue.ListingBounded` | api/internal/http/router_workers_hris.go:119-190 | the listing is the first distinct executions of claims and fallback, or of the fallback alone when claiming fails, so at most the batch size, which is at least one, and none twice |
| `HrisQueue.ListedItemsAre` | api/internal/http/router_workers_hris.go:140-190 | a listed item carries a claim that was handed out for its own execution, or comes from the fallback without one |
| `HrisQueue.ListedOrAcknowledged` | api/internal/http/router_workers_hris.go:140-167 | until the list is full every claim is listed or acknowledged, and only one of the two |
| `HrisQueue.FullStays` | api/internal/http/router_workers_hris.go:160-167 | claims behind the one that fills the list are neither |
| `HrisQueue.Worker.RunReceipts` | api/internal/http/router_workers_hris.go:374-494 | the commands sent are those of the items' fates, and the processed count is of those that counted, never more than the items |
| `HrisQueue.Worker.RequeueItem` | api/internal/http/router_workers_hris.go:810-823 | a requeue that does not apply falls back to an enqueue of a queued execution |
| `HrisQueue.ItemSettledOnce` | api/internal/http/router_workers_hris.go:405-493 | each item's claim is settled once, by ack or requeue, unless claiming its execution fails |
| `HrisQueue.ItemSends` | api/internal/http/router_workers_hris.go:405-494 | a settleable claim is requeued if and only if its execution is in cooldown or was requeued, and acknowledged if and only if anything else short of a failed claim happened; an enqueue is sent if and only if the claim was not given back and the execution is a queued one of the worker tick |
| `HrisQueue.RunSends` | api/internal/http/router_workers_hris.go:374-494 | a run sends a command if and only if one of its items does |
| `HrisQueue.ProcessedAre` | api/internal/http/router_workers_hris.go:374-494 | the processed count is the number of items whose execution was claimed and neither in cooldown nor skipped |
| `HrisQueue.TickSettlesEveryClaim` | api/internal/http/router_workers_hris.go:104-494 | over a tick every settleable claim handed out is settled once each time, except where claiming its execution failed, and nothing else is |
| `HrisReconcile.BuildInputs` | api/internal/http/router_workers_hris.go:2759-2828 | the pull, followed for a full snapshot by the deactivations of the missing employees, in stored order |
| `HrisReconcile.DeactivatesTheMissing` | api/internal/http/router_workers_hris.go:2782-2826 | exactly the same-source employees absent from the pull and not already inactive are deactivated, each once |
| `HrisReconcile.MissingMeans` | api/internal/http/router_workers_hris.go:2782-2812 | missing are the employees of the source that neither external id nor, without one, address finds in the pull, unless status and employment status already say they left |
| `HrisReconcile.DeactivationSays` | api/internal/http/router_workers_hris.go:2813-2826 | a deactivation keeps ids, address and profile, says inactive twice, and carries the recorded resign date or else today's |
| `HrisReconcile.DeactivatedYetPulled` | api/internal/http/router_workers_hris.go:2787-2800 | an employee whose address is in the pull is deactivated all the same if and only if the record has an external id the pull lacks |
| `HrisReconcile.DeactivatedYetPulledExample` | api/internal/http/router_workers_hris.go:2787-2800 | a concrete pull that does so |
| `EmployeeSync.SyncEmployees` | api/internal/modules/enterprise/service_employees.go:1017-1300 | the loop over the inputs with its four indexes gives the records that applying each input in turn gives |
| `EmployeeSync.AppliedExactly` | api/internal/modules/enterprise/service_employees.go:1050-1237 | in any store a record is touched if and only if some input, at its turn, passes the guards and is matched to it |
| `EmployeeSync.AllStamped` | api/internal/modules/enterprise/service_employees.go:1133-1282 | whatever is applied, every record is as it was or what an accepted input says, and every new one is what an accepted input says |
| `EmployeeSync.RecordSays` | api/internal/modules/enterprise/service_employees.go:1068-1086 | the record written for an input is active if and only if its employment word, the first non-blank of employment status and status and else active, is none of the five blocking words; and it has the input's trimmed id, folded address, resign date and profile |
| `EmployeeSync.MissingAgain` | api/internal/modules/enterprise/service_employees.go:1017-1300 | after a reconcile, missing again are exactly the missing records that no input was applied to |
| `EmployeeSync.MissingIsTouched` | api/internal/modules/enterprise/service_employees.go:1051-1237 | a missing record whose keys no other shares is touched if and only if its address is not blank and lies in an active domain |
| `EmployeeSync.SecondReconcileAddsNone` | api/internal/http/router_workers_hris.go:2655-2680 | after applying the result a second reconcile of the same pull adds no deactivation if and only if every missing employee has an address in an active domain |
| `EmployeeSync.SyncKeepsUnique` | api/internal/modules/enterprise/service_employees.go:1089-1282 | a sync of any inputs keeps external ids and addresses unique |
| `EmployeeMatching.SyncMatchesPlainly` | api/internal/modules/enterprise/service_employees.go:1089-1282 | over a sync into records with unique keys every input in turn does what looking at the records would: it replaces the one record that shares a key with it unless that has another external id, makes a new record if none does, and changes nothing otherwise or without a deliverable address; so the four indexes, rekeyed all the time, never say more or less than the records |
| `EmployeeRuns.StaysUntouched` | api/internal/modules/enterprise/service_employees.go:1053-1066 | a record with keys of its own whose address is not deliverable, and whose external id no applicable input carries, is still there after a reconcile, unchanged and alone with its keys |
| `EmployeeRuns.DeactivatedOnEveryPull` | api/internal/http/router_workers_hris.go:2655-2680 | over any run of such pulls, with the employee or without, the record stays as it was, so every pull it is missing from deactivates it once more |
| `EmployeeRuns.InactiveDomainExample` | api/internal/http/router_workers_hris.go:2655-2680 | one employee of a domain that was given up, and any number of snapshots that are empty or still list the old address |
| `EmployeeRuns.PulledByAddress` | api/internal/modules/enterprise/service_employees.go:1089-1237 | after a reconcile with a pull that has a record's address but not its external id, the record is what its deactivation says if it was missing and what the pull says if not |
| `EmployeeRuns.ActiveEndsActive` | api/internal/modules/enterprise/service_employees.go:1068-1237 | an employee the pull names by address, and only with active words, ends active |
| `EmployeeRuns.DeactivatedThenBack` | api/internal/modules/enterprise/service_employees.go:1183-1236 | with the same pull over and over, the first reconcile leaves the record with status inactive and its external id, and every later one as the pull says, without the external id, and active again if the pull says so |
| `EmployeeRuns.SharedAddressConflicts` | api/internal/modules/enterprise/service_employees.go:1097-1116 | in any store, of two employees with one address whose external ids are their own, and none of these in the pull, the earlier missing one is untouched and deactivated again |
| `Alerts.Scheduler.Evaluate` | api/internal/http/routes_alert_scheduler.go:51-175 | a tick considers every active policy on exactly the events added since the last, and without active policies leaves them new |
| `Alerts.Scheduler.AppendNotification` | api/internal/http/routes_alert_scheduler.go:196-203 | the stored list stays the newest part of the log |
| `Alerts.NewestShowsTheLast` | api/internal/http/routes_alert_scheduler.go:196-203 | the list is the last 5000 notifications in reverse order of sending |
| `Alerts.EachEventSeenOnce` | api/internal/http/routes_alert_scheduler.go:71-122 | over any run of a list that only grows in front, what evaluations with an active policy were handed, put together, is the list itself, each event once, but for those that came since the last such evaluation; ticks without active policies included |
| `Alerts.SuppressedOnlyInCooldown` | api/internal/http/routes_alert_scheduler.go:173-185 | an event of the policy's tenant, or of none, that matches goes without notification if and only if one with the same key lies within the cooldown |
| `Alerts.EveryMatchIsAnswered` | api/internal/http/routes_alert_scheduler.go:51-194 | after any run, every event of the last tick that an active policy of its tenant, or of none, matches is notified by it, or one with its key was less than the cooldown ago |
| `Alerts.NotificationsAreMeant` | api/internal/http/routes_alert_scheduler.go:51-175 | over any run every notification is by a policy active at some tick for an event handed out at it that the policy matches, and the two never have different non-blank tenants |
| `Alerts.AlertsAreSpaced` | api/internal/http/routes_alert_scheduler.go:127-194 | over any run notifications with one key keep the cooldown's distance |
| `Alerts.SharedCooldown` | api/internal/http/routes_alert_scheduler.go:127-194 | two policies share a cooldown if and only if tenant, id and trigger are the same, for tenants and ids without a colon |

## Left out

- The rate limiter's purge of arbitrary buckets when the map overflows: decisions after it are not claimed, only that it happens exactly on overflow.
- Redis and Postgres stores, HTTP routing and status codes, JSON, logging, metrics, audit entries and certificate handling.
- Two verifications of one nonce at the same time: check and insertion take the lock separately, and only sequential verification is modelled.
- `VerifyCredential` and `VerifyAuthResponseV2` read the clock twice; the model reads it once per check.
- The first BLE protocol version, the OSDP LED, buzzer and timer commands, the RS485, Matter and dry-run relays.
- Cipher, key derivation, base64, signatures, PEM and time parsing, and Unicode case folding are parameters with laws; a vault without a key and a failing random source are not modelled.
- Rotation that passes only some earlier masters: covered by `Vault.DecryptsWhatItHasKeysFor` and `Vault.NeedsReEncryptByVersion`, without a claim that tags keep naming the same key.
- Events delivered over WebSocket and again over HTTP, and HTTP answers the agent takes for success.
- The frame timer of the Wiegand reader may fire at any time in the model; its 50 ms are not.
- A failing disk under the ingest totals and checkpoints; under the event store it is modelled.
- HrisQueue.Worker.ListQueued: the lookup of a claim's execution, with its refresh, and the filter on fallback items are parameters.
- The HRIS runner for dead letters, pull-mode choice and webhook processing itself.
- The employee service's request ids, its roll-back when writing access data fails, the normalising of source names, and its just-in-time sign-in; which domains are active and how case is folded are parameters.
- Alert cooldowns are compared in exact nanoseconds; the source compares floating-point seconds.
- The sorting of users and groups for a gateway: it decides only which of several users with one id comes last.
- The incremental credential sync endpoint, and console input to the agent.
- The NFC SELECT command, which is fixed.
- The JSON field names, and lists, filters, previews, simulators and administration screens.
