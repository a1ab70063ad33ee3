# Variance: verified models of its stateful components

Variance is a peer-to-peer messenger. This project models, in Dafny, the components of it that keep state over long runs,
and proves what those components promise over every run:

- the per-peer, two-level token-bucket **rate limiter**;
- the **MLS group handler**: immediate and deferred membership changes, proposals, message processing, joining, desync
  detection, re-initialisation, export and restore, and what several handlers that exchange messages agree on;
- the **debounced persister** of the MLS state and the **persistence of Olm ratchets** under concurrency;
- the three-layer **identity cache**;
- the **username registry**;
- the aggregate **receipt** status, the **typing** indicators and the group **reactions**.

Each object that the program updates in place is a class here, with the same fields; every method is proved to make exactly
the step of a specification function on values. The theorems are about runs of those steps. `dafny verify dfyconfig.toml`
checks everything.

| files | content |
|---|---|
| `TokenBuckets`, `RateLimiter`, `BucketHistory`, `RateLimits`, `DefaultBudgets` | one bucket; the limiter's tables and class; histories of one bucket; the guarantees over runs; the default budgets per minute |
| `MlsGroups`, `MlsSteps`, `MlsAccounts`, `MlsHandler` | groups and the assumptions on the MLS library; operations on a group and on all a handler holds; the class |
| `MlsReplicas`, `MlsDelivery`, `MlsDeferred` | many handlers on a network; catching up; deferred additions and whom they invite |
| `MlsEffects`, `MlsCommits` | what each membership operation does to the leaves, and what others make of its messages; which commits are handed out |
| `MlsLineage`, `MlsMessages` | where a copy of a group comes from, through restarts; application messages over runs |
| `MlsReinit`, `MlsStranded`, `MlsDesync`, `Hex`, `MlsSnapshots`, `MlsCodecs` | recovery loop, and what it leaves behind; failure counters; snapshots, and that their encodings exist |
| `MlsPersister`, `MlsDebounce`, `Ratchets` | disk catching up with memory, as atomic steps; when and how often the persister writes |
| `IdentityCache`, `CacheRuns` | the layers; coherence, staleness and hits over runs |
| `Decimal`, `Usernames`, `UsernameRuns` | numbers; names, keys and the registry; its two maps over runs |
| `Receipts`, `TypingStore`, `Reactions` | the smaller components |

Clock readings, random draws, fresh secrets, storage encodings and the network are parameters or events. The behaviour of
the MLS library is assumed as RFC 9420 describes it; the assumptions stand at the head of `MlsGroups.dfy`.

## Results of note

Some properties one might expect do not hold. For these the exact condition is proved:

- An answer of the identity cache can be older than the 24 hours of its longest-lived layer, because promotion restarts the
  lifetimes. It is younger than 24 h + 1 h + 5 min, and that bound is reached (`CacheRuns.MaxAgeIsTight`); which earlier
  promotions make a get answer is `CacheRuns.AnswersIff`.
- A handler that lags behind catches up from the messages sent if and only if it made none of the missing commits, none
  removes it, and each was handed out (`MlsDelivery.CatchesUpIff`). `reinitialize_group` hands out none of its commits:
  whoever joined by a Welcome before the last accepts no commit ever sent in that epoch, and cannot reach the final state
  (`MlsStranded.JoinersStranded`).
- A message can be refused by a member in the same epoch whose copy has not decrypted it: exactly when the copy has
  decrypted another one with the same sender and generation (`MlsMessages.RefusedUnopenedIff`). The sender's generations are in the
  saved state, and messages are published before it is scheduled to be saved, so a restarted sender uses them again
  (`MlsMessages.RestartedSenderIsRefused`). While neither copy is restarted or replaced, a message is decrypted unless
  it already was (`MlsMessages.UndisturbedDecryptOnce`).
- A member invited by a deferred addition shares the inviter's history if and only if the inviter confirms before it cancels
  or merges another member's commit (`MlsDeferred.InviteeAgreesIff`).
- `reinitialize_group` reports the members of the new group if and only if each key package used names the member it is
  filed under, or the administrator, or whom an earlier one names (`MlsReinit.ReportIsRightIff`).
- `restore_in_place` on a handler in use leaves memory and store in agreement if and only if every live group is in the
  snapshot.
- `MlsPersister::stop` loses what a stored permit stands for if and only if it arrives during a write or just before the
  loop test, and no flush comes afterwards at a moment when no older snapshot is about to be written
  (`MlsPersister.StopKeepsIff`); a flush during that write is itself written over. The comment in the loop says no
  scheduled persist is dropped. The model follows the code. A stop between the loop test and the wait, with no permit stored,
  leaves the task waiting for ever (`MlsPersister.StoppedTaskEndsIff`).
- An insertion by `init_session_if_needed` replaces a session if and only if, since its check, a first message or a direct
  initialisation of the same peer has inserted one (`Ratchets.InsertionReplacesIff`). A first message inserts without looking
  again, and replaces whatever was inserted since its look (`Ratchets.OutsideInsertionReplacesIff`).
- `cache_mapping` keeps the two maps of the registry inverse if and only if the key is free or already the DID's;
  `register_with_discriminator` if and only if the key is taken (an error) or the DID has no name. The comment on
  `cache_mapping` says that both paths stay consistent; the model follows the code.
- Typing indicators and timers stay together, in all runs over one id besides clean ones, if and only if that id has no
  `::` inside and no colon at its end (`TypingStore.LockStepIffClean`).
- The order of reaction messages is irrelevant to the counts if and only if, of each message, emoji and sender, the latest
  messages agree on being "add" (`Reactions.OrderIrrelevantIff`).
- The comment on `add_member` asks the caller to merge the commit; the code merges it itself, and so does the model. The
  comment on `add_member_deferred` says that encryption is blocked as well while a commit is pending; no code of the
  handler blocks it, and by RFC 9420 only stored proposals do.

## Model

| member | source | states |
|---|---|---|
| TokenBuckets.RefillComposes | crates/variance-p2p/src/rate_limiter.rs:34-39 | refilling at an instant in between makes no difference, despite the cap |
| TokenBuckets.RefundRestores | crates/variance-p2p/src/rate_limiter.rs:237 | giving a taken token back restores exactly the refilled bucket |
| TokenBuckets.TokenBucket.TryConsume | crates/variance-p2p/src/rate_limiter.rs:24-32 | succeeds exactly if the refilled level is at least one token, and then takes one |
| RateLimiter.PeerRateLimiter.constructor | crates/variance-p2p/src/rate_limiter.rs:141-181 | a new limiter: empty tables, the default budgets |
| RateLimiter.PeerRateLimiter.WithGlobalConfig | crates/variance-p2p/src/rate_limiter.rs:184-188 | a new limiter with the given global budget |
| RateLimiter.PeerRateLimiter.SetProtocolConfig | crates/variance-p2p/src/rate_limiter.rs:191-193 | replaces the budget of one protocol; existing buckets keep theirs |
| RateLimiter.PeerRateLimiter.Check | crates/variance-p2p/src/rate_limiter.rs:200-240 | the decision and all five tables after a request, in particular the refund when the global bucket denies |
| RateLimiter.PeerRateLimiter.RemovePeer | crates/variance-p2p/src/rate_limiter.rs:246-255 | the tables after the cleanup through the index |
| RateLimits.IndexAlwaysAgrees | crates/variance-p2p/src/rate_limiter.rs:207-219 | in every run from an empty limiter the bucket table holds exactly the pairs listed in the index, each label once |
| RateLimits.RemovalIsFullScan | crates/variance-p2p/src/rate_limiter.rs:242-255 | removing a peer through the index deletes what a full scan would, and touches no other peer |
| RateLimits.TurnEffect | crates/variance-p2p/src/rate_limiter.rs:200-240 | each event loses a bucket a token exactly if the request is let through; a refund leaves no trace; the denying bucket is the one short of a token |
| BucketHistory.Bound | crates/variance-p2p/src/rate_limiter.rs:24-39 | a bucket with k removals lets through at most (k+1) bursts plus the refill over any window |
| BucketHistory.ShortIffOverdraws | crates/variance-p2p/src/rate_limiter.rs:24-39 | a use is short of a token if and only if, since some use that found the bucket full, one more admission would exceed burst plus refill |
| RateLimits.RateBound | crates/variance-p2p/src/rate_limiter.rs:200-255 | for every interleaving and window, what one budget (peer and protocol, or peer) lets through is at most (k+1) bursts plus the refill |
| RateLimits.ProtocolRateBound | crates/variance-p2p/src/rate_limiter.rs:200-223 | the same with the parameters configured for the protocol |
| RateLimits.GlobalRateBound | crates/variance-p2p/src/rate_limiter.rs:225-239 | the same for a peer summed over all registered protocols, with the global parameters |
| RateLimits.DeniedIffOverBudget | crates/variance-p2p/src/rate_limiter.rs:221-239 | a request is denied by a bucket if and only if, since an earlier check that found it full, one more admission would exceed its budget |
| RateLimits.ReconfiguredBound | crates/variance-p2p/src/rate_limiter.rs:191-193 | a new configuration bounds what every peer without a bucket on the protocol gets from then on |
| RateLimits.ReconfiguredAtOnce | crates/variance-p2p/src/rate_limiter.rs:191-193 | such a peer finds the new burst at once, and buckets that exist decide as before |
| RateLimits.UnregisteredUnlimited | crates/variance-p2p/src/rate_limiter.rs:200-205 | requests on a protocol that is not registered are always allowed and leave no trace |
| DefaultBudgets.DefaultsArePerMinute | crates/variance-p2p/src/rate_limiter.rs:61-66 | exactly the seven listed protocols are limited by default, each with a burst and a refill of its number per 60 s; over all protocols it is 500 |
| DefaultBudgets.MinuteBound | crates/variance-p2p/src/rate_limiter.rs:141-181 | in any minute of any run of a new limiter a peer gets at most 120 direct messages, 40 typing indicators, 60 signalling, 20 identity, 6 offline, 4 rename and 20 group-sync requests, plus one burst per removal |
| DefaultBudgets.MinuteBoundOverAll | crates/variance-p2p/src/rate_limiter.rs:141-181 | and at most 1000 over all of them, plus 500 per removal |
| DefaultBudgets.FullAfterMinute | crates/variance-p2p/src/rate_limiter.rs:34-39 | a default bucket left alone is full again after 60 s; an empty one refills evenly, and is not full before |
| DefaultBudgets.BurstIsAllowed | crates/variance-p2p/src/rate_limiter.rs:200-240 | of the requests a peer makes at once of a new limiter, exactly as many as its budget per minute are allowed before the first denial |
| MlsGroups.ApplyKeeps | crates/variance-messaging/src/mls.rs:280-463 | a valid commit keeps members distinct, the others at their leaves, and puts the added member at its own |
| MlsGroups.ReplayDistinct | crates/variance-messaging/src/mls.rs:615-632 | a valid history never lists a member twice |
| MlsHandler.MlsGroupHandler.constructor | crates/variance-messaging/src/mls.rs:181-226 | a new handler: no groups, the key pair in the store |
| MlsHandler.MlsGroupHandler.GenerateKeyPackage | crates/variance-messaging/src/mls.rs:232-243 | a package of the own identity, its private part in the store |
| MlsHandler.MlsGroupHandler.CreateGroup | crates/variance-messaging/src/mls.rs:250-271 | a group with the local member alone, in epoch 0, replacing one of the same id |
| MlsHandler.MlsGroupHandler.AddMember | crates/variance-messaging/src/mls.rs:280-310 | commit and merge at once, or an error and no change |
| MlsHandler.MlsGroupHandler.AddMemberDeferred | crates/variance-messaging/src/mls.rs:321-352 | the commit stays pending; refused while another one is |
| MlsHandler.MlsGroupHandler.ConfirmAddMember | crates/variance-messaging/src/mls.rs:359-382 | merges the pending commit, or reports that there is none |
| MlsHandler.MlsGroupHandler.CancelAddMember | crates/variance-messaging/src/mls.rs:388-411 | drops the pending commit, or reports that there is none |
| MlsHandler.MlsGroupHandler.RemoveMember | crates/variance-messaging/src/mls.rs:432-463 | commits and merges the removal of a leaf |
| MlsHandler.MlsGroupHandler.FindMemberIndex | crates/variance-messaging/src/mls.rs:468-490 | the first leaf of the member; none if and only if it is not listed |
| MlsHandler.MlsGroupHandler.EncryptMessage | crates/variance-messaging/src/mls.rs:495-510 | an application message of this epoch under the next generation, or an error and no change |
| MlsHandler.MlsGroupHandler.ProcessMessage | crates/variance-messaging/src/mls.rs:516-569 | decrypts an acceptable application message, merges an acceptable commit, stores an acceptable proposal, refuses all else without change |
| MlsHandler.MlsGroupHandler.JoinGroupFromWelcome | crates/variance-messaging/src/mls.rs:576-612 | the group of the Welcome, if the private part of its key package is in the store, which it uses up, and the group is not |
| MlsHandler.MlsGroupHandler.ListMembers | crates/variance-messaging/src/mls.rs:615-632 | the members in leaf order |
| MlsHandler.MlsGroupHandler.LeaveGroup | crates/variance-messaging/src/mls.rs:656-673 | stores and hands out a proposal to remove oneself |
| MlsHandler.MlsGroupHandler.SelfUpdate | crates/variance-messaging/src/mls.rs:683-710 | an own commit that changes no member except by stored proposals, merged at once |
| MlsHandler.MlsGroupHandler.CommitPendingProposals | crates/variance-messaging/src/mls.rs:718-745 | nothing to do without proposals, otherwise a commit of all of them, merged at once |
| MlsHandler.MlsGroupHandler.RemoveGroup | crates/variance-messaging/src/mls.rs:752-764 | the group is gone from memory and from the store |
| MlsEffects.CommitsIff | crates/variance-messaging/src/mls.rs:280-745 | adding, removing, updating and committing proposals succeed if and only if the group is active with nothing pending and the own leaf not proposed, the leaf to remove is occupied and another's, the member to add is not one who stays, there are proposals to commit; then exactly the proposed and the removed leaves are blank, the added member has the leftmost blank one, and every other is as before |
| MlsEffects.MembersAfter | crates/variance-messaging/src/mls.rs:432-463 | the members afterwards are those at leaves that stay, and the one who joins |
| MlsEffects.NoneLeft | crates/variance-messaging/src/mls.rs:718-745 | nobody whose leaf was removed or proposed is listed afterwards, unless by being added again |
| MlsEffects.TouchesOneGroup | crates/variance-messaging/src/mls.rs:280-569 | an operation on one group touches no other group and no key package, and fails for a group the handler does not have |
| MlsEffects.OthersFollow | crates/variance-messaging/src/mls.rs:287-309 | the commit handed out is the one merged: every active other member with the same history and proposals accepts it, then has the committer's new history, tree and epoch, and is active exactly if it was not to leave |
| MlsEffects.InviteesFollow | crates/variance-messaging/src/mls.rs:298-309 | a Welcome is handed out with an addition only, and leads whoever holds its package into the committer's new state |
| MlsEffects.DeferredFollowed | crates/variance-messaging/src/mls.rs:321-382 | the same for a deferred addition and the group after its confirmation |
| MlsEffects.LeaveWorks | crates/variance-messaging/src/mls.rs:656-745 | a leave proposal, stored and committed by another member, removes the leaver, who learns so from the commit |
| MlsCommits.CommitsHandedOut | crates/variance-app/src/event_router/messaging.rs:125-147 | in every run every commit in a member's history was handed out, unless a re-initialisation made it, and so was every pending one |
| MlsCommits.CatchesUpIfFollowing | crates/variance-messaging/src/mls.rs:516-569 | so without re-initialisations a laggard catches up from what was sent if and only if it made none of the missing commits and none removes it |
| MlsReplicas.GeneratedIsUsable | crates/variance-messaging/src/mls.rs:232-243 | the package handed out is of the own identity, and a Welcome made for it is accepted if the group is absent |
| MlsReplicas.ProposalStoredIff | crates/variance-messaging/src/mls.rs:546-554 | a sent leave proposal is stored if and only if the receiver is active, has the same history and is not its sender |
| MlsReplicas.ListIsReplay | crates/variance-messaging/src/mls.rs:516-632 | in every run of any number of handlers, restarts from earlier saved states included, a member list is the replay of the commits merged or inherited, without duplicates, the epoch is their number, and an active handler lists itself |
| MlsReplicas.ReplicasAgree | crates/variance-messaging/src/mls.rs:280-309 | handlers with the same history have the same epoch, the same members at the same leaves, and different own leaves |
| MlsReplicas.CommitProcessedIff | crates/variance-messaging/src/mls.rs:516-569 | a sent commit is processed if and only if the receiver is active, has the committer's history, did not make it, and stored the proposals it refers to; then it has the committer's new history and members |
| MlsReplicas.JoinAgrees | crates/variance-messaging/src/mls.rs:576-612 | a sent Welcome is accepted if and only if the joiner holds its key package and not the group; the joiner then has the history, epoch and members after the commit, and the package is used up |
| MlsMessages.EncryptedInOwnName | crates/variance-messaging/src/mls.rs:495-510 | in every run a message goes out under the leaf of the member who encrypts it |
| MlsLineage.DescendantLater | crates/variance-messaging/src/mls.rs:1065-1128 | whatever descends from a copy, through restarts too, has a longer history, or the same one with no message forgotten and no generation taken back |
| MlsMessages.GenerationReusedOnlyIf | crates/variance-messaging/src/mls.rs:495-510 | a handler encrypts twice under one history and generation only if the copy that encrypts later does not descend from the first encryption: it was restarted or replaced in between |
| MlsMessages.SeenIff | crates/variance-messaging/src/mls.rs:541-545 | in every run a copy remembers a sender and generation if and only if it descends from a decryption of one in the same epoch |
| MlsMessages.ApplicationProcessedIff | crates/variance-messaging/src/mls.rs:541-545 | in every run a sent message is decrypted if and only if the receiver is an active other member with the same history whose copy does not descend from a decryption with the same sender and generation; plaintext and credential are those of the sender |
| MlsMessages.DescentIsUnique | crates/variance-messaging/src/mls.rs:495-510 | a sender each of whose encryptions descends from the one before uses no generation twice |
| MlsMessages.DecryptedOnce | crates/variance-messaging/src/mls.rs:541-545 | a message whose generation is unique is decrypted by an active other member with the same history if and only if the copy does not descend from its decryption |
| MlsMessages.UndisturbedDecryptOnce | crates/variance-messaging/src/mls.rs:495-569 | when neither the sender's copy nor the receiver's is ever replaced or restarted, such a member decrypts a sent message if and only if it has never decrypted it |
| MlsMessages.RefusedUnopenedIff | crates/variance-messaging/src/mls.rs:541-545 | an active other member with the same history whose copy does not descend from a decryption of the message refuses it if and only if the copy descends from the decryption of a different one with the same sender and generation |
| MlsMessages.RestartedSenderIsRefused | crates/variance-app/src/event_router/messaging.rs:740-748 | from any two members ready to exchange a message: one is sent and decrypted, the sender restarts from before it, and its next message is refused |
| MlsMessages.SecondNeverOpened | crates/variance-app/src/event_router/messaging.rs:740-748 | and the copy that refuses it does not descend from a decryption of it |
| MlsReplicas.ForksNeverHeal | crates/variance-messaging/src/mls.rs:292-303 | once two histories have diverged the handlers never agree again until one drops its copy or is restarted |
| MlsDelivery.CatchesUp | crates/variance-messaging/src/mls.rs:516-569 | a replica behind a valid history, neither committing nor removed in the rest of it, reaches it by processing its commits and the proposals they refer to |
| MlsDelivery.CatchesUpIff | crates/variance-messaging/src/mls.rs:516-569 | in every run, re-initialisations and restarts included, a handler behind another one can catch up from the messages sent if and only if it made none of the missing commits, none removes it, and each was handed out |
| MlsStranded.JoinersStranded | crates/variance-messaging/src/mls.rs:919-935 | after a re-initialisation, whatever happens: who joined in epoch k before the last is at leaf k, accepts no commit ever sent, and cannot reach the final state |
| MlsDeferred.PendingBlocks | crates/variance-messaging/src/mls.rs:312-335 | while a commit is pending every other membership operation is refused and changes nothing |
| MlsDeferred.DeferredEqualsImmediate | crates/variance-messaging/src/mls.rs:280-382 | deferred and immediate addition succeed alike, hand out the same messages, and after confirmation leave the same group, whatever was attempted or received in between short of another member's commit |
| MlsDeferred.CancelRestores | crates/variance-messaging/src/mls.rs:384-411 | after cancelling, history, epoch, members and pending commit are as before the addition |
| MlsDeferred.RemoteCommitDiscards | crates/variance-messaging/src/mls.rs:359-411 | another member's commit is merged as if nothing were pending; confirming or cancelling then fails |
| MlsDeferred.NeverTwoPending | crates/variance-messaging/src/mls.rs:334-337 | in every run, between two successful deferred additions to a group the first one was ended |
| MlsDeferred.InviteeAgreesIff | crates/variance-app/src/api/invitations.rs:77-91 | an invited member joins before the addition is confirmed: in every run, while the inviter's copy is neither replaced nor restarted and its secrets are fresh, the history with which the member starts is a beginning of the inviter's later one if and only if the inviter confirmed before it cancelled or merged another member's commit |
| MlsDeferred.AgreeOnlyIfConfirmed | crates/variance-messaging/src/mls.rs:354-411 | otherwise the two never have the same history, whatever both do afterwards |
| MlsHandler.MlsGroupHandler.RecordProcessingFailure | crates/variance-messaging/src/mls.rs:831-855 | the counter afterwards, and the report with count and local epoch |
| MlsHandler.MlsGroupHandler.RecordProcessingSuccess | crates/variance-messaging/src/mls.rs:820-824 | resets the count, not the flag, of a known group |
| MlsHandler.MlsGroupHandler.ClearDesync | crates/variance-messaging/src/mls.rs:866-871 | resets count and flag |
| MlsDesync.FiresOncePerEpisode | crates/variance-messaging/src/mls.rs:831-855 | a failure is reported if and only if it is the first since the last clearing to complete three in a row; the reported count is exactly the threshold |
| MlsDesync.DesyncedIffReported | crates/variance-messaging/src/mls.rs:858-871 | a group is flagged if and only if such a report was made since it was last cleared |
| MlsDesync.CountMeans | crates/variance-messaging/src/mls.rs:820-879 | the count is the number of failures in a row, modulo 2^32 |
| MlsDesync.GroupsIndependent | crates/variance-messaging/src/mls.rs:831-835 | the counter of a group depends on the events of that group alone |
| MlsHandler.MlsGroupHandler.ReinitializeGroup | crates/variance-messaging/src/mls.rs:895-948 | the groups, counters and result after the recovery loop; the old group and its desync flag are gone |
| MlsHandler.DesyncedIffReported | crates/variance-messaging/src/mls.rs:858-863 | the handler calls a group desynced if and only if a report was made since it was last cleared |
| MlsAccounts.Recovery | crates/variance-messaging/src/mls.rs:895-948 | the answer of a re-initialisation: the id of the new group, the members reported and when they are its members, a Welcome for each of the others into the epoch in which it joins; all other groups are as before |
| MlsReinit.ReinitialisedGroup | crates/variance-messaging/src/mls.rs:915-947 | for all members and packages: the members of the new group, those reported, one Welcome for each but the administrator, the epoch their number, the k-th Welcome leading into epoch k of the new history with the first k invited |
| MlsReinit.MatchingInvitesAll | crates/variance-messaging/src/mls.rs:919-941 | with distinct members whose packages name them, both lists are the administrator and all others with a package, in old order |
| MlsReinit.ReportIsRightIff | crates/variance-messaging/src/mls.rs:915-947 | for all members and packages the reported members are those of the new group if and only if each package used names its member, the administrator, or whom an earlier one names |
| Hex.DecodeOfEncode | crates/variance-messaging/src/mls.rs:1039-1042 | decoding undoes encoding for all byte strings |
| Hex.DecodableIff | crates/variance-messaging/src/mls.rs:1071-1085 | exactly the strings of an even number of hex digits decode |
| MlsHandler.MlsGroupHandler.ExportState | crates/variance-messaging/src/mls.rs:1031-1054 | the snapshot lists every store entry and every group once, in any order |
| MlsHandler.MlsGroupHandler.RestoreInPlace | crates/variance-messaging/src/mls.rs:1065-1128 | store, groups and count after a restore; a corrupt snapshot is an error and changes nothing |
| MlsSnapshots.DecodedIsStore | crates/variance-messaging/src/mls.rs:1071-1085 | the rebuilt map is the exported one, whatever the order of the entries |
| MlsCodecs.LawfulCodec | crates/variance-messaging/src/mls.rs:1031-1054 | keys and values can be encoded as the snapshots assume: distinct keys, and groups and key packages that read back |
| MlsSnapshots.CorruptIff | crates/variance-messaging/src/mls.rs:1071-1085 | a restore fails if and only if some entry is no pair of hex strings |
| MlsSnapshots.ReloadedIs | crates/variance-messaging/src/mls.rs:1108-1126 | for any store and list, the groups that can be loaded replace the live ones and are counted, the others are passed over |
| MlsSnapshots.RoundTrip | crates/variance-messaging/src/mls.rs:1031-1128 | restoring into a handler without groups rebuilds the same store, with whatever else is in it, and the same groups, and returns their number |
| MlsSnapshots.WelcomeSurvives | crates/variance-app/src/node.rs:433-448 | a Welcome is acceptable after the restore if and only if it was when the snapshot was taken |
| MlsSnapshots.RestoreInUse | crates/variance-messaging/src/mls.rs:1108-1126 | into a handler in use: the snapshot's groups win, and memory agrees with the store afterwards if and only if no live group is missing from the snapshot |
| MlsHandler.Recover | crates/variance-messaging/src/mls.rs:1031-1128 | export and restore end to end between two handler objects: same store, groups, key packages and acceptable Welcomes |
| MlsPersister.Persister.Schedule | crates/variance-app/src/mls_persister.rs:89-91 | wakes a waiting task, otherwise stores a permit |
| MlsPersister.Persister.Flush | crates/variance-app/src/mls_persister.rs:94-96 | the current version is on disk |
| MlsPersister.Persister.Stop | crates/variance-app/src/mls_persister.rs:99-104 | clears the running flag and wakes a waiting task without storing a permit |
| MlsPersister.Persister.Poll | crates/variance-app/src/mls_persister.rs:68-82 | the next atomic step of the debounce loop |
| MlsPersister.NoLostPersist | crates/variance-app/src/mls_persister.rs:68-91 | in every run before a stop, what was scheduled is on disk, or a permit is stored, or the task will export it or holds it; an idle task has written all of it |
| MlsPersister.StopKeepsIff | crates/variance-app/src/mls_persister.rs:68-104 | when the task has ended, what was scheduled before the stop is on disk if and only if the stop did not fall into one of two moments, or a later flush came when no older snapshot was about to be written |
| MlsPersister.StoppedTaskEndsIff | crates/variance-app/src/mls_persister.rs:68-104 | after a stop the task can end without a further notification if and only if the stop did not fall between the loop test and the wait with no permit stored; there it waits for ever, with all that was scheduled on disk |
| MlsDebounce.WritesAfterQuietWindow | crates/variance-app/src/mls_persister.rs:72-79 | in every run, whenever the task is about to write, its timer has run out over a window in which nobody notified it, begun after every earlier notification was consumed |
| MlsDebounce.WritesFromStart | crates/variance-app/src/mls_persister.rs:68-82 | the writes of the task number at most the times its timer ran out, and at most the calls of `schedule` and `stop` |
| MlsDebounce.BurstIsOneWrite | crates/variance-app/src/mls_persister.rs:72-79 | any number of calls of `schedule` inside one open window lead to no write before the timer runs out, and then to exactly one, of the latest state |
| MlsPersister.DebounceInProgressWrites | crates/variance-app/src/mls_persister.rs:72-79 | a debounce cycle in progress at the stop still writes the current state, and the task ends |
| MlsPersister.StopDuringWriteLosesSchedule | crates/variance-app/src/mls_persister.rs:93-104 | a run in which the version scheduled during a write is not kept, even by a flush |
| Ratchets.DirectMessageHandler.InitSessionIfNeeded | crates/variance-messaging/src/direct.rs:279-299 | an initialisation queues for the lock |
| Ratchets.DirectMessageHandler.UseSession | crates/variance-messaging/src/direct.rs:373-392 | the part of a send or receive under the write lock: an ordinary message that does not decrypt ends the operation, a pre-key message does not |
| Ratchets.DirectMessageHandler.ReceiveFirst | crates/variance-messaging/src/direct.rs:490-544 | a first message finds no session and derives one |
| Ratchets.DirectMessageHandler.Continue | crates/variance-messaging/src/direct.rs:261-273 | the next step of an operation; the read lock is held across the store |
| Ratchets.StoredNeverGoesBack | crates/variance-messaging/src/direct.rs:261-273 | in every interleaving no step replaces a stored pickle by an older session state |
| Ratchets.QuiescentIsStored | crates/variance-messaging/src/direct.rs:373-421 | whenever no operation is in flight the stored pickles are exactly the sessions in memory |
| Ratchets.QuiescentRestart | crates/variance-messaging/src/direct.rs:542-581 | a restart at such a moment changes nothing |
| Ratchets.UseChanges | crates/variance-messaging/src/direct.rs:373-392 | a successful send or receive leaves a newer session in memory, a failed pre-key message the one it found; no other session changes |
| Ratchets.UseIsStored | crates/variance-messaging/src/direct.rs:373-421 | in every interleaving, once it is over without a restart, that session is stored, or a newer one |
| Ratchets.InitAlone | crates/variance-messaging/src/direct.rs:206-299 | each way of initialising, alone, establishes and stores a new session; a first message and `init_session_if_needed` leave an existing one |
| Ratchets.SessionIffInserted | crates/variance-messaging/src/direct.rs:217-221 | without a restart, an absent session is present later if and only if an insertion of it happened in between |
| Ratchets.InsertionReplacesIff | crates/variance-messaging/src/direct.rs:275-299 | in every run an initialisation about to insert will replace a session if and only if a first message or direct initialisation of the same peer inserted one since its check |
| Ratchets.OutsideInsertionReplacesIff | crates/variance-messaging/src/direct.rs:485-545 | in every run a first message about to insert will replace a session if and only if any insertion for that peer came after its look; a direct initialisation, if and only if there was a session when it began or one was inserted since |
| Ratchets.InitNeverOverwrites | crates/variance-messaging/src/direct.rs:275-299 | so without such calls for that peer an insertion never replaces a session |
| Ratchets.RacingInboundIsOverwritten | crates/variance-messaging/src/direct.rs:217-221 | a run in which an initialisation replaces a session created by a message that arrived meanwhile |
| Ratchets.RacingInitIsOverwritten | crates/variance-messaging/src/direct.rs:541-545 | a run in which a first message replaces the session of an initialisation that ran meanwhile |
| IdentityCache.MemoryLayer.Get | crates/variance-identity/src/cache.rs:42-50 | the unexpired value of a layer in memory |
| IdentityCache.DiskLayer.Get | crates/variance-identity/src/cache.rs:121-147 | the unexpired value on disk; an expired one is removed |
| IdentityCache.DiskLayer.EvictExpired | crates/variance-identity/src/cache.rs:248-271 | exactly the expired entries are deleted |
| IdentityCache.MultiLayerCache.Get | crates/variance-identity/src/cache.rs:186-207 | the answer, and the promotions it makes |
| IdentityCache.MultiLayerCache.Insert | crates/variance-identity/src/cache.rs:214-229 | all three layers hold the value, or none is changed when the document does not verify |
| IdentityCache.MultiLayerCache.Remove | crates/variance-identity/src/cache.rs:232-238 | no layer has the key |
| CacheRuns.AnswerIsLatest | crates/variance-identity/src/cache.rs:177-238 | in every run, restarts included, an answer is the latest insertion since the last removal and younger than 24 h + 1 h + 5 min; while the disk entry is unexpired the key is always found |
| CacheRuns.EvictionIsExact | crates/variance-identity/src/cache.rs:241-271 | eviction rids each layer of its expired entries and of nothing else: a key stays somewhere exactly if a get would have answered it |
| CacheRuns.MissCleansDisk | crates/variance-identity/src/cache.rs:121-147 | a get that finds nothing deletes the expired disk entry and changes nothing else; one that answers does so again |
| CacheRuns.MaxAgeIsTight | crates/variance-identity/src/cache.rs:192-203 | a run with an answer one nanosecond short of that age |
| CacheRuns.AnswersIff | crates/variance-identity/src/cache.rs:186-207 | in every run a get answers if and only if the key was put into the hot layer in the last five minutes, or into the warm one in the last hour, by an insertion or a promotion, or its disk entry is unexpired |
| CacheRuns.EvictionsChangeNoAnswer | crates/variance-identity/src/cache.rs:241-271 | evictions at any times change no answer of the run |
| Decimal.ParseOfPadded | crates/variance-identity/src/username.rs:40-52 | parsing undoes zero-padding |
| Usernames.CompoundKeyInjective | crates/variance-identity/src/username.rs:58-60 | a key determines name and discriminator, whatever characters the name has |
| Usernames.ParseOfFormat | crates/variance-identity/src/username.rs:40-55 | the parser undoes the printer if and only if the discriminator is in range and the name does not start with `@` |
| Usernames.UsernameRegistry.RegisterLocal | crates/variance-identity/src/username.rs:66-91 | both maps and the result, for all draws |
| Usernames.UsernameRegistry.RegisterWithDiscriminator | crates/variance-identity/src/username.rs:95-109 | both maps and the result |
| Usernames.UsernameRegistry.CacheMapping | crates/variance-identity/src/username.rs:153-163 | both maps |
| Usernames.UsernameRegistry.LookupAll | crates/variance-identity/src/username.rs:120-135 | exactly the holders of the name, each once |
| Usernames.SameNameIff | crates/variance-identity/src/username.rs:66-113 | two names are the same to the registry if and only if they differ in case at most |
| Usernames.LookupIgnoresCase | crates/variance-identity/src/username.rs:112-116 | lookups of such names agree |
| Usernames.FourDigits | crates/variance-identity/src/username.rs:40-42 | a display name ends in `#` and the discriminator, in exactly four digits, not all zero, if and only if it is valid |
| Usernames.ValidIffLegal | crates/variance-identity/src/username.rs:166-204 | a name is valid if and only if in lower case it has 3 to 32 letters, digits, `_` or `-` and starts with a letter or digit |
| UsernameRuns.RegisterLocalKeepsInverse | crates/variance-identity/src/username.rs:66-91 | the maps stay inverse whether it succeeds or not; it succeeds if and only if a draw is free; a failure loses the old name |
| UsernameRuns.RegisterWithKeepsInverse | crates/variance-identity/src/username.rs:95-109 | a taken key is an error and changes nothing, a free one is looked up as the DID afterwards; the maps stay inverse if and only if the key is taken or the DID has no name |
| UsernameRuns.CacheMappingKeepsInverse | crates/variance-identity/src/username.rs:150-163 | the mapping is looked up afterwards; the maps stay inverse if and only if the key is free or the DID's own |
| UsernameRuns.RunsKeepInverse | crates/variance-identity/src/username.rs:66-163 | in every run of such calls the maps are inverse and all names proper |
| UsernameRuns.DisplayNameRoundTrip | crates/variance-identity/src/username.rs:112-142 | looking up the parsed display name of a DID gives back the DID |
| UsernameRuns.DisplayNamesDistinct | crates/variance-identity/src/username.rs:138-142 | no two DIDs share a display name |
| UsernameRuns.TakeoverBreaksInverse | crates/variance-identity/src/username.rs:153-163 | a run in which a cached mapping takes over a key and two DIDs display one name |
| Receipts.GetGroupAggregateStatus | crates/variance-messaging/src/receipts.rs:223-265 | the two passes compute the minimum over members of the maximum over receipts |
| Receipts.AggregateMeans | crates/variance-messaging/src/receipts.rs:213-222 | "read" if and only if every member confirmed reading, "sent" if and only if some member did not confirm delivery |
| Receipts.MoreReceipts | crates/variance-messaging/src/receipts.rs:238-246 | more receipts never lower the status |
| Receipts.ReceiptOrderIrrelevant | crates/variance-messaging/src/receipts.rs:238-246 | permuting the receipts changes nothing |
| Receipts.MoreMembers | crates/variance-messaging/src/receipts.rs:248-254 | more members never raise the status of a non-empty list |
| TypingStore.MessagingStore.SetTyping | app/src/stores/messagingStore.ts:112-157 | the set and the timer of the pair, set or cleared together |
| TypingStore.MessagingStore.Expire | app/src/stores/messagingStore.ts:125-138 | the expiry callback |
| TypingStore.MessagingStore.SetActiveConversation | app/src/stores/messagingStore.ts:45-64 | leaving a conversation clears its set and the timers under its prefix |
| TypingStore.PrefixExact | app/src/stores/messagingStore.ts:56-61 | for ids without `::` and without a colon at the end, the prefix test selects the timers of that recipient only |
| TypingStore.PrefixExactIff | app/src/stores/messagingStore.ts:56-61 | the prefix test of an id selects its own timers only, among those of clean ids, if and only if it is clean |
| TypingStore.TimerKeyInjective | app/src/stores/messagingStore.ts:113 | for such recipients, timer keys tell all pairs apart |
| TypingStore.SameKeyIff | app/src/stores/messagingStore.ts:50-55 | conversations have the same key if and only if they are the same, or one is with a peer whose id is the other's group key; a group and a peer of one id never do |
| TypingStore.SetTypingShows | app/src/stores/messagingStore.ts:112-157 | a report shows or hides exactly its own indicator |
| TypingStore.AlwaysLockStep | app/src/stores/messagingStore.ts:45-157 | in every run a sender is shown if and only if its timer is pending, and no empty set is kept |
| TypingStore.LockStepIffClean | app/src/stores/messagingStore.ts:45-157 | runs over one more id besides clean ones keep indicators and timers together if and only if it is clean |
| TypingStore.IndicatorsExpire | app/src/stores/messagingStore.ts:123-141 | with no timer overdue, an indicator was renewed at most 3000 ms ago |
| TypingStore.SwitchClearsOne | app/src/stores/messagingStore.ts:50-62 | leaving a conversation removes its indicators and no others |
| TypingStore.CollidingKeysLeakIndicator | app/src/stores/messagingStore.ts:113-120 | for every unclean id and every sender there is a run that leaves the indicator without a timer |
| Reactions.SortSorts | app/src/components/messages/GroupView.tsx:96 | the sort orders by timestamp and permutes |
| Reactions.LastWins | app/src/components/messages/GroupView.tsx:96-107 | the last message of a key in the sorted list is the one that wins in the given list: largest timestamp, latest position among equals |
| Reactions.AggregateGroupReactions | app/src/components/messages/GroupView.tsx:90-127 | each count is the number of senders whose last action is "add", the own flag matches, zero counts and empty targets are absent |
| Reactions.SetDecides | app/src/components/messages/GroupView.tsx:90-127 | when the latest messages of each key agree, the senders counted depend on the set of messages only |
| Reactions.OrderIrrelevantIff | app/src/components/messages/GroupView.tsx:90-127 | all orders of the messages give the same counts if and only if the latest messages of each key agree on being "add" |
| Reactions.ResultsEqualIff | app/src/components/messages/GroupView.tsx:109-127 | and so it is for the results of the aggregation |
| Reactions.DisagreementShows | app/src/components/messages/GroupView.tsx:96 | if they disagree, two orders of the list differ in a count |

## Left out

- Cryptography (AES-GCM, Argon2, Ed25519, HKDF, Olm) and the inside of OpenMLS: its groups are values with the assumptions written in `MlsGroups.dfy`. A refused Welcome leaves its key package as it was.
- The ratchet that RFC 9420, section 9.1, gives handshake messages: here a repeated proposal can be processed again, and a restarted sender's commit accepted after an earlier handshake message of the same generation.
- Application messages that arrive outside the window of generations for which the library keeps keys.
- Proposals by reference other than a member's own removal: no handler makes any. Truncation of the ratchet tree: it changes no leaf index.
- Locks of the MLS handler: its methods are atomic here, as they hold the lock of the group throughout; poisoned locks and storage errors of the library do not occur.
- `MlsHandler.MlsGroupHandler.ReinitializeGroup`: creating the new group cannot fail; a failed addition is passed over, as in the program.
- The store entries of a group are one entry, and their encoding is a parameter; the JSON text of a snapshot is not modelled.
- Rounding of floating-point numbers in the rate limiter, where tokens and times are reals; one clock reading serves a whole check, and checks and removals of a peer are atomic.
- A budget window of zero seconds, for which the program computes an infinite rate.
- `MlsDeferred.InviteeAgreesIff`: that the inviter's later commits draw other secrets than the staged one is assumed, as secrets are random.
- `TypingStore.IndicatorsExpire`: that timers fire on time is assumed, as the event loop decides it.
- Storage failures in the persister, the ratchets and the cache, and a flush whose export and store are separated by a background cycle; the program does not protect against these.
- Messages to oneself, which bypass the ratchets.
- The debug-build panic of the failure counter when it overflows; the wrap-around of the release build is modelled.
- Unicode: names are lower-cased and measured as ASCII. Random discriminators are a parameter, one hundred draws per registration.
- The wall clock of the disk layer is the monotonic clock plus a fixed offset, in whole seconds.
- The order in which emoji and targets appear in the aggregated reactions, and messages with a NaN timestamp.
- Offline message paging, whose cursor depends on a storage module that is not part of this model.
- Calls, signalling, the server-side typing handler, relay statistics, identity framing and the peer store: guarded updates, counters and slicing only.
- Networking, HTTP and WebSocket transport, IPFS, DHT, CLI, desktop shell and all of the user interface except the reaction function and the messaging store's typing part.
