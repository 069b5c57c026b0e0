# Shoal group management and replication cache: a verified model

Shoal is a clustering framework. It has two halves:

- **GMS**, the group management service. It tracks the members of a group, detects failed members and appoints a member to recover a failed member's work.
- **The replication cache.** It spreads data over the members.

This project models the following parts of Shoal in Dafny and proves properties of them.

- **Key mapper** (`key_mapper.dfy`). `DefaultKeyMapper` maps a key to the group member that holds its replica. Here is how it works:
  - the key's hash code picks a slot in the sorted list of live members;
  - it precomputes a replica-choice string for each member;
  - it keeps the previous view, so that keys can be found after a member leaves;
  - it rebuilds all three arrays on every view change.
- **Recovery target selection** (`recovery_target_selector.dfy`). Each member decides on its own whether it is the recoverer of a failed member. It uses one of three algorithms: SIMPLESELECT, FIRSTLIVESELECT or HOSTSELECT. A member that finds a recoverer writes the appointment into the distributed state cache.
- **Health monitor** (`health_monitor.dfy`). This is the JXTA health monitor:
  - a cache of the latest health entry heard about each peer, fed by inbound health messages;
  - an in-doubt detector that suspects ALIVE peers which missed too many heartbeats;
  - a failure verifier that declares silent suspects DEAD.

  The actions sent to the master node, the view manager and the local listeners are recorded in an action log.
- **Lightweight reliable multicast** (`lwr_common.dfy`, `lwr_multicast.dfy`, `jxta_lwr_multicast.dfy`). These are the two LWRMulticast channels: the transport-neutral one and the JXTA one. A sender stamps each message with its id and a sequence number. Receivers acknowledge every data message. The sender waits until a threshold number of distinct peers acknowledged it. The JXTA channel also attaches its route advertisement to its first messages (by a test that wraps around, see Findings) and learns routes from inbound messages.
- **Network manager** (`network_manager.dfy`). `AbstractNetworkManager` keeps the registered message listeners. It drops messages from other groups and calls the before-dispatch hook, every listener of the message's type and the after-dispatch hook. It also names the class to load when no network manager is found by the service loader.
- **Touch command** (`touch_command.dfy`). This replication command refreshes an entry's access time on its replica. It picks its target from the key mapper's replica choices and serialises three longs.

Three modules provide Java semantics:

- `wrappers.dfy`: Option and result types.
- `strings.dfy`: sorted string sets as a `TreeSet` yields them, `String.split`, `Long.toString`.
- `java_ints.dfy`: `int` narrowing, truncating division, `Long.parseLong`.

Threads, waits and clocks become parameters:

- the current time is `now`;
- the acks that arrive during a wait are `arrived`, and whether the wait was interrupted is `interrupted`;
- the master node's status is a `MasterStatus` value;
- the transport's senders are a `Transport` value;
- the set of peers with a known route is `knownRoutes`.

Sends, listener calls and view changes are appended to log fields (`outbox`, `delivered`, `dispatched`, `actions`) that a contract can state exactly.

Where the code and its documentation differ, the model follows the code:

- **Health monitor `process`.** It caches every entry of a message from another peer, including entries that report the local peer itself INDOUBT or DEAD. It then answers each such entry with a unicast ALIVE.
- **Key mapper replica choices.** `onViewChange` hard-codes a choice limit of 1. So the replica-choice string of member `i` is just `members[i]`, and `getReplicaChoices` returns the owner itself, not a list of replicas (`KeyMapper.ChoiceIsSelf`).
- **SIMPLESELECT.** The loop does not stop at the first match. A later occurrence of the failed token overwrites an earlier choice (`RecoveryTargetSelector.SimpleScan`).

## Model

| member | source | states |
|---|---|---|
| KeyMapper.EffectiveHash | cache/src/main/java/org/shoal/ha/mapper/DefaultKeyMapper.java:249-257 | a HashableKey with a hash key uses that key's hash; every other key uses its own hash code |
| KeyMapper.Slot | cache/src/main/java/org/shoal/ha/mapper/DefaultKeyMapper.java:122-124 | `Math.abs(hc % n)` is always an index into the member array |
| KeyMapper.Choices | cache/src/main/java/org/shoal/ha/mapper/DefaultKeyMapper.java:220-226 | the choices for member `i` are `count` members walked forward from `i`, wrapping around the array |
| KeyMapper.ChoiceIsSelf | cache/src/main/java/org/shoal/ha/mapper/DefaultKeyMapper.java:223-229 | with the hard-coded choice limit of 1, member `i`'s replica-choice string is member `i`'s name |
| KeyMapper.BuildChoiceString | cache/src/main/java/org/shoal/ha/mapper/DefaultKeyMapper.java:220-229 | the inner StringBuilder loop, which decrements `choiceLimit` even when the test fails, builds the ':'-joined choices |
| KeyMapper.BuildReplicaChoices | cache/src/main/java/org/shoal/ha/mapper/DefaultKeyMapper.java:213-232 | an empty view yields the sentinel alone; otherwise member `i` gets its choice string |
| KeyMapper.ViewChangeDeterministic | cache/src/main/java/org/shoal/ha/mapper/DefaultKeyMapper.java:201-247 | the mapper's state after a view change depends only on the sets of names passed in, not on their order, their duplicates or the earlier state |
| KeyMapper.DefaultKeyMapper.constructor | cache/src/main/java/org/shoal/ha/mapper/DefaultKeyMapper.java:81-90 | a new mapper has empty member, previous-view and replica-choice arrays |
| KeyMapper.DefaultKeyMapper.GetMappedInstance | cache/src/main/java/org/shoal/ha/mapper/DefaultKeyMapper.java:105-128 | null exactly for an empty view; otherwise the member at the key's slot, which is a current member and never the local instance |
| KeyMapper.DefaultKeyMapper.GetReplicaChoices | cache/src/main/java/org/shoal/ha/mapper/DefaultKeyMapper.java:131-141 | the sentinel "" for an empty view; otherwise the same instance `getMappedInstance` returns |
| KeyMapper.DefaultKeyMapper.FindReplicaInstance | cache/src/main/java/org/shoal/ha/mapper/DefaultKeyMapper.java:178-198 | a hint is split on ':'; without one, the previous-view member at the key's slot, or the sentinel when there was no previous view |
| KeyMapper.DefaultKeyMapper.OnViewChange | cache/src/main/java/org/shoal/ha/mapper/DefaultKeyMapper.java:201-247 | members are the sorted distinct current names without the local one; each choice string is that member's choices; the previous view is sorted and distinct, without the departed member on a leave |
| KeyMapper.RepeatViewChange | cache/src/main/java/org/shoal/ha/mapper/DefaultKeyMapper.java:201-247 | a view change repeated with the same arguments leaves the mapper as the first one left it |
| JavaStrings.Utf16Rank | cache/src/main/java/org/shoal/ha/mapper/DefaultKeyMapper.java:209-212 | a character's place in `String.compareTo` order: below the surrogates by code point, then supplementary characters, then 0xE000-0xFFFF |
| JavaStrings.Utf16RankOrder | cache/src/main/java/org/shoal/ha/mapper/DefaultKeyMapper.java:209-212 | distinct characters compare unequal, and two characters of the same plane compare by code point |
| JavaStrings.SupplementaryBeforeUpperBmp | cache/src/main/java/org/shoal/ha/mapper/DefaultKeyMapper.java:209-212 | a supplementary character sorts before one from 0xE000-0xFFFF, as Java's UTF-16 comparison puts it |
| JavaStrings.SortedDistinct | cache/src/main/java/org/shoal/ha/mapper/DefaultKeyMapper.java:209-210 | `TreeSet.addAll` followed by `toArray` yields the strictly sorted list of exactly the distinct input names |
| JavaStrings.RemoveSorted | cache/src/main/java/org/shoal/ha/mapper/DefaultKeyMapper.java:211 | `TreeSet.remove` keeps the list sorted and removes exactly the given name |
| JavaStrings.InsertSorted | cache/src/main/java/org/shoal/ha/mapper/DefaultKeyMapper.java:209-210 | `TreeSet.add` keeps the list sorted, adds exactly the new name, and is a no-op for a name already present |
| JavaStrings.SortedSetUnique | cache/src/main/java/org/shoal/ha/mapper/DefaultKeyMapper.java:209-212 | two strictly sorted lists of the same set are equal |
| JavaStrings.SplitJoin | cache/src/main/java/org/shoal/ha/mapper/DefaultKeyMapper.java:178-180 | splitting a ':'-joined list of non-empty names free of ':' gives the names back |
| JavaStrings.FieldsOfJoin | cache/src/main/java/org/shoal/ha/mapper/DefaultKeyMapper.java:178-180 | before trailing empty fields are dropped, splitting a joined list gives the tokens back |
| JavaStrings.SplitFieldsFree | cache/src/main/java/org/shoal/ha/mapper/DefaultKeyMapper.java:178-180 | no field of a split contains the delimiter |
| RecoveryTargetSelector.EffectiveMode | gms/impl/src/main/java/com/sun/enterprise/ee/cms/impl/common/RecoveryTargetSelector.java:86-97 | a null mode means SIMPLESELECT |
| RecoveryTargetSelector.CoreTokens | gms/impl/src/main/java/com/sun/enterprise/ee/cms/impl/common/RecoveryTargetSelector.java:258-267 | the tokens are exactly those of the CORE members of the view |
| RecoveryTargetSelector.LiveFilter | gms/impl/src/main/java/com/sun/enterprise/ee/cms/impl/common/RecoveryTargetSelector.java:307-326 | a token is live exactly when it is current and not suspected |
| RecoveryTargetSelector.LiveTokensFilterCore | gms/impl/src/main/java/com/sun/enterprise/ee/cms/impl/common/RecoveryTargetSelector.java:258-326 | the live cache is the core tokens filtered by liveness |
| RecoveryTargetSelector.FirstLive | gms/impl/src/main/java/com/sun/enterprise/ee/cms/impl/common/RecoveryTargetSelector.java:232-256 | none exactly when no core token is live; otherwise a live core token |
| RecoveryTargetSelector.FirstLiveIsFirst | gms/impl/src/main/java/com/sun/enterprise/ee/cms/impl/common/RecoveryTargetSelector.java:243-248 | the chosen token is the live one with the lowest index |
| RecoveryTargetSelector.SimpleScan | gms/impl/src/main/java/com/sun/enterprise/ee/cms/impl/common/RecoveryTargetSelector.java:171-204 | each step of the scan keeps the earlier choice or picks a live core token |
| RecoveryTargetSelector.SimpleRecoverer | gms/impl/src/main/java/com/sun/enterprise/ee/cms/impl/common/RecoveryTargetSelector.java:151-214 | SIMPLESELECT picks a live core token, and picks none exactly when no core token is live |
| RecoveryTargetSelector.AppointedState | gms/impl/src/main/java/com/sun/enterprise/ee/cms/impl/common/RecoveryTargetSelector.java:299-305 | the state text is RECOVERY_SERVER_APPOINTED, a bar and the decimal time |
| RecoveryTargetSelector.SetRecoverySelectionState | gms/impl/src/main/java/com/sun/enterprise/ee/cms/impl/common/RecoveryTargetSelector.java:269-297 | a watchdog writes nothing; otherwise one write per registered component in order, each attempted even after an earlier one is rejected |
| RecoveryTargetSelector.ResolveRecoveryTarget | gms/impl/src/main/java/com/sun/enterprise/ee/cms/impl/common/RecoveryTargetSelector.java:86-115 | true exactly when this member is the recoverer; the selection is recorded whenever a recoverer is found; HOSTSELECT never recovers |
| RecoveryTargetSelector.RecovererIsLiveCore | gms/impl/src/main/java/com/sun/enterprise/ee/cms/impl/common/RecoveryTargetSelector.java:151-256 | every recoverer is a CORE member of the previous view that is current and not suspected |
| RecoveryTargetSelector.RecovererExistsIffLive | gms/impl/src/main/java/com/sun/enterprise/ee/cms/impl/common/RecoveryTargetSelector.java:151-256 | with SIMPLESELECT or FIRSTLIVESELECT, a recoverer exists exactly when the live cache is non-empty |
| RecoveryTargetSelector.ExactlyOneRecoverer | gms/impl/src/main/java/com/sun/enterprise/ee/cms/impl/common/RecoveryTargetSelector.java:86-115 | members evaluating the same inputs agree on exactly one recoverer, and it is live |
| RecoveryTargetSelector.ScanSkips | gms/impl/src/main/java/com/sun/enterprise/ee/cms/impl/common/RecoveryTargetSelector.java:171-174 | indices that do not hold the failed token leave the choice unchanged |
| RecoveryTargetSelector.ScanSkipsPrefix | gms/impl/src/main/java/com/sun/enterprise/ee/cms/impl/common/RecoveryTargetSelector.java:171-174 | the scan up to the only match keeps "no choice" |
| RecoveryTargetSelector.ScanSingle | gms/impl/src/main/java/com/sun/enterprise/ee/cms/impl/common/RecoveryTargetSelector.java:171-204 | with one match, the scan yields the first live successor, or core element 0 when the match is last and element 0 is live |
| RecoveryTargetSelector.SimpleSelectNonLast | gms/impl/src/main/java/com/sun/enterprise/ee/cms/impl/common/RecoveryTargetSelector.java:190-214 | when the failed member is not last, the recoverer is the first live core member after it, or else the first live core member |
| RecoveryTargetSelector.SimpleSelectLast | gms/impl/src/main/java/com/sun/enterprise/ee/cms/impl/common/RecoveryTargetSelector.java:175-214 | when the failed member is last, the recoverer is core element 0 if it is live, or else the first live core member |
| RecoveryTargetSelector.SimpleSelectAbsent | gms/impl/src/main/java/com/sun/enterprise/ee/cms/impl/common/RecoveryTargetSelector.java:205-214 | when the failed member is not among the core tokens, the fallback picks the first live core member |
| RecoveryTargetSelector.FirstLiveSelectIgnoresFailed | gms/impl/src/main/java/com/sun/enterprise/ee/cms/impl/common/RecoveryTargetSelector.java:232-256 | FIRSTLIVESELECT does not depend on which member failed, and picks the first current, unsuspected core member |
| HealthMonitor.MissedBeatsThreshold | gms/src/java/com/sun/enterprise/jxtamgmt/HealthMonitor.java:526-528 | more than `maxMissedBeats` beats are missed exactly when `(maxMissedBeats + 1) * timeout` ms have passed |
| HealthMonitor.FutureEntryNeverMissed | gms/src/java/com/sun/enterprise/jxtamgmt/HealthMonitor.java:526-528 | an entry timestamped in the future counts no missed beats |
| JavaInts.JavaDivBounds | gms/src/java/com/sun/enterprise/jxtamgmt/HealthMonitor.java:527 | long division truncates toward zero |
| JavaInts.ToInt32Range | gms/src/java/com/sun/enterprise/jxtamgmt/HealthMonitor.java:527 | the `(int)` cast lands in the int range, agrees with its argument modulo 2^32, and keeps a value that already fits |
| HealthMonitor.PutAllLastWins | gms/src/java/com/sun/enterprise/jxtamgmt/HealthMonitor.java:225-226 | after a message's entries are cached in order, each peer holds the last entry about it |
| HealthMonitor.PutAllUntouched | gms/src/java/com/sun/enterprise/jxtamgmt/HealthMonitor.java:225-226 | the cache slot of a peer that no entry mentions is unchanged |
| HealthMonitor.Handled | gms/src/java/com/sun/enterprise/jxtamgmt/HealthMonitor.java:221-255 | processing covers every entry, or stops right after the first stop entry whose null advertisement throws |
| HealthMonitor.HandledUnique | gms/src/java/com/sun/enterprise/jxtamgmt/HealthMonitor.java:221-255 | the handled count is the only count with that property |
| HealthMonitor.NotifyLocalListeners | gms/src/java/com/sun/enterprise/jxtamgmt/HealthMonitor.java:448-458 | exactly INDOUBT, ALIVE, CLUSTERSTOPPING and PEERSTOPPING make one view-manager call about the advertisement |
| HealthMonitor.RemoveMasterAdv | gms/src/java/com/sun/enterprise/jxtamgmt/HealthMonitor.java:669-691 | the peer is removed from the view first; any listener notification that follows names its advertisement |
| HealthMonitor.StopEventEffects | gms/src/java/com/sun/enterprise/jxtamgmt/HealthMonitor.java:257-280 | a stop report changes the view only when the stopping peer is the master (reset and reappoint) or the local node is the assigned master (a stop event of the reported kind) |
| HealthMonitor.EntryReply | gms/src/java/com/sun/enterprise/jxtamgmt/HealthMonitor.java:226-252 | one entry draws the ALIVE reply exactly when it reports the local peer INDOUBT or DEAD |
| HealthMonitor.SelfSuspicionAnswered | gms/src/java/com/sun/enterprise/jxtamgmt/HealthMonitor.java:221-255 | a sender that reports the local peer INDOUBT or DEAD is answered with a unicast ALIVE, and that is the only reply `process` sends |
| HealthMonitor.ScanPartialEnds | gms/src/java/com/sun/enterprise/jxtamgmt/HealthMonitor.java:530-544 | the in-doubt scan starts from the cache, ends at the scanned cache, and keeps every slot's peer id |
| HealthMonitor.ScannedOrderStep | gms/src/java/com/sun/enterprise/jxtamgmt/HealthMonitor.java:530-544 | visiting a peer adds it to the suspects exactly when it is suspected, and never twice |
| HealthMonitor.MarkDeadPartialEnds | gms/src/java/com/sun/enterprise/jxtamgmt/HealthMonitor.java:621-636 | the verification pass starts from the cache, ends at the marked cache, and keeps every slot's peer id |
| HealthMonitor.InDoubtEffects | gms/src/java/com/sun/enterprise/jxtamgmt/HealthMonitor.java:546-598 | suspecting a peer broadcasts INDOUBT exactly on a master, tells the local listeners and wakes the verifier; on a master, a peer without advertisement makes the report (line 303) throw and nothing happens |
| HealthMonitor.FailureEffects | gms/src/java/com/sun/enterprise/jxtamgmt/HealthMonitor.java:643-667 | a failed peer leaves the view only when the local node is the assigned master (FAILURE_EVENT) or the peer was the master (reset and reappoint); only a master broadcasts DEAD; on a master, a peer without advertisement makes the report (line 303) throw before anything is sent or removed |
| HealthMonitor.MarkDeadOutcome | gms/src/java/com/sun/enterprise/jxtamgmt/HealthMonitor.java:621-636 | after verification every cached peer is ALIVE or DEAD, no ALIVE entry is touched, and a second verification changes nothing |
| HealthMonitor.LateHeartbeatSurvives | gms/src/java/com/sun/enterprise/jxtamgmt/HealthMonitor.java:221-255 | a suspect whose ALIVE heartbeat is processed before verification is not declared dead |
| HealthMonitor.SilentSuspectDies | gms/src/java/com/sun/enterprise/jxtamgmt/HealthMonitor.java:546-573 | a suspect that sends nothing before verification is declared DEAD, when both passes run to their end |
| HealthMonitor.HealthMonitor.constructor | gms/src/java/com/sun/enterprise/jxtamgmt/HealthMonitor.java:119-130 | a new monitor has an empty cache, no actions, and is not stopped |
| HealthMonitor.HealthMonitor.GetState | gms/src/java/com/sun/enterprise/jxtamgmt/HealthMonitor.java:460-468 | the name of the cached state, or "dead" for a peer never heard of |
| HealthMonitor.HealthMonitor.ProcessEntry | gms/src/java/com/sun/enterprise/jxtamgmt/HealthMonitor.java:226-252 | one entry overwrites its peer's slot and adds that entry's reactions; a stop entry without advertisement aborts |
| HealthMonitor.HealthMonitor.Process | gms/src/java/com/sun/enterprise/jxtamgmt/HealthMonitor.java:221-255 | a loopback message changes nothing; otherwise the handled entries are cached in order and their reactions logged, and the abort is reported exactly when some entry aborts |
| HealthMonitor.HealthMonitor.DesignateInDoubtState | gms/src/java/com/sun/enterprise/jxtamgmt/HealthMonitor.java:585-598 | the entry becomes INDOUBT; a master broadcasts it; local listeners are told; on a master without advertisement the report throws after the cache update, and the listeners are not told |
| HealthMonitor.HealthMonitor.ScanInDoubt | gms/src/java/com/sun/enterprise/jxtamgmt/HealthMonitor.java:530-544 | exactly the visited ALIVE peers that missed too many beats, and that this node may judge, become INDOUBT, each once; the pass ends at the first report that throws, leaving the unvisited peers untouched, and otherwise covers the whole cache; a stopped monitor changes nothing |
| HealthMonitor.HealthMonitor.DetermineInDoubtPeer | gms/src/java/com/sun/enterprise/jxtamgmt/HealthMonitor.java:546-583 | one entry is suspected exactly when it is ALIVE, missed too many beats, and is the master or this node is the master; the verifier is woken unless the designation's report threw |
| HealthMonitor.HealthMonitor.AssignAndReportFailure | gms/src/java/com/sun/enterprise/jxtamgmt/HealthMonitor.java:643-667 | the entry becomes DEAD and the failure is reported; on a master without advertisement the report throws after the cache update, before the view changes |
| HealthMonitor.HealthMonitor.Verify | gms/src/java/com/sun/enterprise/jxtamgmt/HealthMonitor.java:621-636 | every visited entry not ALIVE becomes DEAD and is reported as failed, each once; the pass ends at the first report that throws, leaving the unvisited peers untouched, and otherwise covers the whole cache |
| HealthMonitor.HealthMonitor.VerifyPeer | gms/src/java/com/sun/enterprise/jxtamgmt/HealthMonitor.java:628-633 | one entry fails exactly when it is not ALIVE; the report throws exactly for a failed entry without advertisement on a master |
| HealthMonitor.HealthMonitor.AnnounceStop | gms/src/java/com/sun/enterprise/jxtamgmt/HealthMonitor.java:406-414 | CLUSTERSTOPPING or PEERSTOPPING about the local peer is broadcast; the cache is unchanged |
| HealthMonitor.HealthMonitor.Stop | gms/src/java/com/sun/enterprise/jxtamgmt/HealthMonitor.java:419-433 | STOPPED is broadcast and the stop flag is raised |
| LwrCommon.CheckState | gms/impl/src/main/java/com/sun/enterprise/mgmt/LWRMulticast.java:276-282 | a channel may send exactly while open and bound; a closed channel reports "closed" first |
| LwrMulticast.Classify | gms/impl/src/main/java/com/sun/enterprise/mgmt/LWRMulticast.java:150-186 | an ack or data message is never the local peer's own, and carries the source and sequence number read from the message |
| LwrMulticast.StampedReadBack | gms/impl/src/main/java/com/sun/enterprise/mgmt/LWRMulticast.java:290-311 | `getSource` and `getSequenceID` read back the id and number `send` stamped |
| LwrMulticast.DataRoundTrip | gms/impl/src/main/java/com/sun/enterprise/mgmt/LWRMulticast.java:150-186 | every other peer reads a stamped message as data from its sender with its number; the sender drops its own copy |
| LwrMulticast.AckRoundTrip | gms/impl/src/main/java/com/sun/enterprise/mgmt/LWRMulticast.java:217-229 | the sender of a data message reads the acknowledgement as an ack from the receiver |
| LwrMulticast.Transmit | gms/impl/src/main/java/com/sun/enterprise/mgmt/LWRMulticast.java:372-388 | a send succeeds only on an open, bound channel with the needed sender, and returns that sender's answer; a missing sender is an I/O error |
| LwrMulticast.Enumerate | gms/impl/src/main/java/com/sun/enterprise/mgmt/LWRMulticast.java:414 | iterating a set visits each element exactly once |
| LwrMulticast.UnicastsSnoc | gms/impl/src/main/java/com/sun/enterprise/mgmt/LWRMulticast.java:414-417 | one more peer adds one more unicast at the end |
| LwrMulticast.Multicast.Open | gms/impl/src/main/java/com/sun/enterprise/mgmt/LWRMulticast.java:105-126 | `new LWRMulticast` with a null listener throws IllegalArgumentException and yields no channel; otherwise a fresh, open, bound channel |
| LwrMulticast.Multicast.constructor | gms/impl/src/main/java/com/sun/enterprise/mgmt/LWRMulticast.java:105-107 | a new channel is open and bound, with the default timeout and sequence 0 |
| LwrMulticast.Multicast.JoinGroup | gms/impl/src/main/java/com/sun/enterprise/mgmt/LWRMulticast.java:116-125 | a null listener is refused and changes nothing; otherwise the channel is bound to the peer id and listener |
| LwrMulticast.Multicast.Close | gms/impl/src/main/java/com/sun/enterprise/mgmt/LWRMulticast.java:139-145 | the first close unbinds and closes; later ones do nothing |
| LwrMulticast.Multicast.SetSoTimeout | gms/impl/src/main/java/com/sun/enterprise/mgmt/LWRMulticast.java:257-260 | only a usable channel takes the timeout, padded by 250 ms |
| LwrMulticast.Multicast.ProcessAck | gms/impl/src/main/java/com/sun/enterprise/mgmt/LWRMulticast.java:198-209 | a peer is counted at most once; the sender wakes when a new ack brings the count to the threshold |
| LwrMulticast.Multicast.SendTo | gms/impl/src/main/java/com/sun/enterprise/mgmt/LWRMulticast.java:372-388 | the result is `Transmit`'s, and exactly one transmission is made when it succeeds |
| LwrMulticast.Multicast.AckMessage | gms/impl/src/main/java/com/sun/enterprise/mgmt/LWRMulticast.java:217-229 | the ack goes back to the source when the channel can send; a failure is swallowed |
| LwrMulticast.Multicast.ReceiveMessageEvent | gms/impl/src/main/java/com/sun/enterprise/mgmt/LWRMulticast.java:150-186 | an ack is counted; a data message is acknowledged and delivered once; anything else changes nothing |
| LwrMulticast.Multicast.Send | gms/impl/src/main/java/com/sun/enterprise/mgmt/LWRMulticast.java:325-359 | a negative threshold is refused; the message is stamped with the next number and multicast; the send times out exactly when fewer than `threshold` peers acknowledged |
| LwrMulticast.Multicast.AwaitAcks | gms/impl/src/main/java/com/sun/enterprise/mgmt/LWRMulticast.java:342-357 | after the wait the acks are snapshot into `ackList`; a timeout is reported exactly when too few arrived; a negative timeout throws |
| LwrMulticast.Multicast.SendToSet | gms/impl/src/main/java/com/sun/enterprise/mgmt/LWRMulticast.java:401-440 | every peer of the set is unicast the message; the sender waits only if all accepted, and fails exactly when fewer than all acknowledged |
| LwrMulticast.Multicast.UnicastAll | gms/impl/src/main/java/com/sun/enterprise/mgmt/LWRMulticast.java:414-417 | each peer is sent the message exactly once; the result says whether every peer accepted |
| LwrMulticast.Multicast.AwaitAll | gms/impl/src/main/java/com/sun/enterprise/mgmt/LWRMulticast.java:421-437 | no ack is lost; the wait fails exactly when fewer acks than peers arrived |
| JxtaLwrMulticast.JoinCheck | gms/src/java/com/sun/enterprise/jxtamgmt/LWRMulticast.java:155-163 | a non-propagate pipe type, a missing pipe id or a null listener is refused, in that order |
| JxtaLwrMulticast.RouteAttachedAsWrittenRange | gms/src/java/com/sun/enterprise/jxtamgmt/LWRMulticast.java:390 | `intValue() < 2` (also at lines 434 and 474) lets through, in every block of 2^32 counter values, the first two and the whole upper half |
| JxtaLwrMulticast.RouteReattachedAfterWrap | gms/src/java/com/sun/enterprise/jxtamgmt/LWRMulticast.java:386-436 | because of the `intValue()` narrowing, messages 2^31 - 1 and 2^32 + 1 carry the route again, where the intended message carries none |
| JxtaLwrMulticast.RouteTestsAgree | gms/src/java/com/sun/enterprise/jxtamgmt/LWRMulticast.java:390 | the test as written and the intended test agree while the counter is below 2^31 |
| JxtaLwrMulticast.GetSequenceID | gms/src/java/com/sun/enterprise/jxtamgmt/LWRMulticast.java:343-349 | -1 without a SEQ element; a parse failure exactly when the element is not a long; otherwise the parsed value |
| JxtaLwrMulticast.StampedReadBack | gms/src/java/com/sun/enterprise/jxtamgmt/LWRMulticast.java:386-436 | the stamped message reads back its source and its number, and carries the route exactly when the application put one there or the test as written passed before or after the counter moved |
| JxtaLwrMulticast.StampedIntendedReadBack | gms/src/java/com/sun/enterprise/jxtamgmt/LWRMulticast.java:386-397 | the intended message reads back the same, and carries the route exactly for messages 0 and 1 (or when the application put one there) |
| JxtaLwrMulticast.StampedAgreeBeforeWrap | gms/src/java/com/sun/enterprise/jxtamgmt/LWRMulticast.java:386-436 | until message 2^31 - 2 the channel sends exactly the intended message |
| JavaInts.ParseDecimal | gms/src/java/com/sun/enterprise/jxtamgmt/LWRMulticast.java:343-349 | `Long.parseLong(Long.toString(n))` is `n` |
| JavaInts.ParseLong | gms/src/java/com/sun/enterprise/jxtamgmt/LWRMulticast.java:346 | a parsed value is a long; the empty string does not parse |
| JxtaLwrMulticast.Classify | gms/src/java/com/sun/enterprise/jxtamgmt/LWRMulticast.java:212-245 | an ack or data message is never the local peer's own and carries the source (and the SEQ text) read from the message |
| JxtaLwrMulticast.DataRoundTrip | gms/src/java/com/sun/enterprise/jxtamgmt/LWRMulticast.java:212-245 | every other peer reads a stamped message as data from its sender; the sender drops its own copy |
| JxtaLwrMulticast.AckRoundTrip | gms/src/java/com/sun/enterprise/jxtamgmt/LWRMulticast.java:272-282 | the receiver's acknowledgement reads as an ack from it at the sender |
| JxtaLwrMulticast.NewPipe | gms/src/java/com/sun/enterprise/jxtamgmt/LWRMulticast.java:440-450 | a newly created pipe leads to the addressed peer |
| JxtaLwrMulticast.PipesAfter | gms/src/java/com/sun/enterprise/jxtamgmt/LWRMulticast.java:438-453 | a peer addressed for the first time gets a new pipe; every cached pipe is kept; no other peer gains one |
| JxtaLwrMulticast.TransmissionFor | gms/src/java/com/sun/enterprise/jxtamgmt/LWRMulticast.java:438-458 | null goes out on the propagate pipe, a peer on its cached pipe, with the message unchanged |
| JxtaLwrMulticast.JxtaMulticast.Open | gms/src/java/com/sun/enterprise/jxtamgmt/LWRMulticast.java:139-163 | `new LWRMulticast` throws exactly the exception `joinGroup`'s checks raise and yields no channel; otherwise a fresh, open, bound channel |
| JxtaLwrMulticast.JxtaMulticast.constructor | gms/src/java/com/sun/enterprise/jxtamgmt/LWRMulticast.java:139-143 | a new channel is joined, open and bound, and takes the route of the router, if there is one |
| JxtaLwrMulticast.JxtaMulticast.JoinGroup | gms/src/java/com/sun/enterprise/jxtamgmt/LWRMulticast.java:153-184 | a refused join changes nothing; otherwise the pipes open, the channel is bound, and a found route replaces the old one |
| JxtaLwrMulticast.JxtaMulticast.Close | gms/src/java/com/sun/enterprise/jxtamgmt/LWRMulticast.java:198-207 | the first close unbinds and closes the channel and its pipes; later ones do nothing |
| JxtaLwrMulticast.JxtaMulticast.SetSoTimeout | gms/src/java/com/sun/enterprise/jxtamgmt/LWRMulticast.java:310-313 | only a usable channel takes the timeout, padded by 250 ms |
| JxtaLwrMulticast.JxtaMulticast.ProcessAck | gms/src/java/com/sun/enterprise/jxtamgmt/LWRMulticast.java:253-264 | a peer is counted at most once; the sender wakes when a new ack brings the count to the threshold |
| JxtaLwrMulticast.JxtaMulticast.SendTo | gms/src/java/com/sun/enterprise/jxtamgmt/LWRMulticast.java:431-460 | null propagates; a peer's pipe is created once and reused; existing pipes are kept; the route is attached by the test as written |
| JxtaLwrMulticast.JxtaMulticast.AckMessage | gms/src/java/com/sun/enterprise/jxtamgmt/LWRMulticast.java:272-282 | a usable channel sends one acknowledgement carrying the local id and the SEQ text to the data's source (propagated for a null source), on that peer's pipe |
| JxtaLwrMulticast.JxtaMulticast.ProcessRoute | gms/src/java/com/sun/enterprise/jxtamgmt/LWRMulticast.java:505-519 | a route element is learned exactly when route control exists |
| JxtaLwrMulticast.JxtaMulticast.PipeMsgEvent | gms/src/java/com/sun/enterprise/jxtamgmt/LWRMulticast.java:212-245 | an ack is counted; a data message is acknowledged to its source and delivered, and on an unusable channel only delivered; every message that is not dropped is searched for a route |
| JxtaLwrMulticast.JxtaMulticast.Send | gms/src/java/com/sun/enterprise/jxtamgmt/LWRMulticast.java:386-422 | a negative threshold is refused; the sequence number is used up even when the channel refuses; the send times out exactly when too few peers acknowledged |
| JxtaLwrMulticast.JxtaMulticast.Publish | gms/src/java/com/sun/enterprise/jxtamgmt/LWRMulticast.java:390-401 | the message is stamped with the next number (route by the test as written, before and after the counter moves) and propagated when the channel is usable |
| JxtaLwrMulticast.JxtaMulticast.AwaitAcks | gms/src/java/com/sun/enterprise/jxtamgmt/LWRMulticast.java:405-420 | after the wait the acks are snapshot into `ackList`; a timeout is reported exactly when too few arrived |
| JxtaLwrMulticast.JxtaMulticast.SendToSet | gms/src/java/com/sun/enterprise/jxtamgmt/LWRMulticast.java:469-503 | one pipe to all the peers carries the message; an empty set returns at once; no ack is lost |
| JxtaLwrMulticast.JxtaMulticast.AwaitAll | gms/src/java/com/sun/enterprise/jxtamgmt/LWRMulticast.java:485-501 | the wait fails exactly when fewer acks than peers arrived, and no ack is lost |
| NetworkManager.MatchingMembers | gms/impl/src/main/java/com/sun/enterprise/mgmt/transport/AbstractNetworkManager.java:140-151 | exactly the registered listeners of the message's type receive it |
| NetworkManager.MatchingKeepsOrder | gms/impl/src/main/java/com/sun/enterprise/mgmt/transport/AbstractNetworkManager.java:140-151 | listeners receive the message in registration order |
| NetworkManager.DeliveriesAt | gms/impl/src/main/java/com/sun/enterprise/mgmt/transport/AbstractNetworkManager.java:140-151 | the k-th delivery goes to the k-th matching listener, with the same event |
| NetworkManager.RemoveFirst | gms/impl/src/main/java/com/sun/enterprise/mgmt/transport/AbstractNetworkManager.java:109-112 | removing a listener that is absent changes nothing; otherwise the list shrinks by one and gains nothing |
| NetworkManager.RemoveUndoesAdd | gms/impl/src/main/java/com/sun/enterprise/mgmt/transport/AbstractNetworkManager.java:100-112 | removing a listener just added restores the list |
| NetworkManager.RemoveFirstSplits | gms/impl/src/main/java/com/sun/enterprise/mgmt/transport/AbstractNetworkManager.java:109-112 | only the first registration of the listener is removed |
| NetworkManager.FallbackClassNameDistinct | gms/impl/src/main/java/com/sun/enterprise/mgmt/transport/AbstractNetworkManager.java:227-247 | Grizzly transports get distinct classes in the Grizzly package; every other transport gets the JXTA network manager |
| NetworkManager.NetworkManager.constructor | gms/impl/src/main/java/com/sun/enterprise/mgmt/transport/AbstractNetworkManager.java:74-79 | a new manager has no listeners and has dispatched nothing |
| NetworkManager.NetworkManager.Stop | gms/impl/src/main/java/com/sun/enterprise/mgmt/transport/AbstractNetworkManager.java:92-94 | every listener is dropped |
| NetworkManager.NetworkManager.AddMessageListener | gms/impl/src/main/java/com/sun/enterprise/mgmt/transport/AbstractNetworkManager.java:100-103 | a listener is appended; null is ignored |
| NetworkManager.NetworkManager.RemoveMessageListener | gms/impl/src/main/java/com/sun/enterprise/mgmt/transport/AbstractNetworkManager.java:109-112 | the first registration is removed; null is ignored |
| NetworkManager.NetworkManager.ReceiveMessage | gms/impl/src/main/java/com/sun/enterprise/mgmt/transport/AbstractNetworkManager.java:118-165 | a message from another group calls nothing; otherwise the before hook, each listener of the type in order, and the after hook; a null message throws once a listener is registered |
| NetworkManager.NetworkManager.DispatchToListeners | gms/impl/src/main/java/com/sun/enterprise/mgmt/transport/AbstractNetworkManager.java:140-151 | each registered listener of the message's type is called once, in order |
| NetworkManager.DispatchStep | gms/impl/src/main/java/com/sun/enterprise/mgmt/transport/AbstractNetworkManager.java:141-150 | one loop step extends the deliveries by that listener's, if it matches |
| TouchCommand.UnsignedOfBigEndian | trunk/cache/src/main/java/org/shoal/adapter/store/commands/TouchCommand.java:91-104 | n big-endian bytes read back any value below 256^n |
| TouchCommand.ReadWriteLong | trunk/cache/src/main/java/org/shoal/adapter/store/commands/TouchCommand.java:91-104 | `readLong` undoes `writeLong` for every long |
| TouchCommand.SerializedRoundTrip | trunk/cache/src/main/java/org/shoal/adapter/store/commands/TouchCommand.java:91-104 | reading the three longs back in order gives the version, access time and maximum idle time |
| TouchCommand.FirstChoice | trunk/cache/src/main/java/org/shoal/adapter/store/commands/TouchCommand.java:85-86 | null choices give a null target; otherwise the first field; choices that split into nothing throw |
| TouchCommand.FirstChoiceOfJoined | trunk/cache/src/main/java/org/shoal/adapter/store/commands/TouchCommand.java:84-86 | for a list joined from instance names, the target is the first name |
| TouchCommand.OnlyDelimitersFail | trunk/cache/src/main/java/org/shoal/adapter/store/commands/TouchCommand.java:85-86 | choices made only of ':' split into nothing and throw |
| TouchCommand.TouchCommand.Empty | trunk/cache/src/main/java/org/shoal/adapter/store/commands/TouchCommand.java:71-73 | the deserialisation constructor makes a TOUCH command without a key |
| TouchCommand.TouchCommand.constructor | trunk/cache/src/main/java/org/shoal/adapter/store/commands/TouchCommand.java:75-81 | a TOUCH command for the key, with its version, access time and maximum idle time |
| TouchCommand.TouchCommand.BeforeTransmit | trunk/cache/src/main/java/org/shoal/adapter/store/commands/TouchCommand.java:83-89 | records the choices; true exactly when there is a first choice to target |
| TouchCommand.TouchCommand.WriteObject | trunk/cache/src/main/java/org/shoal/adapter/store/commands/TouchCommand.java:91-97 | only the three longs are written, in order |
| TouchCommand.TouchCommand.ReadObject | trunk/cache/src/main/java/org/shoal/adapter/store/commands/TouchCommand.java:99-104 | the three longs are read in order; a short stream throws after the longs read so far are stored |
| TouchCommand.TouchCommand.Execute | trunk/cache/src/main/java/org/shoal/adapter/store/commands/TouchCommand.java:106-119 | the replica store is left unchanged |

## Left out

- Threads, `wait`/`notify`, sleeps and locks: each wait is a single step whose outcome is a parameter (`arrived`, `interrupted`). The model says nothing about interleavings.
- Clocks: the current time is the parameter `now`. One selection uses one `now`, while `setStateAndTime` reads the clock once per component.
- The health monitor's thread loops (`run`, `FailureVerifier.run`, `start`, `shutdown`), its message encoding (`createHealthMessage`, `getHealthMessage`, XML documents) and `send` over pipes. Sends appear only as actions in the log.
- The end of a health monitor thread: a `reportOtherPeerState` that throws on a missing advertisement ends the in-doubt or verification pass, which the model reports as `npe`. The exception then also ends the detector or verifier thread, since its `run` catches only InterruptedException. The model does not stop later passes from being called.
- Health states other than the nine names of `states[]`: the source caches whatever state text an entry carries, and `getState` returns it. In the model an entry's state is one of the nine.
- `pipeMsgEvent` of the health monitor: the loop over message elements, the `started` flag and the decoding are not modelled. A decoded `HealthMessage` goes straight to `Process`.
- The master node's status is an input and stays fixed within one step. The master node and the view manager (`ClusterManager`, `ClusterViewManager`, `MasterNode`) are not part of this model.
- The timeout of the health monitor is assumed positive (`timeout > 0`), because `computeMissedBeat` divides by it.
- Long overflow of `now - timestamp`, of a sequence counter past 2^63 and of `timeout + 250` is not modelled: integers are unbounded there. The `(int)` cast of the beat count is modelled, and so is the `intValue()` of the JXTA sequence counter in every route test.
- Shared state between threads: `getCacheCopy` makes a shallow copy of the cache; the model scans the cache itself.
- The order in which a Java set or `Hashtable` is iterated is left open. The methods return the order they used, and the contracts hold for every order.
- JXTA and Grizzly transports: pipe creation, route control, advertisements and the endpoint router become values (`PipeAdv`, `router`, `knownRoutes`). Transport I/O errors on pipe sends are not modelled.
- `findByServiceLoader` and `findByClassLoader` (reflection), `initialize`, `start` and logging of the network manager. Only the fallback class name of `getInstance` is modelled.
- The `messageEventNotProcessed` logging in `receiveMessage`, and the exceptions of listeners and hooks: they are caught and logged in the source, so they leave no trace in the model.
- `getDigestHashCode`, `printMemberStates`, `getKeyMappingInfo` and the locks of the key mapper.
- `Object.hashCode` of keys: a key carries its hash code as data.
- The recovery target selector's HOSTSELECT algorithm only returns false. The distributed state cache is the log of writes; `GMSException`s from it are modelled as rejected writes.
- Failures of `ID.create` and of the object stream's block framing. The serialised touch command is only the bytes of the three longs.
- `Long.parseLong` on Unicode digits other than '0'-'9': the model accepts ASCII digits with an optional sign.
- Messages are modelled as maps from tag to element: a message holds one element per tag, and namespaces are left out. Adding an element returns a new map instead of changing the message in place.
- `TouchCommand.execute` looks the entry up and then does nothing, as its unfinished body does.
- LwrMulticast.Multicast.Send: the message of the IllegalArgumentException for a negative threshold is not stated.
- JxtaLwrMulticast.JxtaMulticast.Send: the message of the IllegalArgumentException omits the threshold value that Java writes into it.
- JxtaLwrMulticast.JxtaMulticast.SendTo, SendToSet: `SendToSet` creates one pipe to the whole set and does not record it in `pipeCache`, as in the source. The `outbox` does not show whether a pipe send failed.

## Findings

| source | as written | input that shows it | evidently intended | confidence | as-written member | corrected member |
|---|---|---|---|---|---|---|
| gms/src/java/com/sun/enterprise/jxtamgmt/LWRMulticast.java:390 | the route advertisement is attached when `sequence.intValue() < 2` (also at lines 434 and 474); the narrowing wraps, so the test passes again for negative int values | message 2147483647 carries the route: `send` moves the counter to 2^31 before the test in `send(null, msg)`, whose `intValue()` is -2^31; every later message up to 2^32 + 1 carries it too | the route rides only on the first two messages (`sequence < 2` on the long counter) | not executed | JxtaLwrMulticast.RouteReattachedAfterWrap | JxtaLwrMulticast.StampedIntendedReadBack |

The JXTA channel's operations attach the route by the test as written (`WithRoute`, `Stamped`); the intended message is `StampedIntended`, which agrees with `Stamped` until message 2^31 - 2 (`StampedAgreeBeforeWrap`).
