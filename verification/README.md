# Accord halt plane, device join, co-scrub gossip and deferrals: a Dafny model

This project models the parts of the server whose correctness is about runs rather than single
calls, and proves what those runs keep.

**The accord halt plane.** A row signed by one accord holder pauses the agents of every node it
reaches; a fuse ends the pause unless a strict majority confirms it; a strict majority's
resumption, or an offline token bound to one latch, ends it as well. `HaltPlane.dfy` is one node
as a machine of small steps: a handler's relay, its reading of the latch, its write, its journal
line and its removal are separate steps, because handlers run in parallel
(`src/node_runtime.rs:265-280`) and nothing locks the latch file, so other handlers and crashes
fall between them. `HaltHistory.dfy` ties the latch to the history of a run, `HaltRelay.dfy` the
latch to what was relayed, and `HaltEnding.dfy` is about releases, crashes and the journal.
`HaltNetwork.dfy` is many nodes over any peer graph (`PeerGraph.dfy`), and `NodeRun.dfy` each of
them on its own: `Flood.dfy` says whom a row reaches, `HaltFlood.dfy` what a halt costs,
`LifecycleFlood.dfy` how far confirmations travel, `TokenEnding.dfy` what one token can end, and
`TokenRepeat.dfy` when it can end a latch again. `AccordNode.dfy` is the node as the program keeps it, a
class whose handlers update its fields, each proved to be one run of the halt plane.
`RowEffect.dfy` says what each kind of row does and is answered, `Resumption.dfy` what may end a
halt over the wire, and `Surfacing.dfy` what is shown of drills and announcements.
`Accord.dfy`, `HaltRecord.dfy`, `Release.dfy` and `EventLog.dfy` hold the rows, the latch record,
the token and the event log.

**Adding a device.** `JoinHost.dfy` is the owner's device as a host of join requests (a class with
the pending list, the decided map and the window), `JoinRuns.dfy` every interleaving of the join
plane with approvals that read, sign and record in separate steps, `JoinAnswer.dfy` what each
message is answered and what becomes of an approval, and `JoinApproval.dfy` the
approval the owner's device signs together with the check the new device runs offline.

**Co-scrubs, duties, certificate paths.** `CoScrub.dfy` is the bounded display store with its
loop-stop and the gap between its two locks, `CoScrubMesh.dfy` that store on many nodes, `Duty.dfy` the distinct-holder counting of a duty
conferral, `AttestationChain.dfy` the common-name scanner and the path built with it.

**Deferrals.** `Deferral.dfy` is the append-only store of deferral requests, responses and
identity amendments, with rows of other nodes arriving in between, and `DeferralAnswer.dfy` ties
what its rows say to what was asked and answered.

**Timing.** `Timing.dfy` is the retry backoff and the floor between nudged relay recomputations.

Cryptography is symbolic: a digest is the value it was taken of, a signature is the key that made
it with what it covers. Instants are integers in nanoseconds. Clock readings, fresh ids, custody,
and what the store beneath will answer are parameters.

## Where the code and what is said about it differ

The model follows the code. Each point below is a lemma about the code as it is, and where a
promise fails the exact condition under which it holds is proved beside it.

- The latch is said to tell what was decided. A confirmation reads it and writes it back with no
  lock, so one that a release or a newer halt overtook revives the halt it read, confirmed, for
  good (`HaltHistory.StaleConfirmationRevives`). `HaltHistory.StatusAgreesWithHistory` gives the
  exact condition, `HaltHistory.HauntedIsHaltedForever` what goes wrong without it, and
  `HaltHistory.LapsedRevivedIff` the same for a latch that lapsed.
- A confirmed halt is said to stand until a majority ends it. It stands exactly as long as no row
  is latched and nothing removes, reactivates or damages the latch
  (`HaltHistory.ConfirmedStandsIff`), and a repeated delivery of the very row that fired it does
  latch, unconfirmed (`HaltHistory.RepeatedDeliveryUndoesConfirmation`); so every latch property
  here is about the latest constitutional write.
- The halt path says "relay first, latch second". A handler does so exactly when it sighted the
  halt first or has no peers (`HaltRelays.RelaysBeforeLatchingIff`); a duplicate arriving while
  the first is still relaying latches at once (`HaltRelays.DuplicateLatchesBeforeTheRelay`). What
  holds always is `HaltRelays.LatchWriteWasRelayed`.
- Halts flood every reachable node. Confirmations and resumptions need not: a node relays one
  exactly if its first sighting took effect (`LifecycleFlood.RelayedIffFirstSightingTookEffect`),
  so it reaches exactly the nodes with a route along such nodes
  (`LifecycleFlood.LifecycleReachesExactly`),
  and one that comes before its halt stops there (`LifecycleFlood.ConfirmationCanStopHalfWay`)
  even though it confirms there later (`AccordNode.RefusedThenConfirms`).
- A release token is said to end one latch, once. Its handlers all read one latch instance
  (`TokenEndings.TokenEndsOneInstance`), and after one ending there can be another exactly while a
  handler of it is part-way on that node, or the instance is on its disk or about to be written
  back there by a confirmation (`TokenRepeats.CanEndAgainIff`); two handlers that overlap do end
  two latches (`TokenRepeats.OverlapEndsTwo`).
- A refused token in a restart loop is said not to grow the journal. True of every reason that does
  not read the clock (`HaltEnding.ClockFreeRefusalJournaledOnce`), false of expiry, whose text
  carries the clock (`HaltEnding.ExpiredRefusalJournaledEveryBoot`);
  `HaltEnding.RestartLoopCounts` gives the exact count.
- The distinct-key gate is called on every row and its answer is dropped (`src/accord.rs:2070`).
  A majority of seats is a majority of keys exactly on the rosters in which no two seats share an
  Ed25519 key (`Accord.MajoritiesAreOfKeysIff`).
- A drill is surfaced at its kind's threshold of one signature, not at a family quorum
  (`HaltPlane.OneSignerSurfacesADrill`).
- A denied, withdrawn or expired join request is said to be over. It can still be approved exactly
  when an approval of it is being signed at that moment
  (`JoinRuns.GoneCanBeApprovedIffBeingSigned`, `JoinRuns.DenialOverwritten`).
- "One response, one amendment" holds when handlers do not overlap
  (`Deferrals.OneResponseOneAmendment`); the check reserves nothing, so two overlapping ones are
  both written (`Deferrals.RepeatsIffStoredInBetween`, `Deferrals.TwoChecksTwoAmendments`).
- Adoption is said to take one path for every quorum. Proposing does not store and the proposer
  may not cosign, so it succeeds exactly with at least two holders in all
  (`Duties.AdoptedIff`): a family of one never adopts.
- The co-scrub store is called bounded. Its list is; the set of keys it has seen is never trimmed
  (`CoScrubs.SeenIsUnbounded`), so what the ceiling evicted or a clear removed can never be listed
  again (`CoScrubs.ListedAgainIff`).

## Model

| member | source | states |
|---|---|---|
| Accord.AssertDistinctRoster | src/accord.rs:436-456 | The gate accepts exactly the rosters in which no Ed25519 key and no ML-DSA key holds two seats, and on refusal names a seat that repeats an earlier one's key |
| Accord.CountsIff | src/accord.rs:2058-2074 | A seat counts exactly if it has both keys and they signed this very invocation in its name |
| Accord.QuorumNeedsASeat | src/accord.rs:393-415 | An empty roster reaches no threshold, and any row that reaches its threshold is authentic |
| Accord.QuorumIff | src/accord.rs:393-415 | Over any roster one seat fires a halt, a drill or an announcement, and a confirmation or resumption takes strictly more than half of the seats; each of them exactly |
| Accord.MajoritiesIntersect | src/accord.rs:405-415 | Any two confirmations or resumptions honored over one roster share a seat; over a roster the gate accepts each is the act of a strict majority of distinct keys |
| Accord.MajoritiesAreOfKeysIff | src/accord.rs:393-456 | Over a roster of distinct seats with both keys, every lifecycle row that reaches its threshold is the act of a strict majority of keys exactly when no two seats share an Ed25519 key |
| HaltRecords.NewRecord | src/accord_halt.rs:137-190 | A latch names its halt, node, payload and instance, carries the digest its release must sign whenever all four are there, starts unconfirmed and lapses the fuse after the instant of receipt |
| HaltRecords.BindingIff | src/accord_release.rs:162-190 | A latch has the binding a release needs exactly if its node, payload and instance are all there and not empty, and that binding is theirs |
| HaltRecords.InEffectIff | src/accord_halt.rs:193-237 | A latch is in effect exactly if confirmed or inside its fuse, and one whose instant cannot be read counts from the earliest instant there is |
| HaltRecords.OlderLatchLapses | src/accord_halt.rs:193-237 | A latch from before the receipt field counts from when it was latched, at the default fuse |
| Releases.ReleaseReferenceTime | src/accord_release.rs:460-468 | Expiry is judged at the later of the clock and the latch, and at nothing later |
| Releases.AcceptedIff | src/accord_release.rs:338-439 | Any token is accepted exactly if it is a resumption naming the halt latched, over the digest of that latch's own binding, with a readable window that reaches the reference instant, signed by at least the threshold of distinct seats; the verdict tells those facts |
| Releases.RefusedWhy | src/accord_release.rs:338-439 | A refusal names the first of those conditions that fails, with the values compared |
| Releases.RoundTrip | src/accord_release.rs:338-515 | A token built from a latch's binding and cosigned by enough seats is accepted for it exactly while its window reaches the reference instant |
| Releases.TokenNamesOneLatch | src/accord_release.rs:162-219 | A token accepted for two latches names one node, halt, payload and latch id |
| Releases.ConfirmationKeepsTheToken | src/accord_halt.rs:340-348 | Confirming a latch, or changing its stored digest, changes no verdict on any token |
| Releases.TamperedTokenRefused | src/accord_release.rs:338-439 | A token whose signatures cover anything else than what it carries is refused |
| Releases.StoredDigestIsDemanded | src/accord_halt.rs:137-190 | The digest a fresh latch stores for its release is the one an accepted token signed |
| EventLog.LogRefinesUnbounded | src/accord.rs:265-284 | The event log is the last 1024 of all newly recorded events, with no (type, id) twice |
| EventLog.ListedIsReversedSubsequence | src/accord.rs:1808-1831 | A listing read backwards is the log at exactly the positions of its type |
| HaltHistory.StatusAgreesWithHistory | src/accord.rs:1728-1784 | Over every run the status agrees with history at every instant (Halted exactly when a constitutional write still stands and its fuse has not run out or a strict majority confirmed it inside the fuse) exactly when some confirmation since, if there is any, found the latch untouched between its reading and its writing |
| HaltHistory.StatusTells | src/accord.rs:1728-1784 | Nothing latched, a latch lapsed, one in effect and one unreadable are each told as what they are, and as nothing else |
| HaltHistory.DamageIsToldUnknown | src/accord.rs:1728-1784 | Over every run the status is Unknown exactly from a damage of the latch until something writes or removes it; it is never told as not halted |
| HaltHistory.HauntedIsHaltedForever | src/accord.rs:2224-2249 | Otherwise the status is Halted at every instant, while history promises it inside the fuse of a standing halt only |
| HaltHistory.StaleConfirmationRevives | src/accord.rs:2224-2322 | From any quiet state with an unconfirmed halt in effect, a confirmation that read it before a majority resumption removed it writes it back, confirmed for good, with no halt standing |
| HaltHistory.StaleConfirmationFromBoot | src/accord.rs:2224-2322 | So from first boot on a node with no peers, with any halt and any confirmation and resumption naming it |
| HaltHistory.LapsedStaysLapsed | src/accord_halt.rs:210-237 | With no confirmation part-way and a clock that does not go back, a lapsed latch never takes effect again without a new constitutional write |
| HaltHistory.LapsedRevivedIff | src/accord.rs:2224-2274 | After a latch lapsed the status can be Halted again, without a new constitutional write or a clock going back, exactly when some confirmation, of this halt or of one before it, is part-way |
| HaltHistory.ConfirmedStandsIff | src/accord_halt.rs:210-237 | Over every run a confirmed latch stays confirmed, so in effect at every instant, exactly as long as no step latches a constitutional row, removes the latch, reactivates or damages it |
| HaltHistory.RepeatedDeliveryUndoesConfirmation | src/accord.rs:2167-2223 | Delivering the firing row again turns a latch that stood forever into one that lapses with its fuse |
| HaltRelays.SeenTellsItsStory | src/accord.rs:2148-2166 | A binding key is in the seen set only if a binding row was sighted first under it |
| HaltRelays.SeenIffRemembered | src/accord.rs:2144-2166 | A key is in the seen set exactly if an authentic row of it was received and no crash and no overflow came since; the set stays within its bound; so a sighting is first exactly if the key is not remembered or the set is full |
| HaltRelays.OnlyBindingSightingsSilence | src/accord.rs:2144-2166 | Sub-threshold sightings never spend a binding row's first sight |
| HaltRelays.LatchWriteWasRelayed | src/accord.rs:2144-2189 | Every latch write goes back to a binding row received in the same life, with its id, signers and instant, and to a relay of that halt to every peer begun no later, across re-deliveries and clears of the seen set |
| HaltRelays.RelaysBeforeLatchingIff | src/accord.rs:2167-2189 | A handler has sent the halt to every peer, as often as listed, before it writes the latch exactly when it sighted the halt first or has no peers |
| HaltRelays.DuplicateLatchesBeforeTheRelay | src/accord.rs:2160-2189 | A duplicate delivered meanwhile latches the node before one send |
| HaltEnding.RemovalIsJournaledFirst | src/accord_halt.rs:353-370 | Wherever a run is cut, a handler about to remove the latch has an honored line for the record it read in the journal |
| HaltEnding.JournaledOnce | src/accord_halt.rs:353-370 | Between its reading of the latch and its removal a release is journaled exactly once |
| Resumptions.EveryResumptionNamedItsHalt | src/accord.rs:2275-2322 | Over every run each line that says a halt was resumed over the wire goes back to a reading of the latch that held that very record, for a resumption by a strict majority that names that halt, with its signers |
| Resumptions.RemovalsAreResumed | src/accord.rs:2275-2322 | A handler of a resumption removes a latch only with such a line in the journal |
| HaltEnding.JournalGrowsExactly | src/accord_release.rs:579-710 | What each step adds to the journal, exactly: a releaser's line, a failed removal, or a refusal that does not repeat the last line |
| HaltEnding.TokenFileMoves | src/accord_release.rs:618-629 | A token is on disk from its presentation to its consumption, whatever else happens |
| HaltEnding.CrashKeepsTheDisk | src/accord_halt.rs:266-303 | A crash forgets what is in memory, keeps latch, journal and token, and ends every handler but the release commands apart |
| HaltEnding.RemovesWhatItJournaledIffUntouched | src/accord_release.rs:579-629 | A release removes exactly the record it journaled if and only if nothing moved the latch between its reading and its removal or the last thing that did wrote that very record; with fresh latch ids, for an unconfirmed one, only the first |
| HaltEnding.RebootHonorsOnlyTheSameLatch | src/accord_halt.rs:266-303 | After a crash, a token already journaled as honored is accepted only for a latch of the same binding |
| HaltEnding.RefusalsNeverRepeat | src/accord_release.rs:679-710 | No two adjacent journal lines refuse the same token for the same reason |
| HaltEnding.RestartLoopCounts | src/accord_release.rs:641-710 | Restarting on a refused token leaves the latch and adds one line per change of reason |
| HaltEnding.ClockFreeRefusalJournaledOnce | src/accord_release.rs:679-710 | For a reason that does not read the clock that is at most one line |
| HaltEnding.ExpiredRefusalJournaledEveryBoot | src/accord_release.rs:400-409 | For an expired token it is one line per boot whose clock reads differently |
| Floods.FlightConserved | src/accord.rs:2005-2026 | Over every run of the mesh what was sent is what was delivered and what is in flight: no message is lost, made up or delivered twice |
| Floods.EveryoneOwes | src/accord.rs:2005-2322 | With reliable delivery, each peer of a node that relayed a row has received it, has it in flight, or is still to be sent it |
| Floods.FloodReachesExactly | src/accord.rs:2005-2322 | Over any peer graph and run a row is received only along a route from an injection through nodes that relayed it; with reliable delivery, once it has settled, exactly along those |
| Floods.EveryoneHonorsHalts | src/accord.rs:2144-2189 | With reliable delivery a node that received a halt relayed it, and has latched it or has a handler about to |
| Floods.HaltFloodReaches | src/accord.rs:2005-2189 | Over any peer graph, once a halt has settled every node reachable from one that received it has received and latched it |
| HaltFloods.EachPeerSentAtMostOnce | src/accord.rs:2005-2166 | While no seen set is cleared a node sends a halt to each peer at most as often as listed, and exactly so once the halt has settled |
| HaltFloods.HaltFloodBounded | src/accord.rs:2005-2026 | So a halt costs at most the sum of the out-degrees in messages |
| TokenEndings.AlwaysInPlace | src/accord_halt.rs:137-181 | With fresh latch ids, an id is on disk, in the hands of a confirmation or of a token handler, or ended, only on the node that minted it, and always with the record written then, confirmed or not |
| TokenEndings.EndingsInTime | src/accord_release.rs:579-629 | Once a token ended an instance it is off the disk, and no handler reads it again, unless a confirmation wrote it back since |
| TokenEndings.TokenEndsOneInstance | src/accord_release.rs:579-629 | Across all nodes and runs, all endings of one token are of handlers that read one latch instance on one node; a later one means its handler overlapped the earlier or the instance was written back in between, and removed that instance only in the second case |
| TokenRepeats.CanEndAgainIff | src/accord_release.rs:579-629 | Once a token accepted for an instance of a node has ended a latch, some continuation has it end one again exactly when a handler of it is part-way on that node, or a confirmation there is about to write the instance back, or the instance is on its disk |
| TokenRepeats.OverlapEndsTwo | src/accord_release.rs:579-629 | From any run that leaves a latch, a token for it honored by two overlapping handlers, with any halt latched between their removals, ends two latches, the second one never read by either |
| NodeRuns.NodeRunIsTheNode | src/accord.rs:2041-2322 | The steps of a mesh run that are one node's are a run of the halt plane and leave that node as it is |
| NodeRuns.EveryNodeAgreesWithHistory | src/accord.rs:1728-1784 | So on every node of every mesh the status agrees with that node's history exactly when its latch is not haunted |
| NodeRuns.RelayedIffLaunched | src/accord.rs:2144-2322 | What the mesh says a node relayed is what that node's own run launched |
| LifecycleFlood.RelayedIffFirstSightingTookEffect | src/accord.rs:2224-2322 | While a node remembers, there is one first decision of a confirmation or resumption, and the node relays it at all exactly if that decision found it to take effect |
| LifecycleFlood.LifecycleReachesExactly | src/accord.rs:2005-2322 | Over any peer graph and run a confirmation or resumption is received only along a route from an injection through nodes where it took effect when first decided; with reliable delivery, once it has settled, exactly along those |
| LifecycleFlood.ConfirmationCanStopHalfWay | src/accord.rs:2224-2268 | Over any mesh, a confirmation that reaches a node before its halt, and is injected nowhere else while that node remembers, is never received by any other node, whatever else happens |
| AccordNode.Server.RecordEvent | src/accord.rs:269-284 | The search loop and the drain compute the log's record step, and answer whether the event was new |
| AccordNode.Server.ListEvents | src/accord.rs:1808-1831 | The listing loop computes both listings |
| AccordNode.Server.HaltStatus | src/accord.rs:1728-1784 | The status surface answers the status of the latch at that instant |
| HaltPlane.OneSignerSurfacesADrill | src/accord.rs:2098-2118 | Over any roster a drill is surfaced on one valid signature, and without one not at all |
| Surfacing.EveryEventWasSigned | src/accord.rs:2091-2142 | Over every run each drill and announcement surfaced goes back to a received row of that kind that seats of the roster signed, with those signers, and an announcement shows exactly the text whose digest they signed |
| Surfacing.SurfacesExactly | src/accord.rs:2091-2142 | A receipt surfaces a signed drill or announcement not held yet, last, the oldest giving way when the log is full, and nothing else |
| Surfacing.OnlyReceiptsSurface | src/accord.rs:265-284 | Nothing but a receipt surfaces anything, and a crash clears the log |
| RowEffects.ForgedDoesNothing | src/accord.rs:2041-2090 | A row nobody on the roster signed leaves the node as it is, is sent nowhere and fires nothing |
| RowEffects.HaltLatches | src/accord.rs:2167-2223 | A constitutional row one seat signed latches this very halt, unconfirmed, counted from its receipt, over whatever was latched, and is relayed at first sight |
| RowEffects.ConfirmationConfirmsIff | src/accord.rs:2224-2274 | A majority's confirmation takes effect exactly if it names the halt that stands and is still in effect; the first one confirms it with its signers and is relayed, a later one changes nothing, any other is told why |
| RowEffects.ResumptionReleasesIff | src/accord.rs:2275-2322 | A majority's resumption leaves no latch exactly if the latch held names that halt, journaled and relayed; otherwise latch and journal stay and it is told why |
| RowEffects.MinorityOnlyTravels | src/accord.rs:2041-2322 | A confirmation or resumption without a majority changes nothing and is relayed at first sight |
| RowEffects.NonBindingOnlyTravels | src/accord.rs:2041-2142 | Drills and announcements leave latch and journal alone and are relayed at first sight |
| RowEffects.OutboxIsWhatIsSent | src/accord.rs:2005-2026 | What a node puts in flight for a row is, in order, what its handler's steps send |
| AccordNode.Server.ReplicateToPeers | src/accord.rs:2005-2026 | The relay loop puts the row in flight once per listed peer, in order |
| AccordNode.Server.Sight | src/accord.rs:2160-2166 | The sighting answers first sight and leaves the set cleared on overflow and holding the key |
| AccordNode.Server.Surface | src/accord.rs:2098-2142 | Drills and announcements are surfaced, an announcement's text only when its digest is the signed one |
| AccordNode.Server.ReleaseHalt | src/accord_halt.rs:353-370 | The release leaves its line last in the journal and no latch |
| AccordNode.Server.HonorHalt | src/accord.rs:2167-2223 | Relays to the peers in order if first, then leaves a new latch naming the halt, its signers and threshold |
| AccordNode.Server.HonorConfirmation | src/accord.rs:2224-2274 | Confirms a standing unconfirmed halt named in time and then relays; every refusal leaves latch and outbox and says why |
| AccordNode.Server.HonorResumption | src/accord.rs:2275-2322 | Journals and removes the halt named and then relays; every refusal leaves latch, journal and outbox and says why |
| AccordNode.Server.Act | src/accord.rs:2167-2322 | A row that met its threshold goes to its own branch: latch, journal, messages and answer in each |
| AccordNode.Server.ReplicateAndMaybeHalt | src/accord.rs:2041-2322 | Uninterrupted, the one path every row takes is exactly its run of the halt plane in state and in messages, and answers who signed, what took effect and for which reason it was refused |
| AccordNode.RefusedThenConfirms | src/accord.rs:2160-2274 | A confirmation before its halt is refused, and again after it confirms, and neither is ever relayed |
| AccordNode.Server.JournalRefusal | src/accord_release.rs:679-710 | The refusal is journaled unless it repeats the last line |
| AccordNode.Server.HonorReleaseToken | src/accord_release.rs:579-629 | Verify, journal, remove, consume: the new journal, latch and token file in every outcome, equal to the halt plane's run |
| AccordNode.Server.LoadHaltLatch | src/accord_halt.rs:266-303 | Boot never refuses: it errs only on an unreadable latch, removes the latch only on a token that verifies for it, is one run of the halt plane when a token is presented, and changes nothing when none is |
| JoinApprovals.NamedUnderOneIdentity | src/add_device.rs:1163-1177 | No key is a roster key of two identities |
| JoinApprovals.RosterKeyNamesItsKey | src/add_device.rs:1030-1036 | The naming rule and the fingerprint check agree: a roster key's id names its own key |
| JoinApprovals.ProducedIsAccepted | src/add_device.rs:1562-1718 | An approval the owner's device returns is accepted by the requester exactly when the person entered the pen's identity, the pen's keys are the registered ones, the identity's id names its key and the claim PIN is there |
| JoinApprovals.SignedOnlyForTheEnteredIdentity | src/add_device.rs:1562-1594 | A request whose key is named under another identity than the pen's is never signed, so the first of those conditions holds by itself |
| JoinApprovals.AcceptedNamesOneOwner | src/add_device.rs:1004-1080 | An accepted approval names one owner, this node, the owner's purpose and the minted key throughout, over infrastructure scopes alone, and one pair of keys, one of them named by that owner's id, signed both parts |
| JoinApprovals.ApprovalFitsOneDevice | src/add_device.rs:1004-1080 | No approval is accepted by two devices, for two owners or for two minted keys |
| JoinApprovals.RecordedInOrder | src/add_device.rs:1562-1668 | Nothing is recorded for a key not named under the owner or a node code that does not name the sender; the binding goes before the occurrence; a held approval has recorded the binding and no occurrence |
| JoinApprovals.RowsAreTheRequests | src/add_device.rs:1562-1668 | What an approval records is a first part of: the pen's binding of the sender over the infrastructure scopes; the minted key, unless known; the occurrence with the request's own key, class and encryption |
| JoinApprovals.ApprovedIff | src/add_device.rs:1562-1718 | An approval comes back exactly if there is a pen, the key is named under it, the node code names the sender, the store takes binding and key, the occurrence lands and the owner's code can be written; and it carries those rows |
| JoinApprovals.NotApprovedWhy | src/add_device.rs:1562-1718 | Every refusal states a condition that failed and how many rows were recorded by then |
| JoinHosts.CodesAgreeIff | src/add_device.rs:136-147 | Two requests show the same six digits exactly when their digests agree modulo a million |
| JoinAnswers.SweepKeepsExactly | src/add_device.rs:202-219 | A sweep keeps exactly the requests and decisions inside their times, in order, and a window that has not ended |
| JoinAnswers.JoinIsAnswered | src/add_device.rs:228-293 | In every reachable state, each of the five answers to a join with the exact condition for it; only a new request changes anything |
| JoinAnswers.WithdrawalIsTheSendersOwn | src/add_device.rs:296-325 | In every reachable state a withdrawal is answered 200 exactly if the id is pending or decided for that sender and challenge; then it alone leaves and an approval it held is handed over; otherwise 404 and nothing changes |
| JoinAnswers.PollIsTheSendersOwn | src/add_device.rs:326-357 | In every reachable state a poll changes nothing but the sweep and is told the decision or the code exactly if they are this sender's, with its challenge |
| JoinAnswers.GarbledChangesNothing | src/add_device.rs:228-240 | What cannot be read is answered 400 and does not even sweep |
| JoinHosts.Host.Sweep | src/add_device.rs:202-219 | The sweep drops what outlived its time and closes a window past its end |
| JoinHosts.Host.Respond | src/add_device.rs:228-357 | One message of the join plane, answered and applied as specified |
| JoinHosts.Host.OpenWindow | src/add_device.rs:1238-1266 | The window closes ten minutes from now, or as asked, never later than thirty |
| JoinAnswers.WindowLasts | src/add_device.rs:1238-1266 | Ten minutes by default, as asked up to thirty, thirty beyond that |
| JoinHosts.Host.Deny | src/add_device.rs:1301-1328 | A denial moves the pending request to decided |
| JoinAnswers.DenialIsOfOne | src/add_device.rs:1301-1328 | In every reachable state a denial is of the one pending request of that id, decided for its own sender and challenge, and unknown exactly if there is none |
| JoinHosts.Host.RecordApproved | src/add_device.rs:1412-1438 | Recording drops the request from pending and decides it approved, whatever was decided before |
| JoinAnswers.RecordsOne | src/add_device.rs:1412-1438 | In every reachable state recording decides that id alone and drops its request alone |
| JoinHosts.Host.Hold | src/add_device.rs:1356-1365 | A held approval keeps the instant it was first held |
| JoinAnswers.HoldsOne | src/add_device.rs:1356-1365 | In every reachable state holding stamps the request of that id alone, once |
| JoinHosts.Host.HeldRequest | src/add_device.rs:1460-1473 | The resumption sweeps, then finds the request only while pending and held |
| JoinAnswers.ConsentTakesUp | src/add_device.rs:1331-1356 | Consent takes up a request exactly if it is pending, with its sender and what it asked |
| JoinAnswers.WakingTakesUp | src/add_device.rs:1460-1500 | A waiting approval is taken up again exactly if its request is pending and held after a sweep, and dropped otherwise |
| JoinAnswers.ApprovalsEnd | src/add_device.rs:1331-1500 | Recording ends an approval, being held makes it wait, giving up ends one not held before, and nothing else touches one |
| JoinRuns.AlwaysSound | src/add_device.rs:202-357 | Under every interleaving: at most eight pending, ids and senders unique, pending and decided disjoint, each code its own sender's, each decision about the request issued under its id, each approval consented to |
| JoinRuns.PollSeesOnlyItsOwnApproval | src/add_device.rs:326-357 | A poll is answered Approved only for the sender and challenge that created that id, after the owner's consent found it pending, with an approval signed for that request |
| JoinRuns.JoinEndToEnd | src/add_device.rs:712-735 | Whatever approval a poll brings back, the new device accepts it for the entered identity exactly when the pen is the registered one, its id names its key and the claim PIN is there |
| JoinRuns.RequestsJoinInsideAWindow | src/add_device.rs:239-245 | Every request ever held was admitted inside the window that stood at that moment: before its end, at most half an hour after it was opened, and, with a clock that does not go back, no earlier than it was opened |
| JoinRuns.CeilingRefusalJustified | src/add_device.rs:239-272 | A join is refused for the ceiling exactly when it is well formed, in the window, from a sender with no slot, and eight senders each joined within the time to live or are held within the held one |
| JoinRuns.RepeatJoinIsIdempotent | src/add_device.rs:254-264 | A sender whose request is live and asks again is told the same id and code |
| JoinRuns.LeavesUnapproved | src/add_device.rs:296-325 | A request that leaves the list other than by an approval is gone: issued, not pending, not approved |
| JoinRuns.GoneCanBeApprovedIffBeingSigned | src/add_device.rs:1331-1438 | A gone request can still end up approved exactly when an approval of it is being signed now by a device that can sign it |
| JoinRuns.DenialOverwritten | src/add_device.rs:1302-1438 | Read, deny, record: the poll that would have been told Denied is told Approved |
| CoScrubs.CoscrubStore.Insert | src/accord_provision.rs:2524-2535 | Under the second lock: retain, push, drain to the ceiling |
| CoScrubs.CoscrubStore.UpsertPending | src/accord_provision.rs:2517-2535 | The whole insertion: nothing for a key seen before |
| CoScrubs.CoscrubStore.ClearPending | src/accord_provision.rs:2538-2546 | Clearing a target drops its entries, keeps the rest in order, and leaves the keys seen |
| CoScrubs.CoscrubStore.Ingest | src/accord_provision.rs:2582-2627 | A partial with no scrub or no target changes nothing; any other is gossiped exactly when its key is new |
| CoScrubs.StoreRefinesSurvivors | src/accord_provision.rs:2517-2546 | For any arrival order and any gap between the locks the list is a suffix of what survives of everything inserted and not cleared |
| CoScrubs.ExactUntilFull | src/accord_provision.rs:2530-2533 | Until more than 256 survive at once it is all of it |
| CoScrubs.CoscrubListIsSound | src/accord_provision.rs:2517-2546 | At most 256 entries, each with a scrub and a target, its key seen and gossiped, counts strictly decreasing per target |
| CoScrubs.BestPartialSurvives | src/accord_provision.rs:2514-2535 | In any order the partial with the highest count for a target survives exactly if the target was not cleared after it was listed |
| CoScrubs.AlwaysLoopStopped | src/accord_provision.rs:2518-2523 | Every key seen is either between the two locks or was gossiped, never both, never twice |
| CoScrubs.ListedAgainIff | src/accord_provision.rs:2517-2546 | A key seen and not listed, whether superseded, evicted or cleared, is ever listed again exactly when its one arrival is still between the two locks |
| CoScrubs.SeenIsUnbounded | src/accord_provision.rs:2517-2535 | For any number some run has seen that many keys and lists at most 256 |
| CoScrubMesh.GossipReaches | src/accord_provision.rs:2548-2577 | With reliable delivery over any peer graph, a key at rest has been seen wherever a node that saw it leads |
| CoScrubMesh.FloodEnds | src/accord_provision.rs:2548-2577 | Over any run of the mesh, gossiping finitely many keys costs at most that many times the out-degrees in messages |
| Deferrals.CheckIsTheRule | src/agent_deferral.rs:429-510 | The check passes exactly for well-formed input, an approved response about this agent by a seated authority answering this agent's request, not cited by an amendment yet |
| DeferralAnswers.AmendmentRefusedWhy | src/agent_deferral.rs:429-510 | A refused amendment is told bad input, used or unauthorized, each exactly |
| DeferralAnswers.IdentityIsTheFirstAgent | src/agent_deferral.rs:209-237 | The identity is the first agent among the principals that is not this engine's own key |
| DeferralAnswers.RequestStoredIff | src/agent_deferral.rs:279-330 | A deferral is stored exactly if its ids, its digest and its room are well formed, and the row is fully determined |
| Deferrals.Door.EmitRequest | src/agent_deferral.rs:279-330 | The request is stored about the agent's identity in the named room, the owner's pair room or none, or refused and nothing is stored |
| Deferrals.Door.EmitResponse | src/agent_deferral.rs:336-420 | The response copies the request's room, deferral id and subject, or the session's refusal stores nothing |
| DeferralAnswers.ResponseStoredIff | src/agent_deferral.rs:336-420 | An answer is stored exactly if its deferral is and the session holds the owner's pen; it says yes exactly if the owner did, and every refusal has its exact condition |
| DeferralAnswers.ResponsesSayWhatWasAnswered | src/agent_deferral.rs:383-420 | Over every run each response this door stored says what the owner said in the step that stored it, in a session that held the pen that signs it, to a deferral that stood in the store |
| DeferralAnswers.RequestsSayWhatWasAsked | src/agent_deferral.rs:279-330 | Over every run each deferral this door stored was asked, about the agent of that moment |
| Deferrals.Door.EmitAmendment | src/agent_deferral.rs:429-532 | Undisturbed, the amendment is stored exactly when the check passes, citing the response |
| Deferrals.EveryAmendmentHasProvenance | src/agent_deferral.rs:429-532 | Over every run, overlapping or not, for each amendment this door wrote there was a check step at which a stored approved response about the agent of that moment, by a key of the self of the owner of that moment, not yet cited, answered a stored request by it; the amendment cites it, carries the digest checked and stands after both |
| DeferralAnswers.EveryAmendmentWasApproved | src/agent_deferral.rs:383-532 | Where the response cited is this door's own, the owner said yes, in a session that held the pen that signs it, about the same agent in the same room |
| DeferralAnswers.AmendmentsAreDated | src/agent_deferral.rs:494-532 | Each amendment this door stored is signed by this engine, carries the checked draft and dates from its writing |
| Deferrals.OneRoomAlongTheChain | src/agent_deferral.rs:104-108 | For responses of this door's own, request, response and amendment share one room |
| Deferrals.RepeatsIffStoredInBetween | src/agent_deferral.rs:494-532 | An amendment repeats a response exactly when another citing it was stored between its check and its writing |
| Deferrals.OneResponseOneAmendment | src/agent_deferral.rs:494-505 | With handlers that do not overlap, no response backs a second amendment of this door's |
| Deferrals.TwoChecksTwoAmendments | src/agent_deferral.rs:494-532 | Two overlapping handlers for one approval both write |
| Duties.SortedOnce | src/accord_duty.rs:201-209 | Sorting and removing repeats lists each member exactly once, so its length is the number of distinct ones |
| Duties.SameDutiesSameEnvelope | src/accord_duty.rs:271-283 | What a proposer signs does not depend on the order or repetition of the duties asked for |
| Duties.ProposedIff | src/accord_duty.rs:260-400 | A proposal is accepted exactly under its seven conditions, each refusal stating one that failed, and the partial carries what was asked, each duty once, signed by its holder alone |
| Duties.DutyDesk.DistinctScrubs | src/accord_duty.rs:201-209 | Counting equals the number of distinct holders of any partial |
| Duties.DutyDesk.Cosign | src/accord_duty.rs:422-579 | Each refusal, the inert answer below quorum, and the stored row at quorum |
| Duties.CosignAddsOne | src/accord_duty.rs:457-487 | Each accepted cosign adds exactly one holder and changes nothing that was signed |
| Duties.CosignedIff | src/accord_duty.rs:422-538 | A cosign is accepted exactly if the bytes are intact, custody opens, the holder is new, and the quorum is open or the store admits; its scrub goes last |
| Duties.CeremonyCounts | src/accord_duty.rs:422-579 | Over a whole ceremony the holders are those it began with and one per accepted turn, over the same envelope |
| Duties.NothingStoredBelowQuorum | src/accord_duty.rs:474-538 | Nothing is stored while the count is below every quorum asked; what is stored carries the first envelope and a quorum of distinct holders |
| Duties.StoredAtItsQuorum | src/accord_duty.rs:474-538 | Every row a ceremony stores was stored in a turn, at the quorum asked in that very turn, with one holder for each turn accepted before |
| Duties.AdoptedIff | src/accord_duty.rs:260-538 | At a fixed quorum before an admitting store, some turns of given holders adopt a proposal exactly when they and its proposer are at least that quorum and at least two |
| AttestationChain.CertCns | src/accord_provision.rs:675-705 | The byte scanner finds exactly the left-to-right non-overlapping common names, never out of range, and answers the first two |
| AttestationChain.MatchesAreMaximal | src/accord_provision.rs:675-705 | Matches do not overlap, and an occurrence left out lies inside one |
| AttestationChain.FoundIffEncoded | src/accord_provision.rs:675-705 | A common name is found at a place, to its end and with its text, exactly if those bytes are the identifier, one of three string tags, a short length and that text |
| AttestationChain.NamesRead | src/accord_provision.rs:669-705 | The first two names are the issuer and the subject, a lone one is both, none reads nothing |
| AttestationChain.IssuerPrecedesSubject | src/accord_provision.rs:669-705 | Of two readable names the earlier is the issuer and the later the subject |
| AttestationChain.YubicoIntermediates | src/accord_provision.rs:707-728 | The bundle lists each readable certificate, in order, under the subject read out of it |
| AttestationChain.BundleConcat | src/accord_provision.rs:707-728 | The bundle keeps the blocks' order |
| AttestationChain.BundleOfOne | src/accord_provision.rs:707-728 | A block is bundled exactly if it decodes to a certificate with a name, under the subject |
| AttestationChain.HopIff | src/accord_provision.rs:734-766 | The walk goes on exactly from a certificate whose issuer is readable, not the root and bundled, to the first such |
| AttestationChain.CompleteAttestationChain | src/accord_provision.rs:734-766 | The chain is a path from the leaf of at most nine links, shorter only where no hop leads on |
| AttestationChain.IssuersChain | src/accord_provision.rs:734-766 | Each link's issuer is the next link's subject and not the pinned root |
| AttestationChain.ReachesTheRootIff | src/accord_provision.rs:734-766 | The chain ends at a certificate the root issued exactly when some path of at most nine links does |
| Timing.Backoff.Fail | src/backoff.rs:57-62 | The delay returned is the base doubled once per failure since the last success, cut at the ceiling; it aborts exactly when doubling overflows |
| Timing.Backoff.Succeed | src/backoff.rs:64-68 | A success starts again from the floor |
| Timing.Backoff.Peek | src/backoff.rs:76-80 | Tells the delay the failures since the last success call for, and records nothing |
| Timing.Backoff.AtCeiling | src/backoff.rs:82-88 | The ceiling is reported exactly when the delay for the failures so far is the ceiling |
| Timing.HeldIsTheDelay | src/backoff.rs:46-68 | Over any call sequence the delay held is that one |
| Timing.NeverOverflowsIff | src/backoff.rs:57-62 | No call sequence overflows exactly when the ceiling can be doubled or the base is zero |
| Timing.RelayClock.Refresh | src/announced_relay.rs:358-381 | A pass recomputes and moves the clock exactly when periodic, or nudged on a relay past the floor |
| Timing.NudgesBounded | src/announced_relay.rs:199-201 | With nondecreasing starts, nudges cause at most L / 15 s + 1 recomputations in a window of length L |
| Timing.RecomputesIff | src/announced_relay.rs:358-381 | Over any calls a periodic pass always recomputes, and a nudged one exactly if the node relays and every recomputation before it started at least fifteen seconds earlier |

## Left out

- HTTP handlers, sessions as such, JSON parsing, status codes other than the join plane's, and tracing.
- Real cryptography, canonical JSON (RFC 8785 section 3.2), random ids, hardware custody and `ykman`.
- The persistence, edge and verification crates: required signatures, roster resolution, admission gates and self rosters are taken as `src/accord.rs` and `src/auth` state them. In particular the four scopes of an owner binding count as infrastructure scopes and any other as agency, and a record registered while a binding is stored carries the pen's keys.
- Failed file writes and the eight retries of the latch write; one file write or removal is one step.
- A preemption between a row's sighting, its surfacing and the choice of its branch, which are one step; between the latch read and the clock read of a confirmation; inside one latch file write.
- A release command dying by itself: it is a handler that takes no further step, and outlives crashes of the node.
- Accord reactivation beyond being a step that may remove the latch at any time.
- The pending-invocation table of the accord routes, and the 256-line limit on reading the journal back.
- The signed envelope inside an accepted occurrence: the offline check compares the row's columns and verifies the envelope's signature, and leaves comparing the two to the store.
- The requester's poll loop, cancellation, and its held approval on disk; eviction of a withdrawn approval beyond handing it over.
- Fuse and window arithmetic at the ends of the clock library's range; roster lengths beyond machine integers.
- White space outside ASCII in trimmed inputs, and text as anything but a sequence of characters.
- The display-only fields of a co-scrub entry, and gossip as anything but one fan-out per new key.
- The advisory block of a duty conferral's answer, and custody that opens but fails to sign.
- The relay sets themselves (a union over announced nodes) and the backoff's callers.
- Preemption inside the storing of one deferral request or response; only an amendment's check and writing are separate steps.
- JoinHosts.Host.Respond: is stated against the specification of one message; what the join plane promises is stated by the run lemmas.
