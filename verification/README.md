# Mouser: a Dafny model of its pure state machines

Mouser shares one keyboard and mouse between computers. Its hard logic lives in I/O-free state machines:
file transfer, the input-ownership token, coordinator election, the source side of the input engine,
clipboard sync, the replicated layout register, and two byte-level parsers. This project models those
machines and proves what they promise over all inputs and all runs.

`dafny verify dfyconfig.toml` checks everything. A machine that the program updates in place is a class whose
methods are proved equal to transition functions on values; the results about whole runs, networks and round
trips are lemmas about those functions. Every lemma switches automatic induction off, so each inductive step is
written out.

| modules | contents |
|---|---|
| `FileTypes`, `FileSender`, `FileReceiver` | the two halves of a transfer |
| `FileChannels`, `FileTransfer`, `FileOutcome`, `FileLoss` | both halves joined by two FIFO channels: invariant, termination, agreement, delivery, and what a lost chunk does |
| `FileSafety` | each half alone against any peer: admission, windows, sinks, refusals |
| `Ownership`, `OwnershipNet` | the epoch token, and N devices on a network that loses, duplicates and reorders |
| `Election`, `ElectionRuns`, `ElectionNet`, `ElectionTiming` | leases and terms, runs, provenance in a network, timing of renewals |
| `AxisMap`, `EngineCore`, `EngineRuns`, `EngineReturn`, `EngineEdges`, `EngineWire` | edge crossing, forwarding, reclaiming, coordinate mapping, and what reaches the peer |
| `ClipCanonical`, `ClipReassembly`, `ClipTracking`, `ClipEngine`, `ClipSync`, `ClipEcho`, `ClipPolicy` | clipboard sync |
| `LayoutCodec`, `LayoutRegister` | the sortable layout stamp and the register that holds it |
| `Framing`, `ControlStream`, `DerKey` | control frames, the cancel-safe receive buffer, the certificate walk |

How the environment appears in the model:

- SHA-256 is a function parameter `sha`; nothing is assumed about it beyond a 32-byte result where a length matters.
- Device ids are numbers in the ownership, election and engine modules; `LayoutCodec.IdOrderIsNumeric` proves that
  the order of 32-byte ids is the order of those numbers.
- A byte source may return any number of bytes up to what was asked (`ReadUpTo`) or fail; a sink write and each
  `finish()` may fail; name resolution in the quarantine directory is the predicate `safeName`.
- Clocks are parameters. Election times are nanoseconds, because a `Duration` divided by three truncates there.
- Counters saturate where the code saturates; the emergency-escape sum wraps at 32 bits as the release build does.
- A receive attempt on the control stream carries the number of reads after which its future is dropped.
- Automerge is a set of changes, each with the set of changes its author held; a register exposes the writes that no
  other write held has in its past.

Where code and comments disagree, the model follows the code:

- The receiver says a re-ack makes the sender rewind (crates/mouser-files/src/receiver.rs:290-294). The sender never
  rewinds `sent`, so after the loss of any one chunk neither side ever completes: `FileLoss.LossStalls`, with a
  reachable hang in `FileLoss.LossExample` and the exact condition in `FileLoss.CompleteIffLossless`.
- The key extraction is said to reject anything that is not a 32-byte Ed25519 key (crates/mouser-net/src/identity.rs:94).
  It looks at no tag but an optional [0] and never at the algorithm: `DerKey.NotOnlyCertificates` and
  `DerKey.OtherAlgorithmsAreRead` give inputs, `DerKey.ExactlyShapes` states exactly what it accepts.
- A holder never lapses for tick gaps up to ttl - ttl/3 only if the gap is also below the TTL itself, which matters
  for TTLs under 3 ns: `ElectionTiming.HolderSurvivesIff` states the exact bound.
- Canonicalizing twice is not always canonicalizing once: `ClipCanonical.TextIdempotentIff` and
  `ClipCanonical.UriListIdempotentIff` state exactly when it is.
- A grant and a reclaim at one epoch are first-come at each device: `OwnershipNet.OrderIrrelevantIff` states exactly
  when the order of one epoch's claims does not matter.
- The escape accumulator is the true sum exactly when that sum is at most i32::MAX (`EngineReturn.TravelExactIff`), so a
  huge push can fail to reclaim: `EngineReturn.HugePushIsLost`, with the exact condition in
  `EngineReturn.PushReclaimsIff`.

## Model

| member | source | states |
|---|---|---|
| FileSender.Sender.New | crates/mouser-files/src/sender.rs:58-88 | a sender exists exactly for 1 to u32::MAX files, with nothing sent or acked |
| FileSender.Sender.WithChunkSize | crates/mouser-files/src/sender.rs:91-97 | chunk sizes from 1 byte to 1 MiB are taken, others refused and nothing changes |
| FileSender.Sender.OnAccept | crates/mouser-files/src/sender.rs:124-172 | the two loops refuse the whole accept on its first fault, else move exactly the named files to their offsets |
| FileSender.Sender.OnAck | crates/mouser-files/src/sender.rs:185-210 | refuses acks beyond what was sent or the size; otherwise the cumulative ack only moves forward |
| FileSender.Sender.OnDone | crates/mouser-files/src/sender.rs:213-221 | only a failed FileDone of this transfer aborts |
| FileSender.Sender.PollChunk | crates/mouser-files/src/sender.rs:226-263 | the loop sends the next bytes of the first file with an open window, whatever the source yields |
| FileSender.Sender.IsComplete | crates/mouser-files/src/sender.rs:267-269 | complete exactly when not aborted and every file is fully acked |
| FileSender.FirstSendable | crates/mouser-files/src/sender.rs:230-238 | the first file with bytes left and a window that is not full |
| FileSender.ResumeOfEntry | crates/mouser-files/src/sender.rs:161-169 | every entry of a duplicate-free resume list decides its own file |
| FileReceiver.CheckLimits | crates/mouser-files/src/receiver.rs:443-470 | the saturating accumulator accepts exactly the offers within the file, count and total bounds |
| FileReceiver.ValidateEntry | crates/mouser-files/src/receiver.rs:419-438 | an entry passes exactly with a safe name and a well-formed, unconflicting digest; out-of-band digests win |
| FileReceiver.ValidateEntries | crates/mouser-files/src/receiver.rs:180-186 | all entries are validated, and one bad entry rejects the offer, before any sink opens |
| FileReceiver.OpenSinks | crates/mouser-files/src/receiver.rs:189-217 | the first unusable sink decides between error and reject; otherwise every slot starts at what it holds |
| FileReceiver.Receiver.AcceptOffer | crates/mouser-files/src/receiver.rs:150-237 | the whole admission: reject, error, or an accept with resume points and possibly an immediate FileDone |
| FileReceiver.Receiver.Abort | crates/mouser-files/src/receiver.rs:361-368 | the transfer becomes terminally aborted and reports a failed FileDone |
| FileReceiver.Receiver.FinalizeCompletedFiles | crates/mouser-files/src/receiver.rs:335-358 | the loop completes verified files up to the first bad one, which aborts; success is reported once |
| FileReceiver.Receiver.OnChunk | crates/mouser-files/src/receiver.rs:250-324 | every branch of receiving a chunk, including re-ack, refusal, failed write and finalization |
| FileReceiver.Receiver.IsComplete | crates/mouser-files/src/receiver.rs:391-393 | complete exactly when live, non-empty and every slot is complete |
| FileReceiver.FirstBad | crates/mouser-files/src/receiver.rs:336-348 | the first file that has its bytes but whose finish fails or whose digest is wrong |
| FileChannels.ChainBytes | crates/mouser-files/src/receiver.rs:289-294 | contiguous chunks of a file are exactly a slice of its source |
| FileTransfer.InitInv | crates/mouser-files/src/receiver.rs:218-236 | an accepted offer starts the joint system in its invariant, resume prefixes included |
| FileTransfer.SendKeeps | crates/mouser-files/src/sender.rs:226-263 | polling keeps the system invariant: window, order and content of what is in flight |
| FileTransfer.ArrivalIsNext | crates/mouser-files/src/receiver.rs:258-301 | the oldest chunk is always the next bytes of an unfinished file, so no refusal or re-ack branch is ever taken |
| FileTransfer.FinalizingReports | crates/mouser-files/src/receiver.rs:325-358 | a failure is reported exactly on abort, a success exactly when the last file completes |
| FileTransfer.StepKeeps | crates/mouser-files/src/receiver.rs:250-324 | every step of sender, receiver and channels keeps the system invariant |
| FileOutcome.ReachableFile | crates/mouser-files/src/sender.rs:174-263 | in every reachable state no message is refused; acked <= received <= sent <= size; at most 8 MiB unacked; in flight are exactly the source bytes between; the sink is its prefix plus source bytes |
| FileOutcome.Terminates | crates/mouser-files/src/sender.rs:6-11 | every run is at most as long as 4 x unsent bytes + 3 x chunks + replies |
| FileOutcome.Agreement | crates/mouser-files/src/receiver.rs:389-408 | with drained channels both sides agree on completion and on abort |
| FileOutcome.StuckIsFinished | crates/mouser-files/src/sender.rs:223-263 | no deadlock: a state with no possible step is a transfer both sides completed or both aborted |
| FileOutcome.SuccessIsVerified | crates/mouser-files/src/receiver.rs:325-437 | at most one FileDone is ever emitted, and a successful one means every file is whole and has the digest the caller gave, or else the one the sender offered |
| FileOutcome.Delivery | crates/mouser-files/src/sender.rs:226-263 | a fault-free run that can go no further has delivered every file byte for byte |
| FileLoss.LossStalls | crates/mouser-files/src/sender.rs:204-209 | once any one chunk is lost on its way to a live receiver, neither side completes in any continuation, with or without further loss |
| FileLoss.CompleteIffLossless | crates/mouser-files/src/receiver.rs:285-301 | a run that can go no further is complete, on either side, exactly when nothing was lost and the receiver did not abort |
| FileLoss.LossyTerminates | crates/mouser-files/src/sender.rs:226-263 | runs with loss are as bounded as those without, so each can be continued to one that goes no further |
| FileLoss.LossExample | crates/mouser-files/src/sender.rs:204-209 | from an accepted offer of one byte the loss of one chunk hangs the transfer, neither complete nor aborted |
| FileSafety.AcceptIff | crates/mouser-files/src/receiver.rs:150-237 | exactly which offers are accepted, which are refused by a dead receiver, and which are protocol or sink errors |
| FileSafety.TotalIsSum | crates/mouser-files/src/receiver.rs:443-470 | the total that is bounded is the sum of the sizes |
| FileSafety.FinalizeAbortsIff | crates/mouser-files/src/receiver.rs:325-358 | finalizing aborts exactly if a file with all its bytes fails to finish or has the wrong digest |
| FileSafety.RefusedIff | crates/mouser-files/src/receiver.rs:250-288 | exactly which chunks are refused |
| FileSafety.AnswersWithAck | crates/mouser-files/src/receiver.rs:250-324 | every chunk taken is answered by an ack naming the bytes now held, or by a failed FileDone if the write fails |
| FileSafety.ReceiverIsSafe | crates/mouser-files/src/receiver.rs:250-368 | whatever chunks arrive, sinks only grow, stay within their size and in step with their ack point; complete means verified; an abort is final; one FileDone at most |
| FileSafety.AcceptedIsSafe | crates/mouser-files/src/receiver.rs:189-236 | every accepted offer starts in such a state |
| FileSafety.PollIs | crates/mouser-files/src/sender.rs:226-263 | the first file with an open window sends as much as read, chunk size, window and file allow; a failed or empty read is an error |
| FileSafety.PollIsIdle | crates/mouser-files/src/sender.rs:226-263 | with no window open a poll says nothing |
| FileSafety.AcceptIs | crates/mouser-files/src/sender.rs:124-172 | exactly which accepts are taken, and where each file then stands |
| FileSafety.SenderIsSafe | crates/mouser-files/src/sender.rs:124-263 | whatever the receiver sends, acked <= sent <= size, at most 8 MiB apart, and no mark ever goes back |
| FileSafety.InputHolds | crates/mouser-files/src/sender.rs:124-263 | what is refused changes nothing, nothing of another transfer is taken, and only a failed FileDone aborts |
| Ownership.Token.GrantTo | crates/mouser-core/src/ownership.rs:134-150 | only the owner mints, at the next epoch, and stands by |
| Ownership.Token.Reclaim | crates/mouser-core/src/ownership.rs:159-168 | self-mints the next epoch as a reclaim and becomes active |
| Ownership.Token.Adopt | crates/mouser-core/src/ownership.rs:221-233 | takes over owner, epoch and origin, and recomputes focus |
| Ownership.Token.Observe | crates/mouser-core/src/ownership.rs:190-207 | the acceptance rule with the reclaim-only tiebreak and its three rejections |
| Ownership.Token.ObserveWithReason | crates/mouser-core/src/ownership.rs:212-219 | only a local reclaim counts as a reclaim |
| Ownership.ObserveIs | crates/mouser-core/src/ownership.rs:190-233 | exactly which claims are taken and with what view, and which reason each other one is given |
| Ownership.HandoffIsExclusive | crates/mouser-core/src/ownership.rs:125-150 | a delivered handoff leaves exactly one owner, active, at one new epoch |
| Ownership.SimultaneousReclaim | crates/mouser-core/src/ownership.rs:177-207 | two simultaneous reclaims that hear each other settle on the lower id |
| OwnershipNet.ObserveSettles | crates/mouser-core/src/ownership.rs:190-207 | after observing, no claim seen so far could beat the view, and only the shown claim is ever adopted |
| OwnershipNet.EpochsNeverDecrease | crates/mouser-core/src/ownership.rs:134-233 | over every run of N devices no epoch decreases |
| OwnershipNet.Provenance | crates/mouser-core/src/ownership.rs:134-233 | in every reachable state each view above epoch 0 was minted, and no device mints twice at an epoch below saturation |
| OwnershipNet.RaceConverges | crates/mouser-core/src/ownership.rs:157-207 | if all claims at the top epoch are reclaims, whoever has seen them all holds the lowest id among them |
| OwnershipNet.FirstDecides | crates/mouser-core/src/ownership.rs:190-207 | a first grant stands; after a first reclaim the lowest reclaim wins |
| OwnershipNet.OrderIrrelevantIff | crates/mouser-core/src/ownership.rs:190-207 | the order of one epoch's claims is irrelevant exactly when all grants name one owner, the lowest reclaimer if there are reclaims |
| OwnershipNet.MixedClaimsDisagree | crates/mouser-core/src/ownership.rs:192-206 | a grant and a reclaim at one epoch, in two orders, leave two devices in disagreement |
| Election.Machine.ReceiveLease | crates/mouser-core/src/election.rs:159-220 | renewal, supersession with a yield of the old term, or refusal of stale leases |
| Election.Machine.ReceiveClaim | crates/mouser-core/src/election.rs:241-276 | a claim never installs anyone: it abdicates or re-asserts our own lease |
| Election.Machine.ReceiveYield | crates/mouser-core/src/election.rs:289-297 | only the exact holder and term are dropped |
| Election.Machine.Tick | crates/mouser-core/src/election.rs:305-329 | expires at the deadline, renews our own lease after a third of the TTL |
| Election.Machine.StartClaim | crates/mouser-core/src/election.rs:351-387 | campaigns only when legitimate, one term above all seen |
| ElectionRuns.TermNeverDecreases | crates/mouser-core/src/election.rs:135-370 | over every run from boot stored TTLs are in (0, 30 s] and the believed term never decreases, across expiry, yield and abdication |
| ElectionRuns.LeasesElectSuperior | crates/mouser-core/src/election.rs:145-220 | a fresh machine believes the superior of all leases it heard |
| ElectionRuns.LeasesElectLowest | crates/mouser-core/src/election.rs:145-220 | that is a lease heard, of the highest term, and of the lowest id at that term |
| ElectionRuns.LeaseIsStored | crates/mouser-core/src/election.rs:135-220 | a lease is stored with its own TTL within (0, 30 s], 6 s for none and 30 s for more, counted from now |
| ElectionRuns.LeaseOrderIrrelevant | crates/mouser-core/src/election.rs:145-220 | machines that heard the same leases, in any order and multiplicity, agree on holder and term |
| ElectionRuns.PartitionHeals | crates/mouser-core/src/election.rs:159-297 | two holders that exchange leases: exactly the inferior yields, with the term it gave up, and third parties drop it |
| ElectionRuns.ClaimIsAnswered | crates/mouser-core/src/election.rs:241-276 | an outranked holder yields its own term and lets go, any other re-asserts its lease, and a non-holder says nothing |
| ElectionRuns.CampaignsIff | crates/mouser-core/src/election.rs:351-387 | a machine campaigns exactly without a live lease of a lower id; otherwise the call changes nothing |
| ElectionRuns.CampaignOutTermsAll | crates/mouser-core/src/election.rs:351-370 | a campaign's term is above every term the machine was ever told of |
| ElectionRuns.CampaignPrevails | crates/mouser-core/src/election.rs:331-370 | a campaign out-terms everyone who has seen no more, and a deposed holder yields its own term |
| ElectionNet.Provenance | crates/mouser-core/src/election.rs:159-276 | in every network run a believed remote coordinator traces to a lease it emitted itself at that term |
| ElectionNet.ClaimsInstallNobody | crates/mouser-core/src/election.rs:222-276 | while nobody has leased, no run makes anyone believe in another device |
| ElectionTiming.HolderNeverLapses | crates/mouser-core/src/election.rs:299-329 | with safe tick gaps and only inferior messages the holder keeps its lease |
| ElectionTiming.HolderSurvivesIff | crates/mouser-core/src/election.rs:305-329 | the holder survives every pacing of gap g exactly when g < ttl and g + ttl/3 <= ttl |
| ElectionTiming.FollowerNeverExpires | crates/mouser-core/src/election.rs:299-329 | with renewals delivered within d, in any order, and ttl/3 + g + d <= ttl, a follower that believes never stops |
| ElectionTiming.FollowerSurvivesIff | crates/mouser-core/src/election.rs:305-329 | a follower in step with its holder survives every run exactly when g + d < ttl and ttl/3 + g + d <= ttl |
| ElectionTiming.CampaignStarts | crates/mouser-core/src/election.rs:351-370 | the timing invariant holds right after a won campaign |
| AxisMap.MapAxisInOrder | crates/mouser-engine/src/core.rs:608-613 | every position lands on the destination display, monotonically |
| AxisMap.MapAxisExact | crates/mouser-engine/src/core.rs:602-613 | both ends map exactly and the rest to within half a destination step |
| AxisMap.MapAxisRoundTrip | crates/mouser-engine/src/core.rs:602-613 | out and back is the identity on a longer destination, and drifts at most (S+D)/2D otherwise |
| EngineCore.Engine.Cross | crates/mouser-engine/src/core.rs:453-507 | grants to the peer, resets counters, seeds the peer cursor on the shared edge, disarms the way back |
| EngineCore.Engine.Reclaim | crates/mouser-engine/src/core.rs:509-534 | self-mints, resets counters, disarms crossing and restores passive capture |
| EngineCore.Engine.Cursor | crates/mouser-engine/src/core.rs:261-276 | re-arming, crossing and passing through on our own screen |
| EngineCore.Engine.Drive | crates/mouser-engine/src/core.rs:277-333 | the three ways back, and otherwise a clamped motion with the next sequence number |
| EngineCore.Engine.LocalInput | crates/mouser-engine/src/core.rs:205-259 | pass through while owning; otherwise forward with the next counter and suppress |
| EngineCore.Engine.SuppressUnavailable | crates/mouser-engine/src/core.rs:541-554 | blocks further crossing and reclaims if the peer owns input |
| EngineCore.Engine.Tick | crates/mouser-engine/src/core.rs:558-579 | heartbeat, ack timeout, miss count and reclaim |
| EngineRuns.FreshInv | crates/mouser-engine/src/core.rs:92-123 | a new source satisfies the invariant from which all runs are judged |
| EngineRuns.ApplyGood | crates/mouser-engine/src/core.rs:205-579 | every step keeps the invariant, numbers what it sends above everything before, and its capture decisions fit the new owner |
| EngineRuns.SentInOrder | crates/mouser-engine/src/core.rs:187-333 | over a whole run (epoch, ctr) and (epoch, seq) strictly increase until saturation and motions stay on the peer display |
| EngineRuns.CaptureAgrees | crates/mouser-engine/src/core.rs:152-181 | after every run the last capture mode and cursor visibility set are those of the current owner |
| EngineEdges.LocalEdges | crates/mouser-engine/src/core.rs:335-429 | on every edge, in depth behind it: when a motion crosses, re-arms or escapes, and the threshold |
| EngineEdges.PeerEdges | crates/mouser-engine/src/core.rs:432-451 | likewise on the peer display: home at depth 0, armed beyond it |
| EngineEdges.EntersOnEdge | crates/mouser-engine/src/core.rs:382-486 | both cursors enter at depth 0 and at the mapped position along the edge |
| EngineEdges.HandsOverIff | crates/mouser-engine/src/core.rs:261-276 | exactly when a motion hands input over, and when it re-arms crossing |
| EngineEdges.ComesHomeIff | crates/mouser-engine/src/core.rs:277-320 | exactly when a motion takes input back: the three ways, with the clamped peer position |
| EngineEdges.WarpsIff | crates/mouser-engine/src/core.rs:304-320 | the local cursor is moved exactly on the return over the peer's near edge, to the mapped point on ours |
| EngineWire.MotionIsCursor | crates/mouser-engine/src/core.rs:321-333 | every motion names the position the peer cursor has after its event, under the current epoch |
| EngineWire.MotionsFollow | crates/mouser-engine/src/core.rs:292-333 | after a crossing every motion goes to the entry point plus all deltas since, each step clamped into the peer display |
| EngineWire.StepAnnounces | crates/mouser-engine/src/core.rs:453-534 | a change of owner is announced once, with the new owner and epoch, as a reclaim exactly if we take it back; otherwise nothing is |
| EngineWire.PeerStaysInStep | crates/mouser-engine/src/core.rs:453-534 | the transfers of any run, delivered in order, leave the peer with the source's owner and epoch, active exactly if it owns |
| EngineWire.ForwardsExactly | crates/mouser-engine/src/core.rs:205-259 | what is sent is exactly the input typed while the peer owned it, in order |
| EngineWire.PressIsForwarded | crates/mouser-engine/src/core.rs:193-259 | each carries the current epoch and the counter it moves to |
| EngineWire.NumberedFromOne | crates/mouser-engine/src/core.rs:187-202 | after each crossing the counters are the inputs and the motions since |
| EngineWire.OneDecision | crates/mouser-engine/src/core.rs:205-333 | every local event gets exactly one decision, fitting the owner after it |
| EngineWire.TickReclaimsIff | crates/mouser-engine/src/core.rs:558-579 | exactly when a tick takes input back |
| EngineWire.GrantWaits | crates/mouser-engine/src/core.rs:453-579 | an unanswered grant waits by its own epoch for at most its allotted ticks |
| EngineWire.HeartbeatsCount | crates/mouser-engine/src/core.rs:558-564 | each tick sends one heartbeat, numbered one above the last |
| EngineWire.BlockedNeverCrosses | crates/mouser-engine/src/core.rs:541-554 | once suppression is unavailable the source owns input and never hands it over again |
| EngineReturn.MirrorSymmetry | crates/mouser-engine/src/core.rs:345-429 | opposite edges take mirror-image decisions |
| EngineReturn.TransposeSymmetry | crates/mouser-engine/src/core.rs:345-486 | horizontal and vertical edges take transposed decisions, entry points included |
| EngineReturn.CrossingIsOutward | crates/mouser-engine/src/core.rs:335-369 | a crossing is outward motion, or starts at the edge itself, and never starts inside the re-arm margin |
| EngineReturn.NoPingPong | crates/mouser-engine/src/core.rs:261-276 | between a reclaim and the next crossing some cursor event is strictly inside the re-arm margin |
| EngineReturn.NearEdgeNeedsDeparture | crates/mouser-engine/src/core.rs:304-320 | a reclaim at the near edge comes only after the peer cursor has left its entry edge |
| EngineReturn.ThreeTicksReclaim | crates/mouser-engine/src/core.rs:558-579 | of any three ticks without incoming messages the source owns input right after at least one |
| EngineReturn.EscapeIsLargestSuffix | crates/mouser-engine/src/core.rs:284-291 | while the peer owns input, escape travel is the largest home-ward sum of any suffix since the crossing |
| EngineReturn.BlockReclaims | crates/mouser-engine/src/core.rs:284-291 | any contiguous block that travels the threshold home-ward has reclaimed by its end |
| EngineReturn.TravelExactIff | crates/mouser-engine/src/core.rs:288-288 | the 32-bit accumulator is the true clamped sum exactly when that sum is at most i32::MAX |
| EngineReturn.PushReclaimsIff | crates/mouser-engine/src/core.rs:277-320 | an event whose true home-ward sum reaches the threshold reclaims exactly when the sum is at most i32::MAX or one of the other two ways back is open |
| EngineReturn.HugePushIsLost | crates/mouser-engine/src/core.rs:284-291 | right after any crossing of the right edge a push of i32::MIN travels past the threshold and the peer still owns input |
| EngineReturn.HugePushExample | crates/mouser-engine/src/core.rs:409-416 | a two-event run from a new source on 100-pixel displays in which that happens |
| EngineReturn.CrossingIsContinuous | crates/mouser-engine/src/core.rs:382-403 | out and back at an unchanged off-axis peer position lands on the same local coordinate, on a peer at least as long |
| ClipCanonical.ContainsCrlf | crates/mouser-clipboard/src/canonical.rs:107-109 | the scan finds a CRLF exactly when there is one |
| ClipCanonical.ComputeCrlfToLf | crates/mouser-clipboard/src/canonical.rs:83-103 | the loop with its shortcut replaces every CRLF, left to right |
| ClipCanonical.ComputeCanonicalText | crates/mouser-clipboard/src/canonical.rs:62-68 | CRLF replaced, then all trailing NULs stripped |
| ClipCanonical.CanonicalIs | crates/mouser-clipboard/src/canonical.rs:26-79 | text loses exactly its trailing NULs, a URI list at most one final LF, both after CRLF replacement; other formats are untouched |
| ClipCanonical.LinesKeep | crates/mouser-clipboard/src/canonical.rs:81-103 | lines joined by CR LF become the same lines joined by LF |
| ClipCanonical.SurvivingCrlf | crates/mouser-clipboard/src/canonical.rs:81-103 | a CRLF survives exactly where there was a CR CR LF |
| ClipCanonical.TextIdempotentIff | crates/mouser-clipboard/src/canonical.rs:60-68 | text canonicalization is idempotent on x exactly when x has no CR CR LF |
| ClipCanonical.TextNotIdempotent | crates/mouser-clipboard/src/canonical.rs:60-68 | CR CR LF canonicalizes to CR LF and then to LF |
| ClipCanonical.UriListIdempotentIff | crates/mouser-clipboard/src/canonical.rs:70-79 | exactly which URI lists are canonicalized idempotently |
| ClipReassembly.Reassembly.Receive | crates/mouser-clipboard/src/reassembly.rs:97-149 | every check of a pushed chunk, in order, and the bytes handed out on the last |
| ClipReassembly.OnlyVerifiedBytes | crates/mouser-clipboard/src/reassembly.rs:88-149 | whatever chunks arrive, only complete bytes that hash to the offer are handed out, and the buffer never exceeds the size |
| ClipTracking.PendingPulls.Remove | crates/mouser-clipboard/src/tracking.rs:121-124 | the key leaves both queue and map |
| ClipTracking.PendingPulls.EvictOldest | crates/mouser-clipboard/src/tracking.rs:235-242 | the head of the queue leaves both, if there is one |
| ClipTracking.PendingPulls.Insert | crates/mouser-clipboard/src/tracking.rs:105-115 | the pull is re-queued last, evicting at most the oldest, and queue and map keep mirroring each other |
| ClipTracking.PendingPulls.RemoveHash | crates/mouser-clipboard/src/tracking.rs:126-138 | all pulls of a hash leave, in whatever order they are visited |
| ClipTracking.PendingPulls.RemoveOrigin | crates/mouser-clipboard/src/tracking.rs:140-152 | all pulls of an origin leave, and their number is reported |
| ClipTracking.PendingPulls.RetainOriginOffer | crates/mouser-clipboard/src/tracking.rs:154-164 | exactly the origin's pulls that are no longer offered leave |
| ClipTracking.PendingPulls.ExpireStalled | crates/mouser-clipboard/src/tracking.rs:166-178 | exactly the stalled pulls leave |
| ClipTracking.AppliedLog.Record | crates/mouser-clipboard/src/tracking.rs:273-285 | a fresh live marker goes last, its old one and the oldest beyond 127 others go |
| ClipTracking.AppliedLog.SuppressOnce | crates/mouser-clipboard/src/tracking.rs:287-295 | the oldest live marker of the representation is used up, if there is one |
| ClipEngine.BestEntry | crates/mouser-clipboard/src/engine.rs:198-207 | the first of the most-preferred enabled entries within the limit, or none exactly when there is none |
| ClipEngine.ChunkData | crates/mouser-clipboard/src/engine.rs:427-464 | the loop cuts the payload into the specified chunks |
| ClipEngine.ClipboardEngine.LocalChange | crates/mouser-clipboard/src/engine.rs:111-140 | the loop offers enabled representations that are not echoes |
| ClipEngine.ClipboardEngine.InboundOffer | crates/mouser-clipboard/src/engine.rs:161-223 | gates, supersession, choice and queueing of a pull, keeping the table valid |
| ClipEngine.ClipboardEngine.InboundData | crates/mouser-clipboard/src/engine.rs:283-330 | routing, reassembly, re-checked gates and recording of an applied clip |
| ClipEngine.ClipboardEngine.Tick | crates/mouser-clipboard/src/engine.rs:358-361 | the logical clock never goes back, stalled pulls are swept and counted |
| ClipPolicy.SettingsAre | crates/mouser-clipboard/src/settings.rs:80-130 | what each switch, direction, limit and the Apple preference allow |
| ClipPolicy.PullsTheRichest | crates/mouser-clipboard/src/engine.rs:38-53 | an image before rich text, HTML, a file list and plain text, and of one format the first |
| ClipPolicy.SendGate | crates/mouser-clipboard/src/engine.rs:111-260 | while sending is off nothing is offered or served; exactly which pulls are served or errors |
| ClipPolicy.OfferGate | crates/mouser-clipboard/src/engine.rs:161-223 | exactly which offers are pulled, which are errors, and which change nothing |
| ClipPolicy.ReadvertisedStays | crates/mouser-clipboard/src/engine.rs:161-223 | a re-advertised pull stays unless it was the oldest of an overfull table |
| ClipPolicy.ApplyGate | crates/mouser-clipboard/src/engine.rs:283-330 | a clip is applied only while receiving is on and its format syncs |
| ClipPolicy.UnaskedIsRefused | crates/mouser-clipboard/src/engine.rs:283-300 | data nobody asked for is refused and changes nothing |
| ClipPolicy.AbortsAre | crates/mouser-clipboard/src/engine.rs:161-352 | aborts by hash or origin, and offers left to the system, end exactly those pulls |
| ClipPolicy.PullWaits | crates/mouser-clipboard/src/tracking.rs:104-178 | a pull waits 30 ticks from its offer and no longer |
| ClipPolicy.FirstInFirstOut | crates/mouser-clipboard/src/tracking.rs:104-115 | of any number of distinct pulls exactly the last 64 stay, in order |
| ClipSync.QueueMirrorsMap | crates/mouser-clipboard/src/tracking.rs:98-243 | in every reachable state the queue lists exactly the pending keys, once each, at most 64 |
| ClipSync.OfferEffect | crates/mouser-clipboard/src/engine.rs:161-223 | an offer leaves of its origin only what it advertises, and of the others takes at most the oldest of a full table |
| ClipSync.TickSweeps | crates/mouser-clipboard/src/engine.rs:354-361 | after a tick exactly the pulls that are not stalled remain |
| ClipEcho.EchoesNeverExceedApplies | crates/mouser-clipboard/src/tracking.rs:272-295 | over every engine run, for each (format, hash), the copies withheld from offers as echoes are at most the clips of that kind applied |
| ClipEcho.MarkerSurvives | crates/mouser-clipboard/src/tracking.rs:273-295 | through any inputs that put up no copy of it, a marker outlives fewer than 128 applies |
| ClipEcho.FirstEchoSuppressed | crates/mouser-clipboard/src/engine.rs:111-140 | after an apply and any such inputs, the first copy of the clip in any change adds nothing to the offer |
| ClipEcho.EchoIsNotOffered | crates/mouser-clipboard/src/engine.rs:111-140 | copying back applied bytes that are canonical offers nothing |
| ClipSync.ChunksCover | crates/mouser-clipboard/src/engine.rs:419-464 | for every payload, empty and one-message ones included, chunks are contiguous from 0, all but the last exactly 1 MiB, together the payload, and only the last is marked |
| ClipSync.EndToEnd | crates/mouser-clipboard/src/engine.rs:111-330 | whatever was copied, an offer is pulled exactly if some entry is eligible, and in-order data then applies exactly the canonical bytes of the representation the best entry describes, on the last chunk and not before |
| ClipSync.OneCopyEndToEnd | crates/mouser-clipboard/src/engine.rs:111-330 | one representation that is not an echo, with every gate open, always gets through |
| LayoutCodec.DeviceIdHex | crates/mouser-state/src/codec.rs:6-13 | the loop spells the id as lowercase hex |
| LayoutCodec.ParseHex32 | crates/mouser-state/src/codec.rs:35-47 | the loop accepts exactly 64 hex digits |
| LayoutCodec.DecodeEncoded | crates/mouser-state/src/codec.rs:15-32 | decoding undoes encoding for every u64 revision and 32-byte editor |
| LayoutCodec.KeyFormat | crates/mouser-state/src/codec.rs:6-24 | a key is 20 digits, a bar and 64 lower-case hexadecimal digits |
| LayoutCodec.DecodesIff | crates/mouser-state/src/codec.rs:26-32 | exactly which strings decode |
| LayoutCodec.ParseIs | crates/mouser-state/src/codec.rs:29-29 | a revision is digits that fit a u64, with or without a plus sign |
| LayoutCodec.NibbleIs | crates/mouser-state/src/codec.rs:49-56 | hexadecimal digits of both cases are read, and nothing else |
| LayoutCodec.StampOrder | crates/mouser-state/src/codec.rs:19-24 | string order of stamps is (revision, editor) order |
| LayoutCodec.IdOrderIsNumeric | crates/mouser-core/src/ownership.rs:200-205 | byte order of device ids is the order of the numbers they spell |
| LayoutCodec.ResolvedLww | crates/mouser-state/src/state.rs:274-290 | the loop returns the largest clipped stamp, skipping malformed values |
| LayoutCodec.CapHolds | crates/mouser-state/src/state.rs:274-303 | no stamp resolves above the cap, and one above it counts as the cap |
| LayoutRegister.NeverClipped | crates/mouser-state/src/state.rs:301-303 | the change-count cap never clips a stamp in the history it counts |
| LayoutRegister.MintIsAbove | crates/mouser-state/src/state.rs:148-163 | an edit mints a stamp above everything its author held and not above the number of changes held |
| LayoutRegister.EditIsReported | crates/mouser-state/src/state.rs:148-170 | right after an edit its author reports one revision above what it saw, under its own name |
| LayoutRegister.DeliveryCounts | crates/mouser-state/src/sync.rs:100-105 | a replica reports nothing below an edit delivered to it |
| LayoutRegister.ResolvedIsMaximum | crates/mouser-state/src/state.rs:271-303 | the maximum over un-overwritten writes is the maximum over the whole history, and conversely |
| LayoutRegister.ReplicasReportTheMaximum | crates/mouser-state/src/state.rs:258-290 | in every reachable world a replica resolves to exactly the largest stamp it holds |
| LayoutRegister.SameChangesSameLayout | crates/mouser-state/src/state.rs:271-290 | replicas with the same changes report the same revision and editor |
| LayoutRegister.MergeTakesLarger | crates/mouser-state/src/sync.rs:100-105 | merging resolves to the larger of the two resolutions |
| LayoutRegister.LoopResolves | crates/mouser-state/src/state.rs:274-290 | the loop over the register's strings, in any order, computes that resolution |
| Framing.EncodeFrameCapped | crates/mouser-protocol/src/framing.rs:57-75 | fails exactly on oversize, otherwise the four parts in order |
| Framing.LittleEndian | crates/mouser-protocol/src/framing.rs:57-75 | length, type and flags are spelled least significant byte first |
| Framing.WireExample | crates/mouser-protocol/src/framing.rs:57-75 | one frame, byte for byte |
| Framing.DecodeEncoded | crates/mouser-protocol/src/framing.rs:57-112 | an encoded control frame followed by anything decodes to itself and its exact length |
| Framing.EncodeDecoded | crates/mouser-protocol/src/framing.rs:79-112 | whatever decodes is the encoding of what it decodes to |
| Framing.PrefixIsTruncated | crates/mouser-protocol/src/framing.rs:79-112 | every strict prefix of an encoded frame is reported as truncated |
| ControlStream.RecvState.FillTo | crates/mouser-net/src/control.rs:182-203 | the loop buffers reads until enough, cancelled or closed |
| ControlStream.RecvState.RecvFrame | crates/mouser-net/src/control.rs:156-178 | header, length check, payload, and removal of exactly one frame |
| ControlStream.HeaderIff | crates/mouser-net/src/control.rs:207-227 | exactly which headers are accepted, and what they say |
| ControlStream.FailsIff | crates/mouser-net/src/control.rs:156-203 | an attempt that may read to the end closes on an incomplete frame, fails on a bad length, and loses no byte |
| ControlStream.OneAttempt | crates/mouser-net/src/control.rs:153-203 | an attempt gives the next frame, or is cancelled with every byte kept, or closes after the last; with enough reads it succeeds |
| ControlStream.FramesInOrder | crates/mouser-net/src/control.rs:153-227 | for every list of frames, split into reads and cancellation pattern, exactly the next frames come out and the unread rest is kept |
| ControlStream.PrimingFailsIff | crates/mouser-net/src/control.rs:121-151 | exactly when priming fails or closes |
| ControlStream.PrimingLosesNothing | crates/mouser-net/src/control.rs:121-151 | only a leading priming frame is dropped; any other first frame seeds the buffer |
| DerKey.DerCursor.ReadHeader | crates/mouser-net/src/identity.rs:168-191 | the length loop reads tag and bounds of a TLV without leaving the buffer, on any input |
| DerKey.LengthForms | crates/mouser-net/src/identity.rs:168-185 | short form and one to four long-form octets, nothing else |
| DerKey.DerCursor.EnterSequence | crates/mouser-net/src/identity.rs:146-154 | retargets at the contents, or fails and stays |
| DerKey.DerCursor.SkipField | crates/mouser-net/src/identity.rs:193-197 | moves past the field, or fails and stays |
| DerKey.DerCursor.ReadFieldContent | crates/mouser-net/src/identity.rs:200-205 | returns the contents and moves past the field, or fails and stays |
| DerKey.DerCursor.SkipOptionalContext0 | crates/mouser-net/src/identity.rs:207-212 | skips a version field only if there is one |
| DerKey.PublicKeyFromCert | crates/mouser-net/src/identity.rs:95-119 | the whole walk computes the specified extraction |
| DerKey.KeyIsFound | crates/mouser-net/src/identity.rs:91-119 | for every certificate with the tags of RFC 5280 and definite lengths of up to 4 long-form octets, of Ed25519 or any other algorithm, the walk returns exactly the embedded key |
| DerKey.ExactlyShapes | crates/mouser-net/src/identity.rs:91-119 | the walk returns a key exactly when the input is the accepted nesting of TLVs around it, whatever their tags |
| DerKey.NotOnlyCertificates | crates/mouser-net/src/identity.rs:91-119 | an input of OCTET STRINGs and NULLs that is no certificate yields a key |
| DerKey.OtherAlgorithmsAreRead | crates/mouser-net/src/identity.rs:91-119 | for every 32-byte key a certificate of X25519 is read just as one of Ed25519 |

## Left out

- Received input in the engine (crates/mouser-engine/src/core/wire.rs: control frames, motion datagrams, replay guard,
  held keys, rate limit) and the target role: the engine model covers local input, ticks and lost suppression.
- The engine runtime, the writer task of the control stream and cross-task dispatch order: scheduling is not fixed there.
- QUIC, TLS, mDNS, pairing codes and handshakes: thin layers over libraries.
- CBOR payloads: messages are values; the text of a reject reason and error strings are not modelled.
- Name sanitizing and the disk-backed sink: the sink contract and one predicate stand for them.
- A file source whose length differs from what it offers: the source is honest about its length.
- The `on_data` entry point of the clipboard that guesses the origin, and progress reporting: they would only add easy members.
- Reading a device's monitor list from the layout document: it resolves the same register per device object.
- Automerge itself, its wire format and forged changes: changes are delivered causally and unaltered.
- FileLoss.LossStalls: only data chunks are lost; the reply channel is the ordered stream the code relies on.
- FileTransfer.StepKeeps: the driver loop after a rejected offer is not part of the joint system, because the sender has no handler for a reject.
- FFI, IPC, the MCP server, desktop and mobile apps, platform adapters: wrappers and user interface.
