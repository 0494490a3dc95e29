# Verified model of the dweb networking kernel

This project models the decision-making core of `crates/dweb-fabric` and proves what it
promises. Ed25519 and BLAKE3 are a `Crypto` value of uninterpreted functions that every
definition takes as a parameter; where a result needs signatures to verify after signing it says
`SignVerifies`, and where it needs ids not to collide it says so of the finite set of facts at
hand, because no hash to 32 bytes is injective on all byte strings. Random numbers, clocks, the
answers of the file system and the choices of the scheduler are parameters or actions, so every
result holds for all of them. Rust strings are their UTF-8 bytes; casts that truncate are written
out.

## Map

| files | what they model |
|---|---|
| `Bytes`, `Utf8Laws`, `Base64Url` | byte strings, big-endian integers, UTF-8 (section 3 of RFC 3629), unpadded base64url (section 5 of RFC 4648) |
| `Facts` | the fact layout, signed-fact frames and counted lists, as grammar and as code |
| `RosterState`, `Projection`, `EffectiveMembers`, `KeyOrder`, `MembershipLaws` | the roster as a value, convergence, the declarative membership closure, the loops that compute it, and membership read off the facts |
| `RosterImage`, `ImageDamage`, `RosterDurability`, `RosterStore` | the persisted image, its replay and its faults; the image against the roster over runs; the roster and its directory as classes changed in place, consuming an invite included |
| `Lifecycle`, `ShutdownGate`, `ConnectFlights` | three transition systems of `fabric.rs`: start and shutdown, the request/gate/commit discipline, single-flight connect |
| `StartOutcomes`, `LastWrite` | over their runs: failed or cancelled, and the one write that may follow the request |
| `StartRuns`, `GateRuns`, `RedemptionRuns` | what start, shutdown, events, writes, peers and redemptions accomplish when nothing interferes |
| `RelayCap`, `InviteV1`, `InviteV2`, `InviteTokens` | capabilities, invites and their token strings |
| `Frames`, `RedeemErr`, `Receipt`, `RedeemVerify` | the redemption session's frames, refusals, receipt and checks |
| `WireLayouts` | the bytes of all these formats, field by field |
| `InviteLog`, `Redemption`, `InviteHistory`, `GrantHistory`, `Admission` | the consumed-invite log, redemption over all interleavings of processes, crashes and failed writes, what a run's history says of an invite and of its grant, and whom the grant admits |
| `AddrSlots`, `AddrStore`, `AddrFile`, `AddrLaws`, `KnownAddrs` | the bounded address store: slots, operations and runs, the persisted form, what each operation establishes, and the class |
| `Secret` | concurrent creation of the node identity |

Transition systems take one atomic step per lock-held section (or per effect on a file), `Exec`
runs a list of actions, and theorems are about every reachable state and every continuation. A
parser is given twice, as a grammar on the remaining bytes and as the offset-moving code, and the
code's contract is the grammar. Large proofs name the definitions they do not need with `hide`.

## What the proofs say about the code

Some results are sharper than, or differ from, what comments and documentation suggest; the model
follows the code.

- The id-to-fact map converges if and only if the valid facts contain at most one Genesis
  (`ConvergesExactly`). Of two valid signatures on one fact the second is quarantined as an id
  collision, so the signed state that is persisted converges if and only if, besides, no fact
  was signed in two ways (`SignedConvergesExactly`).
- A persisted roster can be reopened if and only if it has a root or is empty, holds fewer than
  2^32 facts, and the log of consumed invites beside it is whole (`OpensExactly`). A torn append
  to that log shuts the directory for good (`TornDirectoryStaysShut`).
- A start that meets a shutdown is reported failed, not cancelled, if and only if its closing
  check ran after the request and it settled before the phase was closed
  (`FailedForShutdownExactly`); one still under way at the closing can only be cancelled
  (`ClosedFlightIsCancelled`).
- A roster write may follow the shutdown request: at most one, if and only if a writer is past its
  check at the request (`AtMostOneWriteFollows`, `WriteFollowsExactly`). None follows the gate
  (`NoWriteAfterGate`).
- The generation check in a connect guard's cleanup never fails in any run
  (`CleanupTakesItsOwn`).
- IPv6 flow information and scope ids are lost by the invite encoding, and nothing else is
  (`RoundTripsExactly`).
- The issuer does not check the joiner's limits on receipts; the exact condition under which a
  receipt arrives whole is `ReceiptArrivesExactly`.
- A grant whose roster could not be persisted stays in memory, is projected and sent on. So an
  invite is spent with no grant stored anywhere if and only if its record went down whole and was
  given up, by a failed write or sync or by a crash, or the process died before issuing the grant,
  or the last copy of the grant went (`SpentWithoutGrantExactly`). Where processes take turns that
  last case is a death between a failed persist and the next that succeeds (`LostAloneExactly`);
  where they do not, one process's image overwrites the other's (`OverwriteLosesGrant`).
- A stored grant does not always admit: a peer the root revoked for good redeems a new invite
  successfully and is still no member (`RedeemedIsMemberExactly`).
- After a merge that failed to persist, a re-delivery of the same facts does not persist them
  (`RedeliveryDoesNotSave`); what the image lacks is exact in `SavedExactly`.
- An address first learned as an observation stays one when it is announced, and is then not
  persisted; which addresses an overfull announcement leaves is exact too (`AnnouncedExactly`).
  The refresh branch of `announce` that its comment calls unreachable is reached when an
  announcement repeats an address; it changes nothing there.
- The 1 KiB gate of the capability decoder refuses nothing that the fixed length would accept
  (`TokenToWire`).

## Model

| member | source | states |
|---|---|---|
| `FactCodec.ParseWritten` | crates/dweb-fabric/src/protocol.rs:357-498 | whatever `canonical_bytes` writes is parsed back to the same fact, leaving whatever follows it |
| `FactCodec.ParsedIsCanonical` | crates/dweb-fabric/src/protocol.rs:420-498 | whatever the prefix parser accepts is exactly the canonical encoding of a well-typed, representable fact, followed by the rest |
| `FactCodec.CanonicalInjective` | crates/dweb-fabric/src/protocol.rs:357-400 | two facts with the same canonical bytes are the same fact, so ids can only collide in the hash |
| `FactCodec.DecodeStrictInverse` | crates/dweb-fabric/src/protocol.rs:406-416 | `decode_strict` accepts a byte string as a fact exactly when it is that fact's canonical encoding |
| `FactCodec.ParseFactPrefix` | crates/dweb-fabric/src/protocol.rs:420-498 | the offset-moving parser returns the fact and the offset that the grammar defines, or fails exactly when it does |
| `FactFrames.FrameWritten` | crates/dweb-fabric/src/protocol.rs:536-543 | a signed-fact frame is delimited by itself: it is read back whatever follows |
| `FactFrames.FrameRead` | crates/dweb-fabric/src/protocol.rs:546-570 | an accepted frame is the encoding of the signed fact returned |
| `FactFrames.DecodeFrame` | crates/dweb-fabric/src/protocol.rs:546-570 | the exact-frame decoder accepts exactly one frame with nothing after it |
| `FactFrames.ListWritten` | crates/dweb-fabric/src/protocol.rs:573-634 | `decode_all_prefix(encode_all(fs) ++ tail)` gives back `fs` and leaves `tail` untouched |
| `FactFrames.ListRead` | crates/dweb-fabric/src/protocol.rs:603-634 | an accepted list re-encodes to exactly the bytes consumed |
| `FactFrames.WholeListRoundTripExactly` | crates/dweb-fabric/src/protocol.rs:573-600 | `decode_all(encode_all(fs)) = fs` exactly when there are fewer than 2^32 facts; the 32-bit count breaks it from there on |
| `FactFrames.DecodeAllPrefixAt` | crates/dweb-fabric/src/protocol.rs:603-634 | the counting loop returns exactly the list and offset of the grammar |
| `Bytes.NumOfBigEndian` | crates/dweb-fabric/src/protocol.rs:379-399 | fixed-width big-endian writing is undone by reading |
| `Utf8Laws.Utf8Exactly` | crates/dweb-fabric/src/protocol.rs:420-498 | text is accepted exactly when it encodes Unicode scalar values |
| `WireLayouts.IntegerLayout` | crates/dweb-fabric/src/protocol.rs:379-399 | the most significant byte stands first |
| `WireLayouts.FactLayout` | crates/dweb-fabric/src/protocol.rs:357-400 | which field of a canonical fact stands where |
| `WireLayouts.SignedFrameLayout` | crates/dweb-fabric/src/protocol.rs:536-543 | which field of a signed frame stands where |
| `RosterState.InsertKeeps` | crates/dweb-fabric/src/roster.rs:497-562 | one delivery keeps every stored fact verified, well-shaped, of this fabric and under its own id, keeps the Genesis unique, and only adds facts |
| `RosterState.RunKeeps` | crates/dweb-fabric/src/roster.rs:471-562 | over every run of deliveries facts only grow and the first Genesis fixes the root for ever |
| `RosterState.InsertOutcomes` | crates/dweb-fabric/src/roster.rs:497-562 | exactly which deliveries are stored, which are re-deliveries, and that a refused one changes nothing |
| `RosterState.RefusedFor` | crates/dweb-fabric/src/roster.rs:497-562 | each refusal exactly for its cause: fabric, issuer's signature, fields of the kind, a second Genesis, an occupied id |
| `RosterState.BatchesAreOneMerge` | crates/dweb-fabric/src/roster.rs:471-495 | merging batch by batch is merging the concatenation |
| `RosterState.StoredWasDelivered` | crates/dweb-fabric/src/roster.rs:497-562 | nothing is stored that was not delivered |
| `RosterState.DeliveredIsStored` | crates/dweb-fabric/src/roster.rs:497-562 | every acceptable delivery ends up stored, unless it is a Genesis other than the settled one |
| `RosterState.SettledFacts` | crates/dweb-fabric/src/roster.rs:471-562 | the settled roster in closed form: the set of valid facts, each under its id, with the root of the Genesis among them |
| `RosterState.Convergence` | crates/dweb-fabric/src/roster.rs:471-562 | any order, batching and duplication of the same valid facts with one Genesis at most gives the same id-to-fact map, Genesis and root |
| `RosterState.ConvergesExactly` | crates/dweb-fabric/src/roster.rs:531-545 | order is irrelevant if and only if the valid facts hold at most one Genesis; with two the first delivered wins |
| `RosterState.FirstGenesisWins` | crates/dweb-fabric/src/roster.rs:531-545 | a Genesis delivered first is kept whatever follows |
| `RosterState.FirstSignatureWins` | crates/dweb-fabric/src/roster.rs:547-555 | of two valid signatures on one fact the second is quarantined, so their order decides the signed state |
| `RosterState.SignedConvergesExactly` | crates/dweb-fabric/src/roster.rs:471-562 | the whole signed state is the same in every order, batching and duplication if and only if the acceptable signed facts hold at most one Genesis and at most one signature per fact |
| `RosterStore.Roster.ValidateAndInsert` | crates/dweb-fabric/src/roster.rs:497-562 | the in-place check sequence has the state and the outcome of the specified insertion |
| `RosterStore.Roster.Merge` | crates/dweb-fabric/src/roster.rs:471-495 | the loop merges all facts; inserted, duplicate and quarantined add up; the samples are the first sixteen refusal reasons in delivery order; it persists exactly when something was inserted |
| `RosterStore.Roster.BuildAndInsert` | crates/dweb-fabric/src/roster.rs:678-702 | a locally built fact needs the root's identity and a representable name; otherwise nothing changes |
| `RosterStore.Roster.Grant` | crates/dweb-fabric/src/roster.rs:678-729 | a grant by the root is stored and persisted as built; each error is returned exactly for its cause and leaves the image alone; when persisting fails the grant stays in the roster all the same |
| `RosterStore.Roster.Revoke` | crates/dweb-fabric/src/roster.rs:731-763 | a revoke is refused exactly for a target that is no stored grant; a blanket revoke is permanent by construction; when persisting fails the revoke stays in the roster |
| `RosterStore.Roster.SetDisplayName` | crates/dweb-fabric/src/roster.rs:767-800 | any identity may sign its own Join; too long a name is the one encoding error; when persisting fails the Join stays in the roster |
| `RosterStore.Roster.EffectiveMembers` | crates/dweb-fabric/src/roster.rs:584-666 | the loops compute the declared projection of the current facts |
| `RosterStore.Roster.IsMember` | crates/dweb-fabric/src/roster.rs:575-582 | membership is being listed by the projection |
| `EffectiveMembers.AdmittingGrants` | crates/dweb-fabric/src/roster.rs:597-629 | the grant loop finds, for every granted subject, its live grant that is least by (issued_at, fact_id) |
| `EffectiveMembers.LatestNames` | crates/dweb-fabric/src/roster.rs:631-647 | the join loop finds, for every key, its greatest named self-Join by (issued_at, fact_id) |
| `EffectiveMembers.MembersOf` | crates/dweb-fabric/src/roster.rs:584-666 | the three loops give root first, then ascending subjects with a live uncovered root grant, with admission time and name as declared |
| `EffectiveMembers.IsMemberAt` | crates/dweb-fabric/src/roster.rs:575-582 | a key is a member exactly when the declarative closure says so |
| `Projection.ProjectionUnique` | crates/dweb-fabric/src/roster.rs:584-666 | the declarative description fixes the member list completely |
| `Projection.SameFactsSameMembers` | crates/dweb-fabric/src/roster.rs:471-666 | rosters that received the same valid facts with one Genesis at most list the same members at every time |
| `Projection.OnlyRevokesRemove` | crates/dweb-fabric/src/roster.rs:595-629 | once there is a root, a new fact that is no Revoke by the root removes nobody |
| `Projection.OnlyGrantsAdd` | crates/dweb-fabric/src/roster.rs:595-629 | once there is a root, a new fact that is no Grant by the root adds nobody |
| `Projection.OutsidersChangeNothing` | crates/dweb-fabric/src/roster.rs:595-629 | facts not issued by the root never change who is a member |
| `Projection.RevocationIsPermanent` | crates/dweb-fabric/src/roster.rs:595-629 | after a non-expiring blanket revoke its subject is out at every time of every later state, whatever is granted or merged |
| `Projection.RootStaysMember` | crates/dweb-fabric/src/roster.rs:584-594 | the root is a member for ever |
| `MembershipLaws.MemberByFacts` | crates/dweb-fabric/src/roster.rs:595-629 | read off the facts' fields: a key is a member exactly if it is the root or has a root grant that is unexpired and that no unexpired root revoke names, by id or by subject |
| `MembershipLaws.RecordByFacts` | crates/dweb-fabric/src/roster.rs:609-655 | a member is listed since its first such grant by (issued_at, fact_id), under its latest named self-Join or else that grant's name |
| `MembershipLaws.RootByFacts` | crates/dweb-fabric/src/roster.rs:584-594 | the root is listed first, since the Genesis, under its latest named self-Join |
| `MembershipLaws.ListedInOrder` | crates/dweb-fabric/src/roster.rs:657-666 | the others follow in ascending byte order, each once |
| `MembershipLaws.RevokedGrantIsEnded` | crates/dweb-fabric/src/roster.rs:597-612 | a grant that a non-expiring root revoke names by id admits nobody at any time of any later state |
| `MembershipLaws.TargetedOutForGood` | crates/dweb-fabric/src/roster.rs:597-612 | a key whose every root grant was revoked by id is no member at any time of such a later state |
| `MembershipLaws.OtherGrantStands` | crates/dweb-fabric/src/roster.rs:597-612 | a key stays a member while another unexpired root grant to it has neither its id nor its subject named by a revoke in force |
| `Admission.AdmittedExactly` | crates/dweb-fabric/src/roster.rs:595-629 | after a redemption grant is stored its subject is a member at a time if and only if it is the root, was one already, or no stored revoke in force is aimed at the grant |
| `Admission.StaysUntilRevoked` | crates/dweb-fabric/src/roster.rs:595-629 | a member stays one whatever is delivered, as long as the root revokes nothing more |
| `Admission.RedeemedIsMemberExactly` | crates/dweb-fabric/src/session.rs:649-690 | of every grant redemption ever stores: its TLS peer is a member from then on until the root revokes, exactly unless a revoke was aimed at it before; a peer revoked for good is not, although its invite is consumed |
| `RosterStore.Roster.PersistNow` | crates/dweb-fabric/src/roster.rs:1032-1063 | the image replaces the old one whole, or the old one stays |
| `RosterDurability.SavedExactly` | crates/dweb-fabric/src/roster.rs:471-702 | over every run of merges and local facts the image is that of the roster in memory if and only if for every insertion it or a later operation was persisted |
| `RosterDurability.ImageTells` | crates/dweb-fabric/src/roster.rs:1033-1041 | the image of a roster that has grown since is a different one |
| `RosterDurability.RedeliveryDoesNotSave` | crates/dweb-fabric/src/roster.rs:471-495 | after a merge that failed to persist, delivering the same facts again succeeds without persisting them |
| `RosterImage.ReplayOfStored` | crates/dweb-fabric/src/roster.rs:393-415 | replaying the stored facts in id order inserts every one and restores facts, Genesis id, root and fabric |
| `RosterImage.OpensExactly` | crates/dweb-fabric/src/roster.rs:318-415 | a persisted roster opens as the same roster if and only if it has a root or is empty, holds fewer than 2^32 facts, and the consumed-invite log beside it is whole |
| `RosterImage.TornLogOpensNothing` | crates/dweb-fabric/src/roster.rs:322-326 | beside a torn consumed-invite log nothing opens, and an intact image is refused for the log alone |
| `RosterImage.OpenedIsGood` | crates/dweb-fabric/src/roster.rs:343-415 | whatever opens is a good roster of the requested fabric |
| `RosterImage.ImageOfOtherFabric` | crates/dweb-fabric/src/roster.rs:343-392 | an intact image of another fabric is refused as such, not as corrupted |
| `RosterStore.OpenRoster` | crates/dweb-fabric/src/roster.rs:252-270 | opening reads, checks and replays the image and loads the consumed invites exactly as specified, with every error distinguished |
| `ImageDamage.HeaderFaults` | crates/dweb-fabric/src/roster.rs:343-390 | a short file, a foreign file, another fabric's image and a damaged one are told apart, exactly |
| `ImageDamage.DumpRefused` | crates/dweb-fabric/src/roster.rs:391-397 | a dump is refused exactly when it is that of no list of facts |
| `ImageDamage.ReplaysExactly` | crates/dweb-fabric/src/roster.rs:397-415 | facts replay exactly when each is acceptable, no id comes twice and one is a Genesis at most; then they are what is stored |
| `ImageDamage.DumpOpens` | crates/dweb-fabric/src/roster.rs:391-415 | a torn log, facts that do not replay and a missing Genesis are told apart, and every other image opens with exactly its facts |
| `KeyOrder.SortedIdsIncrease` | crates/dweb-fabric/src/roster.rs:451-453 | facts are visited in ascending id order |
| `KeyOrder.SortedByBytes` | crates/dweb-fabric/src/roster.rs:451-453 | that is, by their bytes as Rust orders arrays |
| `Lifecycle.InvKept` | crates/dweb-fabric/src/fabric.rs:2457-2643 | every step of callers, flights and shutdown keeps the lifecycle invariant |
| `Lifecycle.OneFlightRuns` | crates/dweb-fabric/src/fabric.rs:2565-2643 | at most one start flight runs, over every interleaving with failures and retries |
| `Lifecycle.OncePerFabric` | crates/dweb-fabric/src/fabric.rs:1165-1334 | the endpoint is registered at most once and every runtime task is spawned at most once |
| `Lifecycle.NothingLeftBehind` | crates/dweb-fabric/src/fabric.rs:996-1149 | once the drain and the flights have ended every runtime task was aborted or joined and a registered endpoint was given to close |
| `Lifecycle.ClosedForGood` | crates/dweb-fabric/src/fabric.rs:4345-4361 | Closed is absorbing and no flight begins after it |
| `Lifecycle.NoLostWakeup` | crates/dweb-fabric/src/fabric.rs:2565-2625 | a waiter still waits on the running flight or has an unseen version to wake on |
| `Lifecycle.ReportsAreTrue` | crates/dweb-fabric/src/fabric.rs:2565-2643 | a shared failure is that of a flight the caller joined or owned; cancellation is reported only of a closed fabric to who joined or owned its latest, cancelled flight, and refusal only to who did not |
| `Lifecycle.WaitersOfClosedFlight` | crates/dweb-fabric/src/fabric.rs:2576-2591 | after closing, who joined the latest flight is told it was cancelled exactly when that flight had not ended before |
| `StartOutcomes.FailedForShutdownExactly` | crates/dweb-fabric/src/fabric.rs:1165-1169 | over every run a flight ends as failed for the shutdown if and only if its closing check ran after the request and it settled while the phase was still Starting |
| `StartOutcomes.ToldOfShutdownFailure` | crates/dweb-fabric/src/fabric.rs:2576-2611 | whoever is told of that failure joined or owned such a flight |
| `StartOutcomes.OwnerToldExactly` | crates/dweb-fabric/src/fabric.rs:2626-2640 | the owner of a flight is told of that failure exactly then |
| `StartOutcomes.ClosedFlightIsCancelled` | crates/dweb-fabric/src/fabric.rs:4345-4361 | a flight still under way when the phase becomes Closed can on every continuation only end cancelled, and its owner is told so |
| `StartOutcomes.OutcomeIsFinal` | crates/dweb-fabric/src/fabric.rs:2576-2611 | an ended flight keeps its outcome on every continuation |
| `StartOutcomes.FailsBetweenRequestAndClose` | crates/dweb-fabric/src/fabric.rs:1167-1169 | the failing case occurs: a concrete run in which a start caught between the request and the closing is reported failed |
| `StartRuns.LookDecides` | crates/dweb-fabric/src/fabric.rs:2573-2620 | exactly what a pass of `start()` does in each phase: report, wait, begin a flight, share a failure or a cancellation, refuse |
| `StartRuns.CallersStep` | crates/dweb-fabric/src/fabric.rs:2565-2643 | exactly when a waiter wakes and what an owner is told |
| `StartRuns.AdvanceDecides` | crates/dweb-fabric/src/fabric.rs:2461-2555 | what a flight's next step makes of a cancellation, a shutdown requested and a phase closed meanwhile |
| `StartRuns.LostFlightUndoes` | crates/dweb-fabric/src/fabric.rs:2513-2523 | a flight that lost to the shutdown after its work closes the endpoint and aborts every task it spawned |
| `StartRuns.StartSucceeds` | crates/dweb-fabric/src/fabric.rs:1165-1334 | from every reachable deferred or failed fabric an undisturbed call starts it: endpoint registered, each task spawned into its field, caller told |
| `StartRuns.StartReportsFailure` | crates/dweb-fabric/src/fabric.rs:1165-1200 | an undisturbed call whose binding fails reports that failure and leaves nothing behind |
| `StartRuns.ShutdownCloses` | crates/dweb-fabric/src/fabric.rs:996-1149 | from every reachable started fabric a shutdown hands every task to abort or join and closes the endpoint |
| `StartRuns.ShutdownCancels` | crates/dweb-fabric/src/fabric.rs:4345-4361 | a shutdown reaches a flight under way: it sees the cancellation, closes what it has and ends cancelled |
| `ShutdownGate.StepKeeps` | crates/dweb-fabric/src/fabric.rs:1811-1854 | every step keeps lock ownership, flags and task tracking in order, and takes back nothing that is frozen |
| `ShutdownGate.NothingAfterRequest` | crates/dweb-fabric/src/fabric.rs:1811-1827 | after the shutdown request no event is sent and no peer inserted, however the run goes on |
| `ShutdownGate.NoWriteAfterGate` | crates/dweb-fabric/src/fabric.rs:1014-1019 | after the gate is closed the roster is never written again |
| `ShutdownGate.SweptPeersAreClosed` | crates/dweb-fabric/src/fabric.rs:1032-1037 | after the sweep every connection in the peer table is closed, then and for ever |
| `ShutdownGate.NoTaskIsLeft` | crates/dweb-fabric/src/fabric.rs:1627-1640 | when the registry is closed and all threads are done every spawned task was aborted or joined |
| `LastWrite.AtMostOneWriteFollows` | crates/dweb-fabric/src/fabric.rs:1014-1019 | from every reachable state after the request, every continuation adds at most one roster write, and none unless some writer is past its request check |
| `LastWrite.CommittedCanWrite` | crates/dweb-fabric/src/fabric.rs:3208-3236 | a writer past its check still writes on some continuation, whatever the other threads hold |
| `LastWrite.WriteFollowsExactly` | crates/dweb-fabric/src/fabric.rs:3202-3217 | a write follows the request on some continuation if and only if a writer is past its request check |
| `LastWrite.WriteMayFollowRequest` | crates/dweb-fabric/src/fabric.rs:3208-3236 | such a run exists from the start: a concrete one writes after the request |
| `ShutdownGate.InsertionPrecedesRequest` | crates/dweb-fabric/src/fabric.rs:1811-1827 | while a peer has been stored and its event not yet sent, no other thread can make the request, and the event can be sent |
| `GateRuns.EventIsSent` | crates/dweb-fabric/src/fabric.rs:1811-1827 | an undisturbed event is sent once exactly when neither request nor gate is set, and nothing else changes |
| `GateRuns.EventIsDropped` | crates/dweb-fabric/src/fabric.rs:1811-1827 | after the request it is dropped |
| `GateRuns.RosterIsWritten` | crates/dweb-fabric/src/fabric.rs:3225-3236 | an undisturbed writer before the request writes once |
| `GateRuns.WriteAndEvent` | crates/dweb-fabric/src/fabric.rs:3202-3217 | a writer with an event writes once and sends it once |
| `GateRuns.WriteIsRefused` | crates/dweb-fabric/src/fabric.rs:3205-3208 | after the request a writer leaves without a write |
| `GateRuns.PeerIsInserted` | crates/dweb-fabric/src/fabric.rs:4592-4640 | before the request a peer is inserted with its event and its three tasks are registered |
| `GateRuns.PeerIsRefused` | crates/dweb-fabric/src/fabric.rs:4602-4608 | after request or gate its connection is closed and nothing is inserted |
| `GateRuns.PeerIsRemoved` | crates/dweb-fabric/src/fabric.rs:3218-3222 | a removed peer leaves the table and its connection is closed |
| `GateRuns.TaskIsTracked` | crates/dweb-fabric/src/fabric.rs:1627-1640 | a task is registered, or aborted once the registry is closed |
| `GateRuns.ShutdownRuns` | crates/dweb-fabric/src/fabric.rs:1014-1037 | the first shutdown sets request and gate, closes every connection in the table, and empties, closes and reaps the registry |
| `GateRuns.SecondShutdown` | crates/dweb-fabric/src/fabric.rs:4323-4340 | a second shutdown does nothing |
| `ConnectFlights.EntryIffResponsible` | crates/dweb-fabric/src/fabric.rs:3720-3784 | a peer is in the flight table exactly while its guard is live or that guard's cleanup is pending |
| `ConnectFlights.EnterDecides` | crates/dweb-fabric/src/fabric.rs:3732-3768 | exactly what an entering call finds: sent away while draining, waiting for its peer's flight, or owner of a new one |
| `ConnectFlights.FirstOwns` | crates/dweb-fabric/src/fabric.rs:3758-3768 | the first call of an idle peer owns its flight |
| `ConnectFlights.SecondWaits` | crates/dweb-fabric/src/fabric.rs:3738-3757 | a second call waits, leaves when the first has dropped its guard, and the table is as before |
| `ConnectFlights.WakesExactly` | crates/dweb-fabric/src/fabric.rs:3738-3757 | a waiter leaves exactly when its flight has fired |
| `ConnectFlights.DrainWakesAll` | crates/dweb-fabric/src/fabric.rs:1022-1034 | the drain shuts the table, keeps its entries and lets every waiter leave |
| `ConnectFlights.GuardDrops` | crates/dweb-fabric/src/fabric.rs:1642-1670 | a guard dropped under the lock defers its cleanup, and one that is done has left |
| `ConnectFlights.OneOwnerPerPeer` | crates/dweb-fabric/src/fabric.rs:3729-3768 | at most one call owns the flight of a peer |
| `ConnectFlights.CleanupTakesItsOwn` | crates/dweb-fabric/src/fabric.rs:1642-1670 | a guard's cleanup, immediate or deferred, removes its own flight and no other, and wakes its waiters |
| `ConnectFlights.NoWaiterIsForgotten` | crates/dweb-fabric/src/fabric.rs:3738-3757 | the flight a waiter waits for has fired, or its guard or pending cleanup is still there |
| `ConnectFlights.DrainingAdmitsNobody` | crates/dweb-fabric/src/fabric.rs:1022-1032 | once draining is set no entry is ever added |
| `ConnectFlights.EmptyForGood` | crates/dweb-fabric/src/fabric.rs:1085-1092 | a table the drain has seen empty stays empty |
| `Bytes.ManyWritten` | crates/dweb-fabric/src/protocol.rs:603-634 | a counted list of values that are each read back is read back as a whole, whatever follows |
| `Bytes.ManyRead` | crates/dweb-fabric/src/protocol.rs:603-634 | a counted list is read only from the values' own encodings |
| `Base64Url.EncodedDecodes` | crates/dweb-fabric/src/protocol.rs:1040-1066 | unpadded base64url decoding undoes encoding |
| `Base64Url.DecodedEncodes` | crates/dweb-fabric/src/protocol.rs:1040-1066 | whatever is accepted is the one encoding of what it decodes to: no second spelling |
| `WireLayouts.GroupIs` | crates/dweb-fabric/src/protocol.rs:1040-1066 | three bytes are four symbols of six bits, first bits first |
| `WireLayouts.RestIs` | crates/dweb-fabric/src/protocol.rs:1040-1066 | one or two bytes left over are filled up with zero bits |
| `WireLayouts.AlphabetIs` | crates/dweb-fabric/src/protocol.rs:1040-1066 | the alphabet of RFC 4648, section 5 |
| `RelayCap.SignedDecodes` | crates/dweb-fabric/src/protocol.rs:996-1083 | signing succeeds exactly for known bits and a lifetime from nothing to 180 days; what is signed is 287 characters, decodes to the same seven fields and carries a verifying signature |
| `RelayCap.WireToToken` | crates/dweb-fabric/src/protocol.rs:1048-1083 | every well-formed 210-byte wire has a token that is accepted with its fields |
| `RelayCap.TokenToWire` | crates/dweb-fabric/src/protocol.rs:1048-1083 | every accepted string is 287 characters and the token of one well-formed wire, so the 1 KiB gate refuses nothing by itself |
| `RelayCap.CanonicalOfFields` | crates/dweb-fabric/src/protocol.rs:978-989 | a well-formed wire is its fields' canonical bytes and its signature, so fields and signature determine it |
| `RelayCap.TokenInjective` | crates/dweb-fabric/src/protocol.rs:1040-1046 | different wires have different tokens |
| `WireLayouts.CapLayout` | crates/dweb-fabric/src/protocol.rs:978-989 | which field of a capability stands where |
| `WireLayouts.CapTexts` | crates/dweb-fabric/src/protocol.rs:145-147 | the prefix of the token and the domain of the signature |
| `WireLayouts.CapWires` | crates/dweb-fabric/src/protocol.rs:1063-1083 | which decoded bytes are a capability |
| `WireLayouts.CapRefused` | crates/dweb-fabric/src/protocol.rs:996-1024 | each refusal to sign exactly for its cause |
| `InviteV1.DecodesExactly` | crates/dweb-fabric/src/protocol.rs:697-855 | encoder and strict decoder of `InviteV1` are mutual inverses |
| `WireLayouts.InviteV1Layout` | crates/dweb-fabric/src/protocol.rs:697-740 | which field of a version 1 invite stands where |
| `WireLayouts.AddrV1Layout` | crates/dweb-fabric/src/protocol.rs:720-728 | an address behind its length |
| `WireLayouts.LimitsV1` | crates/dweb-fabric/src/protocol.rs:697-715 | exactly which invites can be encoded |
| `InviteV1.Decode` | crates/dweb-fabric/src/protocol.rs:742-855 | the offset-moving decoder is the strict grammar |
| `InviteV2.Written` | crates/dweb-fabric/src/protocol.rs:1135-1216 | an encodable invite decodes to itself with IPv6 flow information and scope ids zeroed |
| `InviteV2.Read` | crates/dweb-fabric/src/protocol.rs:1220-1370 | whatever decodes re-encodes to the same bytes |
| `InviteV2.DecodesExactly` | crates/dweb-fabric/src/protocol.rs:1135-1370 | encoder and strict decoder are mutual inverses on invites without flow information and scope ids |
| `WireLayouts.InviteV2Layout` | crates/dweb-fabric/src/protocol.rs:1135-1216 | which field of a version 2 invite stands where |
| `WireLayouts.PartsV2Layout` | crates/dweb-fabric/src/protocol.rs:1180-1216 | a relay with its capability, and an address of either family |
| `WireLayouts.LimitsV2` | crates/dweb-fabric/src/protocol.rs:1135-1180 | exactly which invites can be encoded |
| `InviteV2.RoundTripsExactly` | crates/dweb-fabric/src/protocol.rs:1208-1212 | an encodable invite survives the round trip if and only if no IPv6 address has flow information or a scope id |
| `InviteV2.AcceptedCapsAreBound` | crates/dweb-fabric/src/protocol.rs:1283-1305 | every accepted capability is well formed, for the invite's recipient, and expires no later than the invite |
| `InviteV2.Decode` | crates/dweb-fabric/src/protocol.rs:1220-1370 | the offset-moving decoder with its two loops is the strict grammar |
| `InviteTokens.DecodesExactlyV1` | crates/dweb-fabric/src/protocol.rs:883-935 | a `dweb1.` string is accepted as a token exactly when it is its encoding and the signature verifies |
| `InviteTokens.DecodesExactlyV2` | crates/dweb-fabric/src/protocol.rs:1396-1437 | the same for `dweb2.` |
| `InviteTokens.VersionsDoNotMix` | crates/dweb-fabric/src/protocol.rs:899-905 | no string is a token of both versions, and the dispatcher accepts what either accepts |
| `InviteTokens.IssuedIsAccepted` | crates/dweb-fabric/src/protocol.rs:883-935 | an invite its issuer signs is accepted, as the version it is |
| `InviteTokens.SignedByIssuer` | crates/dweb-fabric/src/protocol.rs:883-935 | a token is accepted only under its issuer's signature over its canonical bytes |
| `WireLayouts.TokenLayout` | crates/dweb-fabric/src/protocol.rs:883-900 | the prefix of the version and the encoded invite with its signature |
| `Frames.FrameRoundTripsExactly` | crates/dweb-fabric/src/session.rs:273-309 | a written frame is read back exactly when it fits the reader's limit and the 32-bit length |
| `Frames.FrameRead` | crates/dweb-fabric/src/session.rs:289-309 | whatever is read is a frame as written, within the limit |
| `WireLayouts.FrameRefused` | crates/dweb-fabric/src/session.rs:289-309 | why a frame is not read, exactly |
| `WireLayouts.FrameLayout` | crates/dweb-fabric/src/session.rs:273-288 | which field of a stream frame stands where |
| `RedeemErr.DecodesExactly` | crates/dweb-fabric/src/session.rs:156-178 | a payload decodes to records exactly when it is those records written one after the other |
| `RedeemErr.DecodeRecords` | crates/dweb-fabric/src/session.rs:156-178 | the loop returns the records of the grammar or the offset of the short one |
| `RedeemErr.ShortReadOffset` | crates/dweb-fabric/src/session.rs:156-178 | a short read is reported at the first offset without a whole record |
| `RedeemErr.NormalizeMeans` | crates/dweb-fabric/src/session.rs:109-117 | a normalized reason is printable, at most 255 bytes, a prefix of the printable part, and normalizing is idempotent |
| `RedeemErr.ConsumedExactly` | crates/dweb-fabric/src/session.rs:199-233 | the joiner concludes `consumed` from exactly one whole record of that kind and nothing else |
| `RedeemErr.RefusalArrives` | crates/dweb-fabric/src/session.rs:94-106 | what the issuer refuses with is what the joiner concludes |
| `WireLayouts.RefusalLayout` | crates/dweb-fabric/src/session.rs:94-106 | the bytes of each refusal |
| `WireLayouts.ReductionExactly` | crates/dweb-fabric/src/session.rs:199-233 | what the joiner makes of one record of any kind, and of several |
| `WireLayouts.PrintableIs` | crates/dweb-fabric/src/session.rs:109-117 | exactly the bytes from 0x20 to 0x7E are kept, in order |
| `Receipt.EncodeSegment` | crates/dweb-fabric/src/session.rs:851-864 | the writing loop gives the count and at most eight items |
| `Receipt.SegmentExactly` | crates/dweb-fabric/src/session.rs:882-969 | a tail is accepted exactly when it is the writing of at most eight well-formed items, to the last byte |
| `WireLayouts.ItemLayout` | crates/dweb-fabric/src/session.rs:851-864 | which field of an item stands where, and which URLs are allowed |
| `Receipt.ParseCaps` | crates/dweb-fabric/src/session.rs:882-969 | the one-pass loop reads, judges and counts as specified |
| `Receipt.AcceptsTheFirsts` | crates/dweb-fabric/src/session.rs:930-960 | accepted are precisely the first occurrences per URL, in order, of well-formed capabilities bound to the redeemer |
| `Receipt.CountsAddUp` | crates/dweb-fabric/src/session.rs:866-880 | accepted, duplicate, malformed and foreign items add up to the declared count |
| `Receipt.CountersMean` | crates/dweb-fabric/src/session.rs:930-960 | each counter counts what it is called: items that do not decode, items for somebody else, repetitions of a usable URL |
| `Receipt.AcceptedAreDistinct` | crates/dweb-fabric/src/session.rs:955-959 | no URL is accepted twice and nothing unusable is accepted |
| `Receipt.NothingSkippedExactly` | crates/dweb-fabric/src/session.rs:930-960 | nothing is skipped exactly when all items are usable with different URLs |
| `Receipt.MintFor` | crates/dweb-fabric/src/session.rs:993-1018 | the loop mints for exactly the restricted relays the invite lists |
| `Receipt.HitsMean` | crates/dweb-fabric/src/session.rs:993-1018 | the hits are the configured relays whose URL the invite has, as often as configured |
| `Receipt.MintsEveryHit` | crates/dweb-fabric/src/session.rs:993-1018 | every hit yields a 90-day member capability for the redeemer and that relay; signing never fails |
| `Receipt.ReceiptArrivesExactly` | crates/dweb-fabric/src/session.rs:1071-1094 | the joiner recovers exactly the facts and all minted capabilities, without skips, if and only if counts, URLs and frame size are within its limits |
| `RedeemVerify.AcceptedMeans` | crates/dweb-fabric/src/roster.rs:873-982 | whoever passes is the redeemer named, with a live token of the root for this fabric and a proof for this invite; an invite that names its recipient, in either version, serves nobody else |
| `RedeemVerify.VerifyV1Exactly` | crates/dweb-fabric/src/roster.rs:873-931 | on the token's own fields: exactly when a version 1 invite is accepted, and each refusal exactly for its cause |
| `RedeemVerify.VerifyV2Exactly` | crates/dweb-fabric/src/roster.rs:933-982 | the same of version 2 |
| `RedeemVerify.HonestIsAccepted` | crates/dweb-fabric/src/roster.rs:873-982 | an honest joiner with a live invite is accepted |
| `RedeemVerify.ProofIsBound` | crates/dweb-fabric/src/protocol.rs:1467-1478 | a proof is bound to one fabric, one invite and one challenge |
| `RedeemVerify.FailureArrives` | crates/dweb-fabric/src/session.rs:513-541 | a failed verification never reads as a consumed invite, and its reason arrives word for word |
| `RedeemVerify.ToldExactly` | crates/dweb-fabric/src/session.rs:513-541 | what the joiner is told of each failure; silence exactly for a token that does not verify |
| `RedeemVerify.RefusalTexts` | crates/dweb-fabric/src/session.rs:519-529 | the texts of the refusals |
| `RedeemVerify.DigitsAre` | crates/dweb-fabric/src/roster.rs:1073-1075 | the hexadecimal digits of the fabric ids in them |
| `InviteLog.IdsGrow` | crates/dweb-fabric/src/roster.rs:1107-1131 | appending never loses a record |
| `InviteLog.IdsOfTail` | crates/dweb-fabric/src/roster.rs:1107-1131 | part of a record adds nothing, a whole one adds its id |
| `WireLayouts.LogLayout` | crates/dweb-fabric/src/roster.rs:1107-1131 | the bytes of a record, and the ids of a log with one more ahead |
| `RosterStore.Roster.ConsumeInvite` | crates/dweb-fabric/src/roster.rs:987-1022 | exactly when a call consumes, refuses or fails, and what it leaves in log and cache |
| `Redemption.InvKept` | crates/dweb-fabric/src/roster.rs:987-1022 | every step of every process keeps lock, log, origin, grant and authority invariants |
| `Redemption.AtMostOnce` | crates/dweb-fabric/src/roster.rs:987-1022 | over all interleavings an invite yields at most one Ok(true) and at most one grant ever stored, persisted or not; rosters, image and other nodes hold no other |
| `Redemption.GrantsAreProven` | crates/dweb-fabric/src/session.rs:644-690 | every grant ever stored goes to the TLS peer of a verified attempt at the root of that process, and to the recipient if the invite names one |
| `Redemption.OnlyProvenConsume` | crates/dweb-fabric/src/session.rs:649-722 | the log holds only ids of verified attempts, and `consumed` is told only of invites in the log |
| `RedemptionRuns.LiveIsGranted` | crates/dweb-fabric/src/session.rs:649-690 | from every reachable state with the lock free, a verified attempt for an unspent invite is recorded, confirmed and granted to its peer, in the image if the disk takes it |
| `RedemptionRuns.SpentIsTold` | crates/dweb-fabric/src/roster.rs:992-1001 | the joiner of a spent invite is told so, at once or after the log was read under the lock, and nothing is consumed or granted |
| `RedemptionRuns.RefusedLeavesAll` | crates/dweb-fabric/src/session.rs:638-679 | a wrong peer, a closing process or a failed verification leaves the state as it was |
| `RedemptionRuns.FailuresEnd` | crates/dweb-fabric/src/roster.rs:998-1018 | a lock not had, a torn log and a failed write end the redemption and let the lock go |
| `RedemptionRuns.PiecesAndCrashes` | crates/dweb-fabric/src/roster.rs:1008-1020 | the record goes down in pieces and is synced when whole; a crash loses memory and lock, and nothing else |
| `RedemptionRuns.RosterTravels` | crates/dweb-fabric/src/roster.rs:1032-1063 | persisting writes what the roster holds, sending tells it, merging takes it in |
| `RedemptionRuns.OpenLoads` | crates/dweb-fabric/src/roster.rs:322-343 | a process opens exactly a whole directory, and knows its image and log |
| `RedemptionRuns.FlagsAreSet` | crates/dweb-fabric/src/fabric.rs:1014-1019 | when request, gate and root of a process are set |
| `InviteHistory.ConsumedAtOpenGate` | crates/dweb-fabric/src/session.rs:651-679 | over every run an id is in the log only if a verified attempt with it was taken up by a process whose request and gate flags were both down at that step |
| `InviteHistory.GrantedAtOpenGate` | crates/dweb-fabric/src/session.rs:651-690 | the same of every grant ever stored, for the very attempt it was issued for |
| `Redemption.NoGrantBehindTheGate` | crates/dweb-fabric/src/session.rs:649-657 | a process whose gate is closed has no redemption under way, never consumes again, and its roster gains no grant |
| `Redemption.FailedSyncBurns` | crates/dweb-fabric/src/roster.rs:1008-1020 | a record written but not synced is never confirmed on any continuation |
| `InviteHistory.UnconfirmedExactly` | crates/dweb-fabric/src/roster.rs:1008-1020 | over every run an id is in the log unconfirmed with nobody writing it if and only if a whole record for it was given up, by a failed write or sync or by a crash |
| `InviteHistory.UngrantedExactly` | crates/dweb-fabric/src/session.rs:681-690 | over every run no grant for a confirmed invite is stored and none is due if and only if the process died before issuing it, or its last copy went: with the memory of the one process keeping it, or from the image by an overwrite |
| `InviteHistory.SpentWithoutGrantExactly` | crates/dweb-fabric/src/session.rs:680-722 | over every run an invite is spent with no grant stored if and only if its whole record was given up or its grant was lost |
| `GrantHistory.LostAloneExactly` | crates/dweb-fabric/src/roster.rs:678-702 | where processes take turns: if and only if the process died before the grant was issued, or after it failed to be persisted and before a later persist succeeded |
| `GrantHistory.ImageExactly` | crates/dweb-fabric/src/roster.rs:1032-1063 | over every run the image holds a grant if and only if the last process to write it kept that grant then |
| `GrantHistory.OverwriteLosesGrant` | crates/dweb-fabric/src/roster.rs:1032-1063 | a grant issued and persisted without failure can be lost: another process overwrites the image after the issuer has died |
| `Redemption.TornForGood` | crates/dweb-fabric/src/roster.rs:1107-1131 | after a torn append no invite is ever consumed again from that directory |
| `InviteHistory.TornDirectoryStaysShut` | crates/dweb-fabric/src/roster.rs:322-326 | after a torn append neither a process nor a roster ever opens on that directory again |
| `AddrSlots.EmptyExactly` | crates/dweb-fabric/src/known_addrs.rs:275-315 | a slot is pruned to nothing exactly when every entry was an expired observation |
| `AddrSlots.AnnouncedSurvive` | crates/dweb-fabric/src/known_addrs.rs:275-315 | announced entries survive any number of failures |
| `AddrSlots.FewObserved` | crates/dweb-fabric/src/known_addrs.rs:343-365 | at most four observations remain after pruning |
| `AddrSlots.KeptAreNewer` | crates/dweb-fabric/src/known_addrs.rs:343-365 | every observation kept is newer than every one crowded out |
| `AddrSlots.KeptCount` | crates/dweb-fabric/src/known_addrs.rs:343-365 | four observations are kept, or all if there are no more |
| `AddrSlots.CrowdedOutExactly` | crates/dweb-fabric/src/known_addrs.rs:343-365 | an observation that neither expired nor wore out leaves exactly for four newer ones |
| `AddrSlots.PruneIdempotent` | crates/dweb-fabric/src/known_addrs.rs:275-315 | pruning twice at one time is pruning once |
| `AddrSlots.PruneFrom` | crates/dweb-fabric/src/known_addrs.rs:275-315 | pruning brings in no entry, at most forgiving its failures |
| `AddrSlots.BestIsGreatest` | crates/dweb-fabric/src/known_addrs.rs:293-312 | the entry kept when failures emptied the slot is greatest by (last success, learned at) |
| `AddrSlots.SortedMeans` | crates/dweb-fabric/src/known_addrs.rs:150-168 | the dial order is sorted by priority, a permutation of the pruned slot, and stable |
| `AddrSlots.CapObservedSlot` | crates/dweb-fabric/src/known_addrs.rs:343-365 | collecting, sorting and removing from the back drops exactly the crowded entries |
| `AddrSlots.PruneSlot` | crates/dweb-fabric/src/known_addrs.rs:275-315 | the retain, last-resort and cap passes compute the specified pruning |
| `AddrStore.EnsureSlotMeans` | crates/dweb-fabric/src/known_addrs.rs:318-330 | a full store gives up its oldest endpoint, and only that, for a new one |
| `AddrStore.RunKeepsGood` | crates/dweb-fabric/src/known_addrs.rs:173-315 | in every run order and map agree without duplicates, within 65536 endpoints and 1024 distinct addresses each |
| `AddrStore.AnnouncedExactly` | crates/dweb-fabric/src/known_addrs.rs:173-196 | with the slot at any size: announced afterwards are the last 1024 of the new set's addresses that were not held under another source, and of the others the last that fit beside them stay |
| `AddrStore.OnlyNamedIsTrusted` | crates/dweb-fabric/src/known_addrs.rs:173-258 | an address is persistable only if an announcement, manual entry or dial success named it for that endpoint |
| `AddrStore.NamedIsTrusted` | crates/dweb-fabric/src/known_addrs.rs:199-238 | conversely, a manual entry or a dial success makes its address persistable for its endpoint in every state |
| `AddrStore.RecordedIsThere` | crates/dweb-fabric/src/known_addrs.rs:199-238 | after a manual entry the address is in the slot as manual, after a dial success with a trusted source, announced if it was announced |
| `AddrLaws.ManualExactly` | crates/dweb-fabric/src/known_addrs.rs:199-215 | the whole slot after a manual entry, for an address held and for one that is not |
| `AddrLaws.SuccessExactly` | crates/dweb-fabric/src/known_addrs.rs:218-238 | the whole slot after a dial success |
| `AddrLaws.ObservedHeld` | crates/dweb-fabric/src/known_addrs.rs:241-258 | an observation dates a held observation and changes nothing else |
| `AddrLaws.ObservedNew` | crates/dweb-fabric/src/known_addrs.rs:241-258 | an address not held is entered exactly unless four observations are newer; other sources stay while there is room, and nothing else comes in |
| `AddrLaws.AnnouncedEntries` | crates/dweb-fabric/src/known_addrs.rs:173-196 | announced entries are of now and of the announced set |
| `AddrLaws.FailureCounts` | crates/dweb-fabric/src/known_addrs.rs:262-270 | a failed dial counts once against every address, up to the largest count |
| `AddrLaws.OthersUntouched` | crates/dweb-fabric/src/known_addrs.rs:173-330 | an operation on one endpoint leaves the others alone, but for the oldest of a full store |
| `AddrLaws.FirstSight` | crates/dweb-fabric/src/known_addrs.rs:150-258 | the first observed address of an endpoint is what is dialled |
| `AddrLaws.PrunedExactly` | crates/dweb-fabric/src/known_addrs.rs:275-365 | read off the entries: what pruning leaves while some address is neither stale nor worn |
| `AddrLaws.LastIsRevived` | crates/dweb-fabric/src/known_addrs.rs:293-312 | when all are gone but one at least not by age, the one dialled and then learned last gets another life, alone |
| `AddrLaws.DialOrderMeans` | crates/dweb-fabric/src/known_addrs.rs:150-168 | in the dial order announced precede manual, dialled and observed addresses, and of one kind the recent come first |
| `AddrFile.LoadIsGood` | crates/dweb-fabric/src/known_addrs.rs:400-431 | whatever the file says, the loaded store meets its bounds |
| `AddrLaws.LoadedAs` | crates/dweb-fabric/src/known_addrs.rs:400-431 | what each entry of the file is loaded as, by its tag |
| `AddrLaws.FirstIsLoaded` | crates/dweb-fabric/src/known_addrs.rs:400-431 | of several entries for one address exactly the first is loaded |
| `AddrFile.LoadTrustsOnlyVouched` | crates/dweb-fabric/src/known_addrs.rs:400-431 | a reload trusts only what the file names with a trusted tag, never the plain strings of the first format |
| `AddrFile.ReloadBringsBack` | crates/dweb-fabric/src/known_addrs.rs:370-431 | reloading a snapshot gives exactly the persistable entries in order with failures forgiven |
| `AddrFile.OnlyNamedIsPersisted` | crates/dweb-fabric/src/known_addrs.rs:370-431 | from any file and any operations, every persisted address was named for its endpoint |
| `KnownAddrs.KnownAddrs.EnsureSlot` | crates/dweb-fabric/src/known_addrs.rs:318-330 | the eviction loop makes room and appends the endpoint |
| `KnownAddrs.KnownAddrs.Announce` | crates/dweb-fabric/src/known_addrs.rs:173-196 | replaces the announced set of the slot |
| `KnownAddrs.KnownAddrs.RecordManual` | crates/dweb-fabric/src/known_addrs.rs:199-215 | enters or promotes a manual address |
| `KnownAddrs.KnownAddrs.RecordDialSuccess` | crates/dweb-fabric/src/known_addrs.rs:218-238 | refreshes or learns a dialled address and promotes an observation |
| `KnownAddrs.KnownAddrs.RecordInboundObserved` | crates/dweb-fabric/src/known_addrs.rs:241-258 | learns or refreshes an observation and caps them |
| `KnownAddrs.KnownAddrs.RecordDialFailure` | crates/dweb-fabric/src/known_addrs.rs:262-270 | counts a failure on every entry, saturating, and prunes |
| `KnownAddrs.KnownAddrs.OrderedAddrs` | crates/dweb-fabric/src/known_addrs.rs:150-168 | prunes the slot and lists its addresses in dial order |
| `KnownAddrs.KnownAddrs.SnapshotForPersist` | crates/dweb-fabric/src/known_addrs.rs:370-392 | the loop writes the specified snapshot |
| `KnownAddrs.KnownAddrs.FromPersisted` | crates/dweb-fabric/src/known_addrs.rs:400-431 | the nested loops build the specified store |
| `Secret.InvKept` | crates/dweb-fabric/src/secret.rs:208-281 | every step keeps: one link at most, temporary files hold a prefix of their seed, success means the stored seed |
| `Secret.IdentitiesAgree` | crates/dweb-fabric/src/secret.rs:265-281 | all successful callers return the identity of the stored seed, stored at most once and never over another |
| `Secret.NeverOverwritten` | crates/dweb-fabric/src/secret.rs:149-160 | what is stored is never replaced |
| `Secret.NeverTorn` | crates/dweb-fabric/src/secret.rs:184-263 | no caller finds a torn seed, and no loser of the race finds nothing |
| `Secret.FailedSyncDecides` | crates/dweb-fabric/src/secret.rs:246-250 | a caller that fails after its link has decided the identity all the same |
| `Secret.StoredSeedLoads` | crates/dweb-fabric/src/secret.rs:182-204 | a call that reads a stored seed returns its identity; a seed of another length is corrupt, an unreadable store a read failure |
| `Secret.AbsentSeedIsCreated` | crates/dweb-fabric/src/secret.rs:206-281 | where nothing is stored a call stores its seed and returns its identity |
| `Secret.LoserLoadsWinner` | crates/dweb-fabric/src/secret.rs:265-281 | who finds at the link that another was first returns the identity stored |
| `Secret.OnlyLinksStore` | crates/dweb-fabric/src/secret.rs:206-263 | nothing but a link on an empty store changes the store, and it stores the temporary file whole |

## Left out

- Internals of Ed25519, BLAKE3, Argon2id and ChaCha20-Poly1305; the encrypted identity export of `secret.rs`.
- QUIC, relays, DNS, dialing heuristics and relay penalties: library behaviour and time.
- Power loss: an append, an atomic replace and a link are taken as durable once reported; a crash of a process at any point is modelled, a crash of the machine is not.
- Liveness and deadlines of start, drain, redemption and locks: a timeout is a step that may be taken at any time, so bounds on time are not stated. On contention the invite lock may retry without reaching its deadline; the model lets it fail or wait.
- Wrap-around of the 64-bit generation, version and epoch counters.
- Pairing of PeerConnected with PeerDisconnected events, link status and reconnection.
- Gossip of HELLO dumps between peers beyond the merge itself, and the 1 MiB regular frame limit, which is the same `ReadFrame` with another bound.
- JSON files, paths, permissions and the message texts of errors other than those sent on the wire.
- Issuing invites and creating a fabric (`issue_invite`, `create`): thin wrappers over the codecs and the roster operations modelled here.
- `crates/dweb-server`, `crates/dweb-fabric/src/continuity` and the JavaScript packages are not part of this model.
- A start task that panics, which its owner sees as a failed join (`fabric.rs` lines 2633-2637).
- Redemption.AtMostOnce: the step that issues a grant has no refusal: redemption runs at the root only, the grant has no name, and its id can be taken only by the same fact under another signature or by a hash collision, as the contract of `Roster.Grant` says.
- InviteHistory.UngrantedExactly: a process loads image and log in one step, and of the facts of a roster only redemption grants are followed.
- RosterStore.Roster.PersistNow: replaces the image in one step; the temporary file and the rename behind it are not separate states.
- RosterStore.Roster.EffectiveMembers: works on the facts without their signatures, since nothing in the projection reads them.
- RosterStore.Roster.ConsumeInvite: is one call run to its end; what other processes do in between is modelled in Redemption, piece by piece.
- Lifecycle.NothingLeftBehind: says that tasks were given to abort or join and the endpoint to close, not that they finished within the drain's deadline.
- ShutdownGate.NoTaskIsLeft: treats the registry of attached tasks and that of detached connects as one, since both follow the same hand-back rule.
- ShutdownGate.NothingAfterRequest: counts events and insertions without their payload.
- RedeemErr.RefusalArrives: keeps the fixed reason phrases and the unknown-kind text as tags instead of their wording.
- KnownAddrs.KnownAddrs.Announce: looks an address up once where the code looks twice, which is the same in a slot whose addresses are distinct.
- AddrFile.ReloadBringsBack: assumes only that endpoint ids read back as they were shown.
